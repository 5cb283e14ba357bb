# Verified model of the embedded web server of ign-video-server

The project models the protocol core of the web server that ign-video-server embeds, and
proves properties of it over all inputs and all runs.

* **WebSocket** (`Bits`, `WebsocketMessages`, `WebsocketCodec`, `WebsocketConnections`,
  `WebsocketStreams`). The frame printer, the 15-state frame parser with its shift-or length
  and in-place unmasking, the reassembly buffer and the read loop. Main results: the read
  loop is a per-byte fold, so chunking does not matter; every frame a sender may write, its
  bytes spelled out as RFC 6455 lays them out, is decoded to its payload, unmasked binary digit
  by binary digit, with the exact exception; every stream of messages, fragmented,
  masked and encoded in any way, reaches the handler message by message; server messages are
  delivered end to end over the write queue.
* **Write queue and multipart stream** (`HttpConnections`, `HttpReplies`,
  `MultipartDecoding`, `MultipartStreams`). A connection keeps one write in flight and holds
  the owners of the buffers. A multipart stream decides whether it is busy by looking at which
  footers the connection has dropped. Both form one transition system in which completions and
  errors may come between any two of the three writes of a part. Main results: nothing is lost,
  repeated or reordered; owners live exactly as long as their batch; which calls throw is known
  from the events alone; popping the front of the footer queue equals filtering all of it; at
  most `maxQueueSize` parts are outstanding, and a stream whose bytes are all sent refuses
  nothing; what a client sees in the bytes that have arrived, reading from the first byte of the
  reply and taking the boundary from its header, is always a prefix of the accepted parts.
* **HTTP requests** (`HttpText`, `HttpRequests`, `HttpRequestParsers`, `HttpHeads`,
  `HttpRequestHandlers`). The 20-state head parser, the header printer, the splitting of the
  target, and the collector of request bodies. Main results: the parser accepts exactly a
  grammar, whose character sets are listed independently of the parser, and yields exactly what the grammar means; printing and parsing are inverse exactly
  for clean requests; a posted request, cut into reads anywhere, is read as documented, and its
  body delivered exactly; the connection as coded does so exactly when the first read holds the
  whole head.

The code that works in place is modelled by classes and loops (`WebsocketFrame`,
`WebsocketFrameParser`, `WebsocketConnection`, `HttpConnection`, `MultipartStream`,
`HttpRequestParser`, `HttpRequest`, `BodyCollectingConnection`, ...). Each method is proved
against a function on values, and the protocol properties are lemmas about those functions.

Conventions:

* A byte is an integer from 0 to 255; `|`, `^`, `<<` and `>>` are defined on binary digits in
  `Bits`. In text, a `char` above 127 stands for a byte with its high bit set, which the source
  sees as a negative `char`. Version numbers are mathematical integers.
* The bit fields of a frame header are read as a little-endian compiler lays them out.
* A `std::optional<bool>` is an `Option<bool>`. The drivers of the source ask whether it holds a
  value, not which; the model does the same.
* A call that may throw returns `Exceptional`. A write that throws has already been queued, as
  in the source.
* `HttpConnection` records the log of write calls; a newly allocated owner is named by the
  index of the call that allocates it. The outstanding writes of the socket are a list, so that
  there is at most one is a theorem. The completion of a write and the release of its owners are
  one step. A failed write may have sent any number of its bytes.
* Clock readings, timestamps, the printed timestamp (`%.0lf` of a double, here any string of
  digits and minus signs), completions and errors are parameters. The age limit of 0.5 ticks is
  the parameter `ageLimit`.

Where the code and its documentation or the standards disagree, the code is modelled and the
exact condition is proved:

* `WebsocketCodec.FrameCompletesExactlyWhen`: an unmasked, empty frame with an extended length
  absorbs one byte of the next frame. Section 5.2 of RFC 6455 forbids senders this encoding.
* `WebsocketStreams.InterleavingExactlyWhen`: a control frame between fragments, which section
  5.4 of RFC 6455 allows, overwrites the partial message (`PingBetweenFragments`).
* `WebsocketStreams.StreamFollowsSection54ExactlyWhen`: on arbitrary streams of known opcodes a
  final continuation that does not continue an open message is delivered again, appended to
  what was there (`ContinuationAfterFinal`). Messages a stream leaves unfinished do not matter:
  neither receiver delivers them.
* `WebsocketStreams.KnownKindsExactlyWhen`: frames that the reassembly buffer rejects still
  reach the handler, as messages of unknown kind (`UnknownOpcodeIsDelivered`).
* `HttpRequestHandlers.HandlerAsDocumentedExactlyWhen` and `ServedAsDocumentedExactlyWhen`: the
  read handler of a connection passes rejected heads to the request handler
  (`RejectedIsHandedOver`) and answers incomplete ones with 400 (`UndecidedIsAnswered`), so a
  posted request is served as documented exactly when the first read holds its whole head.
* `MultipartDecoding.FramingExactlyWhen`: a content type with a line break breaks the framing
  (`BrokenContentType`).
* `MultipartStreams.StreamOpensExactlyWhen`: a boundary with a line break breaks the reply head.
* `MultipartStreams.PoppingExactlyWhen`: without ordered timestamps an over-age footer may stay
  queued behind a younger one (`OverAgeFooterStaysQueued`).
* `HttpConnections.TwoCompletionsDrain`: the owners of writes without buffers outlive the last
  completion if no write still waiting has a buffer (`EmptyWriteKeepsItsOwner`).

## Model

| member | source | states |
|---|---|---|
| Bits.OrAppendsDigit | src/async_web_server_cpp/websocket_message.cpp:131-160 | or-ing in one shifted byte turns the high-order digits read so far into those digits followed by the new one |
| Bits.BigEndianDigit | src/async_web_server_cpp/websocket_message.cpp:66-81 | shifting right by 8i and keeping eight bits is the i-th base-256 digit from the right |
| Bits.OrDigits | src/async_web_server_cpp/websocket_message.cpp:131-160 | each binary digit of the inclusive or is the larger of that digit of the operands |
| Bits.XorBits | src/async_web_server_cpp/websocket_message.cpp:197-200 | each binary digit of the exclusive or is the sum modulo 2 of that digit of the operands |
| Bits.XorInvolution | src/async_web_server_cpp/websocket_message.cpp:197-200 | xor-ing twice with the same byte restores the first |
| WebsocketMessages.WebsocketFrame.FromMessage | src/async_web_server_cpp/websocket_message.cpp:6-35 | a message becomes a final frame with its opcode, content and length; unknown kinds are refused and change nothing |
| WebsocketMessages.WebsocketFrame.Serialize | src/async_web_server_cpp/websocket_message.cpp:37-84 | the bytes are the unmasked wire format with the shortest length encoding, then the content |
| WebsocketMessages.WebsocketFrameParser.Consume | src/async_web_server_cpp/websocket_message.cpp:97-206 | one byte moves state, frame and result as the function on values, in place |
| WebsocketMessages.WebsocketFrameParser.UnmaskInPlace | src/async_web_server_cpp/websocket_message.cpp:195-201 | the loop xors byte i of the content with key byte i mod 4 for all i below the length and leaves the rest |
| WebsocketMessages.WebsocketFrameParser.Parse | include/ignition/async_web_server_cpp/websocket_message.hh:61-73 | the loop stops after the byte that completes a frame, or at the end, having used at least one byte |
| WebsocketMessages.WebsocketFrameParser.Reset | src/async_web_server_cpp/websocket_message.cpp:92-95 | back to the first header byte |
| WebsocketMessages.WebsocketFrameBuffer.Consume | src/async_web_server_cpp/websocket_message.cpp:210-248 | continuation appends or is rejected, other known opcodes replace the message, unknown ones clear its kind; complete exactly at a final frame |
| WebsocketMessages.ParseBytes | include/ignition/async_web_server_cpp/websocket_message.hh:61-73 | parsing a nonempty input uses at least one byte, and all of it if there is no result |
| WebsocketCodec.ParseConcat | include/ignition/async_web_server_cpp/websocket_message.hh:61-73 | parsing a concatenation is parsing the first part and carrying on from where that led |
| WebsocketCodec.MinimalFormIsShortest | src/async_web_server_cpp/websocket_message.cpp:39-53 | no length encoding that fits is shorter than the chosen one |
| WebsocketCodec.LengthBytes | src/async_web_server_cpp/websocket_message.cpp:131-167 | with i length bytes read the length holds their value in the high-order digits, and the remaining bytes complete the number |
| WebsocketCodec.LengthRoundTrip | src/async_web_server_cpp/websocket_message.cpp:119-167 | the 2 or 8 length bytes written for n are read back as n, for every n that fits |
| WebsocketCodec.HeaderBytes | src/async_web_server_cpp/websocket_message.cpp:101-167 | the header of any valid frame leaves the parser at the key, at the payload, or done, with length and empty content |
| WebsocketCodec.KeyBytes | src/async_web_server_cpp/websocket_message.cpp:170-188 | four bytes become the key; an empty frame is then complete |
| WebsocketCodec.PayloadBytes | src/async_web_server_cpp/websocket_message.cpp:190-202 | the payload ends at exactly the announced length and is then unmasked if masked |
| WebsocketCodec.MaskInvolution | src/async_web_server_cpp/websocket_message.cpp:195-201 | masking twice with one key is the identity |
| WebsocketCodec.FrameRoundTrip | src/async_web_server_cpp/websocket_message.cpp:97-206 | every valid frame, masked or not, in any length encoding, is decoded to its payload with the parser stopping at its last byte, whatever the frame object held and whatever follows |
| WebsocketCodec.MaskedFrameDecodes | src/async_web_server_cpp/websocket_message.cpp:97-206 | a masked frame given as bytes, its length spelled as section 5.2 of RFC 6455 does, is complete at its last byte, and binary digit d of byte i of its content is the sum modulo 2 of that digit of received byte i and of key byte i mod 4 |
| WebsocketCodec.UnmaskedFrameDecodes | src/async_web_server_cpp/websocket_message.cpp:97-206 | an unmasked frame given as bytes is complete at its last byte with its data as content, unless it is empty with an extended length |
| WebsocketCodec.ServerFrameLayout | src/async_web_server_cpp/websocket_message.cpp:6-84 | a sent message is first byte 129, 130, 136, 137 or 138 by its kind, the shortest spelling of its length without a mask, and its content |
| WebsocketCodec.FrameCompletesExactlyWhen | src/async_web_server_cpp/websocket_message.cpp:159-167 | a valid frame is complete at its last byte exactly when it is not the empty, unmasked, extended-length one |
| WebsocketCodec.EmptyExtendedFrameTakesOneMore | src/async_web_server_cpp/websocket_message.cpp:163-193 | in the excepted case the next byte of the stream becomes the payload |
| WebsocketCodec.CompletedFrameHasItsLength | src/async_web_server_cpp/websocket_message.cpp:190-202 | on arbitrary bytes a completed frame holds as many bytes as its length says, with that one exception, and parsing never fails |
| WebsocketConnections.WebsocketConnection.HandleRead | src/async_web_server_cpp/websocket_connection.cpp:62-90 | the nested loops make the handler calls and leave the state of the per-byte fold, and then request one read |
| WebsocketConnections.WebsocketConnection.SendMessage | src/async_web_server_cpp/websocket_connection.cpp:34-42 | a message of known kind becomes one write of its encoded frame; an unknown one is refused and writes nothing |
| WebsocketConnections.WebsocketConnection.SendFrame | src/async_web_server_cpp/websocket_connection.cpp:44-53 | the printed frame is one write with an owner of its own |
| WebsocketConnections.WebsocketConnection.SendTextMessage | src/async_web_server_cpp/websocket_connection.cpp:18-24 | sends a message of kind text |
| WebsocketConnections.WebsocketConnection.SendPingMessage | src/async_web_server_cpp/websocket_connection.cpp:25-31 | sends a message of kind ping |
| WebsocketConnections.SentMessageHeld | src/async_web_server_cpp/websocket_connection.cpp:44-53 | in every run after a send the bytes of the frame are held until the batch that carries them has completed |
| WebsocketConnections.ReceiveByParsing | src/async_web_server_cpp/websocket_connection.cpp:67-87 | one inner parse and the handling of its result is the fold over the bytes it used |
| WebsocketConnections.ReceiveConcat | src/async_web_server_cpp/websocket_connection.cpp:62-87 | on arbitrary bytes, receiving a ++ b is receiving a and then b: same calls, same final state |
| WebsocketConnections.ChunksDoNotMatter | src/async_web_server_cpp/websocket_connection.cpp:62-90 | reads cut anywhere give the calls and the state of their concatenation |
| WebsocketStreams.ReceiveFrames | src/async_web_server_cpp/websocket_connection.cpp:67-87 | receiving the bytes of any frames is assembling the frames themselves |
| WebsocketStreams.OpcodeTable | src/async_web_server_cpp/websocket_message.cpp:219-243 | by the low four bits of the first byte of a final frame, 0, 1, 2, 8, 9, 10 or any other, what the handler is called with |
| WebsocketStreams.AssembleMessage | src/async_web_server_cpp/websocket_message.cpp:210-248 | the frames of one message give one call with the first frame's kind and the concatenated payloads, whatever message was there before |
| WebsocketStreams.NoCallBeforeFin | src/async_web_server_cpp/websocket_message.cpp:244-247 | before the final frame there is no call, and the message holds the payloads so far |
| WebsocketStreams.Delivery | src/async_web_server_cpp/websocket_connection.cpp:62-90 | any sequence of messages, fragmented, masked and encoded in any way and read in any chunks, reaches the handler exactly, in order, once each, and leaves the parser at its start |
| WebsocketStreams.DeliveryOfPrefix | src/async_web_server_cpp/websocket_connection.cpp:62-90 | part of such a stream delivers a prefix of the messages |
| WebsocketStreams.SentBytes | src/async_web_server_cpp/websocket_connection.cpp:34-53 | the bytes of a list of sends are the encoded frames in order |
| WebsocketStreams.EndToEndDelivery | src/async_web_server_cpp/websocket_connection.cpp:34-90 | over every run of the write queue the peer's handler has been called with a prefix of the messages sent, and with all of them once all bytes have arrived |
| WebsocketStreams.InterleavingExactlyWhen | src/async_web_server_cpp/websocket_message.cpp:219-243 | a fragmented message is delivered as RFC 6455 section 5.4 asks exactly when no control frame stands between its fragments |
| WebsocketStreams.PingBetweenFragments | src/async_web_server_cpp/websocket_message.cpp:219-243 | a concrete stream on which the text is lost and a second ping delivered |
| WebsocketStreams.StreamFollowsSection54ExactlyWhen | src/async_web_server_cpp/websocket_message.cpp:210-248 | for every stream of known opcodes the handler is called as a receiver of RFC 6455 section 5.4 would exactly when every final continuation comes after a first fragment with only continuations between, and before any message the stream does not begin with a continuation |
| WebsocketStreams.ContinuationAfterFinal | src/async_web_server_cpp/websocket_message.cpp:210-248 | a concrete stream on which a finished message is delivered a second time, longer |
| WebsocketStreams.KnownKindsExactlyWhen | src/async_web_server_cpp/websocket_connection.cpp:76-80 | all delivered messages are of known kind exactly when all opcodes are known and, before any message, the stream does not begin with a continuation |
| WebsocketStreams.UnknownOpcodeIsDelivered | src/async_web_server_cpp/websocket_connection.cpp:76-80 | a concrete frame of unknown opcode delivers the content of the message before it, as a message of unknown kind |
| HttpConnections.HttpConnection.WriteBuffers | src/async_web_server_cpp/http_connection.cpp:109-118 | buffers and owner are queued and, unless a write is in flight, everything pending is started or the latched error thrown |
| HttpConnections.HttpConnection.WriteBuffer | src/async_web_server_cpp/http_connection.cpp:97-107 | the same for one buffer |
| HttpConnections.HttpConnection.WriteContent | src/async_web_server_cpp/http_connection.cpp:91-95 | a copy of the content is written with an owner of its own |
| HttpConnections.HttpConnection.WriteAndClear | src/async_web_server_cpp/http_connection.cpp:84-89 | the data is moved into an owner of its own and the caller's vector is left empty |
| HttpConnections.HttpConnection.WritePendingBuffers | src/async_web_server_cpp/http_connection.cpp:122-135 | all pending buffers and owners become one write and the lists are cleared, unless an error is latched |
| HttpConnections.HttpConnection.HandleWriteCompleted | src/async_web_server_cpp/http_connection.cpp:137-153 | a completed write frees its owners and starts what is pending; an error is latched; the invariant is kept |
| HttpConnections.HttpConnection.HandleReadRaw | src/async_web_server_cpp/http_connection.cpp:59-71 | the callback runs unless the read failed, in which case the error is latched, and nothing else changes |
| HttpConnections.HttpConnection.AsyncRead | src/async_web_server_cpp/http_connection.cpp:72-82 | requests one read, or throws if an error is latched |
| HttpConnections.WriteValid | src/async_web_server_cpp/http_connection.cpp:97-118 | a write call keeps the cut of the log into released, in-flight and pending calls |
| HttpConnections.HandleWriteValid | src/async_web_server_cpp/http_connection.cpp:137-153 | so does every completion, with or without error |
| HttpConnections.RunValid | src/async_web_server_cpp/http_connection.cpp:84-153 | the invariant holds after every run, and the log is the calls of the run in order |
| HttpConnections.Conservation | src/async_web_server_cpp/http_connection.cpp:84-153 | completed ++ in-flight ++ pending bytes are all written bytes in call order, and the peer has received a prefix of them |
| HttpConnections.HeldExactlyUntilReleased | src/async_web_server_cpp/http_connection.cpp:97-138 | an owner is held if and only if some call that passed it is in a batch that has not completed |
| HttpConnections.OwnerTravelsWithBuffers | src/async_web_server_cpp/http_connection.cpp:97-138 | the owner of a pending buffer is in the pending list, that of a buffer in flight in the handler of its batch |
| HttpConnections.WriteProtocol | src/async_web_server_cpp/http_connection.cpp:97-153 | in every run at most one write is outstanding, the flag says when, and an idle connection without error has nothing pending |
| HttpConnections.ErrorIsFinal | src/async_web_server_cpp/http_connection.cpp:122-153 | after an error is latched no further run starts any write |
| HttpConnections.LatchedExactlyWhen | src/async_web_server_cpp/http_connection.cpp:59-71 | an error is latched exactly when some read or write of the run has failed |
| HttpConnections.ThrowsExactlyWhen | src/async_web_server_cpp/http_connection.cpp:97-153 | in every run a write call throws exactly when some read or write has failed and none is in flight, and a completion exactly when it succeeds after such a failure with buffers waiting |
| HttpConnections.NothingStartsAfterFailure | src/async_web_server_cpp/http_connection.cpp:59-153 | after a failed read or write no later event of any run hands a call to the socket |
| HttpConnections.OwnerOutlivesItsBuffers | src/async_web_server_cpp/http_connection.cpp:97-138 | in every run after a write call its owner is held until the batch that carries its buffers has completed |
| HttpConnections.TwoCompletionsDrain | src/async_web_server_cpp/http_connection.cpp:137-148 | without errors two completions send everything, and release every owner exactly when some waiting call has a buffer or no waiting call has an owner |
| HttpConnections.EmptyWriteKeepsItsOwner | src/async_web_server_cpp/http_connection.cpp:109-148 | a concrete run in which a call without buffers keeps its owner held when nothing is left to send |
| HttpReplies.ToBuffers | src/async_web_server_cpp/http_reply.cpp:233-246 | the buffers flatten to the header lines in order and an empty line |
| HttpReplies.ReplyBuilder.AddHeader | src/async_web_server_cpp/http_reply.cpp:405-414 | appends one header |
| HttpReplies.ReplyBuilder.AddHeaders | src/async_web_server_cpp/http_reply.cpp:416-420 | appends a group of headers |
| HttpReplies.ReplyBuilder.Write | src/async_web_server_cpp/http_reply.cpp:422-426 | two writes: the status line without an owner, then the header block with the shared list as owner |
| HttpReplies.ReplyBytes | src/async_web_server_cpp/http_reply.cpp:422-426 | a reply that does not throw adds exactly its status line and header block |
| HttpReplies.ReplyHeadersHeld | src/async_web_server_cpp/http_reply.cpp:422-426 | in every run after a reply its header list is held until the batch that carries the header block has completed |
| HttpReplies.WriteStockReply | src/async_web_server_cpp/http_reply.cpp:358-392 | if nothing throws, a stock reply without additional headers adds the status line, its two headers, an empty line and the page |
| MultipartDecoding.DecodePartBack | src/web_video_server/multipart_stream.cc:32-77 | a printed part decodes to its type, timestamp and payload and leaves what follows, whatever bytes the payload holds, for a client that spells the delimiter of section 5.1.1 of RFC 2046 itself |
| MultipartDecoding.PartHeadAsRead | src/web_video_server/multipart_stream.cc:32-47 | the seven headers of a part as a client reads them, name by name |
| MultipartDecoding.DecodePartsBack | src/web_video_server/multipart_stream.cc:32-77 | so does any sequence of parts, and an unfinished part adds nothing |
| MultipartDecoding.DecodeMonotone | src/web_video_server/multipart_stream.cc:32-77 | a client that has received less has decoded a prefix |
| MultipartDecoding.SeenMonotone | src/web_video_server/multipart_stream.cc:18-77 | so has one that reads from the first byte of the reply |
| MultipartDecoding.FramingExactlyWhen | src/web_video_server/multipart_stream.cc:32-77 | decoding gives back the parts exactly when no content type contains a line break |
| MultipartDecoding.BrokenContentType | src/web_video_server/multipart_stream.cc:32-77 | with one concrete content type holding a line break the client decodes no part at all |
| MultipartStreams.MultipartStream.IsBusy | src/web_video_server/multipart_stream.cc:79-95 | the loop pops stale footers from the front and answers whether the queue is full |
| MultipartStreams.MultipartStream.SendPartHeader | src/web_video_server/multipart_stream.cc:32-47 | one write of the seven headers with the list as owner |
| MultipartStreams.MultipartStream.SendPayload | src/web_video_server/multipart_stream.cc:58-77 | one write of the caller's bytes, moved or shared |
| MultipartStreams.MultipartStream.SendPartFooter | src/web_video_server/multipart_stream.cc:49-56 | one write of the delimiter, and a queue entry if it did not throw and queueing is on |
| MultipartStreams.MultipartStream.SendPart | src/web_video_server/multipart_stream.cc:58-77 | offering a part without interruption is the three steps of the joint system in a row, ended by a write that throws |
| MultipartStreams.MultipartStream.SendInitialHeader | src/web_video_server/multipart_stream.cc:18-30 | if nothing throws, the reply head and first delimiter are added to the bytes of the connection |
| MultipartStreams.WholeIsARun | src/web_video_server/multipart_stream.cc:58-77 | such an offer is a run of the joint system |
| MultipartStreams.PlayFramed | src/web_video_server/multipart_stream.cc:18-77 | in every run the log holds the accepted parts and the part under way; after a write has thrown nothing new starts |
| MultipartStreams.StreamOpensExactlyWhen | src/web_video_server/multipart_stream.cc:18-30 | a client that knows only the bytes finds status 200, the boundary in the header and the first delimiter exactly when the boundary has no line break |
| MultipartStreams.ReplyHeadAsRead | src/web_video_server/multipart_stream.cc:18-30 | the nine headers of the reply as a client reads them, name by name |
| MultipartStreams.PartsAfterAnyBeginning | src/web_video_server/multipart_stream.cc:32-77 | behind any bytes written before, a client that knows the boundary decodes a prefix of the accepted parts, and all of them once everything has arrived |
| MultipartStreams.ClientSeesAcceptedParts | src/web_video_server/multipart_stream.cc:18-77 | in every run what a client sees in the bytes that have arrived, from the first byte of the reply on, is a prefix of the accepted parts, and all of them once everything has arrived |
| MultipartStreams.PartMemoryHeld | src/web_video_server/multipart_stream.cc:32-77 | in every run the owner of a header block, of a moved or resource-backed payload and of a footer is held until the batch that carries its bytes has completed |
| MultipartStreams.HeldFooter | src/web_video_server/multipart_stream.cc:49-56 | the connection holds a footer exactly until its write call is released |
| MultipartStreams.ExpiredMeansSent | src/web_video_server/multipart_stream.cc:79-85 | without a write error, an expired footer and everything written before it has reached the peer |
| MultipartStreams.ExpiredFootersAreAPrefix | src/web_video_server/multipart_stream.cc:79-85 | expired footers form a prefix of the queue |
| MultipartStreams.PopFiltersExactlyWhen | src/web_video_server/multipart_stream.cc:81-93 | popping the front equals filtering the queue exactly when no stale footer stands behind a kept one |
| MultipartStreams.PoppingExactlyWhen | src/web_video_server/multipart_stream.cc:79-95 | in reachable states the condition only concerns over-age footers |
| MultipartStreams.OverAgeFooterStaysQueued | src/web_video_server/multipart_stream.cc:79-95 | a run of two offers, the second with the older timestamp, after which popping keeps an over-age footer that filtering drops |
| MultipartStreams.BackpressureIsExact | src/web_video_server/multipart_stream.cc:79-95 | over every run with timestamps in order, popping leaves exactly the footers that the connection still holds and whose age is at most the limit |
| MultipartStreams.PlayQueued | src/web_video_server/multipart_stream.cc:49-95 | in every run the queue is a suffix of the footers sent, in write order, and within its maximum |
| MultipartStreams.OutstandingPartsBounded | src/web_video_server/multipart_stream.cc:49-95 | with a clock that does not go back, of all accepted parts at most the maximum number are still held by the connection and of an age within the limit |
| MultipartStreams.RefusedLeavesNoTrace | src/web_video_server/multipart_stream.cc:58-77 | an offer leaves the connection unchanged exactly when the maximum number of footers is still held and of an age within the limit |
| MultipartStreams.DrainedStreamAccepts | src/web_video_server/multipart_stream.cc:58-95 | in every run, once nothing is outstanding or pending and no error is latched, a part offered at any clock reading is accepted and its head handed to the socket |
| HttpText.DecimalRoundTrip | src/web_video_server/multipart_stream.cc:44-45 | a printed size denotes that size |
| HttpText.DigitCharacters | src/async_web_server_cpp/http_request_parser.cpp:322-325 | the digits are the ten characters 0 to 9 |
| HttpText.FirstHeaderCounts | src/async_web_server_cpp/http_request.cpp:69-79 | by index: of several headers of one name the first counts, and without any the default |
| HttpRequests.SplitString | src/async_web_server_cpp/http_request.cpp:5-13 | the loop reads the tokens of the recursive definition |
| HttpRequests.SplitJoin | src/async_web_server_cpp/http_request.cpp:5-13 | splitting inverts joining except that an empty last token is dropped |
| HttpRequests.JoinSplit | src/async_web_server_cpp/http_request.cpp:5-13 | joining inverts splitting except for one delimiter at the end |
| HttpRequests.LastTokenWins | src/async_web_server_cpp/http_request.cpp:33-48 | for arbitrary tokens a key has the value of the last token that sets it, and other keys are untouched |
| HttpRequests.TargetRoundTrip | src/async_web_server_cpp/http_request.cpp:20-57 | a printed path and query splits into that path and the map of its pairs |
| HttpRequests.TargetIsCutAtFirstMark | src/async_web_server_cpp/http_request.cpp:20-57 | a target is refused exactly when it has a line break; any other is its path, which has no question mark, and, after a question mark, its query |
| HttpRequests.MapRoundTrip | src/async_web_server_cpp/http_request.cpp:33-48 | any listing of a map without repeated keys gives back the map |
| HttpRequests.QueryRoundTrip | src/async_web_server_cpp/http_request.cpp:20-57 | a path without '?' and any map whose entries hold no delimiters, printed in any order, are what a fresh request holds after its target is split |
| HttpRequests.HttpRequest.ParseUri | src/async_web_server_cpp/http_request.cpp:20-57 | path, query and parameters are those of the split target; a target with a line break changes nothing |
| HttpRequests.HttpRequest.GetHeaderValueOrDefault | src/async_web_server_cpp/http_request.cpp:69-79 | the value at the first index whose header has that name, or the default if none has |
| HttpRequests.LookupAfterSplit | src/async_web_server_cpp/http_request.cpp:87-99 | on a fresh request a parameter is looked up as the value in the last token of the query that sets it, or the default if none does |
| HttpRequestParsers.HttpRequestParser.Consume | src/async_web_server_cpp/http_request_parser.cpp:25-183 | one character moves state, request and result as the function on values, in place |
| HttpRequestParsers.HttpRequestParser.ConsumeInHeaders | src/async_web_server_cpp/http_request_parser.cpp:184-277 | the same for the states of the header lines |
| HttpRequestParsers.HttpRequestParser.Parse | include/ignition/async_web_server_cpp/http_request_parser.hh:35-47 | the loop stops after the character that decides, or at the end |
| HttpRequestParsers.HttpRequestParser.Reset | src/async_web_server_cpp/http_request_parser.cpp:20-23 | back to the start of the method |
| HttpRequestParsers.ConsumeChar | src/async_web_server_cpp/http_request_parser.cpp:184-275 | the states that write to the last header always have one |
| HttpRequestParsers.ParseHeadConcat | include/ignition/async_web_server_cpp/http_request_parser.hh:35-47 | a concatenation is decided by its first part or carried on with from where that led |
| HttpHeads.TokenCharacters | src/async_web_server_cpp/http_request_parser.cpp:283-320 | the token characters of the parser are the letters, the digits and fifteen listed marks; its controls are the codes 0 to 31 and 127 |
| HttpHeads.RefusedCharacters | src/async_web_server_cpp/http_request_parser.cpp:25-275 | a method or name refuses exactly what is not listed and does not end it, a target or value exactly the codes 0 to 31 and 127, except the end of the value |
| HttpHeads.Follow | src/async_web_server_cpp/http_request_parser.cpp:25-281 | whatever has been read, and however it was decided, is accounted for character by character |
| HttpHeads.Soundness | src/async_web_server_cpp/http_request_parser.cpp:25-281 | accepted characters are a head of the grammar, and the request has the fields the grammar assigns, folded lines joined to the value |
| HttpHeads.Completeness | src/async_web_server_cpp/http_request_parser.cpp:25-281 | every head of the grammar, whose character sets are listed and not taken from the parser, followed by anything, is accepted as what it means with the parser stopping at its end |
| HttpHeads.StateInvariant | src/async_web_server_cpp/http_request_parser.cpp:184-275 | after every reading, undecided, accepted or rejected, names are tokens, values and target are free of control characters, and the states inside a line have a header |
| HttpHeads.RequestRoundTrip | src/async_web_server_cpp/http_request_parser.cpp:25-281 | a printed request, followed by anything, is parsed back to itself exactly when it is clean |
| HttpHeads.AcceptedRequestsReprint | src/async_web_server_cpp/http_request_parser.cpp:25-281 | an accepted request is clean, prints and parses back to itself, and its target can be split |
| HttpRequestHandlers.AcceptsExactlyHeads | include/ignition/async_web_server_cpp/http_request_parser.hh:31-47 | the parser accepts exactly the inputs that start with a head of the grammar |
| HttpRequestHandlers.HandlerAsDocumentedExactlyWhen | src/async_web_server_cpp/http_connection.cpp:30-57 | the read handler does what the parser's interface documents exactly when the first read holds a whole head |
| HttpRequestHandlers.UndecidedIsAnswered | src/async_web_server_cpp/http_connection.cpp:30-57 | one concrete read that holds part of a head is answered with 400 |
| HttpRequestHandlers.RejectedIsHandedOver | src/async_web_server_cpp/http_connection.cpp:30-57 | one concrete read that is no request is handed to the request handler |
| HttpRequestHandlers.RequestReader.HandleRead | src/async_web_server_cpp/http_connection.cpp:30-57 | a decided parse splits the target, calls the request handler with the rest of the read and writes nothing; otherwise the stock 400 reply is written; no further read is requested |
| HttpRequestHandlers.BadRequestIsRead | src/async_web_server_cpp/http_reply.cpp:365-392 | a client reads the stock reply as status 400, a length that is that of the page, and the page |
| HttpRequestHandlers.StolReads | src/async_web_server_cpp/http_request_handler.cpp:69-75 | white space, sign and digits give their value if it fits 64 bits, whatever follows |
| HttpRequestHandlers.StolRefuses | src/async_web_server_cpp/http_request_handler.cpp:69-75 | without a digit there is no number |
| HttpRequestHandlers.BodyRefusedExactlyWhen | src/async_web_server_cpp/http_request_handler.cpp:67-85 | a body is refused at the first read, with no read after, exactly when there is no Content-Length header or the first holds no number that fits or a negative one |
| HttpRequestHandlers.BodyCollectingConnection.HandleRead | src/async_web_server_cpp/http_request_handler.cpp:81-96 | one read delivers, requests exactly one more read, or answers 400 with the missing-length text |
| HttpRequestHandlers.BodyCollected | src/async_web_server_cpp/http_request_handler.cpp:67-96 | for any chunks: nothing and one more read while fewer than n bytes have come; one call with the first n bytes at the first chunk that completes them, and no read after |
| HttpRequestHandlers.BodyIgnoresChunking | src/async_web_server_cpp/http_request_handler.cpp:81-96 | two ways of cutting the same bytes give the same call |
| HttpRequestHandlers.ReadsAreOneParse | include/ignition/async_web_server_cpp/http_request_parser.hh:31-47 | reading as documented, over any chunks, is one parse of their concatenation: it ends with the read that brings the deciding character and hands over what follows in it |
| HttpRequestHandlers.PostedBodyDelivered | src/async_web_server_cpp/http_request_handler.cpp:67-115 | any head of the grammar with any announced length, with its body, cut into reads anywhere: the documented reading hands over what the head means, and the body is delivered once, exactly, at the first read that completes it, with no read after |
| HttpRequestHandlers.UnfinishedHeadWaits | include/ignition/async_web_server_cpp/http_request_parser.hh:31-47 | while only a part of a head has come, the documented reading hands over nothing and wants one more read |
| HttpRequestHandlers.ServedAsDocumentedExactlyWhen | src/async_web_server_cpp/http_connection.cpp:30-57 | the connection as coded serves a posted request as documented exactly when the first read holds the whole head |
| HttpRequestHandlers.PrintedPostDelivered | src/async_web_server_cpp/http_request_handler.cpp:110-115 | as coded, a printed request whose head is in the first read is handed over and its announced body delivered |

## Left out

- Sockets, strands, threads, the accept loop and `HttpServer`: input and output; the model keeps write completions, write errors and read errors as steps. One producer per multipart stream is assumed.
- Memory limits: `reserve` with a huge announced frame length may throw in the source; the model has unbounded memory.
- The exception that leaves a request handler, and errors thrown out of `handle_write` into the event loop: the model records that the step threw and goes on.
- WebSocket upgrade handshake: SHA-1 and base64 come from OpenSSL.
- Video encoders and image streamers: foreign libraries and floating point.
- File and filesystem handlers, the other stock reply texts, the status table, viewers and topic lists: content with one-branch facts; only the status lines and the page that the modelled code writes appear.
- `static_reply` and `from_file` with additional headers: they copy them over the front of the header vector instead of appending; only `ReplyBuilder`, which appends, and stock replies without additional headers are modelled.
- `has_header`: it answers the opposite of its name; the modelled code uses `get_header_value_or_default`.
- `HttpRequestHandlerGroup`: a first-match search over opaque predicates.
- The general regular expression engine: the one fixed pattern is modelled as a cut at the first '?' of a target without line breaks.
- Version numbers wider than an `int`: signed overflow in the source; the model has mathematical integers.
- Fixed-size arrays: the four-byte key and two header bytes are values of fields, not separate heap arrays; nothing else refers to them in the source.
