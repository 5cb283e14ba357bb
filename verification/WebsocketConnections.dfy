/** A WebSocket connection: messages are printed as single frames onto the write
    queue, and whatever each read brings is driven through the frame parser and the
    reassembly buffer. */
module WebsocketConnections {
  import opened Prelude
  import opened Bits
  import opened WebsocketMessages
  import opened HttpConnections

  /** The receiving state. */
  datatype Receiver = Receiver(state: ParserState, frame: Frame, message: Message)

  /** A receiver and the messages handed to the handler on the way to it. */
  datatype Reception = Reception(receiver: Receiver, calls: seq<Message>)

  /** A completed frame. The driver asks whether the buffer returned a value, not which,
      so a rejected frame reaches the handler too, as a message of unknown kind. */
  function FrameCompleted(r: Receiver, frame: Frame): Reception {
    var b := ConsumeFrame(r.message, frame);
    Reception(Receiver(HeaderByte1, frame, b.message), if b.result.Some? then [b.message] else [])
  }

  /** One byte. */
  function ReceiveByte(r: Receiver, b: byte): Reception {
    var s := ConsumeByte(r.state, r.frame, b);
    if s.result.Some? then FrameCompleted(r, s.frame)
    else Reception(r.(state := s.state, frame := s.frame), [])
  }

  /** A byte stream, one byte at a time. */
  function Receive(r: Receiver, bytes: seq<byte>): Reception
    decreases |bytes|
  {
    if bytes == [] then Reception(r, [])
    else
      var head := ReceiveByte(r, bytes[0]);
      var tail := Receive(head.receiver, bytes[1..]);
      Reception(tail.receiver, head.calls + tail.calls)
  }

  /** The same reads in chunks, each chunk starting where the last one left off. */
  function ReceiveChunks(r: Receiver, chunks: seq<seq<byte>>): Reception
    decreases |chunks|
  {
    if chunks == [] then Reception(r, [])
    else
      var head := Receive(r, chunks[0]);
      var tail := ReceiveChunks(head.receiver, chunks[1..]);
      Reception(tail.receiver, head.calls + tail.calls)
  }

  /** On arbitrary bytes, reading `a ++ b` is reading `a` and then `b`. */
  lemma {:induction false} ReceiveConcat(r: Receiver, a: seq<byte>, b: seq<byte>)
    ensures var x := Receive(r, a);
            var y := Receive(x.receiver, b);
            Receive(r, a + b) == Reception(y.receiver, x.calls + y.calls)
    decreases |a|
  {
    if a == [] {
      assert a + b == b;
    } else {
      var head := ReceiveByte(r, a[0]);
      ReceiveConcat(head.receiver, a[1..], b);
      assert (a + b)[1..] == a[1..] + b;
      var x := Receive(head.receiver, a[1..]);
      AppendAssociative(head.calls, x.calls, Receive(x.receiver, b).calls);
    }
  }

  /** Chunk independence: only the concatenation of the chunks matters. */
  lemma {:induction false} ChunksDoNotMatter(r: Receiver, chunks: seq<seq<byte>>)
    ensures ReceiveChunks(r, chunks) == Receive(r, Flatten(chunks))
    decreases |chunks|
  {
    if chunks != [] {
      ChunksDoNotMatter(Receive(r, chunks[0]).receiver, chunks[1..]);
      ReceiveConcat(r, chunks[0], Flatten(chunks[1..]));
    }
  }

  /** Refinement of the nested loops: one inner `parse` call followed by the handling
      of its result is the per-byte fold over the bytes it used. */
  lemma {:induction false} ReceiveByParsing(r: Receiver, bytes: seq<byte>)
    ensures var p := ParseBytes(r.state, r.frame, bytes);
            Receive(r, bytes) ==
            if p.result.None? then Reception(r.(state := p.state, frame := p.frame), [])
            else
              var done := FrameCompleted(r, p.frame);
              var tail := Receive(done.receiver, bytes[p.used..]);
              Reception(tail.receiver, done.calls + tail.calls)
    decreases |bytes|
  {
    if bytes != [] {
      var s := ConsumeByte(r.state, r.frame, bytes[0]);
      if s.result.None? {
        var next := r.(state := s.state, frame := s.frame);
        var q := ParseBytes(s.state, s.frame, bytes[1..]);
        ReceiveByParsing(next, bytes[1..]);
        assert bytes[1..][q.used..] == bytes[q.used + 1..];
        var tail := Receive(next, bytes[1..]);
        assert [] + tail.calls == tail.calls;
      }
    }
  }

  /** A reception that comes after `calls` have been made. */
  function After(calls: seq<Message>, x: Reception): Reception {
    x.(calls := calls + x.calls)
  }

  lemma ReceivePass(calls: seq<Message>, r: Receiver, bytes: seq<byte>)
    ensures var p := ParseBytes(r.state, r.frame, bytes);
            After(calls, Receive(r, bytes)) ==
            if p.result.None? then Reception(r.(state := p.state, frame := p.frame), calls)
            else
              var done := FrameCompleted(r, p.frame);
              After(calls + done.calls, Receive(done.receiver, bytes[p.used..]))
  {
    ReceiveByParsing(r, bytes);
    var p := ParseBytes(r.state, r.frame, bytes);
    if p.result.Some? {
      var done := FrameCompleted(r, p.frame);
      AppendAssociative(calls, done.calls, Receive(done.receiver, bytes[p.used..]).calls);
    }
  }

  lemma NothingLeft(calls: seq<Message>, r: Receiver)
    ensures After(calls, Receive(r, [])) == Reception(r, calls)
  {
  }

  lemma ServerFrameBytes(m: Message)
    requires |m.content| < 0x1_0000_0000_0000_0000
    ensures ServerFrame(m).Valid()
    ensures EncodeFrame(ServerFrame(m)) ==
            EncodeHeader(128 + OpcodeOf(m.kind), MinimalForm(|m.content|), false, |m.content|) + m.content
  {
  }

  class WebsocketConnection {
    const connection: HttpConnection<byte>
    const frame: WebsocketFrame
    const message: WebsocketMessage
    const frameParser: WebsocketFrameParser
    const frameBuffer: WebsocketFrameBuffer
    var handlerSet: bool
    /** The messages the handler has been called with. */
    var delivered: seq<Message>

    constructor (connection: HttpConnection<byte>, leftover: Frame)
      ensures this.connection == connection
      ensures fresh(frame) && fresh(message) && fresh(frameParser) && fresh(frameBuffer)
      ensures View() == Receiver(HeaderByte1, leftover.(content := []), Message(KindUnknown, []))
      ensures delivered == [] && !handlerSet
    {
      this.connection := connection;
      frame := new WebsocketFrame(leftover.byte0, leftover.byte1, leftover.length, leftover.mask);
      message := new WebsocketMessage();
      frameParser := new WebsocketFrameParser();
      frameBuffer := new WebsocketFrameBuffer();
      handlerSet, delivered := false, [];
    }

    ghost function View(): Receiver
      reads frame, message, frameParser
    {
      Receiver(frameParser.state, frame.View(), message.View())
    }

    method SetMessageHandler()
      modifies this`handlerSet
      ensures handlerSet
    {
      handlerSet := true;
    }

    method SendTextMessage(content: seq<byte>) returns (r: Exceptional<bool>)
      requires connection.Consistent() && |content| < 0x1_0000_0000_0000_0000
      modifies connection
      ensures connection.Consistent()
      ensures Sends(Message(KindText, content), old(connection.View()), connection.View(), r)
    {
      r := SendMessage(Message(KindText, content));
    }

    method SendPingMessage(content: seq<byte>) returns (r: Exceptional<bool>)
      requires connection.Consistent() && |content| < 0x1_0000_0000_0000_0000
      modifies connection
      ensures connection.Consistent()
      ensures Sends(Message(KindPing, content), old(connection.View()), connection.View(), r)
    {
      r := SendMessage(Message(KindPing, content));
    }

    /** A message of known kind becomes one write of its frame; any other is refused. */
    method SendMessage(m: Message) returns (r: Exceptional<bool>)
      requires connection.Consistent() && |m.content| < 0x1_0000_0000_0000_0000
      modifies connection
      ensures connection.Consistent()
      ensures Sends(m, old(connection.View()), connection.View(), r)
    {
      var f := new WebsocketFrame(0, 0, 0, [0, 0, 0, 0]);
      var ok := f.FromMessage(m);
      if ok {
        ServerFrameBytes(m);
        r := SendFrame(f);
      } else {
        return Returned(false);
      }
    }

    method SendFrame(f: WebsocketFrame) returns (r: Exceptional<bool>)
      requires connection.Consistent() && f.length < 0x1_0000_0000_0000_0000
      modifies connection, f`byte1
      ensures connection.Consistent()
      ensures var bytes := EncodeHeader(f.byte0, MinimalForm(f.length), false, f.length) + f.content;
              var w := Write(old(connection.View()), Call([bytes], Some(Allocated(|old(connection.log)|))));
              w == Step(connection.View(), r.Thrown?) && (r.Returned? ==> r.value)
    {
      var buffer := f.Serialize();
      var outcome, _ := connection.WriteAndClear(buffer);
      return if outcome.Thrown? then Thrown else Returned(true);
    }

    /** Drives one read's bytes through the parser and the buffer and asks for the next
        read. The handler calls and the state left behind are those of the per-byte fold. */
    method HandleRead(chunk: seq<byte>) returns (r: Exceptional<()>)
      modifies this`delivered, frame, message, frameParser, connection`readsRequested
      ensures var x := Receive(old(View()), chunk);
              && View() == x.receiver
              && delivered == old(delivered) + if handlerSet then x.calls else []
      ensures r.Thrown? <==> connection.lastError
      ensures connection.readsRequested == old(connection.readsRequested) + if connection.lastError then 0 else 1
    {
      hide Receive, ParseBytes, ConsumeByte, ConsumeFrame;
      var parseEnd := 0;
      ghost var calls: seq<Message> := [];
      assert chunk[0..] == chunk;
      while parseEnd < |chunk|
        invariant 0 <= parseEnd <= |chunk|
        invariant Receive(old(View()), chunk) == After(calls, Receive(View(), chunk[parseEnd..]))
        invariant delivered == old(delivered) + if handlerSet then calls else []
        invariant connection.readsRequested == old(connection.readsRequested)
      {
        ghost var was, input := View(), chunk[parseEnd..];
        ReceivePass(calls, was, input);
        var frameResult, end := frameParser.Parse(frame, chunk, parseEnd);
        assert input[end - parseEnd..] == chunk[end..];
        parseEnd := end;
        if frameResult.Some? {
          ghost var done := FrameCompleted(was, frame.View());
          frameParser.Reset();
          var messageResult := frameBuffer.Consume(message, frame);
          assert View() == done.receiver;
          calls := calls + done.calls;
          if messageResult.Some? {
            if handlerSet {
              delivered := delivered + [Message(message.kind, message.content)];
            }
          }
        } else {
          assert chunk[parseEnd..] == [];
          NothingLeft(calls, View());
        }
      }
      assert chunk[parseEnd..] == [];
      NothingLeft(calls, View());
      r := connection.AsyncRead();
    }
  }

  /** The bytes of a sent message are held, whatever happens next, until the batch that
      carries them has completed. */
  lemma {:induction false} SentMessageHeld(
      m: Message, before: Connection<byte>, after: Connection<byte>, r: Exceptional<bool>, events: seq<Event<byte>>)
    requires Valid(before) && |m.content| < 0x1_0000_0000_0000_0000 && m.kind != KindUnknown
    requires Sends(m, before, after, r) && Runs(after, events)
    ensures var d := Run(after, events);
            && ServerFrame(m).Valid() && |before.log| < |d.log|
            && d.log[|before.log|].buffers == [EncodeFrame(ServerFrame(m))]
            && (d.released <= |before.log| ==> d.Holds(Allocated(|before.log|)))
  {
    hide Valid, EncodeFrame;
    var o := Allocated(|before.log|);
    OwnerOutlivesItsBuffers(before, Call([EncodeFrame(ServerFrame(m))], Some(o)), o, events);
  }

  /** The connection after a send, and its outcome. */
  ghost predicate Sends(m: Message, before: Connection<byte>, after: Connection<byte>, r: Exceptional<bool>)
    requires |m.content| < 0x1_0000_0000_0000_0000
  {
    if m.kind == KindUnknown then after == before && r == Returned(false)
    else
      var w := Write(before, Call([EncodeFrame(ServerFrame(m))], Some(Allocated(|before.log|))));
      after == w.state && r == if w.threw then Thrown else Returned(true)
  }
}
