/** Whole WebSocket streams: what the handler is called with, for every sequence of
    frames and every way of cutting its bytes into reads. */
module WebsocketStreams {
  import opened Prelude
  import opened Bits
  import opened WebsocketMessages
  import opened WebsocketCodec
  import opened HttpConnections
  import opened WebsocketConnections

  function Opcode(w: WireFrame): nat { w.byte0 % 16 }

  predicate Fin(w: WireFrame) { w.byte0 / 128 == 1 }

  predicate IsControl(w: WireFrame) {
    Opcode(w) == OPCODE_CLOSE || Opcode(w) == OPCODE_PING || Opcode(w) == OPCODE_PONG
  }

  function EncodeFrames(ws: seq<WireFrame>): seq<byte>
    requires forall w :: w in ws ==> w.Valid()
  {
    if ws == [] then [] else EncodeFrame(ws[0]) + EncodeFrames(ws[1..])
  }

  // ---------- from bytes to frames ----------

  /** The message being assembled, and the handler calls on the way to it. */
  datatype Assembly = Assembly(message: Message, calls: seq<Message>)

  function OnFrame(m: Message, w: WireFrame): Assembly {
    var b := ConsumeFrame(m, Frame(w.byte0, 0, 0, [0, 0, 0, 0], w.payload));
    Assembly(b.message, if b.result.Some? then [b.message] else [])
  }

  function OnFrames(m: Message, ws: seq<WireFrame>): Assembly
    decreases |ws|
  {
    if ws == [] then Assembly(m, [])
    else
      var head := OnFrame(m, ws[0]);
      var tail := OnFrames(head.message, ws[1..]);
      Assembly(tail.message, head.calls + tail.calls)
  }

  lemma {:induction false} OnFramesConcat(m: Message, a: seq<WireFrame>, b: seq<WireFrame>)
    ensures var x := OnFrames(m, a);
            var y := OnFrames(x.message, b);
            OnFrames(m, a + b) == Assembly(y.message, x.calls + y.calls)
    decreases |a|
  {
    if a == [] {
      assert a + b == b;
    } else {
      var head := OnFrame(m, a[0]);
      OnFramesConcat(head.message, a[1..], b);
      assert (a + b)[1..] == a[1..] + b;
      var x := OnFrames(head.message, a[1..]);
      AppendAssociative(head.calls, x.calls, OnFrames(x.message, b).calls);
    }
  }

  lemma {:induction false} ReceiveFrame(r: Receiver, w: WireFrame)
    requires w.Valid() && EndsWhereSent(w) && r.state == HeaderByte1
    ensures var x, y := Receive(r, EncodeFrame(w)), OnFrame(r.message, w);
            && x.receiver.state == HeaderByte1
            && x.receiver.message == y.message && x.calls == y.calls
  {
    var bytes := EncodeFrame(w);
    FrameRoundTrip(w, r.frame, []);
    assert bytes + [] == bytes;
    ReceiveByParsing(r, bytes);
    var p := ParseBytes(HeaderByte1, r.frame, bytes);
    assert bytes[p.used..] == [];
    var done := FrameCompleted(r, p.frame);
    assert Receive(done.receiver, []) == Reception(done.receiver, []);
    assert done.calls + [] == done.calls;
  }

  /** The opcodes of section 5.2, on a final frame as it arrives: what the handler is called
      with, by the low four bits of its first byte. */
  lemma {:induction false} OpcodeTable(r: Receiver, w: WireFrame)
    requires w.Valid() && EndsWhereSent(w) && r.state == HeaderByte1 && w.byte0 >= 128
    ensures var code, m := w.byte0 % 16, r.message;
            Receive(r, EncodeFrame(w)).calls ==
            if code == 0 && m.kind != KindUnknown then [m.(content := m.content + w.payload)]
            else if code == 1 then [Message(KindText, w.payload)]
            else if code == 2 then [Message(KindBinary, w.payload)]
            else if code == 8 then [Message(KindClose, w.payload)]
            else if code == 9 then [Message(KindPing, w.payload)]
            else if code == 10 then [Message(KindPong, w.payload)]
            else [m.(kind := KindUnknown)]
  {
    ReceiveFrame(r, w);
  }

  /** Receiving the bytes of any frames is assembling the frames themselves. */
  lemma {:induction false} ReceiveFrames(r: Receiver, ws: seq<WireFrame>)
    requires (forall w :: w in ws ==> w.Valid() && EndsWhereSent(w)) && r.state == HeaderByte1
    ensures var x, y := Receive(r, EncodeFrames(ws)), OnFrames(r.message, ws);
            && x.receiver.state == HeaderByte1
            && x.receiver.message == y.message && x.calls == y.calls
    decreases |ws|
  {
    if ws != [] {
      var x := Receive(r, EncodeFrame(ws[0])).receiver;
      ReceiveFrame(r, ws[0]);
      ReceiveFrames(x, ws[1..]);
      ReceiveConcat(r, EncodeFrame(ws[0]), EncodeFrames(ws[1..]));
    }
  }

  // ---------- messages, fragmented or not ----------

  /** The frames of one message: a first frame that names its kind, then
      continuations, the last frame and only the last being final (section 5.4). */
  ghost predicate IsMessage(ws: seq<WireFrame>) {
    && ws != []
    && KindOf(Opcode(ws[0])) != KindUnknown
    && (forall i :: 0 < i < |ws| ==> Opcode(ws[i]) == OPCODE_CONTINUATION)
    && (forall i :: 0 <= i < |ws| ==> (Fin(ws[i]) <==> i == |ws| - 1))
  }

  function Payloads(ws: seq<WireFrame>): seq<byte> {
    if ws == [] then [] else ws[0].payload + Payloads(ws[1..])
  }

  /** What the sender of those frames means. */
  function Meaning(ws: seq<WireFrame>): Message {
    Message(if ws == [] then KindUnknown else KindOf(Opcode(ws[0])), Payloads(ws))
  }

  lemma {:induction false} Continuations(m: Message, ws: seq<WireFrame>)
    requires m.kind != KindUnknown && ws != []
    requires forall i :: 0 <= i < |ws| ==> Opcode(ws[i]) == OPCODE_CONTINUATION
    requires forall i :: 0 <= i < |ws| ==> (Fin(ws[i]) <==> i == |ws| - 1)
    ensures var done := Message(m.kind, m.content + Payloads(ws));
            OnFrames(m, ws) == Assembly(done, [done])
    decreases |ws|
  {
    var head := OnFrame(m, ws[0]);
    var rest := ws[1..];
    AppendAssociative(m.content, ws[0].payload, Payloads(rest));
    if rest == [] {
      assert m.content + Payloads(ws) == m.content + ws[0].payload;
    } else {
      forall i | 0 <= i < |rest| ensures rest[i] == ws[i + 1] {
      }
      Continuations(head.message, rest);
      assert head.calls == [];
    }
  }

  lemma {:induction false} AssembleMessage(m: Message, ws: seq<WireFrame>)
    requires IsMessage(ws)
    ensures OnFrames(m, ws) == Assembly(Meaning(ws), [Meaning(ws)])
  {
    var head := OnFrame(m, ws[0]);
    var rest := ws[1..];
    if rest == [] {
      assert Payloads(ws) == ws[0].payload + Payloads([]) == ws[0].payload;
      assert head == Assembly(Meaning(ws), [Meaning(ws)]);
      assert OnFrames(head.message, rest) == Assembly(head.message, []);
    } else {
      forall i | 0 <= i < |rest| ensures rest[i] == ws[i + 1] {
      }
      Continuations(head.message, rest);
      assert head.calls == [];
    }
  }

  /** The one call comes at the final frame: no earlier frame makes any. */
  lemma {:induction false} NoCallBeforeFin(m: Message, ws: seq<WireFrame>, k: nat)
    requires IsMessage(ws) && k < |ws|
    ensures OnFrames(m, ws[..k]).calls == []
    ensures k > 0 ==> OnFrames(m, ws[..k]).message == Message(KindOf(Opcode(ws[0])), Payloads(ws[..k]))
    decreases k
  {
    if k > 0 {
      var init, w := ws[..k - 1], ws[k - 1];
      NoCallBeforeFin(m, ws, k - 1);
      assert ws[..k] == init + [w];
      OnFramesConcat(m, init, [w]);
      PayloadsAppend(init, w);
      var before := OnFrames(m, init).message;
      OneFrame(before, w);
      assert Payloads(init) + w.payload == Payloads(ws[..k]);
    }
  }

  lemma {:induction false} PayloadsAppend(ws: seq<WireFrame>, w: WireFrame)
    ensures Payloads(ws + [w]) == Payloads(ws) + w.payload
  {
    if ws == [] {
      assert [w][1..] == [];
      assert Payloads([w]) == w.payload + Payloads([]);
    } else {
      PayloadsAppend(ws[1..], w);
      assert (ws + [w])[1..] == ws[1..] + [w];
      AppendAssociative(ws[0].payload, Payloads(ws[1..]), w.payload);
    }
  }

  function Meanings(units: seq<seq<WireFrame>>): seq<Message> {
    if units == [] then [] else [Meaning(units[0])] + Meanings(units[1..])
  }

  lemma {:induction false} AssembleMessages(m: Message, units: seq<seq<WireFrame>>)
    requires forall i :: 0 <= i < |units| ==> IsMessage(units[i])
    ensures OnFrames(m, Flatten(units)).calls == Meanings(units)
    decreases |units|
  {
    if units != [] {
      AssembleMessage(m, units[0]);
      AssembleMessages(Meaning(units[0]), units[1..]);
      OnFramesConcat(m, units[0], Flatten(units[1..]));
    }
  }

  /** Delivery: for every sequence of messages, each fragmented, masked and encoded in
      any way, and every way of cutting the bytes into reads, the handler is called with
      exactly those messages, in order, once each, and the parser is back at its start. */
  lemma {:induction false} Delivery(r: Receiver, units: seq<seq<WireFrame>>, chunks: seq<seq<byte>>)
    requires r.state == HeaderByte1
    requires forall i :: 0 <= i < |units| ==> IsMessage(units[i])
    requires forall w :: w in Flatten(units) ==> w.Valid() && EndsWhereSent(w)
    requires Flatten(chunks) == EncodeFrames(Flatten(units))
    ensures ReceiveChunks(r, chunks).calls == Meanings(units)
    ensures ReceiveChunks(r, chunks).receiver.state == HeaderByte1
  {
    ChunksDoNotMatter(r, chunks);
    ReceiveFrames(r, Flatten(units));
    AssembleMessages(r.message, units);
  }

  // ---------- server messages, end to end over the write queue ----------

  ghost predicate Sendable(m: Message) {
    m.kind != KindUnknown && |m.content| < 0x1_0000_0000_0000_0000
  }

  function ServerFrames(ms: seq<Message>): seq<seq<WireFrame>> {
    seq(|ms|, i requires 0 <= i < |ms| => [ServerFrame(ms[i])])
  }

  lemma ServerFrameIsMessage(m: Message)
    requires Sendable(m)
    ensures IsMessage([ServerFrame(m)]) && ServerFrame(m).Valid() && EndsWhereSent(ServerFrame(m)) && Meaning([ServerFrame(m)]) == m
  {
    assert Payloads([ServerFrame(m)]) == m.content + Payloads([ServerFrame(m)][1..]);
  }

  lemma {:induction false} ServerMeanings(ms: seq<Message>)
    requires forall m :: m in ms ==> Sendable(m)
    ensures var units := ServerFrames(ms);
            && (forall i :: 0 <= i < |units| ==> IsMessage(units[i]))
            && (forall w :: w in Flatten(units) ==> w.Valid() && EndsWhereSent(w))
            && Meanings(units) == ms
    decreases |ms|
  {
    var units := ServerFrames(ms);
    if ms != [] {
      assert units[1..] == ServerFrames(ms[1..]);
      ServerMeanings(ms[1..]);
      ServerFrameIsMessage(ms[0]);
      forall i | 0 <= i < |units| ensures IsMessage(units[i]) {
        if i > 0 {
          assert units[i] == units[1..][i - 1];
        }
      }
    }
  }

  /** The write calls of a sender that sends `ms`. */
  ghost predicate SendCalls(ms: seq<Message>, calls: seq<Call<byte>>) {
    && |calls| == |ms|
    && (forall i :: 0 <= i < |ms| ==> Sendable(ms[i]))
    && (forall i :: 0 <= i < |ms| ==> calls[i].buffers == [EncodeFrame(ServerFrame(ms[i]))])
  }

  lemma {:induction false} SentBytes(ms: seq<Message>, calls: seq<Call<byte>>)
    requires SendCalls(ms, calls)
    ensures (forall w :: w in Flatten(ServerFrames(ms)) ==> w.Valid())
    ensures BytesOf(calls) == EncodeFrames(Flatten(ServerFrames(ms)))
    decreases |ms|
  {
    ServerMeanings(ms);
    if ms != [] {
      var units := ServerFrames(ms);
      var w := ServerFrame(ms[0]);
      assert units[1..] == ServerFrames(ms[1..]);
      assert Flatten(units) == [w] + Flatten(units[1..]);
      SentBytes(ms[1..], calls[1..]);
      assert Flatten(units)[1..] == Flatten(units[1..]);
      FlattenAppend(calls[0].buffers, BuffersOf(calls[1..]));
      FlattenOne(EncodeFrame(w));
    }
  }

  /** End to end: over every run of the write queue in which exactly the messages `ms`
      are sent, and every cutting of what has arrived into reads, the peer's handler has
      been called with a prefix of `ms`, and with all of `ms` once everything arrived. */
  lemma {:induction false} EndToEndDelivery(
      events: seq<Event<byte>>, ms: seq<Message>, r: Receiver, chunks: seq<seq<byte>>)
    requires Runs(Fresh(), events) && SendCalls(ms, CallsIn(events)) && r.state == HeaderByte1
    requires Flatten(chunks) <= Run(Fresh(), events).Wire()
    ensures ReceiveChunks(r, chunks).calls <= ms
    ensures Flatten(chunks) == BytesOf(CallsIn(events)) ==>
              ReceiveChunks(r, chunks).calls == ms
              && ReceiveChunks(r, chunks).receiver.state == HeaderByte1
  {
    Conservation(events);
    SentBytes(ms, CallsIn(events));
    ServerMeanings(ms);
    DeliveryOfPrefix(r, ServerFrames(ms), chunks);
  }

  /** What has arrived of a stream of messages delivers a prefix of the messages. */
  lemma {:induction false} DeliveryOfPrefix(r: Receiver, units: seq<seq<WireFrame>>, chunks: seq<seq<byte>>)
    requires r.state == HeaderByte1
    requires forall i :: 0 <= i < |units| ==> IsMessage(units[i])
    requires forall w :: w in Flatten(units) ==> w.Valid() && EndsWhereSent(w)
    requires Flatten(chunks) <= EncodeFrames(Flatten(units))
    ensures ReceiveChunks(r, chunks).calls <= Meanings(units)
    ensures Flatten(chunks) == EncodeFrames(Flatten(units)) ==>
              ReceiveChunks(r, chunks).calls == Meanings(units)
              && ReceiveChunks(r, chunks).receiver.state == HeaderByte1
  {
    var all, got := EncodeFrames(Flatten(units)), Flatten(chunks);
    assert got + all[|got|..] == all;
    ReceiveFrames(r, Flatten(units));
    AssembleMessages(r.message, units);
    ChunksDoNotMatter(r, chunks);
    ReceiveConcat(r, got, all[|got|..]);
  }

  // ---------- what the reassembly does not support ----------

  /** A fragmented text or binary message with control frames between its fragments,
      as section 5.4 allows. */
  ghost predicate IsInterleaved(ws: seq<WireFrame>) {
    && |ws| >= 2
    && (Opcode(ws[0]) == OPCODE_TEXT || Opcode(ws[0]) == OPCODE_BINARY) && !Fin(ws[0])
    && (forall i :: 0 < i < |ws| ==> IsControl(ws[i]) || Opcode(ws[i]) == OPCODE_CONTINUATION)
    && (forall i :: 0 < i < |ws| && IsControl(ws[i]) ==> Fin(ws[i]) && i < |ws| - 1)
    && (forall i :: 0 < i < |ws| && !IsControl(ws[i]) ==> (Fin(ws[i]) <==> i == |ws| - 1))
  }

  function Controls(ws: seq<WireFrame>): seq<Message> {
    if ws == [] then []
    else (if IsControl(ws[0]) then [Meaning([ws[0]])] else []) + Controls(ws[1..])
  }

  function DataPayloads(ws: seq<WireFrame>): seq<byte> {
    if ws == [] then []
    else (if IsControl(ws[0]) then [] else ws[0].payload) + DataPayloads(ws[1..])
  }

  /** What section 5.4 asks for: the control messages, then the reassembled message. */
  function InterleavedMeaning(ws: seq<WireFrame>): seq<Message>
    requires ws != []
  {
    Controls(ws) + [Message(KindOf(Opcode(ws[0])), DataPayloads(ws))]
  }

  /** The last call of a run that ends with a final continuation is the message itself,
      and its kind is that of the last control frame, if there was one. */
  lemma {:induction false} LastCall(m: Message, ws: seq<WireFrame>)
    requires m.kind != KindUnknown && ws != []
    requires forall i :: 0 <= i < |ws| ==> IsControl(ws[i]) || Opcode(ws[i]) == OPCODE_CONTINUATION
    requires Fin(ws[|ws| - 1])
    ensures var a := OnFrames(m, ws);
            && a.calls != [] && a.calls[|a.calls| - 1] == a.message
            && (if exists i :: 0 <= i < |ws| && IsControl(ws[i])
                then a.message.kind in {KindClose, KindPing, KindPong}
                else a.message.kind == m.kind)
    decreases |ws|
  {
    var head := OnFrame(m, ws[0]);
    var rest := ws[1..];
    if rest == [] {
      assert OnFrames(head.message, rest) == Assembly(head.message, []);
      assert ws[0] == ws[|ws| - 1];
    } else {
      LastCall(head.message, rest);
      assert rest[|rest| - 1] == ws[|ws| - 1];
      if i :| 0 <= i < |ws| && IsControl(ws[i]) {
        if i > 0 {
          assert IsControl(rest[i - 1]);
        }
      }
      if i :| 0 <= i < |rest| && IsControl(rest[i]) {
        assert IsControl(ws[i + 1]);
      }
    }
  }

  lemma {:induction false} NoControls(ws: seq<WireFrame>)
    requires forall w :: w in ws ==> !IsControl(w)
    ensures Controls(ws) == [] && DataPayloads(ws) == Payloads(ws)
  {
    if ws != [] {
      NoControls(ws[1..]);
    }
  }

  /** A fragmented message is delivered as section 5.4 asks exactly when no control
      frame comes between its fragments: a control frame overwrites the partial message. */
  lemma {:induction false} InterleavingExactlyWhen(m: Message, ws: seq<WireFrame>)
    requires IsInterleaved(ws)
    ensures OnFrames(m, ws).calls == InterleavedMeaning(ws)
            <==> forall i :: 0 <= i < |ws| ==> !IsControl(ws[i])
  {
    if exists i :: 0 <= i < |ws| && IsControl(ws[i]) {
      ControlSpoilsMessage(m, ws);
    } else {
      NoControls(ws);
      AssembleMessage(m, ws);
    }
  }

  lemma {:induction false} ControlSpoilsMessage(m: Message, ws: seq<WireFrame>)
    requires IsInterleaved(ws) && exists i :: 0 <= i < |ws| && IsControl(ws[i])
    ensures OnFrames(m, ws).calls != InterleavedMeaning(ws)
  {
    hide Controls, DataPayloads, OnFrame, OnFrames;
    var head, rest := OnFrame(m, ws[0]), ws[1..];
    var i :| 0 <= i < |ws| && IsControl(ws[i]);
    assert IsControl(rest[i - 1]);
    RestOfInterleaved(m, ws);
    hide IsInterleaved, IsControl, Fin;
    LastCall(head.message, rest);
    LastDiffers(OnFrames(m, ws).calls, InterleavedMeaning(ws));
  }

  lemma RestOfInterleaved(m: Message, ws: seq<WireFrame>)
    requires IsInterleaved(ws)
    ensures var head, rest := OnFrame(m, ws[0]), ws[1..];
            && head.message.kind != KindUnknown && rest != []
            && (forall i :: 0 <= i < |rest| ==> IsControl(rest[i]) || Opcode(rest[i]) == OPCODE_CONTINUATION)
            && Fin(rest[|rest| - 1])
            && OnFrames(m, ws).calls == OnFrames(head.message, rest).calls
            && (KindOf(Opcode(ws[0])) == KindText || KindOf(Opcode(ws[0])) == KindBinary)
  {
    var head, rest := OnFrame(m, ws[0]), ws[1..];
    forall j | 0 <= j < |rest| ensures rest[j] == ws[j + 1] {
    }
    assert head.calls == [];
    assert [] + OnFrames(head.message, rest).calls == OnFrames(head.message, rest).calls;
  }

  lemma LastDiffers(a: seq<Message>, b: seq<Message>)
    requires a != [] && b != [] && a[|a| - 1].kind != b[|b| - 1].kind
    ensures a != b
  {
  }

  // ---------- arbitrary streams against section 5.4 ----------

  predicate IsData(w: WireFrame) {
    Opcode(w) == OPCODE_TEXT || Opcode(w) == OPCODE_BINARY
  }

  predicate IsContinuation(w: WireFrame) {
    Opcode(w) == OPCODE_CONTINUATION
  }

  predicate KnownOpcode(w: WireFrame) {
    IsContinuation(w) || KindOf(Opcode(w)) != KindUnknown
  }

  /** A receiver as section 5.4 describes it: the fragmented message that is open, and the
      messages delivered. A control message leaves the open message alone, and a
      continuation of nothing delivers nothing. */
  datatype Section54 = Section54(open: Option<Message>, calls: seq<Message>)

  function Section54Frame(open: Option<Message>, w: WireFrame): Section54 {
    var whole := Message(KindOf(Opcode(w)), w.payload);
    if IsControl(w) then Section54(open, if Fin(w) then [whole] else [])
    else if IsContinuation(w) then
      match open
      case None => Section54(None, [])
      case Some(m) =>
        var longer := m.(content := m.content + w.payload);
        if Fin(w) then Section54(None, [longer]) else Section54(Some(longer), [])
    else if Fin(w) then Section54(None, [whole])
    else Section54(Some(whole), [])
  }

  function Section54Frames(ws: seq<WireFrame>): Section54
    decreases |ws|
  {
    if ws == [] then Section54(None, [])
    else
      var before := Section54Frames(ws[..|ws| - 1]);
      var last := Section54Frame(before.open, ws[|ws| - 1]);
      Section54(last.open, before.calls + last.calls)
  }

  /** Frame `k` comes right after a first fragment and any continuations of it. */
  predicate Continues(ws: seq<WireFrame>, k: nat)
    requires k <= |ws|
    decreases k
  {
    k > 0 && !Fin(ws[k - 1]) && (IsData(ws[k - 1]) || (IsContinuation(ws[k - 1]) && Continues(ws, k - 1)))
  }

  lemma {:induction false} ContinuesOfPrefix(ws: seq<WireFrame>, n: nat, k: nat)
    requires k <= n <= |ws|
    ensures Continues(ws[..n], k) == Continues(ws, k)
    decreases k
  {
    if k > 0 {
      ContinuesOfPrefix(ws, n, k - 1);
    }
  }

  /** How the buffer's message stands to the open message: the same right after fragments
      of it, and a control message if a control frame has come between. */
  predicate InStep(m: Message, open: Option<Message>, continues: bool) {
    && (continues ==> open == Some(m) && m.kind != KindUnknown)
    && (open.Some? ==> open.value.kind == KindText || open.value.kind == KindBinary)
    && (open.Some? && !continues ==> m.kind == KindClose || m.kind == KindPing || m.kind == KindPong)
  }

  predicate ContinuesAfter(w: WireFrame, continues: bool) {
    !Fin(w) && (IsData(w) || (IsContinuation(w) && continues))
  }

  /** A final continuation must continue a fragmented message, and nothing may be
      continued before there has been any message. */
  predicate Fitting(m: Message, w: WireFrame, continues: bool) {
    IsContinuation(w) ==> (Fin(w) ==> continues) && m.kind != KindUnknown
  }

  lemma FrameAgainstSection54(m: Message, open: Option<Message>, continues: bool, w: WireFrame)
    requires InStep(m, open, continues) && KnownOpcode(w)
    ensures var a, f := OnFrame(m, w), Section54Frame(open, w);
            && InStep(a.message, f.open, ContinuesAfter(w, continues))
            && |f.calls| <= |a.calls|
            && (a.calls == f.calls <==> Fitting(m, w, continues))
            && (a.message.kind == KindUnknown ==> m.kind == KindUnknown && IsContinuation(w))
  {
  }

  /** The exact condition on a stream of known opcodes. */
  ghost predicate FitsSection54(m: Message, ws: seq<WireFrame>) {
    && (m.kind == KindUnknown && ws != [] ==> !IsContinuation(ws[0]))
    && forall i :: 0 <= i < |ws| && IsContinuation(ws[i]) && Fin(ws[i]) ==> Continues(ws, i)
  }

  lemma {:induction false} FitsSection54Prefix(m: Message, ws: seq<WireFrame>)
    requires ws != []
    ensures var n := |ws| - 1;
            FitsSection54(m, ws) <==>
              && FitsSection54(m, ws[..n])
              && (n == 0 && m.kind == KindUnknown ==> !IsContinuation(ws[n]))
              && (IsContinuation(ws[n]) && Fin(ws[n]) ==> Continues(ws, n))
  {
    var n := |ws| - 1;
    var init := ws[..n];
    forall i | 0 <= i < n ensures init[i] == ws[i] && Continues(init, i) == Continues(ws, i) {
      ContinuesOfPrefix(ws, n, i);
    }
  }

  lemma ConcatEqual<T>(a: seq<T>, b: seq<T>, c: seq<T>, d: seq<T>)
    requires |c| <= |a| && |d| <= |b|
    ensures a + b == c + d <==> a == c && b == d
  {
    if a + b == c + d {
      assert (a + b)[..|a|] == a && (c + d)[..|c|] == c;
      assert (a + b)[|a|..] == b && (c + d)[|c|..] == d;
    }
  }

  lemma {:induction false} StreamAgainstSection54(m: Message, ws: seq<WireFrame>)
    requires forall i :: 0 <= i < |ws| ==> KnownOpcode(ws[i])
    ensures var a, f := OnFrames(m, ws), Section54Frames(ws);
            && InStep(a.message, f.open, Continues(ws, |ws|))
            && |f.calls| <= |a.calls|
            && (a.message.kind == KindUnknown ==> m.kind == KindUnknown && (ws != [] ==> IsContinuation(ws[0])))
            && (a.calls == f.calls <==> FitsSection54(m, ws))
    decreases |ws|
  {
    if ws != [] {
      var n := |ws| - 1;
      var init, w := ws[..n], ws[n];
      StreamAgainstSection54(m, init);
      ContinuesOfPrefix(ws, n, n);
      FitsSection54Prefix(m, ws);
      var a, f := OnFrames(m, init), Section54Frames(init);
      assert ws == init + [w];
      OnFramesConcat(m, init, [w]);
      OneFrame(a.message, w);
      FrameAgainstSection54(a.message, f.open, Continues(ws, n), w);
      ConcatEqual(a.calls, OnFrame(a.message, w).calls, f.calls, Section54Frame(f.open, w).calls);
    }
  }

  lemma OneFrame(m: Message, w: WireFrame)
    ensures OnFrames(m, [w]) == OnFrame(m, w)
  {
    var head := OnFrame(m, w);
    assert [w][1..] == [];
    assert OnFrames(head.message, []) == Assembly(head.message, []);
    assert head.calls + [] == head.calls;
  }

  /** For every stream of known opcodes, whatever it leaves unfinished: the handler is
      called exactly as section 5.4 asks if and only if every final continuation comes
      after a first fragment with nothing but continuations between them, and, before
      any message, the stream does not begin with a continuation. */
  lemma {:induction false} StreamFollowsSection54ExactlyWhen(m: Message, ws: seq<WireFrame>)
    requires forall i :: 0 <= i < |ws| ==> KnownOpcode(ws[i])
    ensures OnFrames(m, ws).calls == Section54Frames(ws).calls <==> FitsSection54(m, ws)
  {
    StreamAgainstSection54(m, ws);
  }

  /** A continuation after a finished message: the message is delivered again, longer. */
  lemma ContinuationAfterFinal(m: Message)
    ensures var ws := [WireFrame(129, Short, None, [65]), WireFrame(128, Short, None, [66])];
            OnFrames(m, ws).calls == [Message(KindText, [65]), Message(KindText, [65, 66])]
            && Section54Frames(ws).calls == [Message(KindText, [65])]
  {
    var w0, w1 := WireFrame(129, Short, None, [65]), WireFrame(128, Short, None, [66]);
    var ws := [w0, w1];
    assert ws[1..] == [w1] && ws[..1] == [w0] && [w0][..0] == [];
    var first, second := Message(KindText, [65]), Message(KindText, [65, 66]);
    OneFrame(first, w1);
    assert OnFrame(m, w0) == Assembly(first, [first]);
    assert [65] + [66] == [65, 66];
    assert OnFrame(first, w1) == Assembly(second, [second]);
    assert [first] + [second] == [first, second];
    assert Section54Frames([]) == Section54(None, []);
    assert Section54Frames([w0]) == Section54(None, [Message(KindText, [65])]);
  }

  /** A text fragment, a ping, and the final fragment: the text is never delivered. */
  lemma PingBetweenFragments(m: Message)
    ensures var ws := [WireFrame(1, Short, None, [65]), WireFrame(137, Short, None, []),
                       WireFrame(128, Short, None, [66])];
            OnFrames(m, ws).calls == [Message(KindPing, []), Message(KindPing, [66])]
  {
    var w0, w1, w2 := WireFrame(1, Short, None, [65]), WireFrame(137, Short, None, []),
                      WireFrame(128, Short, None, [66]);
    var ws := [w0, w1, w2];
    assert ws[1..] == [w1, w2] && [w1, w2][1..] == [w2] && [w2][1..] == [];
    var m0, m1, m2 := Message(KindText, [65]), Message(KindPing, []), Message(KindPing, [66]);
    assert OnFrame(m, w0) == Assembly(m0, []);
    assert OnFrame(m0, w1) == Assembly(m1, [m1]);
    assert OnFrame(m1, w2) == Assembly(m2, [m2]);
    assert OnFrames(m2, []) == Assembly(m2, []);
    assert OnFrames(m1, [w2]) == Assembly(m2, [m2]);
    assert OnFrames(m0, [w1, w2]) == Assembly(m2, [m1] + [m2]);
  }

  /** The frames the buffer rejects: an unknown opcode, or a continuation of nothing. */
  predicate Rejected(m: Message, w: WireFrame) {
    if Opcode(w) == OPCODE_CONTINUATION then m.kind == KindUnknown
    else KindOf(Opcode(w)) == KindUnknown
  }

  /** The driver passes rejected frames on: every message the handler sees is of known
      kind exactly when every opcode is known and, before any message has been received,
      the stream does not begin with a continuation. */
  lemma {:induction false} KnownKindsExactlyWhen(m: Message, ws: seq<WireFrame>)
    ensures (forall c :: c in OnFrames(m, ws).calls ==> c.kind != KindUnknown)
            <==> (forall i :: 0 <= i < |ws| ==> KnownOpcode(ws[i]))
                 && (ws != [] && m.kind == KindUnknown ==> Opcode(ws[0]) != OPCODE_CONTINUATION)
    decreases |ws|
  {
    if ws != [] {
      var head, rest := OnFrame(m, ws[0]), ws[1..];
      var calls, later := OnFrames(m, ws).calls, OnFrames(head.message, rest).calls;
      assert calls == head.calls + later;
      KnownKindsExactlyWhen(head.message, rest);
      forall i | 0 <= i < |rest| ensures rest[i] == ws[i + 1] {
      }
      assert (forall i :: 0 <= i < |ws| ==> KnownOpcode(ws[i]))
             <==> KnownOpcode(ws[0]) && forall i :: 0 <= i < |rest| ==> KnownOpcode(rest[i]);
      if Rejected(m, ws[0]) {
        assert head.message.kind == KindUnknown && head.calls == [head.message];
        assert head.message in calls;
      } else {
        assert head.message.kind != KindUnknown;
        assert forall c :: c in head.calls ==> c == head.message;
      }
    }
  }

  /** A frame of unknown opcode: the handler is called with the content of the message
      before it, as a message of unknown kind. */
  lemma UnknownOpcodeIsDelivered(content: seq<byte>)
    ensures OnFrames(Message(KindText, content), [WireFrame(131, Short, None, [])]).calls
            == [Message(KindUnknown, content)]
  {
    var w := WireFrame(131, Short, None, []);
    OneFrame(Message(KindText, content), w);
  }
}
