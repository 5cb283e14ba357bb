/** Multipart streaming with backpressure: parts are refused while too many earlier
    parts are unsent, which the stream infers from weak references to the footers it
    wrote. The stream and its connection form one transition system: offering a part
    takes three writes, and completions and errors of the connection may happen
    between any two steps. */
module MultipartStreams {
  import opened Prelude
  import opened HttpText
  import opened HttpConnections
  import opened HttpReplies
  import opened MultipartDecoding

  datatype Config = Config(boundary: string, maxQueueSize: nat, ageLimit: real)

  /** A footer that was written: when its part was made, and the owner of its text,
      which only the connection keeps alive. */
  datatype Footer = Footer(timestamp: int, owner: Owner)

  /** The caller's buffer is moved into an owner of its own, or shared with an owner
      the caller may name. */
  datatype Source = Moved | Shared(resource: Option<int>)

  datatype Phase =
    | Idle
    | HeadWritten(part: Part, time: int, source: Source)
    | PayloadWritten(part: Part, time: int)

  /** The stream's own state, and its history: the footers ever queued, the parts
      completely written, the last clock reading, and, once a write has thrown, where
      the log was cut short and in which phase. */
  datatype Joint = Joint(
    conn: Connection<char>,
    queue: seq<Footer>,
    phase: Phase,
    sent: seq<Footer>,
    accepted: seq<Part>,
    clock: int,
    broken: Option<Break>
  )

  datatype Break = Break(logLength: nat, phase: Phase)

  // ---------- the steps ----------

  predicate OverAge(f: Footer, now: int, limit: real) {
    (now - f.timestamp) as real > limit
  }

  /** A weak reference has expired once the connection has dropped the owner. */
  predicate Stale(c: Connection<char>, f: Footer, now: int, limit: real) {
    !c.Holds(f.owner) || OverAge(f, now, limit)
  }

  /** The queue after popping stale footers from its front. */
  function PopStale(c: Connection<char>, queue: seq<Footer>, now: int, limit: real): seq<Footer> {
    if queue != [] && Stale(c, queue[0], now, limit) then PopStale(c, queue[1..], now, limit) else queue
  }

  /** The queue check of an offer: a clock reading, and stale footers popped. */
  function Popped(cfg: Config, j: Joint, now: int): Joint {
    j.(queue := PopStale(j.conn, j.queue, now, cfg.ageLimit), clock := now)
  }

  predicate Full(cfg: Config, queue: seq<Footer>) {
    !(cfg.maxQueueSize == 0 || |queue| < cfg.maxQueueSize)
  }

  function HeadCall(c: Connection<char>, p: Part): Call<char> {
    Call(HeaderBuffers(PartHeaders(p.contentType, p.stamp, |p.payload|)), Some(Allocated(|c.log|)))
  }

  function PayloadCall(c: Connection<char>, p: Part, source: Source): Call<char> {
    Call([p.payload], match source
         case Moved => Some(Allocated(|c.log|))
         case Shared(r) => if r.Some? then Some(External(r.value)) else None)
  }

  function FooterCall(c: Connection<char>, cfg: Config): Call<char> {
    Call([Delimiter(cfg.boundary)], Some(Allocated(|c.log|)))
  }

  /** A write of the stream: on success it moves to `next`, and if it throws the part
      is abandoned. */
  function WriteStep(j: Joint, call: Call<char>, next: Phase): Joint {
    var w := Write(j.conn, call);
    if w.threw then
      j.(conn := w.state, phase := Idle,
         broken := if j.broken.Some? then j.broken else Some(Break(|j.conn.log|, j.phase)))
    else j.(conn := w.state, phase := next)
  }

  /** A part is offered: stale footers are popped, and unless the queue is full the
      head of the part is written. */
  function Offer(cfg: Config, j: Joint, now: int, time: int, p: Part, source: Source): Joint {
    var k := Popped(cfg, j, now);
    if Full(cfg, k.queue) then k
    else WriteStep(k, HeadCall(k.conn, p), HeadWritten(p, time, source))
  }

  function Payload(j: Joint): Joint
    requires j.phase.HeadWritten?
  {
    WriteStep(j, PayloadCall(j.conn, j.phase.part, j.phase.source), PayloadWritten(j.phase.part, j.phase.time))
  }

  function Finish(cfg: Config, j: Joint): Joint
    requires j.phase.PayloadWritten?
  {
    var f := Footer(j.phase.time, Allocated(|j.conn.log|));
    var k := WriteStep(j, FooterCall(j.conn, cfg), Idle);
    if Write(j.conn, FooterCall(j.conn, cfg)).threw then k
    else
      var l := k.(accepted := k.accepted + [j.phase.part]);
      if cfg.maxQueueSize > 0 then l.(queue := l.queue + [f], sent := l.sent + [f]) else l
  }

  datatype Action =
    | Offered(now: int, time: int, part: Part, source: Source)
    | PayloadStep
    | FooterStep
    | Network(event: Event<char>)

  predicate Possible(j: Joint, a: Action) {
    match a
    case Offered(_, _, _, _) => j.phase.Idle?
    case PayloadStep => j.phase.HeadWritten?
    case FooterStep => j.phase.PayloadWritten?
    case Network(e) => !e.WriteCalled? && Enabled(j.conn, e)
  }

  function Act(cfg: Config, j: Joint, a: Action): Joint
    requires Possible(j, a)
  {
    match a
    case Offered(now, time, p, source) => Offer(cfg, j, now, time, p, source)
    case PayloadStep => Payload(j)
    case FooterStep => Finish(cfg, j)
    case Network(e) => j.(conn := Apply(j.conn, e))
  }

  predicate Plays(cfg: Config, j: Joint, actions: seq<Action>)
    decreases |actions|
  {
    actions != [] ==> Possible(j, actions[0]) && Plays(cfg, Act(cfg, j, actions[0]), actions[1..])
  }

  function Play(cfg: Config, j: Joint, actions: seq<Action>): Joint
    requires Plays(cfg, j, actions)
    decreases |actions|
  {
    if actions == [] then j else Play(cfg, Act(cfg, j, actions[0]), actions[1..])
  }

  /** A stream that takes over a connection in any consistent state. */
  function Start(c: Connection<char>, now: int): Joint {
    Joint(c, [], Idle, [], [], now, None)
  }

  // ---------- the framing invariant ----------

  /** The bytes of the part being written that are already in the log. */
  function Partial(phase: Phase): string {
    match phase
    case Idle => []
    case HeadWritten(p, _, _) => PartHead(p)
    case PayloadWritten(p, _) => PartHead(p) + p.payload
  }

  function Framed(cfg: Config, base: string, accepted: seq<Part>, phase: Phase): string {
    base + EncodeParts(accepted, cfg.boundary) + Partial(phase)
  }

  /** Until a write throws the log holds exactly the accepted parts and the part under
      way. After that an error is latched, nothing new starts, and what had been
      written before the first throw is still of that form. */
  ghost predicate WellFramed(cfg: Config, base: string, j: Joint) {
    && Valid(j.conn)
    && match j.broken
       case None => BytesOf(j.conn.log) == Framed(cfg, base, j.accepted, j.phase)
       case Some(b) =>
         && j.phase.Idle?
         && j.conn.lastError && !j.conn.writeInProgress
         && j.conn.started <= b.logLength <= |j.conn.log|
         && BytesOf(j.conn.log[..b.logLength]) == Framed(cfg, base, j.accepted, b.phase)
  }

  lemma {:induction false} WriteStepFramed(cfg: Config, base: string, j: Joint, call: Call<char>, next: Phase)
    requires WellFramed(cfg, base, j)
    requires j.broken.None? ==> Partial(next) == Partial(j.phase) + Flatten(call.buffers)
    ensures WellFramed(cfg, base, WriteStep(j, call, next))
    ensures j.broken.Some? ==> Write(j.conn, call).threw
  {
    var w := Write(j.conn, call);
    WriteValid(j.conn, call);
    assert w.state.log == j.conn.log + [call];
    if !w.threw {
      CallsAppend(j.conn.log, [call]);
      CallsOne(call);
      AppendAssociative(base + EncodeParts(j.accepted, cfg.boundary), Partial(j.phase), Flatten(call.buffers));
    } else if j.broken.None? {
      assert w.state.log[..|j.conn.log|] == j.conn.log;
    } else {
      assert w.state.log[..j.broken.value.logLength] == j.conn.log[..j.broken.value.logLength];
    }
  }

  lemma {:induction false} OfferFramed(cfg: Config, base: string, j: Joint, now: int, time: int, p: Part, source: Source)
    requires WellFramed(cfg, base, j) && j.phase.Idle?
    ensures WellFramed(cfg, base, Offer(cfg, j, now, time, p, source))
  {
    var k := Popped(cfg, j, now);
    HeaderBuffersFlatten(PartHeaders(p.contentType, p.stamp, |p.payload|));
    assert [] + PartHead(p) == PartHead(p);
    if !Full(cfg, k.queue) {
      WriteStepFramed(cfg, base, k, HeadCall(k.conn, p), HeadWritten(p, time, source));
    }
  }

  lemma PayloadFramed(cfg: Config, base: string, j: Joint)
    requires WellFramed(cfg, base, j) && j.phase.HeadWritten?
    ensures WellFramed(cfg, base, Payload(j))
  {
    FlattenOne(j.phase.part.payload);
    WriteStepFramed(cfg, base, j, PayloadCall(j.conn, j.phase.part, j.phase.source),
                    PayloadWritten(j.phase.part, j.phase.time));
  }

  lemma {:induction false} FinishFramed(cfg: Config, base: string, j: Joint)
    requires WellFramed(cfg, base, j) && j.phase.PayloadWritten?
    ensures WellFramed(cfg, base, Finish(cfg, j))
  {
    var p, call := j.phase.part, FooterCall(j.conn, cfg);
    var w := Write(j.conn, call);
    WriteValid(j.conn, call);
    if w.threw {
      assert w.state.log[..|j.conn.log|] == j.conn.log;
    } else {
      CallsAppend(j.conn.log, [call]);
      CallsOne(call);
      FlattenOne(Delimiter(cfg.boundary));
      EncodePartsAppend(j.accepted, p, cfg.boundary);
      Regroup(base, EncodeParts(j.accepted, cfg.boundary), PartHead(p) + p.payload, Delimiter(cfg.boundary));
    }
  }

  lemma Regroup(base: string, done: string, part: string, end: string)
    ensures base + done + part + end == base + (done + (part + end))
    ensures base + (done + (part + end)) + [] == base + (done + (part + end))
  {
  }

  lemma NetworkFramed(cfg: Config, base: string, j: Joint, e: Event<char>)
    requires WellFramed(cfg, base, j) && !e.WriteCalled? && Enabled(j.conn, e)
    ensures WellFramed(cfg, base, j.(conn := Apply(j.conn, e)))
  {
    ApplyValid(j.conn, e);
  }

  lemma ActFramed(cfg: Config, base: string, j: Joint, a: Action)
    requires WellFramed(cfg, base, j) && Possible(j, a)
    ensures WellFramed(cfg, base, Act(cfg, j, a))
  {
    match a {
      case Offered(now, time, p, source) => OfferFramed(cfg, base, j, now, time, p, source);
      case PayloadStep => PayloadFramed(cfg, base, j);
      case FooterStep => FinishFramed(cfg, base, j);
      case Network(e) => NetworkFramed(cfg, base, j, e);
    }
  }

  lemma {:induction false} PlayFramed(cfg: Config, base: string, j: Joint, actions: seq<Action>)
    requires WellFramed(cfg, base, j) && Plays(cfg, j, actions)
    ensures WellFramed(cfg, base, Play(cfg, j, actions))
    decreases |actions|
  {
    if actions != [] {
      ActFramed(cfg, base, j, actions[0]);
      PlayFramed(cfg, base, Act(cfg, j, actions[0]), actions[1..]);
    }
  }

  lemma StartFramed(cfg: Config, c: Connection<char>, now: int)
    requires Valid(c)
    ensures WellFramed(cfg, BytesOf(c.log), Start(c, now))
  {
    assert BytesOf(c.log) + [] + [] == BytesOf(c.log);
  }

  // ---------- what the client sees ----------

  /** A part under way is not decoded. */
  lemma {:induction false} PartialIsNoPart(phase: Phase, boundary: string)
    requires phase.Idle? || OneLine(phase.part.contentType)
    ensures DecodePart(Partial(phase), boundary) == None
  {
    match phase {
      case Idle =>
      case HeadWritten(p, _, _) =>
        DecodeAfterHead(p, [], boundary);
        assert PartHead(p) + [] == PartHead(p);
      case PayloadWritten(p, _) =>
        DecodeAfterHead(p, p.payload, boundary);
    }
  }

  predicate CleanTypes(j: Joint) {
    && (forall i :: 0 <= i < |j.accepted| ==> OneLine(j.accepted[i].contentType))
    && (j.phase.Idle? || OneLine(j.phase.part.contentType))
    && (j.broken.Some? && !j.broken.value.phase.Idle? ==> OneLine(j.broken.value.phase.part.contentType))
  }

  /** Behind any beginning: in every run of the stream and its connection, with completions
      and errors anywhere, what a client that knows the boundary decodes from the bytes that
      have arrived after the initial ones is a prefix of the accepted parts; and when
      everything written has arrived it is all of them. */
  lemma {:induction false} PartsAfterAnyBeginning(cfg: Config, c: Connection<char>, now: int, actions: seq<Action>)
    requires Valid(c) && Plays(cfg, Start(c, now), actions)
    requires CleanTypes(Play(cfg, Start(c, now), actions))
    ensures var j, base := Play(cfg, Start(c, now), actions), BytesOf(c.log);
            && Valid(j.conn)
            && (|j.conn.Wire()| >= |base| ==>
                  && j.conn.Wire()[..|base|] == base
                  && DecodeParts(j.conn.Wire()[|base|..], cfg.boundary) <= j.accepted)
            && (j.broken.None? && j.conn.Wire() == BytesOf(j.conn.log) ==>
                  |j.conn.Wire()| >= |base|
                  && DecodeParts(j.conn.Wire()[|base|..], cfg.boundary) == j.accepted)
  {
    var j, base := Play(cfg, Start(c, now), actions), BytesOf(c.log);
    StartFramed(cfg, c, now);
    PlayFramed(cfg, base, Start(c, now), actions);
    var phase := if j.broken.Some? then j.broken.value.phase else j.phase;
    PartialIsNoPart(phase, cfg.boundary);
    WireWithin(cfg, base, j);
    DecodeArrived(base, j.accepted, Partial(phase), j.conn.Wire(), cfg.boundary);
  }

  lemma {:induction false} DecodeArrived(base: string, ps: seq<Part>, tail: string, wire: string, boundary: string)
    requires forall i :: 0 <= i < |ps| ==> OneLine(ps[i].contentType)
    requires DecodePart(tail, boundary) == None
    requires wire <= base + EncodeParts(ps, boundary) + tail
    ensures |wire| >= |base| ==>
              wire[..|base|] == base && DecodeParts(wire[|base|..], boundary) <= ps
    ensures wire == base + EncodeParts(ps, boundary) + tail ==>
              |wire| >= |base| && DecodeParts(wire[|base|..], boundary) == ps
  {
    var whole := EncodeParts(ps, boundary) + tail;
    AppendAssociative(base, EncodeParts(ps, boundary), tail);
    DecodePartsBack(ps, tail, boundary);
    if |wire| >= |base| {
      var more := PrefixAfter(base, whole, wire);
      DecodeMonotone(wire[|base|..], more, boundary);
    }
  }

  lemma PrefixAfter(base: string, whole: string, wire: string) returns (more: string)
    requires wire <= base + whole && |wire| >= |base|
    ensures wire[..|base|] == base
    ensures wire[|base|..] + more == whole
    ensures wire == base + whole ==> wire[|base|..] == whole
  {
    var n := |wire| - |base|;
    more := whole[n..];
    assert wire[|base|..] == whole[..n];
  }

  /** What has reached the client is a prefix of the well-framed bytes. */
  lemma {:induction false} WireWithin(cfg: Config, base: string, j: Joint)
    requires WellFramed(cfg, base, j)
    ensures j.conn.Wire() <=
            Framed(cfg, base, j.accepted, if j.broken.Some? then j.broken.value.phase else j.phase)
  {
    var log := j.conn.log;
    var end := if j.broken.Some? then j.broken.value.logLength else |log|;
    assert log[..|log|] == log;
    WirePrefix(j.conn);
    LogSplit(j.conn);
    LogBytes(log, j.conn.started, end);
    assert j.conn.Finished() <= BytesOf(log[..j.conn.started]) <= BytesOf(log[..end]);
  }

  // ---------- the queue invariant ----------

  /** An allocated owner is named after the one call that allocated it. */
  ghost predicate OwnNames(log: seq<Call<char>>) {
    forall k, i :: 0 <= k < |log| && log[k].owner == Some(Allocated(i)) ==> i == k
  }

  /** Footer `f` was written by a call in the log. */
  ghost predicate Written(log: seq<Call<char>>, f: Footer) {
    && f.owner.Allocated? && f.owner.call < |log|
    && log[f.owner.call].owner == Some(f.owner) && log[f.owner.call].buffers != []
  }

  /** The footers ever queued were written by calls of the log, in order. */
  ghost predicate FootersWritten(c: Connection<char>, sent: seq<Footer>) {
    && OwnNames(c.log)
    && (forall i :: 0 <= i < |sent| ==> Written(c.log, sent[i]))
    && (forall a, b :: 0 <= a < b < |sent| ==> sent[a].owner.call < sent[b].owner.call)
  }

  /** The queue is what is left of them, and leaves room for a part under way. */
  ghost predicate Queued(cfg: Config, j: Joint) {
    && Valid(j.conn)
    && FootersWritten(j.conn, j.sent)
    && IsSuffix(j.queue, j.sent)
    && |j.queue| <= cfg.maxQueueSize
    && (cfg.maxQueueSize > 0 ==> |j.sent| == |j.accepted|)
    && (!j.phase.Idle? && cfg.maxQueueSize > 0 ==> |j.queue| < cfg.maxQueueSize)
  }

  /** First in, first out: the connection still holds a footer exactly when its write
      call has not been released, so released footers come before held ones. */
  lemma {:induction false} HeldFooter(c: Connection<char>, f: Footer)
    requires Valid(c) && OwnNames(c.log) && Written(c.log, f)
    ensures c.Holds(f.owner) <==> c.released <= f.owner.call
  {
    HeldExactlyUntilReleased(c, f.owner);
    if c.Holds(f.owner) {
      var k :| c.released <= k < |c.log| && c.log[k].owner == Some(f.owner);
      assert k == f.owner.call;
    }
  }

  /** Without a write error, a footer that has expired has reached the peer, together
      with everything written before it. */
  lemma {:induction false} ExpiredMeansSent(cfg: Config, j: Joint, i: nat)
    requires Queued(cfg, j) && i < |j.sent| && j.conn.failure.None?
    ensures !j.conn.Holds(j.sent[i].owner) ==>
              BytesOf(j.conn.log[..j.sent[i].owner.call + 1]) <= j.conn.Wire()
  {
    var f := j.sent[i];
    assert Written(j.conn.log, f);
    HeldFooter(j.conn, f);
    if !j.conn.Holds(f.owner) {
      LogBytes(j.conn.log, f.owner.call + 1, j.conn.released);
    }
  }

  lemma {:induction false} PopIsSuffix(c: Connection<char>, queue: seq<Footer>, now: int, limit: real)
    ensures IsSuffix(PopStale(c, queue, now, limit), queue)
  {
    hide Stale, IsSuffix;
    if queue == [] {
      NothingIsSuffix(c, now, limit);
    } else {
      SuffixTail(queue);
      if Stale(c, queue[0], now, limit) {
        PopIsSuffix(c, queue[1..], now, limit);
        SuffixOfSuffix(PopStale(c, queue, now, limit), queue[1..], queue);
      }
    }
  }

  lemma NothingIsSuffix(c: Connection<char>, now: int, limit: real)
    ensures IsSuffix(PopStale(c, [], now, limit), [])
  {
  }

  lemma PopLength(c: Connection<char>, queue: seq<Footer>, now: int, limit: real)
    ensures |PopStale(c, queue, now, limit)| <= |queue|
  {
    PopIsSuffix(c, queue, now, limit);
  }

  lemma {:induction false} PoppedWereStale(c: Connection<char>, queue: seq<Footer>, now: int, limit: real)
    ensures forall i :: 0 <= i < |queue| - |PopStale(c, queue, now, limit)| ==> Stale(c, queue[i], now, limit)
  {
    hide Stale;
    if queue != [] && Stale(c, queue[0], now, limit) {
      var rest := queue[1..];
      PoppedWereStale(c, rest, now, limit);
      forall i | 0 <= i < |queue| - |PopStale(c, queue, now, limit)| ensures Stale(c, queue[i], now, limit) {
        if i > 0 {
          assert queue[i] == rest[i - 1];
        }
      }
    }
  }

  lemma {:induction false} WriteStepQueued(cfg: Config, j: Joint, call: Call<char>, next: Phase)
    requires Queued(cfg, j)
    requires forall i :: call.owner == Some(Allocated(i)) ==> i == |j.conn.log|
    requires !next.Idle? && cfg.maxQueueSize > 0 ==> |j.queue| < cfg.maxQueueSize
    ensures Queued(cfg, WriteStep(j, call, next))
  {
    hide Valid;
    WriteValid(j.conn, call);
    var log := Write(j.conn, call).state.log;
    assert log == j.conn.log + [call];
    forall i | 0 <= i < |j.sent| ensures Written(log, j.sent[i]) {
      assert Written(j.conn.log, j.sent[i]);
    }
  }

  lemma {:induction false} PopQueued(cfg: Config, j: Joint, now: int)
    requires Queued(cfg, j)
    ensures Queued(cfg, Popped(cfg, j, now))
  {
    hide Valid, PopStale, FootersWritten, IsSuffix;
    PopIsSuffix(j.conn, j.queue, now, cfg.ageLimit);
    SuffixOfSuffix(Popped(cfg, j, now).queue, j.queue, j.sent);
    PopLength(j.conn, j.queue, now, cfg.ageLimit);
  }

  lemma OfferQueued(cfg: Config, j: Joint, now: int, time: int, p: Part, source: Source)
    requires Queued(cfg, j) && j.phase.Idle?
    ensures Queued(cfg, Offer(cfg, j, now, time, p, source))
  {
    PopQueued(cfg, j, now);
    var k := Popped(cfg, j, now);
    if !Full(cfg, k.queue) {
      WriteStepQueued(cfg, k, HeadCall(k.conn, p), HeadWritten(p, time, source));
    }
  }

  lemma {:induction false} FooterQueued(cfg: Config, j: Joint, p: Part, f: Footer)
    requires Queued(cfg, j) && j.phase.Idle? && |j.queue| < cfg.maxQueueSize
    requires Written(j.conn.log, f)
    requires forall i :: 0 <= i < |j.sent| ==> j.sent[i].owner.call < f.owner.call
    ensures Queued(cfg, j.(accepted := j.accepted + [p], queue := j.queue + [f], sent := j.sent + [f]))
  {
    hide Valid, IsSuffix;
    SuffixAppend(j.queue, j.sent, f);
  }

  lemma {:induction false} FinishQueued(cfg: Config, j: Joint)
    requires Queued(cfg, j) && j.phase.PayloadWritten?
    ensures Queued(cfg, Finish(cfg, j))
  {
    var call := FooterCall(j.conn, cfg);
    WriteStepQueued(cfg, j, call, Idle);
    if !Write(j.conn, call).threw && cfg.maxQueueSize > 0 {
      var k := WriteStep(j, call, Idle);
      var f := Footer(j.phase.time, Allocated(|j.conn.log|));
      assert k.conn.log == j.conn.log + [call];
      forall i | 0 <= i < |j.sent| ensures j.sent[i].owner.call < f.owner.call {
        assert Written(j.conn.log, j.sent[i]);
      }
      FooterQueued(cfg, k, j.phase.part, f);
    }
  }

  lemma {:induction false} ActQueued(cfg: Config, j: Joint, a: Action)
    requires Queued(cfg, j) && Possible(j, a)
    ensures Queued(cfg, Act(cfg, j, a))
  {
    match a {
      case Offered(now, time, p, source) => OfferQueued(cfg, j, now, time, p, source);
      case PayloadStep =>
        WriteStepQueued(cfg, j, PayloadCall(j.conn, j.phase.part, j.phase.source),
                        PayloadWritten(j.phase.part, j.phase.time));
      case FooterStep => FinishQueued(cfg, j);
      case Network(e) =>
        ApplyValid(j.conn, e);
        assert j.conn.log + [] == j.conn.log;
    }
  }

  lemma {:induction false} PlayQueued(cfg: Config, j: Joint, actions: seq<Action>)
    requires Queued(cfg, j) && Plays(cfg, j, actions)
    ensures Queued(cfg, Play(cfg, j, actions))
    decreases |actions|
  {
    if actions != [] {
      ActQueued(cfg, j, actions[0]);
      PlayQueued(cfg, Act(cfg, j, actions[0]), actions[1..]);
    }
  }

  // ---------- memory ----------

  lemma {:induction false} PlayKeepsLog(cfg: Config, j: Joint, actions: seq<Action>)
    requires Valid(j.conn) && Plays(cfg, j, actions)
    ensures Valid(Play(cfg, j, actions).conn) && j.conn.log <= Play(cfg, j, actions).conn.log
    decreases |actions|
  {
    if actions != [] {
      ActKeepsLog(cfg, j, actions[0]);
      hide Valid, Act;
      PlayKeepsLog(cfg, Act(cfg, j, actions[0]), actions[1..]);
    }
  }

  lemma ActKeepsLog(cfg: Config, j: Joint, a: Action)
    requires Valid(j.conn) && Possible(j, a)
    ensures Valid(Act(cfg, j, a).conn) && j.conn.log <= Act(cfg, j, a).conn.log
  {
    hide Valid, PopStale, PartHeaders, HeaderBuffers;
    match a {
      case Offered(now, time, p, source) => WriteValid(j.conn, HeadCall(j.conn, p));
      case PayloadStep => WriteValid(j.conn, PayloadCall(j.conn, j.phase.part, j.phase.source));
      case FooterStep => WriteValid(j.conn, FooterCall(j.conn, cfg));
      case Network(e) => ApplyValid(j.conn, e);
    }
  }

  /** Memory, over every run: whatever happens after the write of a header block, of a
      payload or of a footer, its owner is held until the batch that carries the bytes has
      completed. A payload shared without naming an owner is the caller's concern. */
  lemma {:induction false} PartMemoryHeld(
      cfg: Config, c: Connection<char>, now: int, before: seq<Action>, a: Action, after: seq<Action>)
    requires Valid(c) && Plays(cfg, Start(c, now), before)
    requires Possible(Play(cfg, Start(c, now), before), a)
    requires Plays(cfg, Act(cfg, Play(cfg, Start(c, now), before), a), after)
    requires !a.Network? && Act(cfg, Play(cfg, Start(c, now), before), a).conn != Play(cfg, Start(c, now), before).conn
    ensures var j := Play(cfg, Start(c, now), before);
            var l, n := Play(cfg, Act(cfg, j, a), after).conn, |j.conn.log|;
            && n < |l.log|
            && Flatten(l.log[n].buffers) ==
               (match a
                case Offered(_, _, p, _) => PartHead(p)
                case PayloadStep => j.phase.part.payload
                case _ => "\r\n--" + cfg.boundary + "\r\n")
            && (l.released <= n ==>
                  if !a.PayloadStep? || j.phase.source.Moved? then l.Holds(Allocated(n))
                  else j.phase.source.resource.Some? ==> l.Holds(External(j.phase.source.resource.value)))
  {
    var j := Play(cfg, Start(c, now), before);
    var n, k := |j.conn.log|, Act(cfg, j, a).conn;
    PlayKeepsLog(cfg, Start(c, now), before);
    ActKeepsLog(cfg, j, a);
    PlayKeepsLog(cfg, Act(cfg, j, a), after);
    var call := CallWritten(cfg, j, a);
    hide Valid, Plays, Play, Act, HeaderBuffers, PartHeaders;
    var l := Play(cfg, Act(cfg, j, a), after).conn;
    assert l.log[n] == k.log[n] == call;
    if call.owner.Some? {
      HeldExactlyUntilReleased(l, call.owner.value);
    }
  }

  /** The call that a step of the stream writes. */
  lemma CallWritten(cfg: Config, j: Joint, a: Action) returns (call: Call<char>)
    requires Possible(j, a) && !a.Network? && Act(cfg, j, a).conn != j.conn
    ensures Act(cfg, j, a).conn.log == j.conn.log + [call]
    ensures Flatten(call.buffers) ==
            (match a
             case Offered(_, _, p, _) => PartHead(p)
             case PayloadStep => j.phase.part.payload
             case _ => "\r\n--" + cfg.boundary + "\r\n")
    ensures call.owner ==
            if !a.PayloadStep? || j.phase.source.Moved? then Some(Allocated(|j.conn.log|))
            else if j.phase.source.resource.Some? then Some(External(j.phase.source.resource.value)) else None
  {
    match a {
      case Offered(now, time, p, source) =>
        call := HeadCall(j.conn, p);
        HeaderBuffersFlatten(PartHeaders(p.contentType, p.stamp, |p.payload|));
      case PayloadStep =>
        call := PayloadCall(j.conn, j.phase.part, j.phase.source);
        FlattenOne(j.phase.part.payload);
      case FooterStep =>
        call := FooterCall(j.conn, cfg);
        FlattenOne(Delimiter(cfg.boundary));
    }
    hide PopStale, PartHeaders, HeaderBuffers, Flatten;
  }

  // ---------- exactness of the backpressure ----------

  ghost predicate InOrderOfTime(footers: seq<Footer>) {
    forall a, b :: 0 <= a < b < |footers| ==> footers[a].timestamp <= footers[b].timestamp
  }

  /** The footers that count against the maximum: the connection still holds them, and they
      are within the age limit. */
  function Waiting(c: Connection<char>, now: int, limit: real): Footer -> bool {
    (f: Footer) => c.Holds(f.owner) && (now - f.timestamp) as real <= limit
  }

  /** Popping the front is filtering the queue exactly when no stale footer stands
      behind one that is not. */
  lemma {:induction false} PopFiltersExactlyWhen(c: Connection<char>, queue: seq<Footer>, now: int, limit: real)
    ensures PopStale(c, queue, now, limit) == Filter(queue, Waiting(c, now, limit))
            <==> forall a, b :: 0 <= a < b < |queue| && Stale(c, queue[b], now, limit)
                   ==> Stale(c, queue[a], now, limit)
  {
    var kept := Waiting(c, now, limit);
    if queue != [] {
      var rest := queue[1..];
      if Stale(c, queue[0], now, limit) {
        PopFiltersExactlyWhen(c, rest, now, limit);
        assert [] + Filter(rest, kept) == Filter(rest, kept);
        OrderOfRest(c, queue, now, limit);
      } else if b :| 0 < b < |queue| && Stale(c, queue[b], now, limit) {
        assert rest[b - 1] == queue[b];
        FilterDrops(rest, kept, b - 1);
      } else {
        FilterAll(queue, kept);
      }
    }
  }

  lemma OrderOfRest(c: Connection<char>, queue: seq<Footer>, now: int, limit: real)
    requires queue != [] && Stale(c, queue[0], now, limit)
    ensures (forall a, b :: 0 <= a < b < |queue| && Stale(c, queue[b], now, limit) ==> Stale(c, queue[a], now, limit))
       <==> (forall a, b :: 0 <= a < b < |queue[1..]| && Stale(c, queue[1..][b], now, limit)
               ==> Stale(c, queue[1..][a], now, limit))
  {
    var rest := queue[1..];
    if forall a, b :: 0 <= a < b < |queue| && Stale(c, queue[b], now, limit) ==> Stale(c, queue[a], now, limit) {
      forall a, b | 0 <= a < b < |rest| && Stale(c, rest[b], now, limit) ensures Stale(c, rest[a], now, limit) {
        assert rest[b] == queue[b + 1] && rest[a] == queue[a + 1];
      }
    }
    if forall a, b :: 0 <= a < b < |rest| && Stale(c, rest[b], now, limit) ==> Stale(c, rest[a], now, limit) {
      forall a, b | 0 <= a < b < |queue| && Stale(c, queue[b], now, limit) ensures Stale(c, queue[a], now, limit) {
        if a > 0 {
          assert rest[b - 1] == queue[b] && rest[a - 1] == queue[a];
        }
      }
    }
  }

  lemma {:induction false} FilterDrops<T>(s: seq<T>, keep: T -> bool, i: nat)
    requires i < |s| && !keep(s[i])
    ensures |Filter(s, keep)| < |s|
  {
    if i == 0 {
      FilterLength(s[1..], keep);
    } else {
      FilterDrops(s[1..], keep, i - 1);
    }
  }

  /** Owners are released in the order in which footers were queued: behind a footer
      the connection still holds, every footer is held. */
  lemma {:induction false} ExpiredFootersAreAPrefix(cfg: Config, j: Joint)
    requires Queued(cfg, j)
    ensures forall a, b :: 0 <= a < b < |j.queue| && j.conn.Holds(j.queue[a].owner)
              ==> j.conn.Holds(j.queue[b].owner)
  {
    hide Valid, FootersWritten, IsSuffix;
    SuffixElement(j.queue, j.sent);
    var skip := |j.sent| - |j.queue|;
    forall a, b | 0 <= a < b < |j.queue| && j.conn.Holds(j.queue[a].owner)
      ensures j.conn.Holds(j.queue[b].owner)
    {
      assert j.sent[skip + a] == j.queue[a] && j.sent[skip + b] == j.queue[b];
      HeldInOrder(j.conn, j.sent, skip + a, skip + b);
    }
  }

  lemma HeldInOrder(c: Connection<char>, sent: seq<Footer>, a: nat, b: nat)
    requires Valid(c) && FootersWritten(c, sent) && a < b < |sent|
    ensures c.Holds(sent[a].owner) ==> c.Holds(sent[b].owner)
  {
    HeldFooter(c, sent[a]);
    HeldFooter(c, sent[b]);
  }

  /** Backpressure, with its exact condition: what popping leaves in the queue is exactly
      the footers that the connection still holds and that are not over age, if and only
      if no over-age footer stands behind one that is kept. */
  lemma {:induction false} PoppingExactlyWhen(cfg: Config, j: Joint, now: int)
    requires Queued(cfg, j)
    ensures PopStale(j.conn, j.queue, now, cfg.ageLimit) == Filter(j.queue, Waiting(j.conn, now, cfg.ageLimit))
            <==> forall a, b :: 0 <= a < b < |j.queue| && (now - j.queue[b].timestamp) as real > cfg.ageLimit
                   ==> !j.conn.Holds(j.queue[a].owner) || (now - j.queue[a].timestamp) as real > cfg.ageLimit
  {
    ExpiredFootersAreAPrefix(cfg, j);
    PopFiltersExactlyWhen(j.conn, j.queue, now, cfg.ageLimit);
  }

  /** Backpressure exactness: the condition holds in every reachable state whose parts
      were offered in the order of their timestamps. */
  lemma {:induction false} PoppingIsExact(cfg: Config, j: Joint, now: int)
    requires Queued(cfg, j) && InOrderOfTime(j.sent)
    ensures PopStale(j.conn, j.queue, now, cfg.ageLimit) == Filter(j.queue, Waiting(j.conn, now, cfg.ageLimit))
  {
    hide Valid, FootersWritten, PopStale, IsSuffix;
    SuffixElement(j.queue, j.sent);
    var skip := |j.sent| - |j.queue|;
    forall a, b | 0 <= a < b < |j.queue| && (now - j.queue[b].timestamp) as real > cfg.ageLimit
      ensures (now - j.queue[a].timestamp) as real > cfg.ageLimit
    {
      assert j.sent[skip + a] == j.queue[a] && j.sent[skip + b] == j.queue[b];
    }
    PoppingExactlyWhen(cfg, j, now);
  }

  /** The same over runs: any sequence of steps, with completions and errors anywhere. */
  lemma BackpressureIsExact(cfg: Config, c: Connection<char>, start: int, actions: seq<Action>, now: int)
    requires Valid(c) && OwnNames(c.log) && Plays(cfg, Start(c, start), actions)
    requires InOrderOfTime(Play(cfg, Start(c, start), actions).sent)
    ensures var j := Play(cfg, Start(c, start), actions);
            Popped(cfg, j, now).queue
            == Filter(j.queue, (f: Footer) => j.conn.Holds(f.owner) && (now - f.timestamp) as real <= cfg.ageLimit)
  {
    StartQueued(cfg, c, start);
    PlayQueued(cfg, Start(c, start), actions);
    PoppingIsExact(cfg, Play(cfg, Start(c, start), actions), now);
  }

  // ---------- the bound on outstanding parts ----------

  predicate ClockRuns(clock: int, actions: seq<Action>)
    decreases |actions|
  {
    actions != [] ==>
      if actions[0].Offered? then clock <= actions[0].now && ClockRuns(actions[0].now, actions[1..])
      else ClockRuns(clock, actions[1..])
  }

  /** Every footer that has left the queue is released or over age. */
  ghost predicate PoppedAreStale(cfg: Config, j: Joint) {
    forall i :: 0 <= i < |j.sent| - |j.queue| ==> Stale(j.conn, j.sent[i], j.clock, cfg.ageLimit)
  }

  lemma {:induction false} StaysStale(cfg: Config, j: Joint, k: Joint, i: nat)
    requires Queued(cfg, j) && Queued(cfg, k) && j.sent <= k.sent && i < |j.sent|
    requires j.conn.released <= k.conn.released && j.clock <= k.clock
    requires Stale(j.conn, j.sent[i], j.clock, cfg.ageLimit)
    ensures Stale(k.conn, k.sent[i], k.clock, cfg.ageLimit)
  {
    assert j.sent[i] == k.sent[i];
    HeldFooter(j.conn, j.sent[i]);
    HeldFooter(k.conn, k.sent[i]);
  }

  lemma {:induction false} PopPopped(cfg: Config, j: Joint, now: int)
    requires Queued(cfg, j) && PoppedAreStale(cfg, j) && j.clock <= now
    ensures Queued(cfg, Popped(cfg, j, now)) && PoppedAreStale(cfg, Popped(cfg, j, now))
  {
    hide Valid, PopStale, FootersWritten, IsSuffix;
    var k := Popped(cfg, j, now);
    PopQueued(cfg, j, now);
    PoppedWereStale(j.conn, j.queue, now, cfg.ageLimit);
    SuffixElement(j.queue, j.sent);
    forall i | 0 <= i < |k.sent| - |k.queue| ensures Stale(k.conn, k.sent[i], k.clock, cfg.ageLimit) {
      if i < |j.sent| - |j.queue| {
        assert Stale(j.conn, j.sent[i], j.clock, cfg.ageLimit);
      } else {
        assert j.sent[i] == j.queue[i - (|j.sent| - |j.queue|)];
      }
    }
  }

  /** What an action does to the queue, after a check of it has popped what is stale. */
  lemma ActOnQueue(cfg: Config, j: Joint, a: Action)
    requires Valid(j.conn) && Possible(j, a)
    ensures var k := Act(cfg, j, a);
            var l := if a.Offered? then Popped(cfg, j, a.now) else j;
            && l.sent <= k.sent && l.conn.released <= k.conn.released && l.clock == k.clock
            && |l.sent| - |l.queue| == |k.sent| - |k.queue|
  {
    assert a.Network? ==> j.conn.released <= Apply(j.conn, a.event).released;
    hide Valid, PopStale, HeadCall, PayloadCall, FooterCall, WriteStep, Write, Apply;
    match a {
      case Offered(now, time, p, source) =>
        var l := Popped(cfg, j, now);
        WriteStepOnQueue(l, HeadCall(l.conn, p), HeadWritten(p, time, source));
      case PayloadStep =>
        WriteStepOnQueue(j, PayloadCall(j.conn, j.phase.part, j.phase.source),
                         PayloadWritten(j.phase.part, j.phase.time));
      case FooterStep =>
        WriteStepOnQueue(j, FooterCall(j.conn, cfg), Idle);
      case Network(e) =>
    }
  }

  lemma WriteStepOnQueue(j: Joint, call: Call<char>, next: Phase)
    requires Valid(j.conn)
    ensures var k := WriteStep(j, call, next);
            && k.queue == j.queue && k.sent == j.sent && k.clock == j.clock
            && j.conn.released <= k.conn.released
  {
    assert j.conn.released <= j.conn.started;
    hide Valid;
  }

  lemma {:induction false} ActPopped(cfg: Config, j: Joint, a: Action)
    requires Queued(cfg, j) && PoppedAreStale(cfg, j) && Possible(j, a)
    requires a.Offered? ==> j.clock <= a.now
    ensures Queued(cfg, Act(cfg, j, a)) && PoppedAreStale(cfg, Act(cfg, j, a))
  {
    ActOnQueue(cfg, j, a);
    ActQueued(cfg, j, a);
    hide Act, Queued, Popped, Stale;
    var k := Act(cfg, j, a);
    var l := if a.Offered? then Popped(cfg, j, a.now) else j;
    if a.Offered? {
      PopPopped(cfg, j, a.now);
    }
    forall i | 0 <= i < |k.sent| - |k.queue| ensures Stale(k.conn, k.sent[i], k.clock, cfg.ageLimit) {
      StaysStale(cfg, l, k, i);
    }
  }

  lemma {:induction false} PlayPopped(cfg: Config, j: Joint, actions: seq<Action>)
    requires Queued(cfg, j) && PoppedAreStale(cfg, j)
    requires Plays(cfg, j, actions) && ClockRuns(j.clock, actions)
    ensures var k := Play(cfg, j, actions);
            Queued(cfg, k) && PoppedAreStale(cfg, k)
    decreases |actions|
  {
    if actions != [] {
      ActPopped(cfg, j, actions[0]);
      PlayPopped(cfg, Act(cfg, j, actions[0]), actions[1..]);
    }
  }

  /** The bound: in every run with a clock that does not go back, of the parts accepted,
      one footer each, those still held by the connection and within the age limit at the
      last clock reading number at most `maxQueueSize`. (Without a maximum nothing is
      queued.) */
  lemma {:induction false} OutstandingPartsBounded(cfg: Config, c: Connection<char>, now: int, actions: seq<Action>)
    requires Valid(c) && OwnNames(c.log)
    requires Plays(cfg, Start(c, now), actions) && ClockRuns(now, actions)
    ensures var j := Play(cfg, Start(c, now), actions);
            && |j.queue| <= cfg.maxQueueSize
            && (cfg.maxQueueSize > 0 ==> |j.sent| == |j.accepted|)
            && |Filter(j.sent, (f: Footer) =>
                         j.conn.Holds(f.owner) && (j.clock - f.timestamp) as real <= cfg.ageLimit)| <= cfg.maxQueueSize
  {
    StartQueued(cfg, c, now);
    PlayPopped(cfg, Start(c, now), actions);
    BoundOfPopped(cfg, Play(cfg, Start(c, now), actions));
  }

  lemma StartQueued(cfg: Config, c: Connection<char>, now: int)
    requires Valid(c) && OwnNames(c.log)
    ensures Queued(cfg, Start(c, now)) && PoppedAreStale(cfg, Start(c, now))
  {
  }

  lemma {:induction false} BoundOfPopped(cfg: Config, j: Joint)
    requires Queued(cfg, j) && PoppedAreStale(cfg, j)
    ensures |Filter(j.sent, Waiting(j.conn, j.clock, cfg.ageLimit))| <= cfg.maxQueueSize
  {
    hide Valid, FootersWritten, IsSuffix;
    var kept := Waiting(j.conn, j.clock, cfg.ageLimit);
    forall i | 0 <= i < |j.sent| - |j.queue| ensures !kept(j.sent[i]) {
      assert Stale(j.conn, j.sent[i], j.clock, cfg.ageLimit);
    }
    FilterSuffix(j.queue, j.sent, kept);
    FilterLength(j.queue, kept);
  }

  /** A refused part changes nothing on the connection. */
  lemma RefusedLeavesNoTrace(cfg: Config, j: Joint, now: int, time: int, p: Part, source: Source)
    requires Queued(cfg, j) && InOrderOfTime(j.sent) && j.phase.Idle?
    ensures var k := Offer(cfg, j, now, time, p, source);
            var waiting := Filter(j.queue, (f: Footer) =>
                             j.conn.Holds(f.owner) && (now - f.timestamp) as real <= cfg.ageLimit);
            (k.conn == j.conn <==> cfg.maxQueueSize > 0 && |waiting| == cfg.maxQueueSize)
  {
    PoppingIsExact(cfg, j, now);
    FilterLength(j.queue, Waiting(j.conn, now, cfg.ageLimit));
    var k := Popped(cfg, j, now);
    if !Full(cfg, k.queue) {
      assert |Write(k.conn, HeadCall(k.conn, p)).state.log| == |j.conn.log| + 1;
    }
  }

  lemma {:induction false} NoneHeld(c: Connection<char>, queue: seq<Footer>, now: int, limit: real)
    requires forall i :: 0 <= i < |queue| ==> !c.Holds(queue[i].owner)
    ensures PopStale(c, queue, now, limit) == []
  {
    if queue != [] {
      NoneHeld(c, queue[1..], now, limit);
    }
  }

  /** Nothing is refused without cause: over every run, whatever the timestamps, once
      everything has been sent without error a part offered at any clock reading is
      accepted and its head handed to the socket at once. */
  lemma {:induction false} DrainedStreamAccepts(
      cfg: Config, c: Connection<char>, start: int, actions: seq<Action>,
      now: int, time: int, p: Part, source: Source)
    requires Valid(c) && OwnNames(c.log) && Plays(cfg, Start(c, start), actions)
    requires var j := Play(cfg, Start(c, start), actions);
             j.phase.Idle? && !j.conn.lastError && j.conn.outstanding == [] && j.conn.pendingBuffers == []
    ensures var j := Play(cfg, Start(c, start), actions);
            var k := Offer(cfg, j, now, time, p, source);
            && k.phase == HeadWritten(p, time, source) && |k.conn.outstanding| == 1
            && k.conn.Wire() + k.conn.InFlight() == j.conn.Wire() + PartHead(p)
  {
    hide Plays, Play, Queued, PopStale, Offer;
    var j := Play(cfg, Start(c, start), actions);
    StartQueued(cfg, c, start);
    PlayQueued(cfg, Start(c, start), actions);
    NoFooterHeld(cfg, j);
    NoneHeld(j.conn, j.queue, now, cfg.ageLimit);
    OfferToIdle(cfg, j, now, time, p, source);
  }

  lemma OfferToIdle(cfg: Config, j: Joint, now: int, time: int, p: Part, source: Source)
    requires Valid(j.conn) && PopStale(j.conn, j.queue, now, cfg.ageLimit) == []
    requires !j.conn.lastError && j.conn.outstanding == [] && j.conn.pendingBuffers == []
    ensures var k := Offer(cfg, j, now, time, p, source);
            && k.phase == HeadWritten(p, time, source) && |k.conn.outstanding| == 1
            && k.conn.Wire() + k.conn.InFlight() == j.conn.Wire() + PartHead(p)
  {
    HeaderBuffersFlatten(PartHeaders(p.contentType, p.stamp, |p.payload|));
    assert !j.conn.writeInProgress && j.conn.failure.None?;
    hide PartHeaders, HeaderBuffers, PopStale, Valid;
    assert [] + HeadCall(j.conn, p).buffers == HeadCall(j.conn, p).buffers;
  }

  lemma {:induction false} NoFooterHeld(cfg: Config, j: Joint)
    requires Queued(cfg, j) && j.conn.outstanding == [] && j.conn.pendingBuffers == []
    ensures forall i :: 0 <= i < |j.queue| ==> !j.conn.Holds(j.queue[i].owner)
  {
    SuffixElement(j.queue, j.sent);
    WaitingCalls(j.conn.log[j.conn.started..]);
    SuffixBuffers(j.conn.log, j.conn.started);
    forall i | 0 <= i < |j.queue| ensures !j.conn.Holds(j.queue[i].owner) {
      var f := j.sent[|j.sent| - |j.queue| + i];
      assert f == j.queue[i] && Written(j.conn.log, f);
      HeldFooter(j.conn, f);
      assert j.conn.log[f.owner.call].buffers != [];
      assert !exists k :: j.conn.started <= k < |j.conn.log| && j.conn.log[k].buffers != [];
    }
  }

  /** Offering a part without interruption is a run of the joint system. */
  lemma WholeIsARun(cfg: Config, j: Joint, now: int, time: int, p: Part, source: Source)
      returns (actions: seq<Action>)
    requires j.phase.Idle?
    ensures 1 <= |actions| <= 3 && actions <= [Offered(now, time, p, source), PayloadStep, FooterStep]
    ensures Plays(cfg, j, actions) && Play(cfg, j, actions) == Whole(cfg, j, now, time, p, source)
  {
    var a0, a1, a2 := Offered(now, time, p, source), PayloadStep, FooterStep;
    var j1 := Offer(cfg, j, now, time, p, source);
    assert [a0][1..] == [] && [a1][1..] == [] && [a2][1..] == [];
    assert Plays(cfg, j1, []) && Play(cfg, j1, []) == j1;
    if !j1.phase.HeadWritten? {
      return [a0];
    }
    var j2 := Payload(j1);
    assert [a0, a1][1..] == [a1];
    assert Plays(cfg, j2, []) && Play(cfg, j2, []) == j2;
    assert Plays(cfg, j1, [a1]) && Play(cfg, j1, [a1]) == j2;
    if !j2.phase.PayloadWritten? {
      return [a0, a1];
    }
    var j3 := Finish(cfg, j2);
    assert [a0, a1, a2][1..] == [a1, a2] && [a1, a2][1..] == [a2];
    assert Plays(cfg, j3, []) && Play(cfg, j3, []) == j3;
    assert Plays(cfg, j2, [a2]) && Play(cfg, j2, [a2]) == j3;
    assert Plays(cfg, j1, [a1, a2]) && Play(cfg, j1, [a1, a2]) == j3;
    return [a0, a1, a2];
  }

  lemma {:induction false} PlayConcat(cfg: Config, j: Joint, a: seq<Action>, b: seq<Action>)
    requires Plays(cfg, j, a) && Plays(cfg, Play(cfg, j, a), b)
    ensures Plays(cfg, j, a + b) && Play(cfg, j, a + b) == Play(cfg, Play(cfg, j, a), b)
    decreases |a|
  {
    if a == [] {
      assert a + b == b;
    } else {
      assert (a + b)[0] == a[0] && (a + b)[1..] == a[1..] + b;
      PlayConcat(cfg, Act(cfg, j, a[0]), a[1..], b);
    }
  }

  /** A part offered to a stream that is not full and whose connection has no error is
      accepted, its footer is queued, and nothing is released. */
  lemma {:induction false} OfferAccepted(cfg: Config, j: Joint, now: int, time: int, p: Part)
    requires j.phase.Idle? && !j.conn.lastError
    requires |Popped(cfg, j, now).queue| < cfg.maxQueueSize
    ensures var k := Whole(cfg, j, now, time, p, Moved);
            var f := Footer(time, Allocated(|j.conn.log| + 2));
            && k.phase.Idle? && !k.conn.lastError && k.conn.released == j.conn.released
            && k.queue == Popped(cfg, j, now).queue + [f] && k.sent == j.sent + [f]
            && k.accepted == j.accepted + [p]
  {
    hide PartHeaders, HeaderBuffers, PopStale;
    var j1 := Offer(cfg, j, now, time, p, Moved);
    assert j1.phase == HeadWritten(p, time, Moved) && |j1.conn.log| == |j.conn.log| + 1;
    var j2 := Payload(j1);
    assert j2.phase == PayloadWritten(p, time) && |j2.conn.log| == |j.conn.log| + 2;
  }

  /** The same as a run of the joint system. */
  lemma OfferedRun(cfg: Config, j: Joint, now: int, time: int, p: Part) returns (k: Joint, f: Footer, actions: seq<Action>)
    requires Queued(cfg, j) && j.phase.Idle? && !j.conn.lastError
    requires |Popped(cfg, j, now).queue| < cfg.maxQueueSize
    ensures Plays(cfg, j, actions) && k == Play(cfg, j, actions) && Queued(cfg, k)
    ensures k.phase.Idle? && !k.conn.lastError && k.conn.released == j.conn.released
    ensures f.timestamp == time
    ensures k.queue == Popped(cfg, j, now).queue + [f] && k.sent == j.sent + [f]
  {
    hide Plays, Play, Whole, Queued, PopStale;
    actions := WholeIsARun(cfg, j, now, time, p, Moved);
    OfferAccepted(cfg, j, now, time, p);
    PlayQueued(cfg, j, actions);
    k := Play(cfg, j, actions);
    f := Footer(time, Allocated(|j.conn.log| + 2));
  }

  /** A stream that holds two parts. */
  function TwoPlaces(boundary: string): Config {
    Config(boundary, 2, 0.5)
  }

  /** The clock has gone back between two parts: with both footers still held, the second
      is over age and is not popped, because the first is not. */
  lemma {:induction false} OverAgeFooterStaysQueued(boundary: string, p: Part) returns (actions: seq<Action>)
    ensures Plays(TwoPlaces(boundary), Start(Fresh(), 10), actions)
    ensures var cfg := TwoPlaces(boundary);
            var j := Play(cfg, Start(Fresh(), 10), actions);
            && |j.queue| == 2 && j.queue[0].timestamp == 10 && j.queue[1].timestamp == 0
            && PopStale(j.conn, j.queue, 10, cfg.ageLimit) == j.queue
            && Filter(j.queue, Waiting(j.conn, 10, cfg.ageLimit)) == [j.queue[0]]
  {
    var cfg := TwoPlaces(boundary);
    var j0 := Start(Fresh(), 10);
    StartQueued(cfg, Fresh(), 10);
    assert |Popped(cfg, j0, 10).queue| == 0;
    hide Plays, Play, Queued, PopStale, Filter;
    var j1, f, first := OfferedRun(cfg, j0, 10, 10, p);
    HeldAtTheTime(cfg, j1);
    PopNothing(j1, 10, cfg.ageLimit);
    var j2, g, second := OfferedRun(cfg, j1, 10, 0, p);
    HeldAtTheTime(cfg, j2);
    PlayConcat(cfg, j0, first, second);
    actions := first + second;
    TwoFooters(j2, cfg.ageLimit);
  }

  lemma PopNothing(j: Joint, now: int, limit: real)
    requires j.queue != [] && j.conn.Holds(j.queue[0].owner) && j.queue[0].timestamp == now && limit == 0.5
    ensures PopStale(j.conn, j.queue, now, limit) == j.queue
  {
  }

  /** While no batch has been released every footer is held. */
  lemma HeldAtTheTime(cfg: Config, j: Joint)
    requires Queued(cfg, j) && j.conn.released == 0
    ensures forall i :: 0 <= i < |j.sent| ==> j.conn.Holds(j.sent[i].owner)
  {
    forall i | 0 <= i < |j.sent| ensures j.conn.Holds(j.sent[i].owner) {
      HeldFooter(j.conn, j.sent[i]);
    }
  }

  lemma TwoFooters(j: Joint, limit: real)
    requires |j.queue| == 2 && j.conn.Holds(j.queue[0].owner) && limit == 0.5
    requires j.queue[0].timestamp == 10 && j.queue[1].timestamp == 0
    ensures PopStale(j.conn, j.queue, 10, limit) == j.queue
    ensures Filter(j.queue, Waiting(j.conn, 10, limit)) == [j.queue[0]]
  {
    var kept := Waiting(j.conn, 10, limit);
    assert j.queue[1..][1..] == [];
    assert Filter(j.queue[1..], kept) == [] + Filter(j.queue[1..][1..], kept);
  }

  // ---------- the reply head ----------

  const CACHE_CONTROL: string :=
    "no-cache, no-store, must-revalidate, " + "pre-check=0, post-check=0, max-age=0"

  function InitialHeaders(boundary: string): seq<Header> {
    [ Header("Connection", "close"),
      Header("Server", "web_video_server"),
      Header("Cache-Control", CACHE_CONTROL),
      Header("Pragma", "no-cache"),
      Header("Content-type", "multipart/x-mixed-replace;boundary=" + boundary),
      Header(ALLOW_ORIGIN, "*"),
      Header(ALLOW_METHODS, METHODS_ALLOWED),
      Header(ALLOW_HEADERS, HEADERS_ALLOWED),
      Header(MAX_AGE, "3600") ]
  }

  function InitialBytes(boundary: string): string {
    STATUS_OK + HeaderBlock(InitialHeaders(boundary)) + ("--" + boundary + "\r\n")
  }

  lemma CacheControlValue()
    ensures NoReturn(CACHE_CONTROL)
  {
    assert NoReturn("no-cache, no-store, must-revalidate, ");
    assert NoReturn("pre-check=0, post-check=0, max-age=0");
  }

  lemma {:induction false} InitialHeadersPrintable(boundary: string)
    requires OneLine(boundary)
    ensures forall i :: 0 <= i < |InitialHeaders(boundary)| ==> Printable(InitialHeaders(boundary)[i])
  {
    FixedHeadersPrintable();
    OwnHeadersPrintable();
    TypeInLine(boundary);
    hide Printable;
  }

  lemma OwnHeadersPrintable()
    ensures Printable(Header("Connection", "close")) && Printable(Header("Server", "web_video_server"))
    ensures Printable(Header("Cache-Control", CACHE_CONTROL)) && Printable(Header("Pragma", "no-cache"))
  {
    CacheControlValue();
    PrintableWhen("Connection", "close");
    PrintableWhen("Server", "web_video_server");
    PrintableWhen("Cache-Control", CACHE_CONTROL);
    PrintableWhen("Pragma", "no-cache");
  }

  lemma TypeInLine(boundary: string)
    requires OneLine(boundary)
    ensures Printable(Header("Content-type", "multipart/x-mixed-replace;boundary=" + boundary))
  {
    var kind := "multipart/x-mixed-replace;boundary=";
    assert NoReturn(kind);
    var value := kind + boundary;
    forall i | 0 <= i < |value| - 1 ensures !(value[i] == '\r' && value[i + 1] == '\n') {
      if i < |kind| {
        assert value[i] == kind[i];
      } else {
        assert value[i] == boundary[i - |kind|] && value[i + 1] == boundary[i + 1 - |kind|];
      }
    }
  }

  lemma InitialType(boundary: string)
    ensures ValueOr(InitialHeaders(boundary), "Content-type", "") == MIXED_REPLACE + boundary
  {
    var hs := InitialHeaders(boundary);
    assert ValueOr(hs[4..], "Content-type", "") == "multipart/x-mixed-replace;boundary=" + boundary;
    assert hs[3..][1..] == hs[4..] && hs[2..][1..] == hs[3..] && hs[1..][1..] == hs[2..];
    assert ValueOr(hs[3..], "Content-type", "") == ValueOr(hs[4..], "Content-type", "");
    assert ValueOr(hs[2..], "Content-type", "") == ValueOr(hs[3..], "Content-type", "");
    assert ValueOr(hs[1..], "Content-type", "") == ValueOr(hs[2..], "Content-type", "");
  }

  /** The header block of the reply as the client reads it, name by name. */
  lemma {:induction false} ReplyHeadAsRead(boundary: string, rest: string)
    requires OneLine(boundary)
    ensures ReadBlock(HeaderBlock(InitialHeaders(boundary)) + rest) == Some(Block(
              [ Header("Connection", "close"), Header("Server", "web_video_server"),
                Header("Cache-Control", CACHE_CONTROL), Header("Pragma", "no-cache"),
                Header("Content-type", "multipart/x-mixed-replace;boundary=" + boundary),
                Header("Access-Control-Allow-Origin", "*"),
                Header("Access-Control-Allow-Methods", "GET,POST,PUT,DELETE,HEAD,OPTIONS"),
                Header("Access-Control-Allow-Headers", "Origin, Authorization, Accept, Content-Type"),
                Header("Access-Control-Max-Age", "3600") ], rest))
  {
    hide ReadBlock;
    InitialHeadersPrintable(boundary);
    ReadBlockBack(InitialHeaders(boundary), rest);
  }

  /** The client opens the reply with the boundary of the stream exactly when that boundary
      lies within one line, which the sender does not check. */
  lemma {:induction false} StreamOpensExactlyWhen(boundary: string, rest: string)
    ensures OpenStream(InitialBytes(boundary) + rest) == Some(Opened(boundary, rest)) <==> OneLine(boundary)
  {
    if OneLine(boundary) {
      StreamOpens(boundary, rest);
    } else if OpenStream(InitialBytes(boundary) + rest).Some? {
      OpenStable(InitialBytes(boundary) + rest, []);
    }
  }

  lemma {:induction false} StreamOpens(boundary: string, rest: string)
    requires OneLine(boundary)
    ensures OpenStream(InitialBytes(boundary) + rest) == Some(Opened(boundary, rest))
  {
    var status, block, first := "HTTP/1.0 200 OK", HeaderBlock(InitialHeaders(boundary)), "--" + boundary;
    InitialHeadersPrintable(boundary);
    InitialType(boundary);
    ReadBlockBack(InitialHeaders(boundary), first + CRLF + rest);
    DashesInLine(boundary);
    ReadLineBack(first, rest);
    assert OneLine(status);
    ReadLineBack(status, block + (first + CRLF + rest));
    hide ReadLine, ReadBlock, HeaderBlock, InitialHeaders, OneLine;
    BeginningText(status, block, first, rest);
    assert STATUS_OK == status + CRLF;
    assert (MIXED_REPLACE + boundary)[|MIXED_REPLACE|..] == boundary;
  }

  /** End to end, from the first byte of the reply: on a connection that has written the
      reply head, in every run with completions and errors anywhere, the parts that a client
      sees in the bytes that have arrived, knowing nothing but those bytes, are a prefix of
      the accepted parts; and when everything written has arrived they are all of them.
      Refused parts therefore leave no trace. */
  lemma {:induction false} ClientSeesAcceptedParts(cfg: Config, c: Connection<char>, now: int, actions: seq<Action>)
    requires Valid(c) && BytesOf(c.log) == InitialBytes(cfg.boundary) && OneLine(cfg.boundary)
    requires Plays(cfg, Start(c, now), actions) && CleanTypes(Play(cfg, Start(c, now), actions))
    ensures var j := Play(cfg, Start(c, now), actions);
            && SeenParts(j.conn.Wire()) <= j.accepted
            && (j.broken.None? && j.conn.Wire() == BytesOf(j.conn.log) ==>
                  SeenParts(j.conn.Wire()) == j.accepted)
  {
    hide Valid, Plays, Play, SeenParts, InitialBytes, Partial, EncodeParts;
    var j, base := Play(cfg, Start(c, now), actions), InitialBytes(cfg.boundary);
    StartFramed(cfg, c, now);
    PlayFramed(cfg, base, Start(c, now), actions);
    var phase := if j.broken.Some? then j.broken.value.phase else j.phase;
    PartialIsNoPart(phase, cfg.boundary);
    WireWithin(cfg, base, j);
    WholeStreamSeen(cfg, j.accepted, phase);
    var wire, whole := j.conn.Wire(), Framed(cfg, base, j.accepted, phase);
    assert wire + whole[|wire|..] == whole;
    SeenMonotone(wire, whole[|wire|..]);
  }

  lemma {:induction false} WholeStreamSeen(cfg: Config, ps: seq<Part>, phase: Phase)
    requires OneLine(cfg.boundary) && forall i :: 0 <= i < |ps| ==> OneLine(ps[i].contentType)
    requires DecodePart(Partial(phase), cfg.boundary) == None
    ensures SeenParts(Framed(cfg, InitialBytes(cfg.boundary), ps, phase)) == ps
  {
    hide InitialBytes, Partial, EncodeParts, OpenStream, DecodePart, DecodeParts, OneLine;
    var rest := EncodeParts(ps, cfg.boundary) + Partial(phase);
    AppendAssociative(InitialBytes(cfg.boundary), EncodeParts(ps, cfg.boundary), Partial(phase));
    StreamOpens(cfg.boundary, rest);
    DecodePartsBack(ps, Partial(phase), cfg.boundary);
  }

  lemma DashesInLine(boundary: string)
    requires OneLine(boundary)
    ensures OneLine("--" + boundary)
  {
    var s := "--" + boundary;
    forall i | 0 <= i < |s| - 1 ensures !(s[i] == '\r' && s[i + 1] == '\n') {
      if i >= 2 {
        assert s[i] == boundary[i - 2] && s[i + 1] == boundary[i - 1];
      }
    }
  }

  lemma BeginningText(status: string, block: string, first: string, rest: string)
    ensures status + CRLF + block + (first + "\r\n") + rest == status + CRLF + (block + (first + CRLF + rest))
  {
  }

  // ---------- the class ----------

  class MultipartStream {
    const connection: HttpConnection<char>
    const config: Config
    var pendingFooters: seq<Footer>
    ghost var history: Joint

    constructor (connection: HttpConnection<char>, config: Config, ghost now: int)
      requires connection.Consistent()
      ensures this.connection == connection && this.config == config
      ensures View() == Start(connection.View(), now)
    {
      this.connection, this.config, this.pendingFooters := connection, config, [];
      this.history := Start(connection.View(), now);
    }

    ghost function View(): Joint
      reads this, connection
    {
      history.(conn := connection.View(), queue := pendingFooters)
    }

    /** The reply head and the first delimiter, before any part. */
    method SendInitialHeader() returns (r: Exceptional<()>)
      requires connection.Consistent() && View() == Start(connection.View(), View().clock)
      modifies connection, this`history
      ensures connection.Consistent() && View() == Start(connection.View(), old(View().clock))
      ensures r.Returned? ==>
                BytesOf(connection.log) == BytesOf(old(connection.log)) + InitialBytes(config.boundary)
    {
      hide InitialHeaders, HeaderBlock, WriteReply, Valid;
      var builder := InitialReply(config.boundary);
      ghost var c0 := connection.View();
      r := builder.Write(connection);
      if r.Returned? {
        ghost var c1 := connection.View();
        r := connection.WriteContent("--" + config.boundary + "\r\n");
        ReplyAndContentBytes(c0, c1, STATUS_OK, InitialHeaders(config.boundary), "--" + config.boundary + "\r\n");
        assert InitialBytes(config.boundary)
            == STATUS_OK + HeaderBlock(InitialHeaders(config.boundary)) + ("--" + config.boundary + "\r\n");
      }
      history := Start(connection.View(), history.clock);
    }

    /** Whether the queue is full after stale footers are popped from its front. */
    method IsBusy(now: int) returns (busy: bool)
      modifies this
      ensures View() == Popped(config, old(View()), now)
      ensures busy <==> Full(config, pendingFooters)
    {
      while pendingFooters != []
        invariant PopStale(connection.View(), old(pendingFooters), now, config.ageLimit)
                  == PopStale(connection.View(), pendingFooters, now, config.ageLimit)
        invariant history == old(history)
        decreases |pendingFooters|
      {
        var front := pendingFooters[0];
        var held := Held(connection, front.owner);
        if !held {
          pendingFooters := pendingFooters[1..];
        } else {
          if (now - front.timestamp) as real > config.ageLimit {
            pendingFooters := pendingFooters[1..];
          } else {
            break;
          }
        }
      }
      history := history.(clock := now);
      return !(config.maxQueueSize == 0 || |pendingFooters| < config.maxQueueSize);
    }

    method SendPartHeader(p: Part, ghost time: int, ghost source: Source) returns (r: Exceptional<()>)
      requires connection.Consistent()
      modifies connection, this`history
      ensures connection.Consistent() && pendingFooters == old(pendingFooters)
      ensures View() == WriteStep(old(View()), HeadCall(old(connection.View()), p), HeadWritten(p, time, source))
      ensures r.Thrown? <==> Write(old(connection.View()), HeadCall(old(connection.View()), p)).threw
    {
      hide Valid, Write, HeaderBuffers;
      history := WriteStep(View(), HeadCall(connection.View(), p), HeadWritten(p, time, source));
      var headers := [];
      headers := headers + [Header("Content-type", p.contentType)];
      headers := headers + [Header("X-Timestamp", p.stamp)];
      headers := headers + [Header(ALLOW_ORIGIN, "*")];
      headers := headers + [Header(ALLOW_METHODS, METHODS_ALLOWED)];
      headers := headers + [Header(ALLOW_HEADERS, HEADERS_ALLOWED)];
      headers := headers + [Header(MAX_AGE, "3600")];
      headers := headers + [Header("Content-Length", Decimal(|p.payload|))];
      assert headers == PartHeaders(p.contentType, p.stamp, |p.payload|);
      var buffers := ToBuffers(headers);
      r := connection.WriteBuffers(buffers, Some(Allocated(|connection.log|)));
    }

    /** The caller's bytes: moved out of its vector, or shared with an owner. */
    method SendPayload(p: Part, source: Source) returns (r: Exceptional<()>)
      requires connection.Consistent()
      requires View().phase.HeadWritten? && View().phase.part == p && View().phase.source == source
      modifies connection, this`history
      ensures connection.Consistent() && View() == Payload(old(View()))
      ensures r.Thrown? <==> !View().phase.PayloadWritten?
    {
      history := Payload(View());
      match source {
        case Moved =>
          var left;
          r, left := connection.WriteAndClear(p.payload);
        case Shared(resource) =>
          r := connection.WriteBuffer(p.payload, if resource.Some? then Some(External(resource.value)) else None);
      }
    }

    method SendPartFooter(time: int) returns (r: Exceptional<()>)
      requires connection.Consistent()
      requires View().phase.PayloadWritten? && View().phase.time == time
      modifies connection, this
      ensures connection.Consistent() && View() == Finish(config, old(View()))
      ensures r.Thrown? <==> Write(old(connection.View()), FooterCall(old(connection.View()), config)).threw
    {
      history := Finish(config, View());
      var owner := Allocated(|connection.log|);
      r := connection.WriteBuffer(Delimiter(config.boundary), Some(owner));
      if r.Thrown? {
        return;
      }
      if config.maxQueueSize > 0 {
        pendingFooters := pendingFooters + [Footer(time, owner)];
      }
    }

    /** Offers a part. Run without interruption it is the three steps of the joint system
        in a row; a write that throws ends it there. */
    method SendPart(now: int, time: int, p: Part, source: Source) returns (r: Exceptional<()>)
      requires connection.Consistent() && View().phase.Idle?
      modifies this, connection
      ensures connection.Consistent() && View().phase.Idle?
      ensures View() == Whole(config, old(View()), now, time, p, source)
    {
      hide Valid, Write, HeaderBuffers, PartHeaders;
      ghost var was := View();
      var busy := IsBusy(now);
      if busy {
        return Returned(());
      }
      r := SendPartHeader(p, time, source);
      assert View() == Offer(config, was, now, time, p, source);
      if r.Thrown? {
        return;
      }
      r := SendPayload(p, source);
      if r.Thrown? {
        return;
      }
      r := SendPartFooter(time);
    }
  }

  /** The reply head of a stream, ready to be written. */
  method InitialReply(boundary: string) returns (builder: ReplyBuilder)
    ensures fresh(builder)
    ensures builder.status == STATUS_OK && builder.owner == 0 && builder.headers == InitialHeaders(boundary)
  {
    builder := new ReplyBuilder(STATUS_OK, 0);
    builder.AddHeader("Connection", "close");
    builder.AddHeader("Server", "web_video_server");
    builder.AddHeader("Cache-Control", CACHE_CONTROL);
    builder.AddHeader("Pragma", "no-cache");
    builder.AddHeader("Content-type", "multipart/x-mixed-replace;boundary=" + boundary);
    builder.AddHeader(ALLOW_ORIGIN, "*");
    builder.AddHeader(ALLOW_METHODS, METHODS_ALLOWED);
    builder.AddHeader(ALLOW_HEADERS, HEADERS_ALLOWED);
    builder.AddHeader(MAX_AGE, "3600");
  }

  method Held(connection: HttpConnection<char>, o: Owner) returns (held: bool)
    ensures held == connection.View().Holds(o)
  {
    held := o in connection.pendingWriteResources
            || exists i :: 0 <= i < |connection.outstanding| && o in connection.outstanding[i].owners;
  }

  /** The steps that offering one part takes when nothing comes between them. */
  function Whole(cfg: Config, j: Joint, now: int, time: int, p: Part, source: Source): Joint
    requires j.phase.Idle?
  {
    var j1 := Offer(cfg, j, now, time, p, source);
    if !j1.phase.HeadWritten? then j1
    else
      var j2 := Payload(j1);
      if !j2.phase.PayloadWritten? then j2 else Finish(cfg, j2)
  }
}
