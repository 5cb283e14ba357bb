/** The outgoing half of a connection: writes are queued, at most one asynchronous
    write is in flight, and the owners of the memory behind the buffers are held
    until the batch that carries the buffers completes.

    `Connection` is the state as a value, together with a history: the log of all
    write calls and how far that log has been started and released. The functions
    on it are the steps; `HttpConnection` is the class proved against them. */
module HttpConnections {
  import opened Prelude

  /** The identity of a shared owner: allocated by the write call of that index in
      the log, or handed in by the caller. */
  datatype Owner = Allocated(call: nat) | External(id: int)

  /** One call of `write`: the buffers and, unless null, the owner of their memory. */
  datatype Call<B> = Call(buffers: seq<seq<B>>, owner: Option<Owner>)

  /** One asynchronous write: all buffers pending when it started, and the owners
      that its completion handler holds. */
  datatype Batch<B> = Batch(buffers: seq<seq<B>>, owners: seq<Owner>)

  /** A batch that completed with an error after `sent` of its bytes got out. */
  datatype Failure<B> = Failure(bytes: seq<B>, sent: nat)

  datatype Connection<B> = Connection(
    writeInProgress: bool,
    pendingBuffers: seq<seq<B>>,
    pendingOwners: seq<Owner>,
    lastError: bool,
    // the socket: writes handed to it, and what has become of earlier ones
    outstanding: seq<Batch<B>>,
    written: seq<B>,
    failure: Option<Failure<B>>,
    // history: every write call, and the prefixes of the log that have been
    // released (their batch completed) and started (handed to the socket)
    log: seq<Call<B>>,
    released: nat,
    started: nat
  ) {
    /** The bytes of batches that completed, with or without error. */
    function Finished(): seq<B> {
      written + match failure case None => [] case Some(f) => f.bytes
    }

    /** The bytes that have reached the peer from completed batches. */
    function Wire(): seq<B> {
      written + match failure
                case None => []
                case Some(f) => if f.sent <= |f.bytes| then f.bytes[..f.sent] else f.bytes
    }

    function InFlight(): seq<B> {
      if outstanding == [] then [] else Flatten(outstanding[0].buffers)
    }

    /** Whether the connection still holds a reference to `o`. */
    predicate Holds(o: Owner) {
      o in pendingOwners || exists i :: 0 <= i < |outstanding| && o in outstanding[i].owners
    }
  }

  function BuffersOf<B>(calls: seq<Call<B>>): seq<seq<B>> {
    if calls == [] then [] else calls[0].buffers + BuffersOf(calls[1..])
  }

  function OwnerOf<B>(call: Call<B>): seq<Owner> {
    match call.owner case None => [] case Some(o) => [o]
  }

  function OwnersOf<B>(calls: seq<Call<B>>): seq<Owner> {
    if calls == [] then [] else OwnerOf(calls[0]) + OwnersOf(calls[1..])
  }

  /** All bytes of a list of write calls, in call order. */
  function BytesOf<B>(calls: seq<Call<B>>): seq<B> {
    Flatten(BuffersOf(calls))
  }

  // ---------- the steps ----------

  function Fresh<B>(): Connection<B> {
    Connection(false, [], [], false, [], [], None, [], 0, 0)
  }

  datatype Step<B> = Step(state: Connection<B>, threw: bool)

  /** Hands everything pending to the socket as one batch, or throws the latched error. */
  function WritePending<B>(c: Connection<B>): Step<B> {
    if c.lastError then Step(c, true)
    else
      Step(c.(writeInProgress := true,
              outstanding := c.outstanding + [Batch(c.pendingBuffers, c.pendingOwners)],
              pendingBuffers := [], pendingOwners := [],
              started := |c.log|), false)
  }

  function Write<B>(c: Connection<B>, call: Call<B>): Step<B> {
    var queued := c.(pendingBuffers := c.pendingBuffers + call.buffers,
                     pendingOwners := c.pendingOwners + OwnerOf(call),
                     log := c.log + [call]);
    if c.writeInProgress then Step(queued, false) else WritePending(queued)
  }

  /** The socket completes outstanding write `i`, with an error if not `ok`, after
      `sent` bytes of it got out; the handler runs and its owners are released. */
  function HandleWrite<B>(c: Connection<B>, i: nat, ok: bool, sent: nat): Step<B>
    requires i < |c.outstanding|
  {
    var bytes := Flatten(c.outstanding[i].buffers);
    var idle := c.(writeInProgress := false,
                   outstanding := c.outstanding[..i] + c.outstanding[i + 1..],
                   released := c.started);
    if !ok then Step(idle.(lastError := true, failure := Some(Failure(bytes, sent))), false)
    else
      var done := idle.(written := c.written + bytes);
      if done.pendingBuffers != [] then WritePending(done) else Step(done, false)
  }

  function ReadFailed<B>(c: Connection<B>): Connection<B> {
    c.(lastError := true)
  }

  datatype Event<B> =
    | WriteCalled(call: Call<B>)
    | WriteCompleted(i: nat, ok: bool, sent: nat)
    | ReadCompletedWithError

  predicate Enabled<B>(c: Connection<B>, e: Event<B>) {
    e.WriteCompleted? ==>
      e.i < |c.outstanding| && e.sent <= |Flatten(c.outstanding[e.i].buffers)|
  }

  function Apply<B>(c: Connection<B>, e: Event<B>): Connection<B>
    requires Enabled(c, e)
  {
    match e
    case WriteCalled(call) => Write(c, call).state
    case WriteCompleted(i, ok, sent) => HandleWrite(c, i, ok, sent).state
    case ReadCompletedWithError => ReadFailed(c)
  }

  predicate Runs<B>(c: Connection<B>, events: seq<Event<B>>)
    decreases |events|
  {
    events != [] ==> Enabled(c, events[0]) && Runs(Apply(c, events[0]), events[1..])
  }

  function Run<B>(c: Connection<B>, events: seq<Event<B>>): Connection<B>
    requires Runs(c, events)
    decreases |events|
  {
    if events == [] then c else Run(Apply(c, events[0]), events[1..])
  }

  /** The calls that a run makes, in order. */
  function CallsIn<B>(events: seq<Event<B>>): seq<Call<B>> {
    if events == [] then []
    else (if events[0].WriteCalled? then [events[0].call] else []) + CallsIn(events[1..])
  }

  // ---------- the invariant ----------

  /** The log is cut into released, in-flight and pending calls, and every field is
      what that cut makes it. */
  ghost predicate Valid<B>(c: Connection<B>) {
    && c.released <= c.started <= |c.log|
    && c.pendingBuffers == BuffersOf(c.log[c.started..])
    && c.pendingOwners == OwnersOf(c.log[c.started..])
    && |c.outstanding| == (if c.writeInProgress then 1 else 0)
    && (c.writeInProgress ==>
          && c.outstanding[0].buffers == BuffersOf(c.log[c.released..c.started])
          && c.outstanding[0].owners == OwnersOf(c.log[c.released..c.started]))
    && (!c.writeInProgress ==> c.released == c.started)
    && c.Finished() == BytesOf(c.log[..c.released])
    && (!c.writeInProgress && !c.lastError ==> c.pendingBuffers == [])
    && (c.failure.Some? ==>
          c.lastError && !c.writeInProgress && c.failure.value.sent <= |c.failure.value.bytes|)
  }

  lemma {:induction false} BuffersAppend<B>(a: seq<Call<B>>, b: seq<Call<B>>)
    ensures BuffersOf(a + b) == BuffersOf(a) + BuffersOf(b)
  {
    if a == [] {
      assert a + b == b;
    } else {
      BuffersAppend(a[1..], b);
      assert (a + b)[0] == a[0] && (a + b)[1..] == a[1..] + b;
      AppendAssociative(a[0].buffers, BuffersOf(a[1..]), BuffersOf(b));
    }
  }

  lemma {:induction false} OwnersAppend<B>(a: seq<Call<B>>, b: seq<Call<B>>)
    ensures OwnersOf(a + b) == OwnersOf(a) + OwnersOf(b)
  {
    if a == [] {
      assert a + b == b;
    } else {
      OwnersAppend(a[1..], b);
      assert (a + b)[0] == a[0] && (a + b)[1..] == a[1..] + b;
      AppendAssociative(OwnerOf(a[0]), OwnersOf(a[1..]), OwnersOf(b));
    }
  }

  lemma CallsAppend<B>(a: seq<Call<B>>, b: seq<Call<B>>)
    ensures BuffersOf(a + b) == BuffersOf(a) + BuffersOf(b)
    ensures OwnersOf(a + b) == OwnersOf(a) + OwnersOf(b)
    ensures BytesOf(a + b) == BytesOf(a) + BytesOf(b)
  {
    BuffersAppend(a, b);
    OwnersAppend(a, b);
    FlattenAppend(BuffersOf(a), BuffersOf(b));
  }

  lemma LogBytes<B>(log: seq<Call<B>>, i: nat, j: nat)
    requires i <= j <= |log|
    ensures BytesOf(log[..i]) + BytesOf(log[i..j]) == BytesOf(log[..j])
  {
    hide BytesOf, BuffersOf, OwnersOf, Flatten;
    CallsAppend(log[..i], log[i..j]);
    assert log[..i] + log[i..j] == log[..j];
  }

  lemma LogGrows<B>(log: seq<Call<B>>, call: Call<B>, i: nat)
    requires i <= |log|
    ensures BuffersOf((log + [call])[i..]) == BuffersOf(log[i..]) + call.buffers
    ensures OwnersOf((log + [call])[i..]) == OwnersOf(log[i..]) + OwnerOf(call)
  {
    CallsAppend(log[i..], [call]);
    CallsOne(call);
    assert (log + [call])[i..] == log[i..] + [call];
  }

  lemma CallsOne<B>(call: Call<B>)
    ensures BuffersOf([call]) == call.buffers
    ensures OwnersOf([call]) == OwnerOf(call)
    ensures BytesOf([call]) == Flatten(call.buffers)
  {
    assert [call][1..] == [];
    assert BuffersOf([call]) == call.buffers + BuffersOf<B>([]);
    assert OwnersOf([call]) == OwnerOf(call) + OwnersOf<B>([]);
  }

  lemma {:induction false} WriteValid<B>(c: Connection<B>, call: Call<B>)
    requires Valid(c)
    ensures Valid(Write(c, call).state)
  {
    var log := c.log + [call];
    LogGrows(c.log, call, c.started);
    assert log[..c.released] == c.log[..c.released];
    assert log[c.released..c.started] == c.log[c.released..c.started];
    assert log[c.released..|log|] == log[c.released..];
    assert log[|log|..] == [];
  }

  lemma {:induction false} HandleWriteValid<B>(c: Connection<B>, i: nat, ok: bool, sent: nat)
    requires Valid(c) && i < |c.outstanding| && sent <= |Flatten(c.outstanding[i].buffers)|
    ensures Valid(HandleWrite(c, i, ok, sent).state)
  {
    LogBytes(c.log, c.released, c.started);
    assert c.outstanding[..i] + c.outstanding[i + 1..] == [];
    assert c.Finished() == c.written;
    assert c.log[c.started..|c.log|] == c.log[c.started..];
    assert c.log[|c.log|..] == [];
  }

  lemma {:induction false} RunValid<B>(c: Connection<B>, events: seq<Event<B>>)
    requires Valid(c) && Runs(c, events)
    ensures Valid(Run(c, events))
    ensures Run(c, events).log == c.log + CallsIn(events)
    decreases |events|
  {
    if events == [] {
      assert c.log + CallsIn(events) == c.log;
    } else {
      var head := if events[0].WriteCalled? then [events[0].call] else [];
      ApplyValid(c, events[0]);
      RunValid(Apply(c, events[0]), events[1..]);
      AppendAssociative(c.log, head, CallsIn(events[1..]));
    }
  }

  lemma ApplyValid<B>(c: Connection<B>, e: Event<B>)
    requires Valid(c) && Enabled(c, e)
    ensures Valid(Apply(c, e))
    ensures Apply(c, e).log == c.log + if e.WriteCalled? then [e.call] else []
  {
    match e {
      case WriteCalled(call) => WriteValid(c, call);
      case WriteCompleted(i, ok, sent) => HandleWriteValid(c, i, ok, sent);
      case ReadCompletedWithError =>
    }
  }

  // ---------- what the invariant says ----------

  /** Conservation, over every run from a fresh connection: the bytes of completed
      writes, then those in flight, then those pending, are all bytes of all write
      calls in call order; what reached the peer is a prefix of them. */
  lemma {:induction false} Conservation<B>(events: seq<Event<B>>)
    requires Runs(Fresh(), events)
    ensures var c := Run(Fresh(), events);
            c.Finished() + c.InFlight() + Flatten(c.pendingBuffers) == BytesOf(CallsIn(events))
    ensures Run(Fresh(), events).Wire() <= BytesOf(CallsIn(events))
  {
    RunValid(Fresh(), events);
    hide Valid, Runs, Run, BytesOf, CallsIn;
    var c := Run(Fresh(), events);
    LogSplit(c);
    assert Fresh<B>().log + CallsIn(events) == CallsIn(events);
    WirePrefix(c);
    assert c.Finished() <= BytesOf(c.log);
  }

  lemma {:induction false} LogSplit<B>(c: Connection<B>)
    requires Valid(c)
    ensures c.Finished() + c.InFlight() + Flatten(c.pendingBuffers) == BytesOf(c.log)
    ensures c.Finished() + c.InFlight() == BytesOf(c.log[..c.started])
  {
    LogBytes(c.log, c.released, c.started);
    LogBytes(c.log, c.started, |c.log|);
    assert c.log[..|c.log|] == c.log && c.log[c.started..|c.log|] == c.log[c.started..];
    if !c.writeInProgress {
      assert c.log[c.released..c.started] == [];
    }
  }

  lemma WirePrefix<B>(c: Connection<B>)
    requires Valid(c)
    ensures c.Wire() <= c.Finished()
  {
  }

  /** Owner lifetime: the connection holds an owner exactly while some call that
      passed it is in a batch that has not completed. */
  lemma {:induction false} HeldExactlyUntilReleased<B>(c: Connection<B>, o: Owner)
    requires Valid(c)
    ensures c.Holds(o) <==> exists k :: c.released <= k < |c.log| && c.log[k].owner == Some(o)
  {
    HeldIsUnfinished(c, o);
    OwnersMembers(c.log[c.released..], o);
    SuffixMembers(c.log, c.released, o);
  }

  lemma {:induction false} HeldIsUnfinished<B>(c: Connection<B>, o: Owner)
    requires Valid(c)
    ensures c.Holds(o) <==> o in OwnersOf(c.log[c.released..])
  {
    var carried, after := c.log[c.released..c.started], c.log[c.started..];
    assert c.log[c.released..] == carried + after;
    OwnersAppend(carried, after);
    HeldPlaces(c, o);
  }

  lemma {:induction false} SuffixMembers<B>(log: seq<Call<B>>, start: nat, o: Owner)
    requires start <= |log|
    ensures (exists j :: 0 <= j < |log[start..]| && log[start..][j].owner == Some(o))
            <==> exists k :: start <= k < |log| && log[k].owner == Some(o)
  {
    var rest := log[start..];
    if j :| 0 <= j < |rest| && rest[j].owner == Some(o) {
      assert log[start + j].owner == Some(o);
    }
    if k :| start <= k < |log| && log[k].owner == Some(o) {
      assert rest[k - start].owner == Some(o);
    }
  }

  lemma HeldPlaces<B>(c: Connection<B>, o: Owner)
    requires Valid(c)
    ensures c.Holds(o) <==>
            o in OwnersOf(c.log[c.released..c.started]) || o in OwnersOf(c.log[c.started..])
  {
    if !c.writeInProgress {
      assert c.log[c.released..c.started] == [];
    } else {
      assert o in c.outstanding[0].owners <==> o in OwnersOf(c.log[c.released..c.started]);
    }
  }

  lemma {:induction false} OwnersMembers<B>(calls: seq<Call<B>>, o: Owner)
    ensures o in OwnersOf(calls) <==> exists j :: 0 <= j < |calls| && calls[j].owner == Some(o)
  {
    if calls != [] {
      var rest := calls[1..];
      OwnersMembers(rest, o);
      if o in OwnersOf(rest) {
        var j :| 0 <= j < |rest| && rest[j].owner == Some(o);
        assert calls[j + 1].owner == Some(o);
      }
      if j :| 0 <= j < |calls| && calls[j].owner == Some(o) {
        if j > 0 {
          assert rest[j - 1].owner == Some(o);
        }
      }
    }
  }

  /** The owner of a buffer waiting or in flight is held in the place that goes with
      it: the pending list, or the handler of the batch that carries the buffer. */
  lemma {:induction false} OwnerTravelsWithBuffers<B>(c: Connection<B>, k: nat, o: Owner)
    requires Valid(c) && c.released <= k < |c.log| && c.log[k].owner == Some(o)
    ensures k >= c.started ==> o in c.pendingOwners
    ensures k < c.started ==> |c.outstanding| == 1 && o in c.outstanding[0].owners
  {
    var carried, after := c.log[c.released..c.started], c.log[c.started..];
    OwnersMembers(carried, o);
    OwnersMembers(after, o);
    if k >= c.started {
      assert after[k - c.started].owner == Some(o);
    } else {
      assert carried[k - c.released].owner == Some(o);
    }
  }

  /** Protocol safety, over every run: at most one write is outstanding, the flag says
      exactly when, and an idle connection without error has nothing pending. */
  lemma WriteProtocol<B>(events: seq<Event<B>>)
    requires Runs(Fresh(), events)
    ensures var c := Run(Fresh(), events);
            && |c.outstanding| <= 1
            && (c.writeInProgress <==> |c.outstanding| == 1)
            && (!c.writeInProgress && !c.lastError ==> c.pendingBuffers == [])
  {
    RunValid(Fresh(), events);
  }

  /** Once an error is latched no write ever starts again, whatever happens next. */
  lemma {:induction false} ErrorIsFinal<B>(c: Connection<B>, events: seq<Event<B>>)
    requires Valid(c) && c.lastError && Runs(c, events)
    ensures var d := Run(c, events);
            && d.lastError && d.started == c.started
            && |d.outstanding| <= |c.outstanding|
            && d.Finished() <= BytesOf(c.log[..c.started])
    decreases |events|
  {
    if events == [] {
      LogSplit(c);
    } else {
      ApplyValid(c, events[0]);
      var next := Apply(c, events[0]);
      assert next.started == c.started && next.lastError;
      assert next.log[..c.started] == c.log[..c.started];
      ErrorIsFinal(next, events[1..]);
    }
  }

  /** The events that report an error: a failed read and a failed write. */
  predicate Fails<B>(e: Event<B>) {
    e.ReadCompletedWithError? || (e.WriteCompleted? && !e.ok)
  }

  lemma {:induction false} LatchedExactlyWhen<B>(c: Connection<B>, events: seq<Event<B>>)
    requires Runs(c, events)
    ensures Run(c, events).lastError
            <==> c.lastError || exists i :: 0 <= i < |events| && Fails(events[i])
    decreases |events|
  {
    if events != [] {
      var e, rest := events[0], events[1..];
      LatchedExactlyWhen(Apply(c, e), rest);
      if i :| 0 < i < |events| && Fails(events[i]) {
        assert Fails(rest[i - 1]);
      }
      if i :| 0 <= i < |rest| && Fails(rest[i]) {
        assert Fails(events[i + 1]);
      }
    }
  }

  /** Which calls throw, in terms of what has happened: over every run from a fresh
      connection, a write throws exactly when some read or write has failed and no write
      is in flight; a completed write throws out of its handler exactly when, after such
      a failure, buffers are waiting behind it. Without a failure nothing throws. */
  lemma {:induction false} ThrowsExactlyWhen<B>(events: seq<Event<B>>, call: Call<B>)
    requires Runs(Fresh(), events)
    ensures var c := Run(Fresh(), events);
            var failed := exists i :: 0 <= i < |events| && Fails(events[i]);
            && (Write(c, call).threw <==> failed && c.outstanding == [])
            && forall i, ok, sent :: 0 <= i < |c.outstanding| ==>
                 (HandleWrite(c, i, ok, sent).threw <==> failed && ok && c.pendingBuffers != [])
  {
    RunValid(Fresh(), events);
    LatchedExactlyWhen(Fresh(), events);
  }

  /** After a read or a write has failed no later event hands a call to the socket: what
      is outstanding is at most the write that was in flight at the failure. */
  lemma {:induction false} NothingStartsAfterFailure<B>(before: seq<Event<B>>, e: Event<B>, later: seq<Event<B>>)
    requires Runs(Fresh(), before) && Fails(e) && Enabled(Run(Fresh(), before), e)
    requires Runs(Apply(Run(Fresh(), before), e), later)
    ensures var c := Run(Fresh(), before);
            var d := Run(Apply(c, e), later);
            && d.lastError && d.started == c.started <= |c.log|
            && |d.outstanding| <= |c.outstanding|
            && d.Finished() <= BytesOf(c.log[..c.started])
  {
    var c := Run(Fresh(), before);
    RunValid(Fresh(), before);
    ApplyValid(c, e);
    assert Apply(c, e).log[..c.started] == c.log[..c.started];
    ErrorIsFinal(Apply(c, e), later);
  }

  /** Memory: the owner a write call passes is held, whatever happens next, until the
      batch that carries the buffers of the call has completed. */
  lemma {:induction false} OwnerOutlivesItsBuffers<B>(c: Connection<B>, call: Call<B>, o: Owner, events: seq<Event<B>>)
    requires Valid(c) && call.owner == Some(o) && Runs(Write(c, call).state, events)
    ensures var d := Run(Write(c, call).state, events);
            && |c.log| < |d.log| && d.log[|c.log|] == call
            && (d.released <= |c.log| ==> d.Holds(o))
  {
    var w := Write(c, call).state;
    WriteValid(c, call);
    RunValid(w, events);
    assert w.log == c.log + [call];
    HeldExactlyUntilReleased(Run(w, events), o);
  }

  /** The successful completion of whatever is outstanding. */
  function CompleteAll<B>(c: Connection<B>): Connection<B> {
    if c.outstanding == [] then c else HandleWrite(c, 0, true, 0).state
  }

  /** Progress: without errors two completions write everything out, however many
      calls are queued. All owners are then released exactly when, of the calls waiting
      behind the write in flight, some has a buffer or none has an owner. */
  lemma {:induction false} TwoCompletionsDrain<B>(c: Connection<B>)
    requires Valid(c) && !c.lastError
    ensures var d := CompleteAll(CompleteAll(c));
            && Valid(d) && d.outstanding == [] && d.log == c.log && !d.lastError
            && d.Wire() == BytesOf(c.log)
            && ((forall k :: c.started <= k < |c.log| ==> c.log[k].buffers != []) ==> d.released == |c.log|)
    ensures (forall o :: !CompleteAll(CompleteAll(c)).Holds(o))
            <==> (exists k :: c.started <= k < |c.log| && c.log[k].buffers != [])
                 || (forall k :: c.started <= k < |c.log| ==> c.log[k].owner == None)
  {
    var b := CompleteAll(c);
    CompleteAllValid(c);
    CompleteAllValid(b);
    LogSplit(CompleteAll(b));
    WaitingCalls(c.log[c.started..]);
    SuffixBuffers(c.log, c.started);
    OwnersAfterDrain(c);
  }

  /** On the state: the owners survive that wait without any buffer waiting. */
  lemma OwnersAfterDrain<B>(c: Connection<B>)
    requires Valid(c) && !c.lastError
    ensures (forall o :: !CompleteAll(CompleteAll(c)).Holds(o))
            <==> c.pendingBuffers != [] || c.pendingOwners == []
  {
    var d := CompleteAll(CompleteAll(c));
    CompleteAllValid(c);
    CompleteAllValid(CompleteAll(c));
    assert d.pendingOwners == if c.pendingBuffers != [] then [] else c.pendingOwners;
    if d.pendingOwners != [] {
      assert d.Holds(d.pendingOwners[0]);
    }
  }

  lemma {:induction false} WaitingCalls<B>(calls: seq<Call<B>>)
    ensures BuffersOf(calls) != [] <==> exists k :: 0 <= k < |calls| && calls[k].buffers != []
    ensures OwnersOf(calls) == [] <==> forall k :: 0 <= k < |calls| ==> calls[k].owner == None
  {
    if calls != [] {
      var rest := calls[1..];
      WaitingCalls(rest);
      forall k | 0 <= k < |rest| ensures rest[k] == calls[k + 1] {
      }
      if k :| 0 < k < |calls| && calls[k].buffers != [] {
        assert rest[k - 1].buffers != [];
      }
      if forall k :: 0 <= k < |rest| ==> rest[k].owner == None {
        assert forall k :: 0 < k < |calls| ==> calls[k] == rest[k - 1];
      }
    }
  }

  lemma SuffixBuffers<B>(log: seq<Call<B>>, start: nat)
    requires start <= |log|
    ensures (exists j :: 0 <= j < |log[start..]| && log[start..][j].buffers != [])
            <==> exists k :: start <= k < |log| && log[k].buffers != []
    ensures (forall j :: 0 <= j < |log[start..]| ==> log[start..][j].owner == None)
            <==> forall k :: start <= k < |log| ==> log[k].owner == None
  {
    var rest := log[start..];
    forall j | 0 <= j < |rest| ensures rest[j] == log[start + j] {
    }
    forall k | start <= k < |log| ensures log[k] == rest[k - start] {
    }
  }

  lemma CompleteAllValid<B>(c: Connection<B>)
    requires Valid(c) && !c.lastError
    ensures var d := CompleteAll(c);
            && Valid(d) && d.log == c.log && !d.lastError
            && (c.pendingBuffers == [] ==> d.outstanding == [])
            && (c.outstanding != [] ==> d.pendingBuffers == [])
  {
    if c.outstanding != [] {
      HandleWriteValid(c, 0, true, 0);
    }
  }

  /** A call without any buffer can outlive the drain: its owner stays pending until
      the next write, although nothing is left to send. */
  lemma EmptyWriteKeepsItsOwner<B>(first: Call<B>, o: Owner)
    requires first.owner == None
    ensures var events := [WriteCalled(first), WriteCalled(Call([], Some(o))), Event<B>.WriteCompleted(0, true, 0)];
            Runs(Fresh(), events) && Run(Fresh(), events).Holds(o) && Run(Fresh(), events).outstanding == []
  {
    var c0 := Fresh<B>();
    var e1, e2, e3 := WriteCalled(first), WriteCalled(Call([], Some(o))), Event<B>.WriteCompleted(0, true, 0);
    var c1 := Apply(c0, e1);
    var c2 := Apply(c1, e2);
    var c3 := Apply(c2, e3);
    assert [e1, e2, e3][1..] == [e2, e3] && [e2, e3][1..] == [e3] && [e3][1..] == [];
    assert Runs(c3, []) && Runs(c2, [e3]) && Runs(c1, [e2, e3]);
    assert Run(c3, []) == c3 && Run(c2, [e3]) == c3 && Run(c1, [e2, e3]) == c3;
    assert c3.pendingOwners == [o];
  }

  // ---------- the class ----------

  class HttpConnection<B> {
    var writeInProgress: bool
    var pendingWriteBuffers: seq<seq<B>>
    var pendingWriteResources: seq<Owner>
    var lastError: bool
    var readsRequested: nat

    // the socket
    var outstanding: seq<Batch<B>>
    ghost var written: seq<B>
    ghost var failure: Option<Failure<B>>

    // history; the length of the log also names newly allocated owners
    var log: seq<Call<B>>
    ghost var released: nat
    ghost var started: nat

    ghost function View(): Connection<B>
      reads this
    {
      Connection(writeInProgress, pendingWriteBuffers, pendingWriteResources, lastError,
                 outstanding, written, failure, log, released, started)
    }

    ghost predicate Consistent()
      reads this
    {
      Valid(View())
    }

    constructor ()
      ensures Consistent() && View() == Fresh() && readsRequested == 0
    {
      writeInProgress, lastError, readsRequested := false, false, 0;
      pendingWriteBuffers, pendingWriteResources, outstanding, log := [], [], [], [];
      written, failure, released, started := [], None, 0, 0;
    }

    /** Requests one read, unless an error is latched. */
    method AsyncRead() returns (r: Exceptional<()>)
      modifies this`readsRequested
      ensures r.Thrown? <==> lastError
      ensures readsRequested == old(readsRequested) + if lastError then 0 else 1
    {
      if lastError {
        return Thrown;
      }
      readsRequested := readsRequested + 1;
      return Returned(());
    }

    /** A read completes; its callback runs unless there was an error, which is latched. */
    method HandleReadRaw(error: bool) returns (callback: bool)
      requires Consistent()
      modifies this`lastError
      ensures Consistent() && callback == !error && lastError == (old(lastError) || error)
      ensures View() == if error then ReadFailed(old(View())) else old(View())
    {
      if !error {
        return true;
      } else {
        lastError := true;
        return false;
      }
    }

    method WritePendingBuffers() returns (r: Exceptional<()>)
      modifies this
      ensures WritePending(old(View())) == Step(View(), r.Thrown?)
      ensures readsRequested == old(readsRequested)
    {
      if lastError {
        return Thrown;
      }
      writeInProgress := true;
      outstanding := outstanding + [Batch(pendingWriteBuffers, pendingWriteResources)];
      pendingWriteBuffers := [];
      pendingWriteResources := [];
      started := |log|;
      return Returned(());
    }

    method WriteBuffers(buffers: seq<seq<B>>, resource: Option<Owner>) returns (r: Exceptional<()>)
      requires Consistent()
      modifies this
      ensures Consistent()
      ensures Write(old(View()), Call(buffers, resource)) == Step(View(), r.Thrown?)
      ensures readsRequested == old(readsRequested)
    {
      hide Valid;
      WriteValid(View(), Call(buffers, resource));
      log := log + [Call(buffers, resource)];
      pendingWriteBuffers := pendingWriteBuffers + buffers;
      if resource.Some? {
        pendingWriteResources := pendingWriteResources + [resource.value];
      } else {
        assert pendingWriteResources + [] == pendingWriteResources;
      }
      r := Returned(());
      if !writeInProgress {
        r := WritePendingBuffers();
      }
    }

    method WriteBuffer(buffer: seq<B>, resource: Option<Owner>) returns (r: Exceptional<()>)
      requires Consistent()
      modifies this
      ensures Consistent()
      ensures Write(old(View()), Call([buffer], resource)) == Step(View(), r.Thrown?)
      ensures readsRequested == old(readsRequested)
    {
      r := WriteBuffers([buffer], resource);
    }

    /** Copies `content` into an owner of its own. */
    method WriteContent(content: seq<B>) returns (r: Exceptional<()>)
      requires Consistent()
      modifies this
      ensures Consistent()
      ensures Write(old(View()), Call([content], Some(Allocated(|old(log)|)))) == Step(View(), r.Thrown?)
      ensures readsRequested == old(readsRequested)
    {
      r := WriteBuffer(content, Some(Allocated(|log|)));
    }

    /** Moves `data` into an owner of its own, leaving the caller's vector empty. */
    method WriteAndClear(data: seq<B>) returns (r: Exceptional<()>, left: seq<B>)
      requires Consistent()
      modifies this
      ensures Consistent() && left == []
      ensures Write(old(View()), Call([data], Some(Allocated(|old(log)|)))) == Step(View(), r.Thrown?)
      ensures readsRequested == old(readsRequested)
    {
      var buffer: seq<B> := [];
      buffer, left := data, buffer;
      r := WriteBuffer(buffer, Some(Allocated(|log|)));
    }

    /** The completion handler of outstanding write `i`. */
    method HandleWriteCompleted(i: nat, ok: bool, ghost sent: nat) returns (r: Exceptional<()>)
      requires Consistent() && i < |outstanding| && sent <= |Flatten(outstanding[i].buffers)|
      modifies this
      ensures HandleWrite(old(View()), i, ok, sent) == Step(View(), r.Thrown?)
      ensures Consistent()
      ensures readsRequested == old(readsRequested)
    {
      hide Valid;
      ghost var next := HandleWrite(View(), i, ok, sent);
      HandleWriteValid(View(), i, ok, sent);
      ghost var bytes := Flatten(outstanding[i].buffers);
      outstanding := outstanding[..i] + outstanding[i + 1..];
      released := started;
      writeInProgress := false;
      r := Returned(());
      if ok {
        written := written + bytes;
        if pendingWriteBuffers != [] {
          r := WritePendingBuffers();
        }
      } else {
        failure := Some(Failure(bytes, sent));
        lastError := true;
      }
      assert View() == next.state;
    }
  }
}
