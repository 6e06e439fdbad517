/** One worker's loop over the adapter, call by call, as a run of the state machine. */
module Worker {
  import opened Wrappers
  import opened Trace
  import opened EventStore
  import opened WorkerProtocol
  import opened Attempts

  /** The events a worker for these kinds may claim. */
  function Queue(s: Store, kinds: set<string>): set<EventId> {
    set id | id in s.rows && Claimable(s, id) && s.rows[id].event.kind in kinds
  }

  /** The event is stored, not processed, under no live claim, and of one of the kinds. */
  predicate Waits(s: Store, kinds: set<string>, id: EventId) {
    id in s.rows && s.rows[id].event.kind in kinds && !s.rows[id].processed && !s.rows[id].claimed
  }

  lemma QueueWaits(s: Store, kinds: set<string>)
    ensures Queue(s, kinds) == {} <==> forall id :: !Waits(s, kinds, id)
    ensures forall id :: id in Queue(s, kinds) <==> Waits(s, kinds, id)
  {
    assert forall id :: id in Queue(s, kinds) <==> Waits(s, kinds, id);
    if id :| id in Queue(s, kinds) {
      assert Waits(s, kinds, id);
    }
  }

  /** The adapter's event-bus calls. How a call ends is decided by the environment. */
  class Bus {
    var store: Store

    /** Every row is filed under the identifier of its event. */
    ghost predicate Valid()
      reads this
    {
      forall id :: id in store.rows ==> store.rows[id].event.id == id
    }

    constructor ()
      ensures Valid() && store == Init.store
    {
      store := Store(map[], map[]);
    }

    method InsertEvent(e: Event, ack: Ack) returns (err: Option<StoreError>)
      requires Valid()
      modifies this
      ensures Valid()
      ensures store == if ack.Failed? || Refusal(old(store), e).Some? then old(store) else Inserted(old(store), e)
      ensures err.None? <==> ack.Done? && Refusal(old(store), e).None?
      ensures Refusal(old(store), e) == Some(MissingTraceField) ==> err == Some(MissingTraceField)
    {
      if e.trace.traceId == "" || e.trace.correlationId == "" || e.trace.versionId == "" {
        return Some(MissingTraceField);
      }
      if ack.Failed? {
        return Some(Unavailable);
      }
      if e.id !in store.rows {
        var cause := e.trace.causationId;
        if cause.Some? && cause.value !in store.rows && cause.value != e.id {
          return Some(OrphanEvent);
        }
        store := store.(rows := store.rows[e.id := Row(e, false, false, 0)]);
      }
      err := if ack.Done? then None else Some(Unavailable);
    }

    /** Claims some unprocessed, unclaimed event of the given kinds; None when there is none. */
    method ClaimNextEvent(kinds: set<string>, ack: Ack) returns (r: Result<Option<Event>, StoreError>, ghost id: EventId)
      requires Valid()
      modifies this
      ensures Valid()
      ensures ack.Failed? || Queue(old(store), kinds) == {} ==> store == old(store)
      ensures ack.Failed? ==> r.Failure?
      ensures !ack.Failed? && Queue(old(store), kinds) == {} ==> r == if ack.Done? then Success(None) else Failure(Unavailable)
      ensures !ack.Failed? && Queue(old(store), kinds) != {} ==>
                && id in Queue(old(store), kinds)
                && store == Claimed(old(store), id)
                && r == if ack.Done? then Success(Some(old(store).rows[id].event)) else Failure(Unavailable)
      ensures store == old(store) || Waits(old(store), kinds, id)
      ensures r == Success(None) ==> forall i :: !Waits(old(store), kinds, i)
    {
      QueueWaits(store, kinds);
      id := "";
      if ack.Failed? {
        return Failure(Unavailable), id;
      }
      if Queue(store, kinds) == {} {
        r := if ack.Done? then Success(None) else Failure(Unavailable);
      } else {
        var i :| i in Queue(store, kinds);
        id := i;
        r := if ack.Done? then Success(Some(store.rows[i].event)) else Failure(Unavailable);
        store := store.(rows := store.rows[i := store.rows[i].(claimed := true)]);
      }
    }

    method MarkEventProcessed(id: EventId, ack: Ack) returns (err: Option<StoreError>)
      requires Valid()
      modifies this
      ensures Valid()
      ensures store == if ack.Failed? then old(store) else MarkedProcessed(old(store), id)
      ensures err.None? <==> ack.Done?
    {
      if !ack.Failed? && id in store.rows {
        store := store.(rows := store.rows[id := store.rows[id].(processed := true, claimed := false)]);
      }
      err := if ack.Done? then None else Some(Unavailable);
    }

    method ReleaseEventClaim(id: EventId, ack: Ack) returns (err: Option<StoreError>)
      requires Valid()
      modifies this
      ensures Valid()
      ensures store == if ack.Failed? then old(store) else Released(old(store), id)
      ensures err.None? <==> ack.Done?
    {
      if !ack.Failed? && id in store.rows && !store.rows[id].processed {
        store := store.(rows := store.rows[id := store.rows[id].(claimed := false)]);
      }
      err := if ack.Done? then None else Some(Unavailable);
    }

    method IncrementEventRetry(id: EventId, ack: Ack) returns (r: Result<nat, StoreError>)
      requires Valid()
      modifies this
      ensures Valid()
      ensures store == if ack.Failed? || id !in old(store).rows then old(store) else Counted(old(store), id)
      ensures if ack.Done? && id in old(store).rows then r == Success(old(store).rows[id].retries + 1) else r.Failure?
    {
      if ack.Failed? {
        return Failure(Unavailable);
      }
      if id !in store.rows {
        return Failure(NotFound);
      }
      var count := store.rows[id].retries + 1;
      store := store.(rows := store.rows[id := store.rows[id].(retries := count)]);
      r := if ack.Done? then Success(count) else Failure(Unavailable);
    }

    method MoveToDLQ(id: EventId, count: nat, ack: Ack) returns (err: Option<StoreError>)
      requires Valid()
      modifies this
      ensures Valid()
      ensures store == if ack.Failed? then old(store) else Buried(old(store), id, count)
      ensures err.None? <==> ack.Done?
    {
      if !ack.Failed? {
        if id !in store.dlq {
          store := store.(dlq := store.dlq[id := count]);
        }
        if id in store.rows {
          store := store.(rows := store.rows[id := store.rows[id].(processed := true)]);
        }
      }
      err := if ack.Done? then None else Some(Unavailable);
    }
  }

  datatype Verdict = Succeeds | Fails | LifecycleAdvanced

  /** What the environment decides about one turn of the loop: how each call ends if it is
      made, and how the handler returns. */
  datatype Turn = Turn(claim: Ack, verdict: Verdict, insert: Ack, mark: Ack, count: Ack, bury: Ack, release: Ack)

  /** A step worker w takes itself, ending as the environment decided. */
  predicate Follows(l: Label, w: WorkerId, t: Turn) {
    match l
    case Claim(v, _, ack) => v == w && ack == t.claim
    case Succeed(v, _) => v == w && t.verdict.Succeeds?
    case Fail(v, _) => v == w && t.verdict.Fails?
    case Stale(v, _) => v == w && t.verdict.LifecycleAdvanced?
    case Insert(v, _, ack) => v == w && ack == t.insert
    case Mark(v, _, ack) => v == w && ack == t.mark
    case MarkSkipped(v, _, ack) => v == w && ack == t.mark
    case Count(v, _, ack) => v == w && ack == t.count
    case Bury(v, _, ack) => v == w && ack == t.bury
    case Release(v, _, ack) => v == w && ack == t.release
    case _ => false
  }

  /** Worker w alone, in phase p. */
  function Alone(store: Store, w: WorkerId, p: Phase): State {
    State(store, map[w := p])
  }

  /** ls leads worker w alone from s to the given store and phase. */
  ghost predicate Leads(W: World, s: State, ls: seq<Label>, w: WorkerId, st: Store, p: Phase) {
    Steps(W, s, ls) == Some(Alone(st, w, p))
  }

  lemma Extend(W: World, s: State, ls: seq<Label>, w: WorkerId, st: Store, p: Phase, l: Label)
    requires Leads(W, s, ls, w, st, p)
    requires !l.Ingest? && !l.Expire? && l.w == w && Enabled(W, Alone(st, w, p), l)
    ensures Leads(W, s, ls + [l], w, NextStore(Alone(st, w, p), l), NextPhase(W, Alone(st, w, p), l))
  {
    StepsOne(W, s, ls, l);
    var q := NextPhase(W, Alone(st, w, p), l);
    assert Alone(st, w, p).workers[w := q] == Alone(st, w, q).workers;
  }

  lemma ExtendCount(W: World, s: State, ls: seq<Label>, w: WorkerId, st: Store, e: Event, ack: Ack)
    requires Leads(W, s, ls, w, st, Failing(e))
    ensures Leads(W, s, ls + [Count(w, e.id, ack)], w,
                  if ack.Failed? || e.id !in st.rows then st else Counted(st, e.id),
                  AfterCount(W, e, if ack.Done? && e.id in st.rows then st.rows[e.id].retries + 1 else 1))
  {
    Extend(W, s, ls, w, st, Failing(e), Count(w, e.id, ack));
  }

  lemma ExtendBury(W: World, s: State, ls: seq<Label>, w: WorkerId, st: Store, e: Event, n: nat, ack: Ack)
    requires Leads(W, s, ls, w, st, Burying(e, n))
    ensures Leads(W, s, ls + [Bury(w, e.id, ack)], w,
                  if ack.Failed? then st else Buried(st, e.id, n), if ack.Done? then Idle else Releasing(e))
  {
    Extend(W, s, ls, w, st, Burying(e, n), Bury(w, e.id, ack));
  }

  lemma ExtendRelease(W: World, s: State, ls: seq<Label>, w: WorkerId, st: Store, e: Event, ack: Ack)
    requires Leads(W, s, ls, w, st, Releasing(e))
    ensures Leads(W, s, ls + [Release(w, e.id, ack)], w, if ack.Failed? then st else Released(st, e.id), Idle)
  {
    Extend(W, s, ls, w, st, Releasing(e), Release(w, e.id, ack));
  }

  lemma ExtendInsert(W: World, s: State, ls: seq<Label>, w: WorkerId, st: Store, e: Event, out: Event, ack: Ack)
    requires Leads(W, s, ls, w, st, Emitting(e, out))
    ensures Leads(W, s, ls + [Insert(w, e.id, ack)], w,
                  if ack.Failed? || Refusal(st, out).Some? then st else Inserted(st, out),
                  if ack.Done? && Refusal(st, out).None? then Marking(e) else Idle)
  {
    Extend(W, s, ls, w, st, Emitting(e, out), Insert(w, e.id, ack));
  }

  lemma ExtendMark(W: World, s: State, ls: seq<Label>, w: WorkerId, st: Store, e: Event, ack: Ack)
    requires Leads(W, s, ls, w, st, Marking(e))
    ensures Leads(W, s, ls + [Mark(w, e.id, ack)], w, if ack.Failed? then st else MarkedProcessed(st, e.id), Idle)
  {
    Extend(W, s, ls, w, st, Marking(e), Mark(w, e.id, ack));
  }

  lemma ExtendSkip(W: World, s: State, ls: seq<Label>, w: WorkerId, st: Store, e: Event, ack: Ack)
    requires Leads(W, s, ls, w, st, Skipping(e))
    ensures Leads(W, s, ls + [MarkSkipped(w, e.id, ack)], w,
                  if ack.Failed? then st else MarkedProcessed(st, e.id), Idle)
  {
    Extend(W, s, ls, w, st, Skipping(e), MarkSkipped(w, e.id, ack));
  }

  lemma ExtendClaim(W: World, s: State, w: WorkerId, st: Store, id: EventId, ack: Ack)
    requires s == Alone(st, w, Idle) && (ack.Failed? || id in Queue(st, W.consumed))
    ensures Leads(W, s, [Claim(w, id, ack)], w,
              if ack.Failed? then st else Claimed(st, id),
              if ack.Done? then Holding(st.rows[id].event) else Idle)
  {
    Extend(W, s, [], w, st, Idle, Claim(w, id, ack));
    assert [] + [Claim(w, id, ack)] == [Claim(w, id, ack)];
  }

  function AfterCount(W: World, e: Event, count: nat): Phase {
    if count > W.cap then Burying(e, count) else Releasing(e)
  }

  /** The handler returns. */
  function Return(w: WorkerId, e: Event, v: Verdict): Label {
    match v
    case Succeeds => Succeed(w, e.id)
    case Fails => Fail(w, e.id)
    case LifecycleAdvanced => Stale(w, e.id)
  }

  lemma StartTurn(W: World, w: WorkerId, st: Store, e: Event, v: Verdict)
    ensures Leads(W, Alone(st, w, Holding(e)), [Return(w, e, v)], w, st,
              match v
              case Succeeds => (if W.handle(e).Some? then Emitting(e, W.handle(e).value) else Marking(e))
              case Fails => Failing(e)
              case LifecycleAdvanced => Skipping(e))
  {
    Extend(W, Alone(st, w, Holding(e)), [], w, st, Holding(e), Return(w, e, v));
    assert [] + [Return(w, e, v)] == [Return(w, e, v)];
  }

  lemma Join(W: World, s: State, ls: seq<Label>, w: WorkerId, st: Store, p: Phase, ks: seq<Label>, st': Store, p': Phase)
    requires Leads(W, s, ls, w, st, p) && Leads(W, Alone(st, w, p), ks, w, st', p')
    ensures Leads(W, s, ls + ks, w, st', p')
  {
    StepsAppend(W, s, ls, ks);
  }

  /** The steps after the claim, each ending as the environment decided. */
  predicate AllFollow(ls: seq<Label>, w: WorkerId, t: Turn) {
    forall i :: 0 <= i < |ls| ==> Follows(ls[i], w, t) && !ls[i].Claim?
  }

  /** The steps of one turn: none, or one claim and what follows it. */
  predicate OneTurn(ls: seq<Label>, w: WorkerId, t: Turn) {
    ls != [] ==> ls[0].Claim? && Follows(ls[0], w, t) && AllFollow(ls[1..], w, t)
  }

  /** ls is one whole turn of worker w over the store st: a run from idle to idle with at most
      one claim, of an event of the worker's kinds, and without any step only if there was
      nothing to claim. */
  ghost predicate Turned(W: World, w: WorkerId, kinds: set<string>, t: Turn, st: Store, ls: seq<Label>, st': Store) {
    && Leads(W, Alone(st, w, Idle), ls, w, st', Idle)
    && OneTurn(ls, w, t)
    && (ls == [] ==> !t.claim.Failed? && forall id :: !Waits(st, kinds, id))
    && (ls != [] && !t.claim.Failed? ==> Waits(st, kinds, ls[0].id))
  }

  lemma FollowOn(ls: seq<Label>, ks: seq<Label>, w: WorkerId, t: Turn)
    requires AllFollow(ls, w, t) && AllFollow(ks, w, t)
    ensures AllFollow(ls + ks, w, t)
  {
  }

  /** ReleaseEventClaim, whose failure is only logged. */
  method ReleaseClaim(W: World, bus: Bus, w: WorkerId, e: Event, t: Turn) returns (ghost ls: seq<Label>)
    requires bus.Valid()
    modifies bus
    ensures bus.Valid() && bus.store.dlq == old(bus.store).dlq
    ensures Leads(W, Alone(old(bus.store), w, Releasing(e)), ls, w, bus.store, Idle)
    ensures AllFollow(ls, w, t)
  {
    ghost var s, st := Alone(bus.store, w, Releasing(e)), bus.store;
    var _ := bus.ReleaseEventClaim(e.id, t.release);
    ls := [] + [Release(w, e.id, t.release)];
    assert Leads(W, s, ls, w, bus.store, Idle) by {
      ExtendRelease(W, s, [], w, st, e, t.release);
    }
  }

  /** Over the cap: dead-letter the event, or release it when that fails. */
  method BuryOrRelease(W: World, bus: Bus, w: WorkerId, e: Event, count: nat, t: Turn) returns (ghost ls: seq<Label>)
    requires bus.Valid()
    modifies bus
    ensures bus.Valid()
    ensures Leads(W, Alone(old(bus.store), w, Burying(e, count)), ls, w, bus.store, Idle)
    ensures AllFollow(ls, w, t)
  {
    ghost var s, st := Alone(bus.store, w, Burying(e, count)), bus.store;
    var err := bus.MoveToDLQ(e.id, count, t.bury);
    ExtendBury(W, s, [], w, st, e, count, t.bury);
    ls := [] + [Bury(w, e.id, t.bury)];
    if err.None? {
      return;
    }
    st := bus.store;
    ghost var rest := ReleaseClaim(W, bus, w, e, t);
    Join(W, s, ls, w, st, Releasing(e), rest, bus.store, Idle);
    FollowOn(ls, rest, w, t);
    ls := ls + rest;
  }

  /** The branch of a failed handler: count, then dead-letter or release. A counter call
      that reports an error never leads to the dead-letter table. */
  method HandleStageFailure(W: World, bus: Bus, w: WorkerId, e: Event, t: Turn) returns (ghost ls: seq<Label>)
    requires bus.Valid()
    modifies bus
    ensures bus.Valid()
    ensures Leads(W, Alone(old(bus.store), w, Failing(e)), ls, w, bus.store, Idle)
    ensures AllFollow(ls, w, t)
    ensures !t.count.Done? ==> bus.store.dlq == old(bus.store).dlq
  {
    ghost var s, st := Alone(bus.store, w, Failing(e)), bus.store;
    var r := bus.IncrementEventRetry(e.id, t.count);
    var count := if r.Success? then r.value else 1;
    ExtendCount(W, s, [], w, st, e, t.count);
    st := bus.store;
    ghost var rest;
    if count > W.cap {
      rest := BuryOrRelease(W, bus, w, e, count, t);
    } else {
      rest := ReleaseClaim(W, bus, w, e, t);
    }
    ls := [] + [Count(w, e.id, t.count)];
    Join(W, s, ls, w, st, AfterCount(W, e, count), rest, bus.store, Idle);
    FollowOn(ls, rest, w, t);
    ls := ls + rest;
  }

  /** The handler emitted or kept silent: store the output, then mark the event. */
  method HandleStageSuccess(W: World, bus: Bus, w: WorkerId, e: Event, t: Turn) returns (ghost ls: seq<Label>)
    requires bus.Valid() && t.verdict.Succeeds?
    modifies bus
    ensures bus.Valid()
    ensures Leads(W, Alone(old(bus.store), w, Holding(e)), ls, w, bus.store, Idle)
    ensures AllFollow(ls, w, t)
  {
    ghost var s, st := Alone(bus.store, w, Holding(e)), bus.store;
    StartTurn(W, w, st, e, t.verdict);
    ls := [Succeed(w, e.id)];
    var output := W.handle(e);
    if output.Some? {
      var err := bus.InsertEvent(output.value, t.insert);
      ExtendInsert(W, s, ls, w, st, e, output.value, t.insert);
      ls := ls + [Insert(w, e.id, t.insert)];
      if err.Some? {
        return;
      }
    }
    st := bus.store;
    var _ := bus.MarkEventProcessed(e.id, t.mark);
    ExtendMark(W, s, ls, w, st, e, t.mark);
    ls := ls + [Mark(w, e.id, t.mark)];
  }

  /** What the loop does with the claimed event e. */
  method ServeClaimed(W: World, bus: Bus, w: WorkerId, e: Event, t: Turn) returns (ghost ls: seq<Label>)
    requires bus.Valid()
    modifies bus
    ensures bus.Valid()
    ensures Leads(W, Alone(old(bus.store), w, Holding(e)), ls, w, bus.store, Idle)
    ensures AllFollow(ls, w, t)
  {
    ghost var s, st := Alone(bus.store, w, Holding(e)), bus.store;
    match t.verdict {
      case Succeeds =>
        ls := HandleStageSuccess(W, bus, w, e, t);
      case Fails =>
        StartTurn(W, w, st, e, t.verdict);
        ls := HandleStageFailure(W, bus, w, e, t);
        Join(W, s, [Fail(w, e.id)], w, st, Failing(e), ls, bus.store, Idle);
        FollowOn([Fail(w, e.id)], ls, w, t);
        ls := [Fail(w, e.id)] + ls;
      case LifecycleAdvanced =>
        StartTurn(W, w, st, e, t.verdict);
        var _ := bus.MarkEventProcessed(e.id, t.mark);
        ExtendSkip(W, s, [Stale(w, e.id)], w, st, e, t.mark);
        ls := [Stale(w, e.id)] + [MarkSkipped(w, e.id, t.mark)];
    }
  }

  /** One turn of the loop. */
  method ServeNext(W: World, bus: Bus, w: WorkerId, kinds: set<string>, t: Turn) returns (ghost ls: seq<Label>)
    requires bus.Valid() && kinds <= W.consumed
    modifies bus
    ensures bus.Valid()
    ensures Turned(W, w, kinds, t, old(bus.store), ls, bus.store)
  {
    ghost var s, st := Alone(bus.store, w, Idle), bus.store;
    ls := [];
    QueueWaits(st, kinds);
    var r, id := bus.ClaimNextEvent(kinds, t.claim);
    if t.claim.Failed? || Queue(st, kinds) != {} {
      ExtendClaim(W, s, w, st, id, t.claim);
      ls := [Claim(w, id, t.claim)];
    }
    if r.Failure? || r.value.None? {
      return;
    }
    var e := r.value.value;
    st := bus.store;
    ghost var rest := ServeClaimed(W, bus, w, e, t);
    Join(W, s, ls, w, st, Holding(e), rest, bus.store, Idle);
    assert (ls + rest)[1..] == rest;
    ls := ls + rest;
  }

  /** All turns in a row. */
  ghost function Flatten(turns: seq<seq<Label>>): seq<Label> {
    if turns == [] then [] else Flatten(turns[..|turns| - 1]) + turns[|turns| - 1]
  }

  /** The turns of a script from the store stores[0] on, one after the other. */
  ghost predicate Served(W: World, w: WorkerId, kinds: set<string>, script: seq<Turn>,
                         stores: seq<Store>, turns: seq<seq<Label>>) {
    && |turns| == |script| && |stores| == |script| + 1
    && forall k :: 0 <= k < |script| ==> Turned(W, w, kinds, script[k], stores[k], turns[k], stores[k + 1])
  }

  lemma ServedOneMore(W: World, w: WorkerId, kinds: set<string>, script: seq<Turn>, stores: seq<Store>,
                      turns: seq<seq<Label>>, t: Turn, ls: seq<Label>, st: Store)
    requires Served(W, w, kinds, script, stores, turns)
    requires Turned(W, w, kinds, t, stores[|script|], ls, st)
    ensures Served(W, w, kinds, script + [t], stores + [st], turns + [ls])
    ensures Flatten(turns + [ls]) == Flatten(turns) + ls
  {
    assert (turns + [ls])[..|turns|] == turns;
  }

  /** RunWorker until the context is cancelled, one script entry per turn: every entry is
      served by one whole turn, and together they are a run of the state machine in which
      only this worker moves. Its event kinds are some of those consumed, and its retry cap
      is that of the world. */
  method RunWorker(W: World, bus: Bus, w: WorkerId, kinds: set<string>, maxRetries: Option<int>, script: seq<Turn>)
      returns (ghost stores: seq<Store>, ghost turns: seq<seq<Label>>)
    requires bus.Valid() && kinds <= W.consumed && W.cap == EffectiveCap(maxRetries)
    modifies bus
    ensures bus.Valid()
    ensures Served(W, w, kinds, script, stores, turns)
    ensures stores[0] == old(bus.store) && stores[|script|] == bus.store
    ensures Leads(W, Alone(old(bus.store), w, Idle), Flatten(turns), w, bus.store, Idle)
  {
    stores, turns := [bus.store], [];
    ghost var s := Alone(bus.store, w, Idle);
    for k := 0 to |script|
      invariant bus.Valid()
      invariant Served(W, w, kinds, script[..k], stores, turns)
      invariant stores[0] == old(bus.store) && stores[k] == bus.store
      invariant Leads(W, s, Flatten(turns), w, bus.store, Idle)
    {
      ghost var st := bus.store;
      ghost var ls := ServeNext(W, bus, w, kinds, script[k]);
      ServedOneMore(W, w, kinds, script[..k], stores, turns, script[k], ls, bus.store);
      Join(W, s, Flatten(turns), w, st, Idle, ls, bus.store, Idle);
      assert script[..k + 1] == script[..k] + [script[k]];
      stores, turns := stores + [bus.store], turns + [ls];
    }
    assert script[..|script|] == script;
  }
}
