/** Any number of workers over one event store, as a state machine whose steps are the
    single store calls, handler returns, crashes and claim expiries. */
module WorkerProtocol {
  import opened Wrappers
  import opened Trace
  import opened EventStore

  type WorkerId = nat

  type RetryCap = n: nat | n >= 1 witness 1

  /** retryCap: the variadic argument, or the default for a missing or non-positive one. */
  function EffectiveCap(maxRetries: Option<int>): RetryCap {
    if maxRetries.Some? && maxRetries.value > 0 then maxRetries.value else 5
  }

  /** What does not change during a run: the root events the ingestion may insert, the
      handlers (one function, since each event kind has one stage), the kinds some worker
      group claims, and the retry cap. */
  datatype World = World(
    roots: set<Event>,
    handle: Event -> Option<Event>,
    consumed: set<string>,
    cap: RetryCap)

  /** Where a worker stands in its loop. */
  datatype Phase =
    | Idle
    | Holding(e: Event)                // claimed, the handler has not returned
    | Emitting(e: Event, out: Event)   // next call: InsertEvent
    | Marking(e: Event)                // next call: MarkEventProcessed
    | Skipping(e: Event)               // lifecycle already advanced; next call: MarkEventProcessed
    | Failing(e: Event)                // handler failed; next call: IncrementEventRetry
    | Burying(e: Event, count: nat)    // over the cap; next call: MoveToDLQ
    | Releasing(e: Event)              // next call: ReleaseEventClaim

  datatype State = State(store: Store, workers: map<WorkerId, Phase>)

  const Init: State := State(Store(map[], map[]), map[])

  /** One step. `id` is the event the step is about. */
  datatype Label =
    | Ingest(root: Event, ack: Ack)
    | Claim(w: WorkerId, id: EventId, ack: Ack)
    | Succeed(w: WorkerId, id: EventId)
    | Fail(w: WorkerId, id: EventId)
    | Stale(w: WorkerId, id: EventId)
    | Insert(w: WorkerId, id: EventId, ack: Ack)
    | Mark(w: WorkerId, id: EventId, ack: Ack)
    | MarkSkipped(w: WorkerId, id: EventId, ack: Ack)
    | Count(w: WorkerId, id: EventId, ack: Ack)
    | Bury(w: WorkerId, id: EventId, ack: Ack)
    | Release(w: WorkerId, id: EventId, ack: Ack)
    | Crash(w: WorkerId, id: EventId)
    | Expire(id: EventId)

  function Subject(l: Label): EventId {
    if l.Ingest? then l.root.id else l.id
  }

  function PhaseOf(s: State, w: WorkerId): Phase {
    if w in s.workers then s.workers[w] else Idle
  }

  /** Worker w is in phase p with event `id`. */
  predicate On(p: Phase, id: EventId) {
    !p.Idle? && p.e.id == id
  }

  predicate Enabled(W: World, s: State, l: Label) {
    match l
    case Ingest(root, _) => root in W.roots
    case Claim(w, id, ack) =>
      PhaseOf(s, w).Idle? &&
      (ack.Failed? || (Claimable(s.store, id) && s.store.rows[id].event.kind in W.consumed))
    case Succeed(w, id) => var p := PhaseOf(s, w); p.Holding? && On(p, id)
    case Fail(w, id) => var p := PhaseOf(s, w); p.Holding? && On(p, id)
    case Stale(w, id) => var p := PhaseOf(s, w); p.Holding? && On(p, id)
    case Insert(w, id, _) => var p := PhaseOf(s, w); p.Emitting? && On(p, id)
    case Mark(w, id, _) => var p := PhaseOf(s, w); p.Marking? && On(p, id)
    case MarkSkipped(w, id, _) => var p := PhaseOf(s, w); p.Skipping? && On(p, id)
    case Count(w, id, _) => var p := PhaseOf(s, w); p.Failing? && On(p, id)
    case Bury(w, id, _) => var p := PhaseOf(s, w); p.Burying? && On(p, id)
    case Release(w, id, _) => var p := PhaseOf(s, w); p.Releasing? && On(p, id)
    case Crash(w, id) => On(PhaseOf(s, w), id)
    case Expire(id) => id in s.store.rows && s.store.rows[id].claimed && !s.store.rows[id].processed
  }

  /** The store after a step. */
  function NextStore(s: State, l: Label): Store
    requires l.Claim? && !l.ack.Failed? ==> l.id in s.store.rows
    requires l.Expire? ==> l.id in s.store.rows
    requires l.Insert? ==> PhaseOf(s, l.w).Emitting?
    requires l.Bury? ==> PhaseOf(s, l.w).Burying?
  {
    var st := s.store;
    match l
    case Ingest(root, ack) => if ack.Failed? || Refusal(st, root).Some? then st else Inserted(st, root)
    case Claim(_, id, ack) => if ack.Failed? then st else Claimed(st, id)
    case Insert(w, _, ack) =>
      var out := PhaseOf(s, w).out;
      if ack.Failed? || Refusal(st, out).Some? then st else Inserted(st, out)
    case Mark(_, id, ack) => if ack.Failed? then st else MarkedProcessed(st, id)
    case MarkSkipped(_, id, ack) => if ack.Failed? then st else MarkedProcessed(st, id)
    case Count(_, id, ack) => if ack.Failed? || id !in st.rows then st else Counted(st, id)
    case Bury(w, id, ack) => if ack.Failed? then st else Buried(st, id, PhaseOf(s, w).count)
    case Release(_, id, ack) => if ack.Failed? then st else Released(st, id)
    case Expire(id) => Expired(st, id)
    case _ => st
  }

  /** The phase of the acting worker after its step. */
  function NextPhase(W: World, s: State, l: Label): Phase
    requires !l.Ingest? && !l.Expire? && Enabled(W, s, l)
  {
    var p := PhaseOf(s, l.w);
    match l
    case Claim(_, id, ack) => if ack.Done? then Holding(s.store.rows[id].event) else Idle
    case Succeed(_, _) =>
      var out := W.handle(p.e);
      if out.Some? then Emitting(p.e, out.value) else Marking(p.e)
    case Fail(_, _) => Failing(p.e)
    case Stale(_, _) => Skipping(p.e)
    case Insert(_, _, ack) => if ack.Done? && Refusal(s.store, p.out).None? then Marking(p.e) else Idle
    case Count(_, id, ack) =>
      // a failed counter write counts as a first failure
      var count := if ack.Done? && id in s.store.rows then s.store.rows[id].retries + 1 else 1;
      if count > W.cap then Burying(p.e, count) else Releasing(p.e)
    case Bury(_, _, ack) => if ack.Done? then Idle else Releasing(p.e)
    case _ => Idle
  }

  function Apply(W: World, s: State, l: Label): State
    requires Enabled(W, s, l)
  {
    var workers := if l.Ingest? || l.Expire? then s.workers else s.workers[l.w := NextPhase(W, s, l)];
    State(NextStore(s, l), workers)
  }

  /** The call that a worker in this phase makes next. */
  function CallOf(w: WorkerId, p: Phase, ack: Ack): Label
    requires !p.Idle? && !p.Holding?
  {
    match p
    case Emitting(e, _) => Insert(w, e.id, ack)
    case Marking(e) => Mark(w, e.id, ack)
    case Skipping(e) => MarkSkipped(w, e.id, ack)
    case Failing(e) => Count(w, e.id, ack)
    case Burying(e, _) => Bury(w, e.id, ack)
    case Releasing(e) => Release(w, e.id, ack)
  }

  /** The environment may do its worst at any time: a busy worker may crash, leaving the store
      as it is; a handler may return in any way; each call may fail without an effect, or take
      its whole effect with the reply lost. No step moves another worker. */
  lemma AnythingCanHappen(W: World, s: State, w: WorkerId)
    requires !PhaseOf(s, w).Idle?
    ensures var p := PhaseOf(s, w);
            && Enabled(W, s, Crash(w, p.e.id))
            && Apply(W, s, Crash(w, p.e.id)) == State(s.store, s.workers[w := Idle])
            && (p.Holding? ==> Enabled(W, s, Succeed(w, p.e.id)) && Enabled(W, s, Fail(w, p.e.id)) && Enabled(W, s, Stale(w, p.e.id)))
            && (!p.Holding? ==>
                  && Enabled(W, s, CallOf(w, p, Failed)) && Apply(W, s, CallOf(w, p, Failed)).store == s.store
                  && Enabled(W, s, CallOf(w, p, Done)) && Enabled(W, s, CallOf(w, p, Lost))
                  && Apply(W, s, CallOf(w, p, Lost)).store == Apply(W, s, CallOf(w, p, Done)).store
                  && forall ack, v :: v != w ==> PhaseOf(Apply(W, s, CallOf(w, p, ack)), v) == PhaseOf(s, v))
  {
  }

  /** The state after the steps ls from s, if each of them was enabled. */
  function Steps(W: World, s: State, ls: seq<Label>): Option<State> {
    if ls == [] then Some(s)
    else
      var before := Steps(W, s, ls[..|ls| - 1]);
      var l := ls[|ls| - 1];
      if before.None? || !Enabled(W, before.value, l) then None
      else Some(Apply(W, before.value, l))
  }

  /** A run of the whole system from the empty store. */
  predicate Run(W: World, ls: seq<Label>) {
    Steps(W, Init, ls).Some?
  }

  function After(W: World, ls: seq<Label>): State
    requires Run(W, ls)
  {
    Steps(W, Init, ls).value
  }

  lemma {:induction false} StepsAppend(W: World, s: State, a: seq<Label>, b: seq<Label>)
    requires Steps(W, s, a).Some?
    ensures Steps(W, s, a + b) == Steps(W, Steps(W, s, a).value, b)
  {
    if b == [] {
      assert a + b == a;
    } else {
      assert (a + b)[..|a + b| - 1] == a + b[..|b| - 1];
      StepsAppend(W, s, a, b[..|b| - 1]);
    }
  }
}
