/** Outputs that the store refuses: what they do to the retry barrier, and for which handlers
    the barrier holds. */
module Refusals {
  import opened Wrappers
  import opened Trace
  import opened EventStore
  import opened WorkerProtocol
  import opened ExactlyOnce
  import opened Attempts
  import opened Causality
  import opened Barrier

  // ---- mishaps of joined runs ------------------------------------------------------------

  lemma TroublesOne(W: World, s: State, ls: seq<Label>, l: Label, k: Trouble, id: EventId)
    requires Steps(W, s, ls).Some? && Enabled(W, Steps(W, s, ls).value, l)
    ensures Steps(W, s, ls + [l]) == Some(Apply(W, Steps(W, s, ls).value, l))
    ensures Troubles(W, s, ls + [l], k, id) ==
            Troubles(W, s, ls, k, id) + if Hits(Steps(W, s, ls).value, l, k) && Subject(l) == id then 1 else 0
  {
    assert (ls + [l])[..|ls|] == ls;
  }

  lemma AppendOne(W: World, s: State, a: seq<Label>, mid: State, b: seq<Label>, l: Label, k: Trouble, id: EventId)
    requires Steps(W, s, a) == Some(mid) && Steps(W, mid, b).Some? && Enabled(W, Steps(W, mid, b).value, l)
    requires Steps(W, s, a + b) == Steps(W, mid, b)
    requires Troubles(W, s, a + b, k, id) == Troubles(W, s, a, k, id) + Troubles(W, mid, b, k, id)
    ensures Steps(W, mid, b + [l]).Some? && Steps(W, s, a + (b + [l])) == Steps(W, mid, b + [l])
    ensures Troubles(W, s, a + (b + [l]), k, id) == Troubles(W, s, a, k, id) + Troubles(W, mid, b + [l], k, id)
  {
    TroublesOne(W, mid, b, l, k, id);
    TroublesOne(W, s, a + b, l, k, id);
    assert a + (b + [l]) == a + b + [l];
  }

  lemma {:induction false} TroublesAppend(W: World, s: State, a: seq<Label>, b: seq<Label>, k: Trouble, id: EventId)
    requires Steps(W, s, a).Some? && Steps(W, Steps(W, s, a).value, b).Some?
    ensures Steps(W, s, a + b) == Steps(W, Steps(W, s, a).value, b)
    ensures Troubles(W, s, a + b, k, id) == Troubles(W, s, a, k, id) + Troubles(W, Steps(W, s, a).value, b, k, id)
  {
    if b == [] {
      assert a + b == a;
    } else {
      var front, l := b[..|b| - 1], b[|b| - 1];
      TroublesAppend(W, s, a, front, k, id);
      AppendOne(W, s, a, Steps(W, s, a).value, front, l, k, id);
      assert b == front + [l];
    }
  }

  /** Steps in which nothing goes wrong, whatever the state. */
  predicate Calm(l: Label) {
    match l
    case Ingest(_, _) => true
    case Insert(_, _, _) => false
    case Crash(_, _) => false
    case Expire(_) => false
    case Succeed(_, _) => true
    case Fail(_, _) => true
    case Stale(_, _) => true
    case _ => l.ack.Done?
  }

  lemma {:induction false} CalmSteps(W: World, s: State, ls: seq<Label>, k: Trouble, id: EventId)
    requires Steps(W, s, ls).Some? && forall i :: 0 <= i < |ls| ==> Calm(ls[i])
    ensures Troubles(W, s, ls, k, id) == 0
  {
    if ls != [] {
      CalmSteps(W, s, ls[..|ls| - 1], k, id);
    }
  }

  lemma {:induction false} FailedTurnsCalm(id: EventId, n: nat)
    ensures forall i :: 0 <= i < |FailedTurns(id, n)| ==> Calm(FailedTurns(id, n)[i])
  {
    if n > 0 {
      FailedTurnsCalm(id, n - 1);
    }
  }

  predicate AllIdle(s: State) {
    forall w :: w in s.workers ==> s.workers[w].Idle?
  }

  lemma NoneHeld(s: State, id: EventId)
    requires AllIdle(s)
    ensures !Held(s, id)
  {
  }

  // ---- refused outputs ------------------------------------------------------------------

  /** One attempt whose output the store refuses, and the wait for the claim to expire. */
  function RefusedTurn(id: EventId): seq<Label> {
    [Claim(0, id, Done), Succeed(0, id), Insert(0, id, Done), Expire(id)]
  }

  function RefusedRun(r: Event, n: nat): seq<Label> {
    if n == 0 then [Ingest(r, Done)] else RefusedRun(r, n - 1) + RefusedTurn(r.id)
  }

  /** The event is stored, unclaimed and uncounted, and nobody is at work. */
  predicate Ready(s: State, e: Event) {
    AllIdle(s) && e.id in s.store.rows && s.store.rows[e.id] == Row(e, false, false, 0)
  }

  /** The store turns down the handler's output for the event. */
  predicate TurnedDown(W: World, st: Store, e: Event) {
    W.handle(e).Some? && Refusal(st, W.handle(e).value).Some?
  }

  /** The store holds the root r alone, unclaimed and uncounted, and nobody is at work. */
  predicate Waiting(s: State, r: Event) {
    s.store == Store(map[r.id := Row(r, false, false, 0)], map[]) && AllIdle(s)
  }

  /** The store with r alone turns down the handler's output. */
  predicate Refusable(W: World, r: Event) {
    TurnedDown(W, Store(map[r.id := Row(r, false, false, 0)], map[]), r)
  }

  lemma ReadyClaim(W: World, s: State, e: Event)
    requires Ready(s, e) && e.kind in W.consumed
    ensures Enabled(W, s, Claim(0, e.id, Done))
    ensures Apply(W, s, Claim(0, e.id, Done)) == State(Claimed(s.store, e.id), s.workers[0 := Holding(e)])
  {
  }

  lemma SameRefusal(s: Store, t: Store, e: Event)
    requires s.rows.Keys == t.rows.Keys
    ensures Refusal(s, e) == Refusal(t, e)
  {
  }

  lemma RefusedInsert(W: World, s: State, e: Event)
    requires TurnedDown(W, s.store, e) && PhaseOf(s, 0) == Emitting(e, W.handle(e).value)
    ensures Enabled(W, s, Insert(0, e.id, Done)) && Hits(s, Insert(0, e.id, Done), RefusedOutput)
    ensures Apply(W, s, Insert(0, e.id, Done)) == State(s.store, s.workers[0 := Idle])
  {
  }

  lemma ClaimExpires(s: Store, e: Event)
    requires e.id in s.rows && s.rows[e.id] == Row(e, false, false, 0)
    ensures Expired(Claimed(s, e.id), e.id) == s
  {
    assert Expired(Claimed(s, e.id), e.id).rows == s.rows;
  }

  /** A refused turn leaves the store as it was. */
  lemma RefusedTurnState(W: World, s: State, e: Event)
    requires Ready(s, e) && e.kind in W.consumed && TurnedDown(W, s.store, e)
    ensures var t := Steps(W, s, RefusedTurn(e.id)); t.Some? && t.value.store == s.store && AllIdle(t.value)
    ensures Troubles(W, s, RefusedTurn(e.id), RefusedOutput, e.id) == 1
    ensures Troubles(W, s, RefusedTurn(e.id), Fault, e.id) == 0
  {
    var id, claimed := e.id, Claimed(s.store, e.id);
    var a, b, c, d := Claim(0, id, Done), Succeed(0, id), Insert(0, id, Done), Expire(id);
    ReadyClaim(W, s, e);
    var s1 := State(claimed, s.workers[0 := Holding(e)]);
    var s2 := State(claimed, s1.workers[0 := Emitting(e, W.handle(e).value)]);
    assert Apply(W, s1, b) == s2;
    SameRefusal(s.store, claimed, W.handle(e).value);
    RefusedInsert(W, s2, e);
    var s3 := State(claimed, s2.workers[0 := Idle]);
    NoneHeld(s3, id);
    ClaimExpires(s.store, e);
    assert Apply(W, s3, d) == State(s.store, s3.workers);
    FourSteps(W, s, a, b, c, d, RefusedOutput, id);
    FourSteps(W, s, a, b, c, d, Fault, id);
  }

  lemma FourSteps(W: World, s: State, a: Label, b: Label, c: Label, d: Label, k: Trouble, id: EventId)
    requires Enabled(W, s, a) && Enabled(W, Apply(W, s, a), b) && Enabled(W, Apply(W, Apply(W, s, a), b), c)
    requires Enabled(W, Apply(W, Apply(W, Apply(W, s, a), b), c), d)
    requires Subject(a) == Subject(b) == Subject(c) == Subject(d) == id
    ensures var s1 := Apply(W, s, a);
            var s2 := Apply(W, s1, b);
            var s3 := Apply(W, s2, c);
            && Steps(W, s, [a, b, c, d]) == Some(Apply(W, s3, d))
            && Troubles(W, s, [a, b, c, d], k, id) ==
                 (if Hits(s, a, k) then 1 else 0) + (if Hits(s1, b, k) then 1 else 0)
                 + (if Hits(s2, c, k) then 1 else 0) + (if Hits(s3, d, k) then 1 else 0)
  {
    var s2 := Apply(W, Apply(W, s, a), b);
    TwoSteps(W, s, a, b, k, id);
    TwoSteps(W, s2, c, d, k, id);
    TroublesAppend(W, s, [a, b], [c, d], k, id);
    assert [a, b] + [c, d] == [a, b, c, d];
  }

  lemma TwoSteps(W: World, s: State, a: Label, b: Label, k: Trouble, id: EventId)
    requires Enabled(W, s, a) && Enabled(W, Apply(W, s, a), b) && Subject(a) == Subject(b) == id
    ensures Steps(W, s, [a, b]) == Some(Apply(W, Apply(W, s, a), b))
    ensures Troubles(W, s, [a, b], k, id) ==
            (if Hits(s, a, k) then 1 else 0) + if Hits(Apply(W, s, a), b, k) then 1 else 0
  {
    TroublesOne(W, s, [], a, k, id);
    assert [] + [a] == [a];
    TroublesOne(W, s, [a], b, k, id);
    assert [a] + [b] == [a, b];
  }

  lemma {:induction false} RefusedRunState(W: World, r: Event, n: nat)
    requires r in W.roots && r.kind in W.consumed && Refusal(Init.store, r).None? && Refusable(W, r)
    ensures Run(W, RefusedRun(r, n)) && Waiting(After(W, RefusedRun(r, n)), r)
  {
    if n == 0 {
      FirstIngest(W, r);
    } else {
      RefusedRunState(W, r, n - 1);
      RefusedTurnState(W, After(W, RefusedRun(r, n - 1)), r);
      StepsAppend(W, Init, RefusedRun(r, n - 1), RefusedTurn(r.id));
    }
  }

  lemma {:induction false} RefusedRunTroubles(W: World, r: Event, n: nat, k: Trouble)
    requires r in W.roots && r.kind in W.consumed && Refusal(Init.store, r).None? && Refusable(W, r)
    ensures Run(W, RefusedRun(r, n))
    ensures Troubles(W, Init, RefusedRun(r, n), k, r.id) == if k.RefusedOutput? then n else 0
  {
    RefusedRunState(W, r, n);
    if n == 0 {
      CalmSteps(W, Init, [Ingest(r, Done)], k, r.id);
    } else {
      RefusedRunTroubles(W, r, n - 1, k);
      RefusedRunState(W, r, n - 1);
      RefusedTurnState(W, After(W, RefusedRun(r, n - 1)), r);
      TroublesAppend(W, Init, RefusedRun(r, n - 1), RefusedTurn(r.id), k, r.id);
    }
  }

  lemma RefusedTurnTally(id: EventId)
    ensures Tally(RefusedTurn(id), Attempt, id) == 1
  {
    var a, b, c, d := Claim(0, id, Done), Succeed(0, id), Insert(0, id, Done), Expire(id);
    assert RefusedTurn(id) == [a] + [b] + [c] + [d];
    TallyAppend([a], [b], Attempt, id);
    TallyAppend([a] + [b], [c], Attempt, id);
    TallyAppend([a] + [b] + [c], [d], Attempt, id);
  }

  lemma {:induction false} RefusedRunTally(r: Event, n: nat)
    ensures Tally(RefusedRun(r, n), Attempt, r.id) == n
  {
    if n > 0 {
      RefusedRunTally(r, n - 1);
      RefusedTurnTally(r.id);
      TallyAppend(RefusedRun(r, n - 1), RefusedTurn(r.id), Attempt, r.id);
    }
  }

  /** The retry counter does not see refused outputs: such an event is attempted any number
      of times, with every call confirmed, and is neither counted, processed nor
      dead-lettered. */
  lemma RefusedOutputLoops(W: World, r: Event, n: nat)
    requires r in W.roots && r.kind in W.consumed && Refusal(Init.store, r).None? && Refusable(W, r)
    ensures Run(W, RefusedRun(r, n)) && Tally(RefusedRun(r, n), Attempt, r.id) == n
    ensures After(W, RefusedRun(r, n)).store == Store(map[r.id := Row(r, false, false, 0)], map[])
    ensures Troubles(W, Init, RefusedRun(r, n), Fault, r.id) == 0
  {
    RefusedRunState(W, r, n);
    RefusedRunTroubles(W, r, n, Fault);
    RefusedRunTally(r, n);
  }

  /** m refused outputs, and then only failures until the event is dead-lettered. */
  function WorstRun(W: World, r: Event, m: nat): seq<Label> {
    RefusedRun(r, m) + (FailedTurns(r.id, W.cap) + BuriedTurn(r.id))
  }

  lemma PoisonTail(W: World, s: State, r: Event, k: Trouble)
    requires Waiting(s, r) && r.kind in W.consumed
    ensures var tail := FailedTurns(r.id, W.cap) + BuriedTurn(r.id);
            && Steps(W, s, tail).Some?
            && Troubles(W, s, tail, k, r.id) == 0
            && Tally(tail, Attempt, r.id) == W.cap + 1
  {
    var a, b := FailedTurns(r.id, W.cap), BuriedTurn(r.id);
    FailedTurnsState(W, s, r, W.cap);
    BuriedTurnState(W, Steps(W, s, a).value, r);
    StepsAppend(W, s, a, b);
    FailedTurnsCalm(r.id, W.cap);
    CalmSteps(W, s, a + b, k, r.id);
    FailedTurnsTally(r.id, W.cap);
    FailedAttemptTally(r.id, Bury(0, r.id, Done));
    TallyAppend(a, b, Attempt, r.id);
  }

  /** The bound of AttemptsPerMishap is attained for every number of refused outputs. */
  lemma RefusalsAttainBound(W: World, r: Event, m: nat)
    requires r in W.roots && r.kind in W.consumed && Refusal(Init.store, r).None? && Refusable(W, r)
    ensures Run(W, WorstRun(W, r, m))
    ensures Tally(WorstRun(W, r, m), Attempt, r.id) == W.cap + 1 + m
    ensures Troubles(W, Init, WorstRun(W, r, m), RefusedOutput, r.id) == m
    ensures Troubles(W, Init, WorstRun(W, r, m), Fault, r.id) == 0
  {
    var head, tail := RefusedRun(r, m), FailedTurns(r.id, W.cap) + BuriedTurn(r.id);
    RefusedRunState(W, r, m);
    RefusedRunTroubles(W, r, m, RefusedOutput);
    RefusedRunTroubles(W, r, m, Fault);
    RefusedRunTally(r, m);
    PoisonTail(W, After(W, head), r, RefusedOutput);
    PoisonTail(W, After(W, head), r, Fault);
    TroublesAppend(W, Init, head, tail, RefusedOutput, r.id);
    TroublesAppend(W, Init, head, tail, Fault, r.id);
    TallyAppend(head, tail, Attempt, r.id);
  }

  // ---- when the barrier holds -----------------------------------------------------------------

  /** What a handler's author can check: the trace is filled in, and the output names no cause
      but its input or itself. */
  predicate Acceptable(e: Event, out: Event) {
    Filled(out.trace) &&
    (out.id == e.id || out.trace.causationId.None?
     || out.trace.causationId.value == e.id || out.trace.causationId.value == out.id)
  }

  lemma AcceptableExactly(W: World, r: Event)
    requires W.handle(r).Some?
    ensures Refusable(W, r) <==> !Acceptable(r, W.handle(r).value)
  {
  }

  lemma {:induction false} AcceptableNeverRefused(W: World, ls: seq<Label>, r: Event)
    requires Run(W, ls) && Collisionless(Closure(W)) && r in W.roots
    requires W.handle(r).Some? ==> Acceptable(r, W.handle(r).value)
    ensures Troubles(W, Init, ls, RefusedOutput, r.id) == 0
  {
    if ls != [] {
      var front, l := ls[..|ls| - 1], ls[|ls| - 1];
      AcceptableNeverRefused(W, front, r);
      if l.Insert? && l.id == r.id {
        OnlyRoot(W, front, l.w, r);
      }
    }
  }

  /** A worker that holds an event under the identifier of a root holds the root. */
  lemma OnlyRoot(W: World, ls: seq<Label>, w: WorkerId, r: Event)
    requires Run(W, ls) && Collisionless(Closure(W)) && r in W.roots && On(PhaseOf(After(W, ls), w), r.id)
    ensures PhaseOf(After(W, ls), w).e == r && r.id in After(W, ls).store.rows
    ensures PhaseOf(After(W, ls), w).Emitting? ==> W.handle(r) == Some(PhaseOf(After(W, ls), w).out)
  {
    RunSound(W, ls);
    var s := After(W, ls);
    assert PhaseSound(W, s.store, PhaseOf(s, w));
    assert RowSound(W, ls, s.store, r.id);
    DerivedRoot(W, r);
    assert PhaseOf(s, w).e in Closure(W) && r in Closure(W);
  }

  /** The barrier holds for the root: without faults, at most cap + 1 attempts in any run. */
  ghost predicate BarrierHolds(W: World, r: Event) {
    forall ls :: Run(W, ls) && Troubles(W, Init, ls, Fault, r.id) == 0 ==> Tally(ls, Attempt, r.id) <= W.cap + 1
  }

  /** For a root it holds exactly if the handler keeps silent or its output is acceptable. */
  lemma BarrierExactly(W: World, r: Event)
    requires r in W.roots && r.kind in W.consumed && Refusal(Init.store, r).None? && Collisionless(Closure(W))
    ensures BarrierHolds(W, r) <==> (W.handle(r).Some? ==> Acceptable(r, W.handle(r).value))
  {
    if W.handle(r).Some? ==> Acceptable(r, W.handle(r).value) {
      forall ls | Run(W, ls) && Troubles(W, Init, ls, Fault, r.id) == 0
        ensures Tally(ls, Attempt, r.id) <= W.cap + 1
      {
        AttemptsPerMishap(W, ls, r.id);
        AcceptableNeverRefused(W, ls, r);
      }
    } else {
      AcceptableExactly(W, r);
      RefusedOutputLoops(W, r, W.cap + 2);
      assert Tally(RefusedRun(r, W.cap + 2), Attempt, r.id) > W.cap + 1;
    }
  }
}
