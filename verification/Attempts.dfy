/** How often an event is handed to its handler, and why all work comes to an end. */
module Attempts {
  import opened Wrappers
  import opened Trace
  import opened EventStore
  import opened WorkerProtocol
  import opened ExactlyOnce
  import Sums

  // ---- counting labels -----------------------------------------------------------

  datatype Sort = Attempt | Setback | Work

  /** Attempts are confirmed claims; each leads to at most one handler call. Setbacks are
      claim expiries and failed counter writes and dead-letter moves. Work is every step a
      worker makes, except a claim that gave it nothing. */
  predicate Is(k: Sort, l: Label) {
    match k
    case Attempt => l.Claim? && l.ack.Done?
    case Setback => l.Expire? || ((l.Count? || l.Bury?) && !l.ack.Done?)
    case Work => !l.Ingest? && !l.Expire? && (l.Claim? ==> l.ack.Done?)
  }

  /** The labels of sort k about event `id`. */
  function Tally(ls: seq<Label>, k: Sort, id: EventId): nat {
    if ls == [] then 0
    else
      var l := ls[|ls| - 1];
      Tally(ls[..|ls| - 1], k, id) + if Is(k, l) && Subject(l) == id then 1 else 0
  }

  /** All labels of sort k. */
  function Grand(ls: seq<Label>, k: Sort): nat {
    if ls == [] then 0
    else Grand(ls[..|ls| - 1], k) + if Is(k, ls[|ls| - 1]) then 1 else 0
  }

  function TallyMap(ls: seq<Label>, k: Sort, ids: set<EventId>): map<EventId, int> {
    map id | id in ids :: Tally(ls, k, id)
  }

  /** Counting event by event and adding up gives the count of all labels. */
  lemma {:induction false} GrandIsTotal(ls: seq<Label>, k: Sort, ids: set<EventId>)
    requires forall i :: 0 <= i < |ls| && Is(k, ls[i]) ==> Subject(ls[i]) in ids
    ensures Sums.Total(TallyMap(ls, k, ids)) == Grand(ls, k)
  {
    if ls == [] {
      AllZero(TallyMap(ls, k, ids));
    } else {
      var front, l := ls[..|ls| - 1], ls[|ls| - 1];
      GrandIsTotal(front, k, ids);
      var m := TallyMap(front, k, ids);
      if Is(k, l) {
        var id := Subject(l);
        Sums.TotalUpdate(m, id, m[id] + 1);
        assert TallyMap(ls, k, ids) == m[id := m[id] + 1];
      } else {
        assert TallyMap(ls, k, ids) == m;
      }
    }
  }

  lemma {:induction false} AllZero(m: map<EventId, int>)
    requires forall id :: id in m ==> m[id] == 0
    ensures Sums.Total(m) == 0
    decreases |m|
  {
    if m != map[] {
      var id :| id in m;
      Sums.TotalRemove(m, id);
      AllZero(m - {id});
    }
  }

  // ---- the poison-pill barrier ---------------------------------------------------

  /** The workers about to release their claim on `id`. */
  function Releasers(s: State, id: EventId): set<WorkerId> {
    ReleasingIn(s.workers, id)
  }

  function ReleasingIn(workers: map<WorkerId, Phase>, id: EventId): set<WorkerId> {
    set w | w in workers && ReleasingOn(workers[w], id)
  }

  predicate ReleasingOn(p: Phase, id: EventId) {
    p.Releasing? && p.e.id == id
  }

  function RetriesOf(s: State, id: EventId): nat {
    if id in s.store.rows then s.store.rows[id].retries else 0
  }

  function Min(a: int, b: int): int { if a < b then a else b }

  /** Each attempt was paid for by a counted failure, by a setback, or by the claim that is
      still on the row; who has paid but not yet released must not count on that claim. */
  ghost predicate Paid(W: World, ls: seq<Label>, s: State, id: EventId) {
    var spent := Tally(ls, Attempt, id);
    var budget := Min(RetriesOf(s, id), W.cap) + Tally(ls, Setback, id);
    && spent <= budget + 1
    && (id !in s.store.rows ==> spent == 0 && Releasers(s, id) == {})
    && (id in s.store.rows && !s.store.rows[id].processed ==>
          spent + |Releasers(s, id)| <= budget + if s.store.rows[id].claimed then 1 else 0)
  }

  lemma ReassignWorker(workers: map<WorkerId, Phase>, w: WorkerId, p: Phase, id: EventId)
    ensures |ReleasingIn(workers[w := p], id)| + (if w in workers && ReleasingOn(workers[w], id) then 1 else 0)
            == |ReleasingIn(workers, id)| + if ReleasingOn(p, id) then 1 else 0
  {
    var before, after := ReleasingIn(workers, id), ReleasingIn(workers[w := p], id);
    assert after - {w} == before - {w};
    Sums.Exchange(before, after, w);
  }

  lemma ReleasersStep(W: World, s: State, l: Label, id: EventId)
    requires Enabled(W, s, l)
    ensures var before, after := Releasers(s, id), Releasers(Apply(W, s, l), id);
            if l.Ingest? || l.Expire? then |after| == |before|
            else
              |after| + (if ReleasingOn(PhaseOf(s, l.w), id) then 1 else 0)
              == |before| + if ReleasingOn(NextPhase(W, s, l), id) then 1 else 0
  {
    if !l.Ingest? && !l.Expire? {
      ReassignWorker(s.workers, l.w, NextPhase(W, s, l), id);
    }
  }

  lemma TallyStep(ls: seq<Label>, l: Label, k: Sort, id: EventId)
    ensures Tally(ls + [l], k, id) == Tally(ls, k, id) + if Is(k, l) && Subject(l) == id then 1 else 0
  {
    assert (ls + [l])[..|ls|] == ls;
  }

  lemma PaidOtherStep(W: World, ls: seq<Label>, s: State, l: Label, id: EventId)
    requires Sound(W, ls, s) && Paid(W, ls, s, id) && Enabled(W, s, l) && Subject(l) != id
    requires Tally(ls + [l], Attempt, id) == Tally(ls, Attempt, id)
    requires Tally(ls + [l], Setback, id) == Tally(ls, Setback, id)
    requires |Releasers(Apply(W, s, l), id)| == |Releasers(s, id)|
    ensures Paid(W, ls + [l], Apply(W, s, l), id)
  {
    OtherRowStays(W, s, l, id);
  }

  /** A step about another event leaves the row alone, or creates it. */
  lemma OtherRowStays(W: World, s: State, l: Label, id: EventId)
    requires Enabled(W, s, l) && Subject(l) != id
    ensures var t := Apply(W, s, l).store.rows;
            if id in s.store.rows then id in t && t[id] == s.store.rows[id]
            else id in t ==> t[id].retries == 0 && !t[id].claimed
  {
  }

  lemma PaidOwnStep(W: World, ls: seq<Label>, s: State, l: Label, id: EventId)
    requires Sound(W, ls, s) && Paid(W, ls, s, id) && Enabled(W, s, l) && Subject(l) == id
    requires Tally(ls + [l], Attempt, id) == Tally(ls, Attempt, id) + if Is(Attempt, l) then 1 else 0
    requires Tally(ls + [l], Setback, id) == Tally(ls, Setback, id) + if Is(Setback, l) then 1 else 0
    requires if l.Ingest? || l.Expire? then |Releasers(Apply(W, s, l), id)| == |Releasers(s, id)|
             else
               |Releasers(Apply(W, s, l), id)| + (if l.Release? || (l.Crash? && PhaseOf(s, l.w).Releasing?) then 1 else 0)
               == |Releasers(s, id)| + if NextPhase(W, s, l).Releasing? then 1 else 0
    ensures Paid(W, ls + [l], Apply(W, s, l), id)
  {
    if !l.Ingest? && !l.Expire? && !l.Claim? {
      assert PhaseSound(W, s.store, PhaseOf(s, l.w));
    }
    match l
    case Ingest(_, _) =>
    case Claim(_, _, _) =>
    case Count(_, _, _) =>
    case Bury(_, _, _) =>
    case Release(_, _, _) =>
    case Expire(_) =>
    case Mark(_, _, _) =>
    case MarkSkipped(_, _, _) =>
    case Insert(_, _, _) =>
      assert Apply(W, s, l).store.rows[id] == s.store.rows[id];
    case Crash(_, _) =>
    case _ =>
  }

  lemma PaidStep(W: World, ls: seq<Label>, s: State, l: Label, id: EventId)
    requires Sound(W, ls, s) && Paid(W, ls, s, id) && Enabled(W, s, l)
    ensures Paid(W, ls + [l], Apply(W, s, l), id)
  {
    TallyStep(ls, l, Attempt, id);
    TallyStep(ls, l, Setback, id);
    ReleasersStep(W, s, l, id);
    if Subject(l) == id {
      PaidOwnStep(W, ls, s, l, id);
    } else {
      PaidOtherStep(W, ls, s, l, id);
    }
  }

  lemma {:induction false} AlwaysPaid(W: World, ls: seq<Label>, id: EventId)
    requires Run(W, ls)
    ensures Paid(W, ls, After(W, ls), id)
  {
    if ls != [] {
      var front, l := ls[..|ls| - 1], ls[|ls| - 1];
      AlwaysPaid(W, front, id);
      RunSound(W, front);
      PaidStep(W, front, After(W, front), l, id);
      assert front + [l] == ls;
    }
  }

  /** In any run, an event is handed out at most cap + 1 times, plus once per claim expiry
      and per failed counter write or dead-letter move on it. Crashes and failed inserts,
      marks and releases cost nothing by themselves: they leave the claim behind, so the
      event comes back only through an expiry. */
  lemma AttemptBound(W: World, ls: seq<Label>, id: EventId)
    requires Run(W, ls)
    ensures Tally(ls, Attempt, id) <= W.cap + 1 + Tally(ls, Setback, id)
  {
    AlwaysPaid(W, ls, id);
  }

  // ---- the bound is reached ------------------------------------------------------

  /** One failed attempt by worker 0, up to the counter. */
  function FailedAttempt(id: EventId): seq<Label> {
    [Claim(0, id, Done), Fail(0, id), Count(0, id, Done)]
  }

  /** n failed and released attempts. */
  function FailedTurns(id: EventId, n: nat): seq<Label> {
    if n == 0 then [] else FailedTurns(id, n - 1) + (FailedAttempt(id) + [Release(0, id, Done)])
  }

  /** The same at a root that has just been inserted. */
  function PoisonRun(r: Event, n: nat): seq<Label> {
    [Ingest(r, Done)] + FailedTurns(r.id, n)
  }

  lemma StepsOne(W: World, s: State, ls: seq<Label>, l: Label)
    requires Steps(W, s, ls).Some? && Enabled(W, Steps(W, s, ls).value, l)
    ensures Steps(W, s, ls + [l]) == Some(Apply(W, Steps(W, s, ls).value, l))
  {
    assert (ls + [l])[..|ls|] == ls;
  }

  lemma {:induction false} TallyAppend(a: seq<Label>, b: seq<Label>, k: Sort, id: EventId)
    ensures Tally(a + b, k, id) == Tally(a, k, id) + Tally(b, k, id)
  {
    if b == [] {
      assert a + b == a;
    } else {
      assert (a + b)[..|a + b| - 1] == a + b[..|b| - 1];
      TallyAppend(a, b[..|b| - 1], k, id);
    }
  }

  lemma FailedAttemptState(W: World, s: State, r: Event, n: nat)
    requires s.store == Store(map[r.id := Row(r, false, false, n)], map[]) && PhaseOf(s, 0) == Idle
    requires r.kind in W.consumed
    ensures var t := Steps(W, s, FailedAttempt(r.id));
            && t.Some?
            && t.value.store == Store(map[r.id := Row(r, false, true, n + 1)], map[])
            && PhaseOf(t.value, 0) == if n + 1 > W.cap then Burying(r, n + 1) else Releasing(r)
  {
    var a, b, c := Claim(0, r.id, Done), Fail(0, r.id), Count(0, r.id, Done);
    StepsOne(W, s, [], a);
    assert [] + [a] == [a];
    StepsOne(W, s, [a], b);
    assert [a] + [b] == [a, b];
    StepsOne(W, s, [a, b], c);
    assert [a, b] + [c] == FailedAttempt(r.id);
  }

  lemma FailedAttemptTally(id: EventId, l: Label)
    requires l.Release? || l == Bury(0, id, Done)
    ensures Tally(FailedAttempt(id) + [l], Attempt, id) == 1
    ensures Tally(FailedAttempt(id) + [l], Setback, id) == 0
  {
    var a, b, c := Claim(0, id, Done), Fail(0, id), Count(0, id, Done);
    assert FailedAttempt(id) == [a] + [b] + [c];
    TallyAppend([a], [b], Attempt, id);
    TallyAppend([a] + [b], [c], Attempt, id);
    TallyAppend(FailedAttempt(id), [l], Attempt, id);
    TallyAppend([a], [b], Setback, id);
    TallyAppend([a] + [b], [c], Setback, id);
    TallyAppend(FailedAttempt(id), [l], Setback, id);
  }

  lemma FailedTurnState(W: World, s: State, r: Event, n: nat)
    requires s.store == Store(map[r.id := Row(r, false, false, n)], map[]) && PhaseOf(s, 0) == Idle
    requires r.kind in W.consumed && n < W.cap
    ensures var t := Steps(W, s, FailedAttempt(r.id) + [Release(0, r.id, Done)]);
            && t.Some?
            && t.value.store == Store(map[r.id := Row(r, false, false, n + 1)], map[])
            && PhaseOf(t.value, 0) == Idle
  {
    FailedAttemptState(W, s, r, n);
    StepsOne(W, s, FailedAttempt(r.id), Release(0, r.id, Done));
  }

  lemma FirstIngest(W: World, r: Event)
    requires r in W.roots && Refusal(Init.store, r).None?
    ensures Run(W, [Ingest(r, Done)])
    ensures After(W, [Ingest(r, Done)]).store == Store(map[r.id := Row(r, false, false, 0)], map[])
    ensures After(W, [Ingest(r, Done)]).workers == map[]
  {
    StepsOne(W, Init, [], Ingest(r, Done));
    assert [] + [Ingest(r, Done)] == [Ingest(r, Done)];
  }

  lemma {:induction false} FailedTurnsState(W: World, s: State, r: Event, n: nat)
    requires s.store == Store(map[r.id := Row(r, false, false, 0)], map[]) && PhaseOf(s, 0) == Idle
    requires r.kind in W.consumed && n <= W.cap
    ensures var t := Steps(W, s, FailedTurns(r.id, n));
            && t.Some?
            && t.value.store == Store(map[r.id := Row(r, false, false, n)], map[])
            && PhaseOf(t.value, 0) == Idle
  {
    if n > 0 {
      FailedTurnsState(W, s, r, n - 1);
      FailedTurnState(W, Steps(W, s, FailedTurns(r.id, n - 1)).value, r, n - 1);
      StepsAppend(W, s, FailedTurns(r.id, n - 1), FailedAttempt(r.id) + [Release(0, r.id, Done)]);
    }
  }

  lemma PoisonRunState(W: World, r: Event, n: nat)
    requires r in W.roots && r.kind in W.consumed && Refusal(Init.store, r).None? && n <= W.cap
    ensures Run(W, PoisonRun(r, n))
    ensures After(W, PoisonRun(r, n)).store == Store(map[r.id := Row(r, false, false, n)], map[])
    ensures PhaseOf(After(W, PoisonRun(r, n)), 0) == Idle
  {
    FirstIngest(W, r);
    FailedTurnsState(W, After(W, [Ingest(r, Done)]), r, n);
    StepsAppend(W, Init, [Ingest(r, Done)], FailedTurns(r.id, n));
  }

  lemma {:induction false} FailedTurnsTally(id: EventId, n: nat)
    ensures Tally(FailedTurns(id, n), Attempt, id) == n && Tally(FailedTurns(id, n), Setback, id) == 0
  {
    if n > 0 {
      var last := Release(0, id, Done);
      FailedTurnsTally(id, n - 1);
      FailedAttemptTally(id, last);
      TallyAppend(FailedTurns(id, n - 1), FailedAttempt(id) + [last], Attempt, id);
      TallyAppend(FailedTurns(id, n - 1), FailedAttempt(id) + [last], Setback, id);
    }
  }

  lemma PoisonRunTally(r: Event, n: nat)
    ensures Tally(PoisonRun(r, n), Attempt, r.id) == n && Tally(PoisonRun(r, n), Setback, r.id) == 0
  {
    FailedTurnsTally(r.id, n);
    TallyAppend([Ingest(r, Done)], FailedTurns(r.id, n), Attempt, r.id);
    TallyAppend([Ingest(r, Done)], FailedTurns(r.id, n), Setback, r.id);
  }

  /** The last attempt at a poison pill. */
  function BuriedTurn(id: EventId): seq<Label> {
    FailedAttempt(id) + [Bury(0, id, Done)]
  }

  lemma BuriedTurnState(W: World, s: State, r: Event)
    requires s.store == Store(map[r.id := Row(r, false, false, W.cap)], map[]) && PhaseOf(s, 0) == Idle
    requires r.kind in W.consumed
    ensures var t := Steps(W, s, BuriedTurn(r.id));
            t.Some? && t.value.store == Store(map[r.id := Row(r, true, true, W.cap + 1)], map[r.id := W.cap + 1])
  {
    FailedAttemptState(W, s, r, W.cap);
    StepsOne(W, s, FailedAttempt(r.id), Bury(0, r.id, Done));
  }

  lemma PoisonPillTally(r: Event, n: nat)
    ensures Tally(PoisonRun(r, n) + BuriedTurn(r.id), Attempt, r.id) == n + 1
    ensures Tally(PoisonRun(r, n) + BuriedTurn(r.id), Setback, r.id) == 0
  {
    PoisonRunTally(r, n);
    FailedAttemptTally(r.id, Bury(0, r.id, Done));
    TallyAppend(PoisonRun(r, n), BuriedTurn(r.id), Attempt, r.id);
    TallyAppend(PoisonRun(r, n), BuriedTurn(r.id), Setback, r.id);
  }

  /** A root whose handler keeps failing takes exactly cap + 1 attempts when nothing else
      goes wrong, and the last of them dead-letters it. */
  lemma PoisonPill(W: World, r: Event)
    requires r in W.roots && r.kind in W.consumed && Refusal(Init.store, r).None?
    ensures var ls := PoisonRun(r, W.cap) + BuriedTurn(r.id);
            && Run(W, ls)
            && Tally(ls, Attempt, r.id) == W.cap + 1
            && Tally(ls, Setback, r.id) == 0
            && After(W, ls).store == Store(map[r.id := Row(r, true, true, W.cap + 1)], map[r.id := W.cap + 1])
  {
    PoisonRunState(W, r, W.cap);
    BuriedTurnState(W, After(W, PoisonRun(r, W.cap)), r);
    StepsAppend(W, Init, PoisonRun(r, W.cap), BuriedTurn(r.id));
    PoisonPillTally(r, W.cap);
  }

  /** What the configured number of retries means: n if it is positive, and five otherwise.
      No event is attempted more than n + 1 times without setbacks, and a root whose handler
      keeps failing is attempted just as often. */
  lemma ConfiguredBarrier(W: World, maxRetries: Option<int>, n: nat, ls: seq<Label>, id: EventId, r: Event)
    requires W.cap == EffectiveCap(maxRetries)
    requires if maxRetries.Some? && maxRetries.value > 0 then n == maxRetries.value else n == 5
    requires Run(W, ls) && r in W.roots && r.kind in W.consumed && Refusal(Init.store, r).None?
    ensures Tally(ls, Attempt, id) <= n + 1 + Tally(ls, Setback, id)
    ensures var ks := PoisonRun(r, n) + BuriedTurn(r.id);
            && Run(W, ks) && Tally(ks, Attempt, r.id) == n + 1 && Tally(ks, Setback, r.id) == 0
            && After(W, ks).store.dlq == map[r.id := n + 1]
  {
    AttemptBound(W, ls, id);
    PoisonPill(W, r);
  }
}
