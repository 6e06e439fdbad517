/** With finitely many roots, acyclic stages and finitely many setbacks, the workers run
    out of work, and where no worker can go on nothing is left to claim. */
module Termination {
  import opened Wrappers
  import opened Trace
  import opened EventStore
  import opened WorkerProtocol
  import opened ExactlyOnce
  import opened Attempts
  import Sums

  type Depth = Event -> nat

  /** Each stage leads strictly further down the pipeline. */
  ghost predicate Acyclic(W: World, depth: Depth) {
    forall e: Event :: Output(W, e).Some? ==> depth(Output(W, e).value) < depth(e)
  }

  /** The identifiers of e and of everything downstream of it. */
  ghost function Orbit(W: World, depth: Depth, e: Event): set<EventId>
    requires Acyclic(W, depth)
    decreases depth(e)
  {
    var out := Output(W, e);
    if out.None? then {e.id} else {e.id} + Orbit(W, depth, out.value)
  }

  lemma {:induction false} OrbitSize(W: World, depth: Depth, e: Event)
    requires Acyclic(W, depth)
    ensures |Orbit(W, depth, e)| <= depth(e) + 1
    decreases depth(e)
  {
    var out := Output(W, e);
    if out.Some? {
      OrbitSize(W, depth, out.value);
    }
  }

  lemma {:induction false} OrbitCovers(W: World, depth: Depth, r: Event, n: nat, e: Event)
    requires Acyclic(W, depth) && Descend(W, r, n) == Some(e)
    ensures Orbit(W, depth, e) <= Orbit(W, depth, r)
  {
    if n > 0 {
      OrbitCovers(W, depth, r, n - 1, Descend(W, r, n - 1).value);
    }
  }

  /** The identifiers of the closure. */
  ghost function Universe(W: World, depth: Depth, roots: set<Event>): set<EventId>
    requires Acyclic(W, depth)
  {
    set r, id | r in roots && id in Orbit(W, depth, r) :: id
  }

  ghost function Depths(depth: Depth, roots: set<Event>): map<Event, int> {
    map r | r in roots :: depth(r) + 1
  }

  lemma UniverseOfOne(W: World, depth: Depth, roots: set<Event>, r: Event)
    requires Acyclic(W, depth) && r in roots
    ensures Universe(W, depth, roots) == Orbit(W, depth, r) + Universe(W, depth, roots - {r})
  {
    forall id ensures id in Universe(W, depth, roots) <==> id in Orbit(W, depth, r) + Universe(W, depth, roots - {r}) {
      if id in Universe(W, depth, roots) && id !in Orbit(W, depth, r) {
        var q :| q in roots && id in Orbit(W, depth, q);
        assert q in roots - {r};
      }
    }
  }

  lemma {:induction false} UniverseSize(W: World, depth: Depth, roots: set<Event>)
    requires Acyclic(W, depth)
    ensures |Universe(W, depth, roots)| <= Sums.Total(Depths(depth, roots))
    decreases roots
  {
    if roots == {} {
      assert Universe(W, depth, roots) == {};
      assert Depths(depth, roots) == map[];
    } else {
      var r :| r in roots;
      var rest := roots - {r};
      UniverseSize(W, depth, rest);
      OrbitSize(W, depth, r);
      UnionSize(Orbit(W, depth, r), Universe(W, depth, rest));
      UniverseOfOne(W, depth, roots, r);
      Sums.TotalRemove(Depths(depth, roots), r);
      assert Depths(depth, roots) - {r} == Depths(depth, rest);
    }
  }

  lemma UnionSize<T>(a: set<T>, b: set<T>)
    ensures |a + b| <= |a| + |b|
  {
    assert a + b == a + (b - a);
  }

  lemma {:induction false} SubsetSize<T>(a: set<T>, b: set<T>)
    requires a <= b
    ensures |a| <= |b|
  {
    assert b == a + (b - a);
  }

  lemma StoredWithinUniverse(W: World, depth: Depth, ls: seq<Label>)
    requires Run(W, ls) && Acyclic(W, depth)
    ensures After(W, ls).store.rows.Keys <= Universe(W, depth, W.roots)
  {
    RunSound(W, ls);
    var s := After(W, ls).store;
    forall id | id in s.rows
      ensures id in Universe(W, depth, W.roots)
    {
      assert RowSound(W, ls, s, id);
      var e := s.rows[id].event;
      var r, n: nat :| r in W.roots && Descend(W, r, n) == Some(e);
      OrbitCovers(W, depth, r, n, e);
      assert id in Orbit(W, depth, e);
    }
  }

  /** Attempts and setbacks are about stored events. */
  lemma {:induction false} SubjectsStored(W: World, ls: seq<Label>)
    requires Run(W, ls)
    ensures forall i :: 0 <= i < |ls| && (Is(Attempt, ls[i]) || Is(Setback, ls[i])) ==>
              Subject(ls[i]) in After(W, ls).store.rows
  {
    if ls != [] {
      var front, l := ls[..|ls| - 1], ls[|ls| - 1];
      SubjectsStored(W, front);
      RunSound(W, front);
      var s := After(W, front);
      StoreGrows(W, s, l);
      if l.Bury? {
        assert PhaseSound(W, s.store, PhaseOf(s, l.w));
      }
      forall i | 0 <= i < |ls| && (Is(Attempt, ls[i]) || Is(Setback, ls[i]))
        ensures Subject(ls[i]) in After(W, ls).store.rows
      {
        if i < |front| {
          assert ls[i] == front[i];
        }
      }
    }
  }

  /** How many more steps a worker can take before it is idle again. */
  function Rank(p: Phase): nat {
    match p
    case Idle => 0
    case Holding(_) => 4
    case Emitting(_, _) => 3
    case Marking(_) => 2
    case Skipping(_) => 1
    case Failing(_) => 3
    case Burying(_, _) => 2
    case Releasing(_) => 1
  }

  function Ranks(workers: map<WorkerId, Phase>): map<WorkerId, int> {
    map w | w in workers :: Rank(workers[w])
  }

  /** A step lowers the rank of its worker, unless it is a claim that succeeds. */
  lemma RankStep(W: World, s: State, l: Label)
    requires !l.Ingest? && !l.Expire? && Enabled(W, s, l)
    ensures (if Is(Work, l) then 1 else 0) + Rank(NextPhase(W, s, l))
            <= Rank(PhaseOf(s, l.w)) + if Is(Attempt, l) then 5 else 0
  {
  }

  /** Each claim pays for at most five steps. */
  lemma {:induction false} WorkPaidByAttempts(W: World, ls: seq<Label>)
    requires Run(W, ls)
    ensures Grand(ls, Work) + Sums.Total(Ranks(After(W, ls).workers)) <= 5 * Grand(ls, Attempt)
  {
    if ls == [] {
      assert Ranks(Init.workers) == map[];
    } else {
      var front, l := ls[..|ls| - 1], ls[|ls| - 1];
      WorkPaidByAttempts(W, front);
      var s := After(W, front);
      if !l.Ingest? && !l.Expire? {
        var p := NextPhase(W, s, l);
        RankStep(W, s, l);
        Sums.TotalUpdate(Ranks(s.workers), l.w, Rank(p));
        assert Ranks(s.workers[l.w := p]) == Ranks(s.workers)[l.w := Rank(p)];
      }
    }
  }

  lemma AttemptsPerEvent(W: World, ls: seq<Label>, ids: set<EventId>)
    requires Run(W, ls)
    ensures forall id :: id in ids ==>
              TallyMap(ls, Attempt, ids)[id] <= TallyMap(ls, Setback, ids)[id] + (W.cap + 1)
  {
    forall id | id in ids
      ensures Tally(ls, Attempt, id) <= Tally(ls, Setback, id) + (W.cap + 1)
    {
      AttemptBound(W, ls, id);
    }
  }

  lemma TotalsOver(a: map<EventId, int>, b: map<EventId, int>, ids: set<EventId>, c: int)
    requires a.Keys == ids && b.Keys == ids && forall id :: id in ids ==> a[id] <= b[id] + c
    ensures Sums.Total(a) <= Sums.Total(b) + |ids| * c
  {
    Sums.TotalBounded(a, b, c);
    assert |a| == |a.Keys|;
  }

  /** Attempts and setbacks are about stored events, so counting them event by event loses
      none. */
  lemma TalliesTotal(W: World, ls: seq<Label>, k: Sort, ids: set<EventId>)
    requires Run(W, ls) && ids == After(W, ls).store.rows.Keys && !k.Work?
    ensures Sums.Total(TallyMap(ls, k, ids)) == Grand(ls, k)
  {
    SubjectsStored(W, ls);
    GrandIsTotal(ls, k, ids);
  }

  lemma TotalsPerEvent(W: World, ls: seq<Label>, ids: set<EventId>)
    requires Run(W, ls)
    ensures Sums.Total(TallyMap(ls, Attempt, ids)) <= Sums.Total(TallyMap(ls, Setback, ids)) + |ids| * (W.cap + 1)
  {
    AttemptsPerEvent(W, ls, ids);
    TotalsOver(TallyMap(ls, Attempt, ids), TallyMap(ls, Setback, ids), ids, W.cap + 1);
  }

  /** The attempts at the stored events, in terms of how many there are. */
  lemma AttemptsAtStored(W: World, ls: seq<Label>, ids: set<EventId>)
    requires Run(W, ls) && ids == After(W, ls).store.rows.Keys
    ensures Grand(ls, Attempt) <= Grand(ls, Setback) + |ids| * (W.cap + 1)
  {
    TalliesTotal(W, ls, Attempt, ids);
    TalliesTotal(W, ls, Setback, ids);
    TotalsPerEvent(W, ls, ids);
  }

  /** How many events a run can ever store. */
  lemma StoredBound(W: World, depth: Depth, ls: seq<Label>)
    requires Run(W, ls) && Acyclic(W, depth)
    ensures |After(W, ls).store.rows.Keys| <= Sums.Total(Depths(depth, W.roots))
  {
    StoredWithinUniverse(W, depth, ls);
    SubsetSize(After(W, ls).store.rows.Keys, Universe(W, depth, W.roots));
    UniverseSize(W, depth, W.roots);
  }

  lemma Scale(x: int, y: int, c: nat)
    requires x <= y
    ensures x * c <= y * c
  {
  }

  lemma AttemptsBounded(W: World, depth: Depth, ls: seq<Label>)
    requires Run(W, ls) && Acyclic(W, depth)
    ensures Grand(ls, Attempt) <= Grand(ls, Setback) + Sums.Total(Depths(depth, W.roots)) * (W.cap + 1)
  {
    var ids := After(W, ls).store.rows.Keys;
    AttemptsAtStored(W, ls, ids);
    StoredBound(W, depth, ls);
    Scale(|ids|, Sums.Total(Depths(depth, W.roots)), W.cap + 1);
  }

  /** Termination: in any run the workers take at most five steps per stored event and
      retry allowance, plus five per setback. A run with finitely many setbacks has
      finitely many worker steps. */
  lemma WorkIsBounded(W: World, depth: Depth, ls: seq<Label>)
    requires Run(W, ls) && Acyclic(W, depth)
    ensures Grand(ls, Work) <= 5 * (Sums.Total(Depths(depth, W.roots)) * (W.cap + 1) + Grand(ls, Setback))
  {
    WorkPaidByAttempts(W, ls);
    Sums.TotalNonNegative(Ranks(After(W, ls).workers));
    AttemptsBounded(W, depth, ls);
  }

  /** The steps a healthy system takes by itself: confirmed calls, handler returns and the
      claim timeout. */
  predicate Progress(l: Label) {
    match l
    case Ingest(_, _) => false
    case Crash(_, _) => false
    case Succeed(_, _) => true
    case Fail(_, _) => true
    case Stale(_, _) => true
    case Expire(_) => true
    case _ => l.ack.Done?
  }

  /** The next confirmed step of a busy worker. */
  function NextStep(w: WorkerId, p: Phase): Label
    requires !p.Idle?
  {
    if p.Holding? then Succeed(w, p.e.id) else CallOf(w, p, Done)
  }

  lemma BusyCanStep(W: World, s: State, w: WorkerId)
    requires PhaseSound(W, s.store, PhaseOf(s, w)) && !PhaseOf(s, w).Idle?
    ensures var l := NextStep(w, PhaseOf(s, w)); Progress(l) && Enabled(W, s, l)
  {
  }

  ghost predicate Quiet(W: World, s: State) {
    forall l :: Progress(l) ==> !Enabled(W, s, l)
  }

  /** Where nothing can progress, every worker is idle and nothing is left to claim. */
  lemma QuietMeansDrained(W: World, ls: seq<Label>)
    requires Run(W, ls) && Quiet(W, After(W, ls))
    ensures var s := After(W, ls);
            && (forall w :: PhaseOf(s, w).Idle?)
            && (forall id :: id in s.store.rows && s.store.rows[id].event.kind in W.consumed ==>
                  s.store.rows[id].processed)
  {
    var s := After(W, ls);
    RunSound(W, ls);
    forall w
      ensures PhaseOf(s, w).Idle?
    {
      if !PhaseOf(s, w).Idle? {
        BusyCanStep(W, s, w);
      }
    }
    forall id | id in s.store.rows && s.store.rows[id].event.kind in W.consumed
      ensures s.store.rows[id].processed
    {
      assert !Enabled(W, s, Expire(id));
      assert !Enabled(W, s, Claim(0, id, Done));
    }
  }
}
