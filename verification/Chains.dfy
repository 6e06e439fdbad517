/** For which pipelines the retry barrier holds, for the events of every stage: those in which
    each output names its cause within its own chain. */
module Chains {
  import opened Wrappers
  import opened Trace
  import opened EventStore
  import opened WorkerProtocol
  import opened ExactlyOnce
  import opened Attempts
  import opened Causality
  import opened Barrier
  import opened Refusals

  /** The identifiers of a root and of its first n descendants. */
  function ChainIds(W: World, r: Event, n: nat): set<EventId> {
    if n == 0 then {r.id}
    else
      ChainIds(W, r, n - 1) + match Descend(W, r, n) case None => {} case Some(e) => {e.id}
  }

  /** The first n descendants exist, each under an identifier of its own. */
  predicate Simple(W: World, r: Event, n: nat) {
    n == 0 ||
    (Simple(W, r, n - 1) && Descend(W, r, n).Some? && Descend(W, r, n).value.id !in ChainIds(W, r, n - 1))
  }

  /** A store that holds these identifiers takes the event. */
  predicate Fits(ids: set<EventId>, out: Event) {
    Filled(out.trace) &&
    (out.id in ids || out.trace.causationId.None?
     || out.trace.causationId.value == out.id || out.trace.causationId.value in ids)
  }

  lemma FitsExactly(s: Store, out: Event)
    ensures Fits(s.rows.Keys, out) <==> Refusal(s, out).None?
  {
  }

  lemma FitsMore(a: set<EventId>, b: set<EventId>, out: Event)
    requires Fits(a, out) && a <= b
    ensures Fits(b, out)
  {
  }

  /** The output of the n-th descendant, if there is one, is filled in and names no cause,
      itself, or an event of the chain so far; or it is on that chain already. */
  predicate LinkFits(W: World, r: Event, n: nat) {
    var e := Descend(W, r, n);
    e.Some? && Output(W, e.value).Some? ==> Fits(ChainIds(W, r, n), Output(W, e.value).value)
  }

  ghost predicate ChainsFit(W: World) {
    forall r, n: nat :: r in W.roots && Simple(W, r, n) ==> LinkFits(W, r, n)
  }

  // ---- no refusals where chains fit -------------------------------------------------------

  /** The event ends a chain whose identifiers are all stored. */
  ghost predicate OnChain(W: World, ids: set<EventId>, e: Event) {
    exists r, n: nat :: r in W.roots && Simple(W, r, n) && Descend(W, r, n) == Some(e) && ChainIds(W, r, n) <= ids
  }

  lemma OnChainGrows(W: World, a: set<EventId>, b: set<EventId>, e: Event)
    requires OnChain(W, a, e) && a <= b
    ensures OnChain(W, b, e)
  {
    var r, n: nat :| r in W.roots && Simple(W, r, n) && Descend(W, r, n) == Some(e) && ChainIds(W, r, n) <= a;
    assert ChainIds(W, r, n) <= b;
  }

  lemma RootOnChain(W: World, ids: set<EventId>, r: Event)
    requires r in W.roots && r.id in ids
    ensures OnChain(W, ids, r)
  {
    assert Simple(W, r, 0) && Descend(W, r, 0) == Some(r) && ChainIds(W, r, 0) <= ids;
  }

  lemma OutputOnChain(W: World, ids: set<EventId>, e: Event, out: Event)
    requires OnChain(W, ids, e) && Output(W, e) == Some(out) && out.id !in ids
    ensures OnChain(W, ids + {out.id}, out)
  {
    var r, n: nat :| r in W.roots && Simple(W, r, n) && Descend(W, r, n) == Some(e) && ChainIds(W, r, n) <= ids;
    assert Descend(W, r, n + 1) == Some(out);
    assert Simple(W, r, n + 1) && ChainIds(W, r, n + 1) <= ids + {out.id};
  }

  lemma {:induction false} AlwaysOnChain(W: World, ls: seq<Label>)
    requires Run(W, ls)
    ensures var rows := After(W, ls).store.rows;
            forall id :: id in rows ==> OnChain(W, rows.Keys, rows[id].event)
  {
    if ls != [] {
      var front, l := ls[..|ls| - 1], ls[|ls| - 1];
      AlwaysOnChain(W, front);
      var s, t := After(W, front), After(W, ls);
      RowsChange(W, s, l);
      forall id | id in t.store.rows
        ensures OnChain(W, t.store.rows.Keys, t.store.rows[id].event)
      {
        if id in s.store.rows {
          OnChainGrows(W, s.store.rows.Keys, t.store.rows.Keys, s.store.rows[id].event);
        } else {
          NewOnChain(W, front, l);
        }
      }
    }
  }

  lemma NewOnChain(W: World, ls: seq<Label>, l: Label)
    requires Run(W, ls) && Enabled(W, After(W, ls), l)
    requires forall id :: id in After(W, ls).store.rows ==>
               OnChain(W, After(W, ls).store.rows.Keys, After(W, ls).store.rows[id].event)
    requires Inserting(After(W, ls), l).Some? && Inserting(After(W, ls), l).value.id !in After(W, ls).store.rows
    ensures var e := Inserting(After(W, ls), l).value; OnChain(W, After(W, ls).store.rows.Keys + {e.id}, e)
  {
    var s, e := After(W, ls), Inserting(After(W, ls), l).value;
    if l.Ingest? {
      RootOnChain(W, s.store.rows.Keys + {e.id}, e);
    } else {
      RunSound(W, ls);
      var p := PhaseOf(s, l.w);
      assert PhaseSound(W, s.store, p);
      assert OnChain(W, s.store.rows.Keys, s.store.rows[p.e.id].event);
      OutputOnChain(W, s.store.rows.Keys, p.e, e);
    }
  }

  lemma StoredOutputFits(W: World, ids: set<EventId>, e: Event)
    requires ChainsFit(W) && OnChain(W, ids, e) && Output(W, e).Some?
    ensures Fits(ids, Output(W, e).value)
  {
    var r, n: nat :| r in W.roots && Simple(W, r, n) && Descend(W, r, n) == Some(e) && ChainIds(W, r, n) <= ids;
    assert LinkFits(W, r, n);
    FitsMore(ChainIds(W, r, n), ids, Output(W, e).value);
  }

  /** Where the chains fit, no run refuses an output, even if identifiers collide. */
  lemma FittingNeverRefuses(W: World)
    requires ChainsFit(W)
    ensures NeverRefuses(W)
  {
    forall ls, l | Run(W, ls) && Enabled(W, After(W, ls), l)
      ensures !Hits(After(W, ls), l, RefusedOutput)
    {
      if l.Insert? {
        var s := After(W, ls);
        var p := PhaseOf(s, l.w);
        RunSound(W, ls);
        assert PhaseSound(W, s.store, p);
        AlwaysOnChain(W, ls);
        assert OnChain(W, s.store.rows.Keys, s.store.rows[p.e.id].event);
        StoredOutputFits(W, s.store.rows.Keys, p.e);
        FitsExactly(s.store, p.out);
      }
    }
  }

  // ---- the first link that does not fit -----------------------------------------------------

  lemma {:induction false} SimpleDown(W: World, r: Event, n: nat, j: nat)
    requires Simple(W, r, n) && j <= n
    ensures Simple(W, r, j) && Descend(W, r, j).Some?
  {
    if j < n {
      SimpleDown(W, r, n - 1, j);
    }
  }

  lemma {:induction false} LeastMisfit(W: World, r: Event, n: nat) returns (k: nat)
    requires Simple(W, r, n) && !LinkFits(W, r, n)
    ensures Simple(W, r, k) && !LinkFits(W, r, k)
    ensures forall j: nat :: j < k ==> LinkFits(W, r, j)
    decreases n
  {
    if j: nat :| j < n && !LinkFits(W, r, j) {
      SimpleDown(W, r, n, j);
      k := LeastMisfit(W, r, j);
    } else {
      k := n;
    }
  }

  /** One turn in which the output is stored and the event marked. */
  function ServedTurn(id: EventId): seq<Label> {
    [Claim(0, id, Done), Succeed(0, id), Insert(0, id, Done), Mark(0, id, Done)]
  }

  lemma AcceptedInsert(W: World, s: State, e: Event, out: Event)
    requires PhaseOf(s, 0) == Emitting(e, out) && Refusal(s.store, out).None?
    ensures Enabled(W, s, Insert(0, e.id, Done))
    ensures Apply(W, s, Insert(0, e.id, Done)) == State(Inserted(s.store, out), s.workers[0 := Marking(e)])
  {
  }

  lemma ServedTurnState(W: World, s: State, e: Event, out: Event)
    requires Ready(s, e) && e.kind in W.consumed && W.handle(e) == Some(out)
    requires Refusal(s.store, out).None? && out.id !in s.store.rows
    ensures var t := Steps(W, s, ServedTurn(e.id));
            t.Some? && t.value.store.rows.Keys == s.store.rows.Keys + {out.id} && Ready(t.value, out)
  {
    var id, claimed := e.id, Claimed(s.store, e.id);
    var a, b, c, d := Claim(0, id, Done), Succeed(0, id), Insert(0, id, Done), Mark(0, id, Done);
    ReadyClaim(W, s, e);
    var s1 := State(claimed, s.workers[0 := Holding(e)]);
    var s2 := State(claimed, s1.workers[0 := Emitting(e, out)]);
    assert Apply(W, s1, b) == s2;
    SameRefusal(s.store, claimed, out);
    AcceptedInsert(W, s2, e, out);
    var s3 := State(Inserted(claimed, out), s2.workers[0 := Marking(e)]);
    var s4 := Apply(W, s3, d);
    assert s4.store == MarkedProcessed(s3.store, id);
    assert s4.store.rows.Keys == s.store.rows.Keys + {out.id};
    FourSteps(W, s, a, b, c, d, Fault, id);
  }

  /** The root inserted and its first n descendants produced, one turn after the other. */
  function ChainRun(W: World, r: Event, n: nat): seq<Label>
    requires Simple(W, r, n)
  {
    if n == 0 then [Ingest(r, Done)]
    else
      SimpleDown(W, r, n, n - 1);
      ChainRun(W, r, n - 1) + ServedTurn(Descend(W, r, n - 1).value.id)
  }

  lemma {:induction false} ChainIdsGrow(W: World, r: Event, n: nat)
    requires Simple(W, r, n)
    ensures Descend(W, r, n).Some? && Descend(W, r, n).value.id in ChainIds(W, r, n)
    ensures n > 0 ==> ChainIds(W, r, n) == ChainIds(W, r, n - 1) + {Descend(W, r, n).value.id}
  {
  }

  lemma {:induction false} ChainRunState(W: World, r: Event, n: nat)
    requires r in W.roots && Refusal(Init.store, r).None? && Simple(W, r, n)
    requires forall j: nat :: j < n ==> LinkFits(W, r, j)
    ensures Run(W, ChainRun(W, r, n))
    ensures var s := After(W, ChainRun(W, r, n));
            s.store.rows.Keys == ChainIds(W, r, n) && Descend(W, r, n).Some? && Ready(s, Descend(W, r, n).value)
  {
    if n == 0 {
      FirstIngest(W, r);
    } else {
      SimpleDown(W, r, n, n - 1);
      ChainRunState(W, r, n - 1);
      ChainIdsGrow(W, r, n);
      var s, e := After(W, ChainRun(W, r, n - 1)), Descend(W, r, n - 1).value;
      var out := Descend(W, r, n).value;
      assert LinkFits(W, r, n - 1);
      FitsExactly(s.store, out);
      ServedTurnState(W, s, e, out);
      StepsAppend(W, Init, ChainRun(W, r, n - 1), ServedTurn(e.id));
    }
  }

  /** The run does not touch the event it ends with, but for inserting it. */
  lemma {:induction false} ChainRunSubjects(W: World, r: Event, n: nat)
    requires Simple(W, r, n) && n > 0
    ensures forall i :: 0 <= i < |ChainRun(W, r, n)| ==> Subject(ChainRun(W, r, n)[i]) in ChainIds(W, r, n - 1)
  {
    SimpleDown(W, r, n, n - 1);
    ChainIdsGrow(W, r, n - 1);
    if n > 1 {
      ChainRunSubjects(W, r, n - 1);
    }
  }

  lemma {:induction false} Untouched(W: World, s: State, ls: seq<Label>, k: Trouble, id: EventId)
    requires Steps(W, s, ls).Some? && forall i :: 0 <= i < |ls| ==> Subject(ls[i]) != id || ls[i].Ingest?
    ensures Troubles(W, s, ls, k, id) == 0 && Tally(ls, Attempt, id) == 0
  {
    if ls != [] {
      Untouched(W, s, ls[..|ls| - 1], k, id);
    }
  }

  lemma ChainRunIsQuiet(W: World, r: Event, n: nat)
    requires r in W.roots && Simple(W, r, n) && Run(W, ChainRun(W, r, n))
    ensures Descend(W, r, n).Some?
    ensures var id := Descend(W, r, n).value.id;
            Troubles(W, Init, ChainRun(W, r, n), Fault, id) == 0 && Tally(ChainRun(W, r, n), Attempt, id) == 0
  {
    SimpleDown(W, r, n, n);
    if n > 0 {
      ChainRunSubjects(W, r, n);
    }
    Untouched(W, Init, ChainRun(W, r, n), Fault, Descend(W, r, n).value.id);
  }

  function RefusedTurns(id: EventId, m: nat): seq<Label> {
    if m == 0 then [] else RefusedTurns(id, m - 1) + RefusedTurn(id)
  }

  lemma {:induction false} RefusedTurnsState(W: World, s: State, e: Event, m: nat)
    requires Ready(s, e) && e.kind in W.consumed && TurnedDown(W, s.store, e)
    ensures var t := Steps(W, s, RefusedTurns(e.id, m)); t.Some? && t.value.store == s.store && AllIdle(t.value)
    ensures Troubles(W, s, RefusedTurns(e.id, m), Fault, e.id) == 0
    ensures Tally(RefusedTurns(e.id, m), Attempt, e.id) == m
  {
    if m > 0 {
      RefusedTurnsState(W, s, e, m - 1);
      var mid := Steps(W, s, RefusedTurns(e.id, m - 1)).value;
      RefusedTurnState(W, mid, e);
      TroublesAppend(W, s, RefusedTurns(e.id, m - 1), RefusedTurn(e.id), Fault, e.id);
      RefusedTurnTally(e.id);
      TallyAppend(RefusedTurns(e.id, m - 1), RefusedTurn(e.id), Attempt, e.id);
    }
  }

  /** A link that does not fit, after links that do: its event is reached, and then attempted
      any number of times without a fault. */
  lemma MisfitLoops(W: World, r: Event, n: nat, m: nat) returns (ls: seq<Label>, id: EventId)
    requires r in W.roots && Refusal(Init.store, r).None? && Simple(W, r, n) && !LinkFits(W, r, n)
    requires forall j: nat :: j < n ==> LinkFits(W, r, j)
    ensures Run(W, ls) && Troubles(W, Init, ls, Fault, id) == 0 && Tally(ls, Attempt, id) == m
  {
    ChainRunState(W, r, n);
    ChainRunIsQuiet(W, r, n);
    var head, e := ChainRun(W, r, n), Descend(W, r, n).value;
    id := e.id;
    FitsExactly(After(W, head).store, Output(W, e).value);
    RefusedTurnsState(W, After(W, head), e, m);
    ls := head + RefusedTurns(id, m);
    TroublesAppend(W, Init, head, RefusedTurns(id, m), Fault, id);
    TallyAppend(head, RefusedTurns(id, m), Attempt, id);
  }

  // ---- the condition -------------------------------------------------------------------------

  /** Without faults of its own, every event is attempted at most cap + 1 times in any run. */
  ghost predicate BarrierHoldsForAll(W: World) {
    forall ls, id :: Run(W, ls) && Troubles(W, Init, ls, Fault, id) == 0 ==> Tally(ls, Attempt, id) <= W.cap + 1
  }

  /** Where the chains fit, every event keeps the bound of cap + 1 plus its own faults. */
  lemma FittingAttempts(W: World, ls: seq<Label>, id: EventId)
    requires Run(W, ls) && ChainsFit(W)
    ensures Tally(ls, Attempt, id) <= W.cap + 1 + Troubles(W, Init, ls, Fault, id)
  {
    FittingNeverRefuses(W);
    AcceptedAttempts(W, ls, id);
  }

  /** For roots that the empty store takes, the barrier holds for all events of the pipeline
      exactly if all chains fit. */
  lemma BarrierForAllExactly(W: World)
    requires forall r :: r in W.roots ==> Refusal(Init.store, r).None?
    ensures BarrierHoldsForAll(W) <==> ChainsFit(W)
  {
    if ChainsFit(W) {
      forall ls, id | Run(W, ls) && Troubles(W, Init, ls, Fault, id) == 0
        ensures Tally(ls, Attempt, id) <= W.cap + 1
      {
        FittingAttempts(W, ls, id);
      }
    } else {
      var r, n: nat :| r in W.roots && Simple(W, r, n) && !LinkFits(W, r, n);
      var k := LeastMisfit(W, r, n);
      var ls, id := MisfitLoops(W, r, k, W.cap + 2);
      assert Tally(ls, Attempt, id) > W.cap + 1;
    }
  }

  lemma {:induction false} ChainTraceFilled(W: World, r: Event, n: nat)
    requires Propagating(W) && Filled(r.trace) && Descend(W, r, n).Some?
    ensures Filled(Descend(W, r, n).value.trace)
  {
    if n > 0 {
      ChainTraceFilled(W, r, n - 1);
    }
  }

  /** Propagating handlers make chains fit: each output names its own input. */
  lemma PropagatingChainsFit(W: World)
    requires Propagating(W) && forall r :: r in W.roots ==> Filled(r.trace)
    ensures ChainsFit(W)
  {
    forall r, n: nat | r in W.roots && Simple(W, r, n) ensures LinkFits(W, r, n) {
      ChainIdsGrow(W, r, n);
      ChainTraceFilled(W, r, n);
    }
  }
}
