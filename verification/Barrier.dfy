/** The retry barrier: how often an event is attempted, in terms of what went wrong with it. A
    claim expiry is no cause by itself: it is traced to the fault, the crash or the refused
    output that left the claim behind. */
module Barrier {
  import opened Trace
  import opened EventStore
  import opened WorkerProtocol
  import opened ExactlyOnce
  import opened Attempts
  import opened Causality
  import opened Termination
  import Sums

  // ---- what goes wrong ----------------------------------------------------------------

  /** Some worker is at work on the event. */
  ghost predicate Held(s: State, id: EventId) {
    exists w :: w in s.workers && On(s.workers[w], id)
  }

  datatype Trouble = Fault | RefusedOutput

  /** A fault is a crash, a call that is not carried out where it was needed to give up the
      claim, an insert or a counter call that is not confirmed, or the expiry of a claim on an
      event that a worker is still at work on. A refused output is a carried out and answered
      insert that the store turns down. */
  ghost predicate Hits(s: State, l: Label, k: Trouble) {
    match k
    case Fault =>
      (match l
       case Crash(_, _) => true
       case Insert(_, _, ack) => !ack.Done?
       case Count(_, _, ack) => !ack.Done?
       case Mark(_, _, ack) => ack.Failed?
       case MarkSkipped(_, _, ack) => ack.Failed?
       case Bury(_, _, ack) => ack.Failed?
       case Release(_, _, ack) => ack.Failed?
       case Expire(id) => Held(s, id)
       case _ => false)
    case RefusedOutput =>
      l.Insert? && l.ack.Done? && PhaseOf(s, l.w).Emitting? && Refusal(s.store, PhaseOf(s, l.w).out).Some?
  }

  /** The troubles of kind k with the event in the steps ls from s. */
  ghost function Troubles(W: World, s: State, ls: seq<Label>, k: Trouble, id: EventId): nat
    requires Steps(W, s, ls).Some?
  {
    if ls == [] then 0
    else
      var front, l := ls[..|ls| - 1], ls[|ls| - 1];
      Troubles(W, s, front, k, id) + if Hits(Steps(W, s, front).value, l, k) && Subject(l) == id then 1 else 0
  }

  ghost function Mishaps(W: World, ls: seq<Label>, id: EventId): nat
    requires Run(W, ls)
  {
    Troubles(W, Init, ls, Fault, id) + Troubles(W, Init, ls, RefusedOutput, id)
  }

  // ---- the account of one event ---------------------------------------------------------

  /** Each attempt is paid for by a counted failure or by a mishap, or its worker is still at
      work under the claim; who has been counted but not yet released does not count on it. */
  ghost predicate Accounted(W: World, ls: seq<Label>, s: State, id: EventId, mishaps: nat) {
    var spent := Tally(ls, Attempt, id);
    var budget := Min(RetriesOf(s, id), W.cap) + mishaps;
    && spent <= budget + 1
    && (id !in s.store.rows ==> spent == 0 && Releasers(s, id) == {})
    && (id in s.store.rows && !s.store.rows[id].processed ==>
          spent + |Releasers(s, id)| <= budget + if s.store.rows[id].claimed && Held(s, id) then 1 else 0)
  }

  lemma HeldByActor(W: World, s: State, l: Label)
    requires Enabled(W, s, l) && !l.Ingest? && !l.Expire?
    ensures !l.Claim? ==> Held(s, l.id)
    ensures On(NextPhase(W, s, l), l.id) ==> Held(Apply(W, s, l), l.id)
  {
    if !l.Claim? {
      assert l.w in s.workers && On(s.workers[l.w], l.id);
    }
    if On(NextPhase(W, s, l), l.id) {
      assert On(Apply(W, s, l).workers[l.w], l.id);
    }
  }

  lemma HeldByOthers(W: World, ls: seq<Label>, s: State, l: Label, id: EventId)
    requires Sound(W, ls, s) && Enabled(W, s, l) && Subject(l) != id
    ensures Held(Apply(W, s, l), id) <==> Held(s, id)
  {
    var t := Apply(W, s, l);
    if l.Claim? && l.ack.Done? {
      assert RowSound(W, ls, s.store, l.id);
    }
    if Held(s, id) {
      var w :| w in s.workers && On(s.workers[w], id);
      assert w in t.workers && On(t.workers[w], id);
    }
    if Held(t, id) {
      var w :| w in t.workers && On(t.workers[w], id);
      assert w in s.workers && On(s.workers[w], id);
    }
  }

  lemma AccountedOtherStep(W: World, ls: seq<Label>, s: State, l: Label, id: EventId, mishaps: nat)
    requires Sound(W, ls, s) && Accounted(W, ls, s, id, mishaps) && Enabled(W, s, l) && Subject(l) != id
    requires Tally(ls + [l], Attempt, id) == Tally(ls, Attempt, id)
    requires |Releasers(Apply(W, s, l), id)| == |Releasers(s, id)|
    requires Held(Apply(W, s, l), id) <==> Held(s, id)
    ensures Accounted(W, ls + [l], Apply(W, s, l), id, mishaps)
  {
    OtherRowStays(W, s, l, id);
  }

  lemma AccountedOwnStep(W: World, ls: seq<Label>, s: State, l: Label, id: EventId, mishaps: nat, more: nat)
    requires Sound(W, ls, s) && Accounted(W, ls, s, id, mishaps) && Enabled(W, s, l) && Subject(l) == id
    requires Tally(ls + [l], Attempt, id) == Tally(ls, Attempt, id) + if Is(Attempt, l) then 1 else 0
    requires more >= if Hits(s, l, Fault) || Hits(s, l, RefusedOutput) then 1 else 0
    requires if l.Ingest? || l.Expire? then |Releasers(Apply(W, s, l), id)| == |Releasers(s, id)|
             else
               |Releasers(Apply(W, s, l), id)| + (if l.Release? || (l.Crash? && PhaseOf(s, l.w).Releasing?) then 1 else 0)
               == |Releasers(s, id)| + if NextPhase(W, s, l).Releasing? then 1 else 0
    requires !l.Ingest? && !l.Expire? ==>
               && (!l.Claim? ==> Held(s, id))
               && (On(NextPhase(W, s, l), id) ==> Held(Apply(W, s, l), id))
    requires l.Ingest? || l.Expire? || (l.Claim? && !l.ack.Done?) ==> (Held(Apply(W, s, l), id) <==> Held(s, id))
    ensures Accounted(W, ls + [l], Apply(W, s, l), id, mishaps + more)
  {
    if !l.Ingest? && !l.Expire? && !l.Claim? {
      assert PhaseSound(W, s.store, PhaseOf(s, l.w));
    }
    match l
    case Ingest(_, _) =>
    case Claim(_, _, _) =>
      if l.ack.Done? {
        assert RowSound(W, ls, s.store, id);
      }
    case Succeed(_, _) =>
    case Fail(_, _) =>
    case Stale(_, _) =>
    case Count(_, _, _) =>
    case Bury(_, _, _) =>
    case Release(_, _, _) =>
    case Expire(_) =>
    case Mark(_, _, _) =>
    case MarkSkipped(_, _, _) =>
    case Insert(_, _, _) =>
      assert Apply(W, s, l).store.rows[id] == s.store.rows[id];
    case Crash(_, _) =>
  }

  lemma HeldUnmoved(W: World, s: State, l: Label, id: EventId)
    requires Enabled(W, s, l)
    requires l.Ingest? || l.Expire? || (l.Claim? && !l.ack.Done?)
    ensures Held(Apply(W, s, l), id) <==> Held(s, id)
  {
    var t := Apply(W, s, l);
    if Held(s, id) {
      var w :| w in s.workers && On(s.workers[w], id);
      assert w in t.workers && On(t.workers[w], id);
    }
    if Held(t, id) {
      var w :| w in t.workers && On(t.workers[w], id);
      assert w in s.workers && On(s.workers[w], id);
    }
  }

  lemma AccountedStep(W: World, ls: seq<Label>, s: State, l: Label, id: EventId, mishaps: nat, more: nat)
    requires Sound(W, ls, s) && Accounted(W, ls, s, id, mishaps) && Enabled(W, s, l)
    requires more == if Subject(l) == id && (Hits(s, l, Fault) || Hits(s, l, RefusedOutput)) then 1 else 0
    ensures Accounted(W, ls + [l], Apply(W, s, l), id, mishaps + more)
  {
    TallyStep(ls, l, Attempt, id);
    ReleasersStep(W, s, l, id);
    if Subject(l) == id {
      if !l.Ingest? && !l.Expire? {
        HeldByActor(W, s, l);
      }
      if l.Ingest? || l.Expire? || (l.Claim? && !l.ack.Done?) {
        HeldUnmoved(W, s, l, id);
      }
      AccountedOwnStep(W, ls, s, l, id, mishaps, more);
    } else {
      HeldByOthers(W, ls, s, l, id);
      AccountedOtherStep(W, ls, s, l, id, mishaps);
    }
  }

  lemma {:induction false} AlwaysAccounted(W: World, ls: seq<Label>, id: EventId)
    requires Run(W, ls)
    ensures Accounted(W, ls, After(W, ls), id, Mishaps(W, ls, id))
  {
    if ls != [] {
      var front, l := ls[..|ls| - 1], ls[|ls| - 1];
      AlwaysAccounted(W, front, id);
      RunSound(W, front);
      var s := After(W, front);
      var more := if Subject(l) == id && (Hits(s, l, Fault) || Hits(s, l, RefusedOutput)) then 1 else 0;
      AccountedStep(W, front, s, l, id, Mishaps(W, front, id), more);
      assert front + [l] == ls;
    }
  }

  /** In any run an event is handed out at most cap + 1 times, plus once per fault and once
      per refused output of its own. */
  lemma AttemptsPerMishap(W: World, ls: seq<Label>, id: EventId)
    requires Run(W, ls)
    ensures Tally(ls, Attempt, id) <=
            W.cap + 1 + Troubles(W, Init, ls, Fault, id) + Troubles(W, Init, ls, RefusedOutput, id)
  {
    AlwaysAccounted(W, ls, id);
  }

  /** Every expiry has a cause: as long as nothing has gone wrong with an event and no claim
      reply was lost, a claim on it belongs to a worker that is still at work. */
  lemma {:induction false} ClaimsAreHeld(W: World, ls: seq<Label>, id: EventId)
    requires Run(W, ls) && Mishaps(W, ls, id) == 0
    requires forall i :: 0 <= i < |ls| && ls[i].Claim? && ls[i].id == id ==> !ls[i].ack.Lost?
    ensures var s := After(W, ls);
            id in s.store.rows && s.store.rows[id].claimed && !s.store.rows[id].processed ==> Held(s, id)
  {
    if ls != [] {
      var front, l := ls[..|ls| - 1], ls[|ls| - 1];
      assert forall i :: 0 <= i < |front| ==> front[i] == ls[i];
      ClaimsAreHeld(W, front, id);
      RunSound(W, front);
      var s := After(W, front);
      if Subject(l) != id {
        HeldByOthers(W, front, s, l, id);
        OtherRowStays(W, s, l, id);
      } else {
        HeldStaysOwn(W, front, s, l, id);
      }
    }
  }

  lemma HeldStaysOwn(W: World, ls: seq<Label>, s: State, l: Label, id: EventId)
    requires Sound(W, ls, s) && Enabled(W, s, l) && Subject(l) == id
    requires !Hits(s, l, Fault) && !Hits(s, l, RefusedOutput) && (l.Claim? ==> !l.ack.Lost?)
    requires id in s.store.rows && s.store.rows[id].claimed && !s.store.rows[id].processed ==> Held(s, id)
    ensures var t := Apply(W, s, l);
            id in t.store.rows && t.store.rows[id].claimed && !t.store.rows[id].processed ==> Held(t, id)
  {
    if l.Ingest? || (l.Claim? && !l.ack.Done?) {
      HeldUnmoved(W, s, l, id);
    } else if !l.Expire? {
      HeldByActor(W, s, l);
      if l.Claim? {
        assert RowSound(W, ls, s.store, id);
      } else {
        assert PhaseSound(W, s.store, PhaseOf(s, l.w));
      }
    }
  }

  /** So without faults, refused outputs and lost claim replies an event is attempted at most
      cap + 1 times, and a claim timeout longer than a turn never strikes. */
  lemma QuietEvents(W: World, ls: seq<Label>, id: EventId)
    requires Run(W, ls) && Mishaps(W, ls, id) == 0
    requires forall i :: 0 <= i < |ls| && ls[i].Claim? && ls[i].id == id ==> !ls[i].ack.Lost?
    ensures Tally(ls, Attempt, id) <= W.cap + 1
    ensures Enabled(W, After(W, ls), Expire(id)) ==> Held(After(W, ls), id)
  {
    AttemptsPerMishap(W, ls, id);
    ClaimsAreHeld(W, ls, id);
  }

  // ---- where nothing is refused -----------------------------------------------------------

  /** No run of the world reaches an insert that is refused. */
  ghost predicate NeverRefuses(W: World) {
    forall ls, l :: Run(W, ls) && Enabled(W, After(W, ls), l) ==> !Hits(After(W, ls), l, RefusedOutput)
  }

  /** No enabled insert of a propagating handler's output is refused. */
  lemma NoInsertRefused(W: World, ls: seq<Label>, l: Label)
    requires Run(W, ls) && Propagating(W) && Enabled(W, After(W, ls), l)
    ensures !Hits(After(W, ls), l, RefusedOutput)
  {
    if l.Insert? {
      RunSound(W, ls);
      assert PhaseSound(W, After(W, ls).store, PhaseOf(After(W, ls), l.w));
      PropagatedOutputAccepted(W, ls, l.id);
    }
  }

  lemma PropagatingNeverRefuses(W: World)
    requires Propagating(W)
    ensures NeverRefuses(W)
  {
    forall ls, l | Run(W, ls) && Enabled(W, After(W, ls), l)
      ensures !Hits(After(W, ls), l, RefusedOutput)
    {
      NoInsertRefused(W, ls, l);
    }
  }

  lemma {:induction false} NothingRefused(W: World, ls: seq<Label>, id: EventId)
    requires Run(W, ls) && NeverRefuses(W)
    ensures Troubles(W, Init, ls, RefusedOutput, id) == 0
  {
    if ls != [] {
      var front, l := ls[..|ls| - 1], ls[|ls| - 1];
      NothingRefused(W, front, id);
      assert Run(W, front) && Enabled(W, After(W, front), l);
    }
  }

  /** Then the barrier holds for every event. */
  lemma AcceptedAttempts(W: World, ls: seq<Label>, id: EventId)
    requires Run(W, ls) && NeverRefuses(W)
    ensures Tally(ls, Attempt, id) <= W.cap + 1 + Troubles(W, Init, ls, Fault, id)
  {
    AttemptsPerMishap(W, ls, id);
    NothingRefused(W, ls, id);
  }

  /** With propagating handlers the barrier holds for every event. */
  lemma PropagatingAttempts(W: World, ls: seq<Label>, id: EventId)
    requires Run(W, ls) && Propagating(W)
    ensures Tally(ls, Attempt, id) <= W.cap + 1 + Troubles(W, Init, ls, Fault, id)
  {
    PropagatingNeverRefuses(W);
    AcceptedAttempts(W, ls, id);
  }

  // ---- all events together ------------------------------------------------------------------

  ghost function AllMishaps(W: World, ls: seq<Label>): nat
    requires Run(W, ls)
  {
    if ls == [] then 0
    else
      var front, l := ls[..|ls| - 1], ls[|ls| - 1];
      AllMishaps(W, front) + if Hits(After(W, front), l, Fault) || Hits(After(W, front), l, RefusedOutput) then 1 else 0
  }

  ghost function MishapMap(W: World, ls: seq<Label>, ids: set<EventId>): map<EventId, int>
    requires Run(W, ls)
  {
    map id | id in ids :: Mishaps(W, ls, id)
  }

  lemma MishapStep(W: World, ls: seq<Label>, id: EventId)
    requires Run(W, ls) && ls != []
    ensures var front, l := ls[..|ls| - 1], ls[|ls| - 1];
            Mishaps(W, ls, id) == Mishaps(W, front, id) +
              if Subject(l) == id && (Hits(After(W, front), l, Fault) || Hits(After(W, front), l, RefusedOutput))
              then 1 else 0
  {
  }

  lemma {:induction false} MishapsAddUp(W: World, ls: seq<Label>, ids: set<EventId>)
    requires Run(W, ls)
    ensures Sums.Total(MishapMap(W, ls, ids)) <= AllMishaps(W, ls)
  {
    if ls == [] {
      AllZero(MishapMap(W, ls, ids));
    } else {
      var front, id := ls[..|ls| - 1], Subject(ls[|ls| - 1]);
      MishapsAddUp(W, front, ids);
      var m := MishapMap(W, front, ids);
      forall i | i in ids && i != id ensures Mishaps(W, ls, i) == m[i] {
        MishapStep(W, ls, i);
      }
      if id in ids {
        MishapStep(W, ls, id);
        Sums.TotalUpdate(m, id, Mishaps(W, ls, id));
        assert MishapMap(W, ls, ids) == m[id := Mishaps(W, ls, id)];
      } else {
        assert MishapMap(W, ls, ids) == m;
      }
    }
  }

  lemma MishapsPerEvent(W: World, ls: seq<Label>, ids: set<EventId>)
    requires Run(W, ls)
    ensures forall id :: id in ids ==> TallyMap(ls, Attempt, ids)[id] <= MishapMap(W, ls, ids)[id] + (W.cap + 1)
  {
    forall id | id in ids
      ensures Tally(ls, Attempt, id) <= Mishaps(W, ls, id) + (W.cap + 1)
    {
      AttemptsPerMishap(W, ls, id);
    }
  }

  lemma TotalsPerMishap(W: World, ls: seq<Label>, ids: set<EventId>)
    requires Run(W, ls)
    ensures Sums.Total(TallyMap(ls, Attempt, ids)) <= Sums.Total(MishapMap(W, ls, ids)) + |ids| * (W.cap + 1)
  {
    MishapsPerEvent(W, ls, ids);
    TotalsOver(TallyMap(ls, Attempt, ids), MishapMap(W, ls, ids), ids, W.cap + 1);
  }

  lemma AllAttempts(W: World, ls: seq<Label>, ids: set<EventId>)
    requires Run(W, ls) && ids == After(W, ls).store.rows.Keys
    ensures Grand(ls, Attempt) <= AllMishaps(W, ls) + |ids| * (W.cap + 1)
  {
    TalliesTotal(W, ls, Attempt, ids);
    TotalsPerMishap(W, ls, ids);
    MishapsAddUp(W, ls, ids);
  }

  lemma AllAttemptsBounded(W: World, depth: Depth, ls: seq<Label>)
    requires Run(W, ls) && Acyclic(W, depth)
    ensures Grand(ls, Attempt) <= AllMishaps(W, ls) + Sums.Total(Depths(depth, W.roots)) * (W.cap + 1)
  {
    var ids := After(W, ls).store.rows.Keys;
    AllAttempts(W, ls, ids);
    StoredBound(W, depth, ls);
    Scale(|ids|, Sums.Total(Depths(depth, W.roots)), W.cap + 1);
  }

  /** Termination again, with expiries traced to their causes: in any run over acyclic stages
      the workers take at most five steps per storable event and retry allowance, plus five
      per fault or refused output. */
  lemma WorkPerMishap(W: World, depth: Depth, ls: seq<Label>)
    requires Run(W, ls) && Acyclic(W, depth)
    ensures Grand(ls, Work) <= 5 * (Sums.Total(Depths(depth, W.roots)) * (W.cap + 1) + AllMishaps(W, ls))
  {
    WorkPaidByAttempts(W, ls);
    Sums.TotalNonNegative(Ranks(After(W, ls).workers));
    AllAttemptsBounded(W, depth, ls);
  }
}
