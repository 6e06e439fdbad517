/** Every run drains: once faults cease, the steps that a healthy system takes by itself come to
    an end, and where they end nothing is left to claim. */
module Drain {
  import opened EventStore
  import opened Trace
  import opened WorkerProtocol
  import opened ExactlyOnce
  import opened Attempts
  import opened Termination
  import opened Barrier
  import Sums

  // ---- claims and expiries ---------------------------------------------------------------

  /** The claims that took effect. */
  function Claims(ls: seq<Label>): nat {
    if ls == [] then 0
    else
      var l := ls[|ls| - 1];
      Claims(ls[..|ls| - 1]) + if l.Claim? && !l.ack.Failed? then 1 else 0
  }

  function Expiries(ls: seq<Label>): nat {
    if ls == [] then 0 else Expiries(ls[..|ls| - 1]) + if ls[|ls| - 1].Expire? then 1 else 0
  }

  function ClaimedIn(rows: map<EventId, Row>): set<EventId> {
    set id | id in rows && rows[id].claimed
  }

  lemma ClaimedElsewhere(W: World, s: State, l: Label)
    requires Enabled(W, s, l)
    ensures ClaimedIn(Apply(W, s, l).store.rows) - {Subject(l)} <= ClaimedIn(s.store.rows) - {Subject(l)}
  {
    forall id | id in ClaimedIn(Apply(W, s, l).store.rows) && id != Subject(l)
      ensures id in ClaimedIn(s.store.rows)
    {
      OtherRowStays(W, s, l, id);
    }
  }

  lemma SubjectClaimed(W: World, s: State, l: Label)
    requires Enabled(W, s, l)
    ensures var a, b := ClaimedIn(s.store.rows), ClaimedIn(Apply(W, s, l).store.rows); var id := Subject(l);
            && (l.Claim? && !l.ack.Failed? ==> id !in a)
            && (l.Expire? ==> id in a && id !in b)
            && (!(l.Claim? && !l.ack.Failed?) && id in b ==> id in a)
  {
  }

  /** Sets that outside x only lose elements. */
  lemma ChangeAt<T>(a: set<T>, b: set<T>, x: T)
    requires b - {x} <= a - {x}
    ensures |b| + (if x in a then 1 else 0) <= |a| + if x in b then 1 else 0
  {
    var c := (b - {x}) + (a * {x});
    SubsetSize(c, a);
    Sums.Exchange(b, c, x);
  }

  /** A row has to be claimed anew before it can expire anew. */
  lemma {:induction false} ExpiriesPaidByClaims(W: World, ls: seq<Label>)
    requires Run(W, ls)
    ensures Expiries(ls) + |ClaimedIn(After(W, ls).store.rows)| <= Claims(ls)
  {
    if ls == [] {
      assert ClaimedIn(Init.store.rows) == {};
    } else {
      var front, l := ls[..|ls| - 1], ls[|ls| - 1];
      ExpiriesPaidByClaims(W, front);
      var s := After(W, front);
      ClaimedElsewhere(W, s, l);
      SubjectClaimed(W, s, l);
      ChangeAt(ClaimedIn(s.store.rows), ClaimedIn(Apply(W, s, l).store.rows), Subject(l));
    }
  }

  // ---- progress steps are few ------------------------------------------------------------

  predicate AllProgress(ks: seq<Label>) {
    forall i :: 0 <= i < |ks| ==> Progress(ks[i])
  }

  /** Each progress step is worker's work or an expiry, and each of its claims an attempt. */
  lemma {:induction false} ProgressCounted(ls: seq<Label>, ks: seq<Label>)
    requires AllProgress(ks)
    ensures Grand(ls + ks, Work) + Expiries(ls + ks) == Grand(ls, Work) + Expiries(ls) + |ks|
    ensures Claims(ls + ks) - Claims(ls) == Grand(ls + ks, Attempt) - Grand(ls, Attempt)
  {
    if ks == [] {
      assert ls + ks == ls;
    } else {
      var front, l := ks[..|ks| - 1], ks[|ks| - 1];
      ProgressCounted(ls, front);
      assert (ls + ks)[..|ls + ks| - 1] == ls + front;
    }
  }

  /** What the roots and the retry cap allow. */
  ghost function Allowance(W: World, depth: Depth): int {
    Sums.Total(Depths(depth, W.roots)) * (W.cap + 1)
  }

  lemma AllowedAttempts(W: World, depth: Depth, ls: seq<Label>)
    requires Run(W, ls) && Acyclic(W, depth)
    ensures Grand(ls, Attempt) <= Allowance(W, depth) + AllMishaps(W, ls)
  {
    AllAttemptsBounded(W, depth, ls);
  }

  /** Every claim pays for five worker's steps and one expiry. */
  lemma ClaimsPay(W: World, ls: seq<Label>)
    requires Run(W, ls)
    ensures Grand(ls, Work) <= 5 * Grand(ls, Attempt)
    ensures Expiries(ls) <= Claims(ls)
  {
    WorkPaidByAttempts(W, ls);
    Sums.TotalNonNegative(Ranks(After(W, ls).workers));
    ExpiriesPaidByClaims(W, ls);
  }

  /** After any run, however it went so far, at most so many progress steps can follow: six per
      storable event and retry allowance and per mishap, plus one per claim made before. */
  lemma ProgressIsBounded(W: World, depth: Depth, ls: seq<Label>, ks: seq<Label>)
    requires Run(W, ls + ks) && Acyclic(W, depth) && AllProgress(ks)
    ensures |ks| <= 6 * (Allowance(W, depth) + AllMishaps(W, ls + ks)) + Claims(ls)
  {
    AllowedAttempts(W, depth, ls + ks);
    ClaimsPay(W, ls + ks);
    ProgressCounted(ls, ks);
  }

  // ---- what a healthy system does next ----------------------------------------------------

  /** Every worker is idle and every consumable event processed. */
  ghost predicate Drained(W: World, s: State) {
    && (forall w :: PhaseOf(s, w).Idle?)
    && (forall id :: id in s.store.rows && s.store.rows[id].event.kind in W.consumed ==> s.store.rows[id].processed)
  }

  /** A progress step that is no mishap. */
  ghost predicate Healthy(W: World, s: State, l: Label) {
    Progress(l) && Enabled(W, s, l) && !Hits(s, l, Fault) && !Hits(s, l, RefusedOutput)
  }

  lemma BusyIsHealthy(W: World, ls: seq<Label>, w: WorkerId)
    requires Run(W, ls) && NeverRefuses(W) && !PhaseOf(After(W, ls), w).Idle?
    ensures Healthy(W, After(W, ls), NextStep(w, PhaseOf(After(W, ls), w)))
  {
    RunSound(W, ls);
    var s := After(W, ls);
    assert w in s.workers && PhaseSound(W, s.store, s.workers[w]);
    BusyCanStep(W, s, w);
    assert Enabled(W, s, NextStep(w, PhaseOf(s, w)));
  }

  lemma IdleHoldsNothing(s: State, id: EventId)
    requires forall w :: PhaseOf(s, w).Idle?
    ensures !Held(s, id)
  {
    forall w | w in s.workers ensures !On(s.workers[w], id) {
      assert PhaseOf(s, w).Idle?;
    }
  }

  /** A state that is not drained has a healthy step: a busy worker's next one, the expiry of
      a claim nobody is at work under, or a claim. */
  lemma HealthyStepExists(W: World, ls: seq<Label>) returns (l: Label)
    requires Run(W, ls) && NeverRefuses(W) && !Drained(W, After(W, ls))
    ensures Healthy(W, After(W, ls), l)
  {
    var s := After(W, ls);
    if w :| !PhaseOf(s, w).Idle? {
      l := NextStep(w, PhaseOf(s, w));
      BusyIsHealthy(W, ls, w);
    } else {
      var id :| id in s.store.rows && s.store.rows[id].event.kind in W.consumed && !s.store.rows[id].processed;
      IdleHoldsNothing(s, id);
      l := if s.store.rows[id].claimed then Expire(id) else Claim(0, id, Done);
    }
  }

  /** ks continues the run ls by healthy steps. */
  ghost predicate Continues(W: World, ls: seq<Label>, ks: seq<Label>)
    requires Run(W, ls)
  {
    && Run(W, ls + ks)
    && AllProgress(ks)
    && AllMishaps(W, ls + ks) == AllMishaps(W, ls)
  }

  lemma OneMoreHealthy(W: World, ls: seq<Label>, ks: seq<Label>, l: Label)
    requires Run(W, ls) && Continues(W, ls, ks) && Healthy(W, After(W, ls + ks), l)
    ensures Continues(W, ls, ks + [l])
  {
    StepsOne(W, Init, ls + ks, l);
    assert ls + (ks + [l]) == ls + ks + [l];
    assert (ls + ks + [l])[..|ls + ks|] == ls + ks;
  }

  /** From any reachable state, whatever went wrong before, any healthy steps come to an end
      after boundedly many, and they can only end in a drained state. */
  lemma HealthyRunsDrain(W: World, depth: Depth, ls: seq<Label>, ks: seq<Label>)
    requires Run(W, ls) && Acyclic(W, depth) && NeverRefuses(W) && Continues(W, ls, ks)
    ensures |ks| <= 6 * (Allowance(W, depth) + AllMishaps(W, ls)) + Claims(ls)
    ensures (forall l :: !Healthy(W, After(W, ls + ks), l)) ==> Drained(W, After(W, ls + ks))
  {
    ProgressIsBounded(W, depth, ls, ks);
    if !Drained(W, After(W, ls + ks)) {
      var l := HealthyStepExists(W, ls + ks);
    }
  }

  lemma {:induction false} DrainFrom(W: World, depth: Depth, ls: seq<Label>, ks: seq<Label>) returns (all: seq<Label>)
    requires Run(W, ls) && Acyclic(W, depth) && NeverRefuses(W) && Continues(W, ls, ks)
    ensures Continues(W, ls, all) && Drained(W, After(W, ls + all))
    decreases 6 * (Allowance(W, depth) + AllMishaps(W, ls)) + Claims(ls) - |ks|
  {
    if Drained(W, After(W, ls + ks)) {
      all := ks;
    } else {
      var l := HealthyStepExists(W, ls + ks);
      OneMoreHealthy(W, ls, ks, l);
      ProgressIsBounded(W, depth, ls, ks + [l]);
      all := DrainFrom(W, depth, ls, ks + [l]);
    }
  }

  /** Termination: with finite roots, acyclic stages and outputs that are not refused, every
      reachable state, whatever faults came before, has a continuation without a further mishap
      that ends with all workers idle and every consumable event processed. */
  lemma EveryRunCanDrain(W: World, depth: Depth, ls: seq<Label>) returns (ks: seq<Label>)
    requires Run(W, ls) && Acyclic(W, depth) && NeverRefuses(W)
    ensures Continues(W, ls, ks) && Drained(W, After(W, ls + ks))
    ensures |ks| <= 6 * (Allowance(W, depth) + AllMishaps(W, ls)) + Claims(ls)
  {
    assert ls + [] == ls;
    ks := DrainFrom(W, depth, ls, []);
    ProgressIsBounded(W, depth, ls, ks);
  }
}
