/** The drawdown state machine, folded over a run of readings. */
module Halt {
  datatype Mode = Balanced | Degraded | Halted | Other(name: string)

  /** The three thresholds as the controller is configured. */
  datatype Thresholds = Thresholds(degraded: real, halt: real, resume: real)

  predicate Ordered(t: Thresholds) {
    t.resume < t.degraded <= t.halt
  }

  datatype Reason =
    HaltThresholdExceeded | DegradedThresholdExceeded | RecoveredAutoResume | RecoveredDegradedResume | NoChange

  datatype HaltCondition = HaltCondition(reason: Reason, drawdownPct: real, mode: Mode)

  function EvaluateMode(current: Mode, drawdownPct: real, t: Thresholds): HaltCondition {
    if drawdownPct >= t.halt then HaltCondition(HaltThresholdExceeded, drawdownPct, Halted)
    else if drawdownPct >= t.degraded then HaltCondition(DegradedThresholdExceeded, drawdownPct, Degraded)
    else if current == Halted && drawdownPct <= t.resume then HaltCondition(RecoveredAutoResume, drawdownPct, Balanced)
    else if current == Degraded && drawdownPct <= t.resume then HaltCondition(RecoveredDegradedResume, drawdownPct, Balanced)
    else HaltCondition(NoChange, drawdownPct, current)
  }

  /** The reason tells what the reading did: which threshold it reached, or which of the two
      modes it has ended, or that it has changed nothing. */
  lemma ReasonTells(m: Mode, x: real, t: Thresholds)
    requires Ordered(t)
    ensures var c := EvaluateMode(m, x, t);
            && c.drawdownPct == x
            && (c.reason.HaltThresholdExceeded? <==> x >= t.halt)
            && (c.reason.DegradedThresholdExceeded? <==> t.degraded <= x < t.halt)
            && (c.reason.RecoveredAutoResume? <==> m.Halted? && c.mode.Balanced?)
            && (c.reason.RecoveredDegradedResume? <==> m.Degraded? && c.mode.Balanced?)
            && (c.reason.NoChange? <==> x < t.degraded && c.mode == m)
  {
  }

  /** The mode after a run of readings. */
  function ModeAfter(m: Mode, xs: seq<real>, t: Thresholds): Mode {
    if xs == [] then m
    else EvaluateMode(ModeAfter(m, xs[..|xs| - 1], t), xs[|xs| - 1], t).mode
  }

  // ---- the latest decisive reading -----------------------------------------------

  /** Inside the open band between resume and degraded nothing changes. */
  predicate InBand(x: real, t: Thresholds) {
    t.resume < x < t.degraded
  }

  /** What a reading outside the band decides. */
  function Verdict(x: real, t: Thresholds): Mode {
    if x >= t.halt then Halted else if x >= t.degraded then Degraded else Balanced
  }

  /** The latest reading outside the band, as an index, or -1. */
  function LatestOutside(xs: seq<real>, t: Thresholds): (i: int)
    ensures -1 <= i < |xs|
    ensures i >= 0 ==> !InBand(xs[i], t)
    ensures forall k :: i < k < |xs| ==> InBand(xs[k], t)
  {
    if xs == [] then -1
    else if !InBand(xs[|xs| - 1], t) then |xs| - 1
    else LatestOutside(xs[..|xs| - 1], t)
  }

  /** Started in one of its own three modes, the machine's mode depends on nothing but the
      latest reading outside the band. */
  lemma {:induction false} ModeIsLatestVerdict(m: Mode, xs: seq<real>, t: Thresholds)
    requires Ordered(t) && !m.Other?
    ensures var i := LatestOutside(xs, t);
            ModeAfter(m, xs, t) == if i < 0 then m else Verdict(xs[i], t)
  {
    if xs != [] {
      ModeIsLatestVerdict(m, xs[..|xs| - 1], t);
    }
  }

  /** A mode set by hand is kept until a reading reaches the degraded threshold: recovery
      readings do not end it. */
  lemma {:induction false} OtherModeKept(m: Mode, xs: seq<real>, t: Thresholds)
    requires Ordered(t) && m.Other?
    ensures ModeAfter(m, xs, t) == m <==> forall k :: 0 <= k < |xs| ==> xs[k] < t.degraded
    ensures ModeAfter(m, xs, t) != m ==> !ModeAfter(m, xs, t).Other?
  {
    if xs != [] {
      OtherModeKept(m, xs[..|xs| - 1], t);
    }
  }

  // ---- hysteresis ----------------------------------------------------------------

  /** How often the run leaves BALANCED. */
  function Trips(xs: seq<real>, t: Thresholds): nat {
    if xs == [] then 0
    else
      var front := xs[..|xs| - 1];
      Trips(front, t) +
      if ModeAfter(Balanced, front, t) == Balanced && ModeAfter(Balanced, xs, t) != Balanced then 1 else 0
  }

  /** How often a recovery is reported. */
  function Recoveries(xs: seq<real>, t: Thresholds): nat {
    if xs == [] then 0
    else
      var front := xs[..|xs| - 1];
      var reason := EvaluateMode(ModeAfter(Balanced, front, t), xs[|xs| - 1], t).reason;
      Recoveries(front, t) + if reason.RecoveredAutoResume? || reason.RecoveredDegradedResume? then 1 else 0
  }

  /** Every trip is ended by one reported recovery, but for the one that still lasts. */
  lemma {:induction false} TripsAreRecovered(xs: seq<real>, t: Thresholds)
    requires Ordered(t)
    ensures var m := ModeAfter(Balanced, xs, t);
            !m.Other? && Trips(xs, t) == Recoveries(xs, t) + if m.Balanced? then 0 else 1
  {
    if xs != [] {
      TripsAreRecovered(xs[..|xs| - 1], t);
    }
  }

  function Abs(x: real): real { if x < 0.0 then -x else x }

  function Max(x: real, y: real): real { if x < y then y else x }

  /** The total variation of the readings. */
  function Variation(xs: seq<real>): real {
    if |xs| <= 1 then 0.0
    else Variation(xs[..|xs| - 1]) + Abs(xs[|xs| - 1] - xs[|xs| - 2])
  }

  /** The variation of n swings of width d down and up again. */
  function Swung(n: int, d: real): real {
    2.0 * (n as real) * d
  }

  lemma SwungStep(n: int, d: real)
    ensures Swung(n, d) == Swung(n - 1, d) + 2.0 * d
  {
  }

  /** What the readings must have moved for k trips: full swings between the trips, and
      what has been climbed down or up since. */
  function Owed(k: nat, m: Mode, x: real, t: Thresholds): real {
    var d := t.degraded - t.resume;
    if k == 0 then 0.0
    else if m != Balanced then Swung(k - 1, d) + Max(0.0, t.degraded - x)
    else Swung(k - 1, d) + d + Max(0.0, x - t.resume)
  }

  lemma OwedStep(k: nat, m: Mode, x: real, y: real, t: Thresholds)
    requires Ordered(t) && !m.Other? && (m != Balanced ==> k > 0)
    ensures var n := EvaluateMode(m, y, t).mode;
            var more := if m == Balanced && n != Balanced then 1 else 0;
            Owed(k + more, n, y, t) <= Owed(k, m, x, t) + Abs(y - x)
  {
    SwungStep(k, t.degraded - t.resume);
    var n := EvaluateMode(m, y, t).mode;
    if m == Balanced && n != Balanced {
      assert Max(0.0, t.degraded - y) == 0.0;
      assert Swung(0, t.degraded - t.resume) == 0.0;
    } else if m != Balanced && n == Balanced {
      assert y <= t.resume;
    }
  }

  lemma {:induction false} VariationCoversOwed(xs: seq<real>, t: Thresholds)
    requires Ordered(t) && xs != []
    ensures var m := ModeAfter(Balanced, xs, t);
            !m.Other? && (m != Balanced ==> Trips(xs, t) > 0) &&
            Variation(xs) >= Owed(Trips(xs, t), m, xs[|xs| - 1], t)
  {
    var front, y := xs[..|xs| - 1], xs[|xs| - 1];
    if |xs| == 1 {
      assert front == [];
    } else {
      VariationCoversOwed(front, t);
      OwedStep(Trips(front, t), ModeAfter(Balanced, front, t), xs[|xs| - 2], y, t);
    }
  }

  /** k trips out of BALANCED need readings of total variation at least
      2 (k - 1) (degraded - resume). */
  lemma HysteresisBound(xs: seq<real>, t: Thresholds)
    requires Ordered(t) && Trips(xs, t) > 0
    ensures Variation(xs) >= Swung(Trips(xs, t) - 1, t.degraded - t.resume)
  {
    VariationCoversOwed(xs, t);
  }

  /** Readings that swing between the two thresholds. */
  function Swings(k: nat, t: Thresholds): seq<real> {
    if k == 0 then [t.degraded] else Swings(k - 1, t) + [t.resume, t.degraded]
  }

  /** The bound is attained: k full swings make k + 1 trips. */
  lemma {:induction false} SwingsAttainBound(k: nat, t: Thresholds)
    requires Ordered(t)
    ensures var xs := Swings(k, t);
            && xs != [] && xs[|xs| - 1] == t.degraded
            && ModeAfter(Balanced, xs, t) != Balanced && !ModeAfter(Balanced, xs, t).Other?
            && Trips(xs, t) == k + 1
            && Variation(xs) == Swung(k, t.degraded - t.resume)
  {
    if k == 0 {
      assert [t.degraded][..0] == [];
    } else {
      SwingsAttainBound(k - 1, t);
      var a := Swings(k - 1, t);
      var b, c := a + [t.resume], Swings(k, t);
      assert c[..|c| - 1] == b && b[..|b| - 1] == a;
      assert ModeAfter(Balanced, b, t) == Balanced;
      assert Trips(b, t) == k && Variation(b) == Variation(a) + (t.degraded - t.resume);
      SwungStep(k, t.degraded - t.resume);
    }
  }
}
