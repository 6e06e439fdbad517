/** WebSocket endpoint failover: the cyclic search with cooldowns, and the failure
    accounting with its compare-and-swap under concurrent callers. */
module Failover {
  import Sums
  import opened Wrappers

  /** The slot i places after base. */
  function Slot(base: nat, i: nat, n: nat): nat
    requires n > 0
  {
    (base + i) % n
  }

  /** Places follow each other around the slots. */
  lemma NextSlot(base: nat, i: nat, n: nat)
    requires n > 0
    ensures Slot(base, 0, n) == base % n
    ensures Slot(base, i + 1, n) == if Slot(base, i, n) == n - 1 then 0 else Slot(base, i, n) + 1
  {
    var q, r := (base + i) / n, (base + i) % n;
    QuotientRemainder(base + i, n);
    if r == n - 1 {
      OneMore(q, n);
      ModShift(q + 1, n, 0);
    } else {
      ModShift(q, n, r + 1);
    }
  }

  /** i is the first place after base whose slot is out of cooldown. */
  predicate FirstOpen(until: seq<int>, base: nat, now: int, i: nat)
    requires until != []
  {
    && i < |until|
    && until[Slot(base, i, |until|)] <= now
    && forall j: nat :: j < i ==> until[Slot(base, j, |until|)] > now
  }

  /** i is the first place after base whose slot has the earliest expiry of all. */
  predicate FirstSoonest(until: seq<int>, base: nat, i: nat)
    requires until != []
  {
    && i < |until|
    && (forall j: nat :: j < |until| ==> until[Slot(base, i, |until|)] <= until[Slot(base, j, |until|)])
    && (forall j: nat :: j < i ==> until[Slot(base, i, |until|)] < until[Slot(base, j, |until|)])
  }

  /** The places 0 to n - 1 after base visit every slot. */
  lemma SlotsCoverAll(base: nat, n: nat, k: nat) returns (i: nat)
    requires k < n
    ensures i < n && Slot(base, i, n) == k
  {
    var q, r := base / n, base % n;
    QuotientRemainder(base, n);
    if k >= r {
      i := k - r;
      ModShift(q, n, k);
    } else {
      i := k + n - r;
      OneMore(q, n);
      ModShift(q + 1, n, k);
    }
  }

  lemma QuotientRemainder(base: nat, n: nat)
    requires n > 0
    ensures base == (base / n) * n + base % n && base % n < n
  {
  }

  lemma OneMore(q: int, n: int)
    ensures (q + 1) * n == q * n + n
  {
  }

  lemma ModShift(q: nat, n: nat, k: nat)
    requires k < n
    ensures (q * n + k) % n == k
  {
    var x := q * n + k;
    assert x == n * (x / n) + x % n;
    ProductGap(x / n - q, n);
    assert (x / n - q) * n == k - x % n;
  }

  lemma ProductGap(d: int, n: nat)
    ensures d >= 1 ==> d * n >= n
    ensures d <= -1 ==> d * n + n <= 0
  {
  }

  // ---- the client object ---------------------------------------------------------

  class SolanaWS {
    var wsIdx: nat
    const failCounts: array<int>
    const cooldownUntil: array<int>
    const failThreshold: int
    const rateLimitCooldown: nat

    ghost predicate Valid()
      reads this
    {
      failCounts != cooldownUntil && failCounts.Length == cooldownUntil.Length
    }

    constructor (n: nat, threshold: int, cooldown: nat)
      ensures Valid() && wsIdx == 0 && failCounts.Length == n && fresh(failCounts) && fresh(cooldownUntil)
      ensures failThreshold == threshold && rateLimitCooldown == cooldown
      ensures forall i :: 0 <= i < n ==> failCounts[i] == 0 && cooldownUntil[i] == 0
    {
      wsIdx := 0;
      failCounts := new int[n](i => 0);
      cooldownUntil := new int[n](i => 0);
      failThreshold := threshold;
      rateLimitCooldown := cooldown;
    }

    /** The first endpoint out of cooldown in cyclic order from wsIdx; with all of them in
        cooldown, the one that is free soonest. */
    method ActiveWSEntry(now: int) returns (idx: nat)
      requires Valid()
      ensures cooldownUntil.Length == 0 ==> idx == 0
      ensures cooldownUntil.Length > 0 ==> idx < cooldownUntil.Length
      ensures cooldownUntil.Length > 0 ==>
                if exists k :: 0 <= k < cooldownUntil.Length && cooldownUntil[k] <= now
                then exists i :: FirstOpen(cooldownUntil[..], wsIdx, now, i) && idx == Slot(wsIdx, i, cooldownUntil.Length)
                else exists i :: FirstSoonest(cooldownUntil[..], wsIdx, i) && idx == Slot(wsIdx, i, cooldownUntil.Length)
    {
      var n := cooldownUntil.Length;
      if n == 0 {
        return 0;
      }
      var base := wsIdx;
      ghost var until := cooldownUntil[..];
      var i := 0;
      while i < n
        invariant 0 <= i <= n
        invariant forall j: nat :: j < i ==> until[Slot(base, j, n)] > now
      {
        idx := (base + i) % n;
        if cooldownUntil[idx] <= now {
          assert FirstOpen(until, base, now, i);
          return idx;
        }
        i := i + 1;
      }
      forall k | 0 <= k < n
        ensures cooldownUntil[k] > now
      {
        var p := SlotsCoverAll(base, n, k);
        assert until[Slot(base, p, n)] > now;
      }
      idx := Soonest(base);
    }

    method Soonest(base: nat) returns (best: nat)
      requires Valid() && cooldownUntil.Length > 0
      ensures best < cooldownUntil.Length
      ensures exists i :: FirstSoonest(cooldownUntil[..], base, i) && best == Slot(base, i, cooldownUntil.Length)
    {
      var n := cooldownUntil.Length;
      ghost var until := cooldownUntil[..];
      ghost var p: nat := 0;
      best := base % n;
      var bestExp := cooldownUntil[best];
      var i := 1;
      while i < n
        invariant 1 <= i <= n && p < i
        invariant best == Slot(base, p, n) && bestExp == until[best]
        invariant forall j: nat :: j < i ==> bestExp <= until[Slot(base, j, n)]
        invariant forall j: nat :: j < p ==> bestExp < until[Slot(base, j, n)]
      {
        var idx := (base + i) % n;
        if cooldownUntil[idx] < bestExp {
          best, bestExp, p := idx, cooldownUntil[idx], i;
        }
        i := i + 1;
      }
      assert FirstSoonest(until, base, p);
    }

    method MarkRateLimited(capturedIdx: nat, now: int)
      requires Valid()
      modifies cooldownUntil
      ensures cooldownUntil.Length > 0 ==>
                cooldownUntil[..] == old(cooldownUntil[..])[capturedIdx % cooldownUntil.Length := now + rateLimitCooldown]
    {
      if cooldownUntil.Length == 0 {
        return;
      }
      cooldownUntil[capturedIdx % cooldownUntil.Length] := now + rateLimitCooldown;
    }

    /** One caller at a time. The index moves by one on either branch. */
    method RecordEOFFailure(capturedIdx: nat) returns (promoted: bool)
      requires Valid()
      modifies this`wsIdx, failCounts
      ensures Valid()
      ensures failCounts.Length == 0 ==> wsIdx == old(wsIdx) && !promoted
      ensures failCounts.Length > 0 ==>
                var slot := capturedIdx % failCounts.Length;
                var counted := failThreshold > 0 && failCounts.Length > 1;
                && wsIdx == old(wsIdx) + 1
                && (promoted <==> counted && old(failCounts[slot]) + 1 >= failThreshold && old(wsIdx) == capturedIdx)
                && failCounts[..] == old(failCounts[..])[slot :=
                     if promoted then 0 else if counted then old(failCounts[slot]) + 1 else old(failCounts[slot])]
    {
      var n := failCounts.Length;
      if n == 0 {
        return false;
      }
      if failThreshold > 0 && n > 1 {
        var slot := capturedIdx % n;
        failCounts[slot] := failCounts[slot] + 1;
        if failCounts[slot] >= failThreshold {
          if wsIdx == capturedIdx {
            wsIdx := capturedIdx + 1;
            failCounts[slot] := 0;
            return true;
          }
        }
      }
      wsIdx := wsIdx + 1;
      promoted := false;
    }

    method ResetFailCount(capturedIdx: nat)
      requires Valid()
      modifies failCounts
      ensures failCounts.Length > 0 ==>
                failCounts[..] == old(failCounts[..])[capturedIdx % failCounts.Length := 0]
    {
      if failCounts.Length == 0 {
        return;
      }
      failCounts[capturedIdx % failCounts.Length] := 0;
    }
  }

  // ---- concurrent callers --------------------------------------------------------

  type Caller = nat

  datatype Config = Config(n: nat, threshold: int)

  /** Where a caller of recordWSEOFFailure stands; cap is the index it captured. */
  datatype Phase =
    | Outside
    | Counting(cap: nat)     // next: add to the slot's failure count
    | Swapping(cap: nat)     // next: compare-and-swap of wsIdx
    | Clearing(cap: nat)     // swap won; next: store a zero count
    | Rotating(cap: nat)     // next: add one to wsIdx

  datatype State = State(idx: nat, counts: map<nat, int>, callers: map<Caller, Phase>)

  datatype Label =
    | Start(c: Caller, cap: nat)
    | Count(c: Caller)
    | Swap(c: Caller)
    | Clear(c: Caller)
    | Rotate(c: Caller)
    | Recovered(slot: nat)   // resetWSFailCount after a successful handshake

  function PhaseOf(s: State, c: Caller): Phase {
    if c in s.callers then s.callers[c] else Outside
  }

  function CountOf(s: State, slot: nat): int {
    if slot in s.counts then s.counts[slot] else 0
  }

  /** The captured index comes from ActiveWSEntry, so it is below n. */
  predicate Enabled(g: Config, s: State, l: Label) {
    match l
    case Start(c, cap) => PhaseOf(s, c).Outside? && cap < g.n
    case Count(c) => PhaseOf(s, c).Counting?
    case Swap(c) => PhaseOf(s, c).Swapping?
    case Clear(c) => PhaseOf(s, c).Clearing?
    case Rotate(c) => PhaseOf(s, c).Rotating?
    case Recovered(slot) => slot < g.n
  }

  /** The swap of this step succeeds. */
  predicate Wins(s: State, l: Label) {
    l.Swap? && PhaseOf(s, l.c).Swapping? && s.idx == PhaseOf(s, l.c).cap
  }

  predicate Finishes(l: Label) {
    l.Clear? || l.Rotate?
  }

  function Apply(g: Config, s: State, l: Label): State
    requires Enabled(g, s, l)
  {
    match l
    case Start(c, cap) =>
      s.(callers := s.callers[c := if g.threshold > 0 && g.n > 1 then Counting(cap) else Rotating(cap)])
    case Count(c) =>
      var cap := PhaseOf(s, c).cap;
      var count := CountOf(s, cap) + 1;
      s.(counts := s.counts[cap := count],
         callers := s.callers[c := if count >= g.threshold then Swapping(cap) else Rotating(cap)])
    case Swap(c) =>
      var cap := PhaseOf(s, c).cap;
      if s.idx == cap then s.(idx := cap + 1, callers := s.callers[c := Clearing(cap)])
      else s.(callers := s.callers[c := Rotating(cap)])
    case Clear(c) => s.(counts := s.counts[PhaseOf(s, c).cap := 0], callers := s.callers[c := Outside])
    case Rotate(c) => s.(idx := s.idx + 1, callers := s.callers[c := Outside])
    case Recovered(slot) => s.(counts := s.counts[slot := 0])
  }

  /** The steps ls lead from s to t. */
  predicate Path(g: Config, s: State, ls: seq<Label>, t: State)
    decreases |ls|
  {
    if ls == [] then s == t
    else Enabled(g, s, ls[0]) && Path(g, Apply(g, s, ls[0]), ls[1..], t)
  }

  lemma PathFirst(g: Config, s: State, l: Label, ls: seq<Label>, t: State)
    requires Enabled(g, s, l) && Path(g, Apply(g, s, l), ls, t)
    ensures Path(g, s, [l] + ls, t)
  {
    assert ([l] + ls)[1..] == ls;
  }

  /** The steps by which a call ends, once it is past the failure count. */
  lemma EndOfCall(g: Config, s: State, c: Caller) returns (ls: seq<Label>, t: State)
    requires PhaseOf(s, c).Swapping? || PhaseOf(s, c).Rotating?
    ensures var cap := PhaseOf(s, c).cap; var wins := PhaseOf(s, c).Swapping? && s.idx == cap;
            && Path(g, s, ls, t)
            && t == State(s.idx + 1, if wins then s.counts[cap := 0] else s.counts, s.callers[c := Outside])
  {
    var cap := PhaseOf(s, c).cap;
    if PhaseOf(s, c).Swapping? {
      var u := Apply(g, s, Swap(c));
      var last := if s.idx == cap then Clear(c) else Rotate(c);
      t := Apply(g, u, last);
      ls := [Swap(c)] + ([last] + []);
      PathFirst(g, u, last, [], t);
      PathFirst(g, s, Swap(c), [last] + [], t);
    } else {
      t := Apply(g, s, Rotate(c));
      ls := [Rotate(c)] + [];
      PathFirst(g, s, Rotate(c), [], t);
    }
  }

  /** A call that nobody interrupts does what the method does: the index moves by one, and
      the count of its slot is cleared, raised or left alone under the same conditions. */
  lemma CallAlone(g: Config, s: State, c: Caller, cap: nat) returns (ls: seq<Label>, t: State)
    requires PhaseOf(s, c).Outside? && cap < g.n
    ensures Path(g, s, ls, t) && t.idx == s.idx + 1
    ensures var counted := g.threshold > 0 && g.n > 1;
            var promoted := counted && CountOf(s, cap) + 1 >= g.threshold && s.idx == cap;
            CountOf(t, cap) == if promoted then 0 else if counted then CountOf(s, cap) + 1 else CountOf(s, cap)
    ensures forall k :: k != cap ==> CountOf(t, k) == CountOf(s, k)
    ensures forall d :: d != c ==> PhaseOf(t, d) == PhaseOf(s, d)
  {
    var u := Apply(g, s, Start(c, cap));
    var rest: seq<Label>;
    if g.threshold > 0 && g.n > 1 {
      var v := Apply(g, u, Count(c));
      rest, t := EndOfCall(g, v, c);
      PathFirst(g, u, Count(c), rest, t);
      rest := [Count(c)] + rest;
    } else {
      rest, t := EndOfCall(g, u, c);
    }
    PathFirst(g, s, Start(c, cap), rest, t);
    ls := [Start(c, cap)] + rest;
  }

  /** A successful handshake clears its slot's count and nothing else. */
  lemma RecoveredClears(g: Config, s: State, slot: nat)
    requires slot < g.n
    ensures Enabled(g, s, Recovered(slot))
    ensures var t := Apply(g, s, Recovered(slot));
            CountOf(t, slot) == 0 && (forall k :: k != slot ==> CountOf(t, k) == CountOf(s, k))
            && t.idx == s.idx && t.callers == s.callers
  {
  }

  function Run(g: Config, ls: seq<Label>): Option<State> {
    if ls == [] then Some(State(0, map[], map[]))
    else
      var before := Run(g, ls[..|ls| - 1]);
      var l := ls[|ls| - 1];
      if before.None? || !Enabled(g, before.value, l) then None else Some(Apply(g, before.value, l))
  }

  /** Calls that have finished. */
  function Finished(ls: seq<Label>): nat {
    if ls == [] then 0 else Finished(ls[..|ls| - 1]) + if Finishes(ls[|ls| - 1]) then 1 else 0
  }

  /** Swaps that have succeeded. */
  function Promotions(g: Config, ls: seq<Label>): nat
    requires Run(g, ls).Some?
  {
    if ls == [] then 0
    else
      var front := ls[..|ls| - 1];
      Promotions(g, front) + if Wins(Run(g, front).value, ls[|ls| - 1]) then 1 else 0
  }

  /** Callers that have moved the index and still have to store the zero. */
  function ClearingCallers(callers: map<Caller, Phase>): set<Caller> {
    set c | c in callers && callers[c].Clearing?
  }

  lemma Reassign(callers: map<Caller, Phase>, c: Caller, p: Phase)
    ensures |ClearingCallers(callers[c := p])| + (if c in callers && callers[c].Clearing? then 1 else 0)
            == |ClearingCallers(callers)| + if p.Clearing? then 1 else 0
  {
    var a, b := ClearingCallers(callers), ClearingCallers(callers[c := p]);
    assert a - {c} == b - {c};
    Sums.Exchange(a, b, c);
  }

  /** In every interleaving the index counts the finished calls, plus those that have won
      their swap and only have the counter left to clear. */
  lemma {:induction false} EveryCallAdvancesOnce(g: Config, ls: seq<Label>)
    requires Run(g, ls).Some?
    ensures var s := Run(g, ls).value; s.idx == Finished(ls) + |ClearingCallers(s.callers)|
  {
    if ls == [] {
      assert ClearingCallers(map[]) == {};
    } else {
      var front, l := ls[..|ls| - 1], ls[|ls| - 1];
      EveryCallAdvancesOnce(g, front);
      var s := Run(g, front).value;
      if !l.Recovered? {
        Reassign(s.callers, l.c, Apply(g, s, l).callers[l.c]);
      }
    }
  }

  predicate CapturedBelow(g: Config, s: State) {
    forall c :: c in s.callers && !s.callers[c].Outside? ==> s.callers[c].cap < g.n
  }

  /** The promotion branch is taken at most once per endpoint in the client's whole life:
      it compares the ever-growing index with a captured one below n. */
  lemma {:induction false} PromotionsAreFew(g: Config, ls: seq<Label>)
    requires Run(g, ls).Some?
    ensures Promotions(g, ls) <= Run(g, ls).value.idx
    ensures Promotions(g, ls) <= g.n
    ensures CapturedBelow(g, Run(g, ls).value)
  {
    if ls != [] {
      PromotionsAreFew(g, ls[..|ls| - 1]);
    }
  }

  /** One call after the other, each capturing the endpoint the index is at. */
  function InTurn(n: nat): seq<Label> {
    if n == 0 then [] else InTurn(n - 1) + [Start(0, n - 1), Count(0), Swap(0), Clear(0)]
  }

  lemma RunMore(g: Config, ls: seq<Label>, l: Label)
    requires Run(g, ls).Some? && Enabled(g, Run(g, ls).value, l)
    ensures Run(g, ls + [l]) == Some(Apply(g, Run(g, ls).value, l))
    ensures Promotions(g, ls + [l]) == Promotions(g, ls) + if Wins(Run(g, ls).value, l) then 1 else 0
  {
    assert (ls + [l])[..|ls|] == ls;
  }

  lemma TurnSteps(g: Config, s: State, i: nat)
    requires g.threshold == 1 && g.n > 1 && i < g.n
    requires s.idx == i && PhaseOf(s, 0).Outside? && CountOf(s, i) == 0
    ensures Enabled(g, s, Start(0, i)) && Apply(g, s, Start(0, i)) == s.(callers := s.callers[0 := Counting(i)])
    ensures var t := s.(callers := s.callers[0 := Counting(i)]);
            Enabled(g, t, Count(0))
            && Apply(g, t, Count(0)) == State(i, s.counts[i := 1], s.callers[0 := Swapping(i)])
    ensures var t := State(i, s.counts[i := 1], s.callers[0 := Swapping(i)]);
            Enabled(g, t, Swap(0)) && Wins(t, Swap(0))
            && Apply(g, t, Swap(0)) == State(i + 1, s.counts[i := 1], s.callers[0 := Clearing(i)])
    ensures var t := State(i + 1, s.counts[i := 1], s.callers[0 := Clearing(i)]);
            Enabled(g, t, Clear(0))
            && Apply(g, t, Clear(0)) == State(i + 1, s.counts[i := 0], s.callers[0 := Outside])
  {
    assert s.counts[i := 1][i := 0] == s.counts[i := 0];
    assert s.callers[0 := Counting(i)][0 := Swapping(i)] == s.callers[0 := Swapping(i)];
    assert s.callers[0 := Swapping(i)][0 := Clearing(i)] == s.callers[0 := Clearing(i)];
    assert s.callers[0 := Clearing(i)][0 := Outside] == s.callers[0 := Outside];
  }

  /** A call alone with threshold one wins its swap. */
  lemma OneTurn(g: Config, ls: seq<Label>, i: nat)
    requires g.threshold == 1 && g.n > 1 && i < g.n && Run(g, ls).Some?
    requires var s := Run(g, ls).value;
             s.idx == i && PhaseOf(s, 0).Outside? && CountOf(s, i) == 0
    ensures var ls' := ls + [Start(0, i), Count(0), Swap(0), Clear(0)]; var s := Run(g, ls).value;
            && Run(g, ls') == Some(State(i + 1, s.counts[i := 0], s.callers[0 := Outside]))
            && Promotions(g, ls') == Promotions(g, ls) + 1
  {
    var a, b, c, d := Start(0, i), Count(0), Swap(0), Clear(0);
    TurnSteps(g, Run(g, ls).value, i);
    RunMore(g, ls, a);
    RunMore(g, ls + [a], b);
    RunMore(g, ls + [a] + [b], c);
    RunMore(g, ls + [a] + [b] + [c], d);
    assert ls + [a] + [b] + [c] + [d] == ls + [a, b, c, d];
  }

  lemma {:induction false} TurnsWin(g: Config, m: nat)
    requires g.threshold == 1 && g.n > 1 && m <= g.n
    ensures Run(g, InTurn(m)).Some? && Promotions(g, InTurn(m)) == m
    ensures var s := Run(g, InTurn(m)).value;
            s.idx == m && PhaseOf(s, 0).Outside? && forall k :: k >= m ==> CountOf(s, k) == 0
  {
    if m > 0 {
      TurnsWin(g, m - 1);
      var s := Run(g, InTurn(m - 1)).value;
      OneTurn(g, InTurn(m - 1), m - 1);
      var t := State(m, s.counts[m - 1 := 0], s.callers[0 := Outside]);
      assert Run(g, InTurn(m)) == Some(t);
      forall k | k >= m ensures CountOf(t, k) == 0 {
        assert CountOf(t, k) == CountOf(s, k);
      }
    }
  }

  /** The bound is attained: with a threshold of one, as many swaps win as there are
      endpoints. */
  lemma PromotionsAttained(g: Config)
    requires g.threshold == 1 && g.n > 1
    ensures Run(g, InTurn(g.n)).Some? && Promotions(g, InTurn(g.n)) == g.n
  {
    TurnsWin(g, g.n);
  }

  /** Once the index has reached n no swap succeeds any more, however often the threshold
      is passed. */
  lemma NoPromotionAfterFirstRound(g: Config, ls: seq<Label>, l: Label)
    requires Run(g, ls).Some? && Run(g, ls).value.idx >= g.n && Enabled(g, Run(g, ls).value, l)
    ensures !Wins(Run(g, ls).value, l) && Apply(g, Run(g, ls).value, l).idx >= g.n
  {
    PromotionsAreFew(g, ls);
  }
}
