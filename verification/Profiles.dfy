/** Cohort profiles from seed tokens: grouping, percentiles, and why neither the order of
    the tokens nor the iteration order of the group map matters. */
module Profiles {
  import opened Wrappers
  import opened Sorting
  import Filter

  /** The fields of a seed token that the computation reads. */
  datatype SeedToken = SeedToken(
    cohortKey: string, liquidityUsd: real, volume24hUsd: real,
    txnsBuys: int, txnsSells: int, socialCount: int)

  datatype CohortDef = CohortDef(
    priorProbability: real, liquidityMinUsd: real, athMultipleP50: real, timeToRugP10Sec: real)

  datatype Stats = Stats(p10: real, p50: real, p90: real)

  datatype Profile = Profile(
    cohortKey: string, tokenCount: nat,
    liquidityUsd: Stats, volume24h: Stats, txVelocity: Stats, buySellRatio: Stats, athMultiple: Stats,
    timeToRugP10Sec: real, timeToRugP50Sec: real,
    liquidityMinUsd: real, priorProbability: real, socialPresenceRate: real, profileVersion: string)

  datatype Group = Group(
    liquidity: seq<real>, volume24h: seq<real>, txVelocity: seq<real>, buySellRatio: seq<real>,
    socialCount: seq<int>, count: nat)

  // ---- percentiles ---------------------------------------------------------------

  predicate RealAtMost(x: real, y: real) { x <= y }

  function SortReals(xs: seq<real>): (r: seq<real>)
    ensures |r| == |xs|
  {
    Sort(xs, RealAtMost)
  }

  lemma SortRealsSorts(xs: seq<real>)
    ensures Ordered(SortReals(xs), RealAtMost) && multiset(SortReals(xs)) == multiset(xs)
  {
    assert Preorder(RealAtMost);
    SortSorts(xs, RealAtMost);
  }

  /** The rank of a percentile given in tenths, clamped to the last element. */
  function Rank(n: nat, tenths: nat): (i: nat)
    requires n > 0
    ensures i < n
    ensures tenths < 10 ==> i == n * tenths / 10
  {
    var i := n * tenths / 10;
    if i >= n then n - 1 else i
  }

  function Percentiles(sorted: seq<real>): Stats {
    var n := |sorted|;
    if n == 0 then Stats(0.0, 0.0, 0.0)
    else Stats(sorted[Rank(n, 1)], sorted[Rank(n, 5)], sorted[Rank(n, 9)])
  }

  function Count<T>(xs: seq<T>, p: T -> bool): (c: nat)
    ensures c <= |xs|
  {
    if xs == [] then 0 else (if p(xs[0]) then 1 else 0) + Count(xs[1..], p)
  }

  function Below(v: real): real -> bool { x => x < v }

  function UpTo(v: real): real -> bool { x => x <= v }

  /** v is the element of rank i of xs, said by counting alone. */
  predicate OrderStatistic(xs: seq<real>, i: nat, v: real) {
    v in xs && Count(xs, Below(v)) <= i < Count(xs, UpTo(v))
  }

  lemma {:induction false} CountMonotone(xs: seq<real>, p: real -> bool, q: real -> bool)
    requires forall x :: p(x) ==> q(x)
    ensures Count(xs, p) <= Count(xs, q)
  {
    if xs != [] {
      CountMonotone(xs[1..], p, q);
    }
  }

  /** The counting definition fixes the value. */
  lemma OrderStatisticUnique(xs: seq<real>, i: nat, v: real, w: real)
    requires OrderStatistic(xs, i, v) && OrderStatistic(xs, i, w)
    ensures v == w
  {
    if v < w {
      CountMonotone(xs, UpTo(v), Below(w));
    }
    if w < v {
      CountMonotone(xs, UpTo(w), Below(v));
    }
  }

  lemma {:induction false} CountJoin<T>(a: seq<T>, b: seq<T>, p: T -> bool)
    ensures Count(a + b, p) == Count(a, p) + Count(b, p)
  {
    if a == [] {
      assert a + b == b;
    } else {
      assert (a + b)[1..] == a[1..] + b;
      CountJoin(a[1..], b, p);
    }
  }

  lemma {:induction false} CountNone<T>(a: seq<T>, p: T -> bool)
    requires forall i :: 0 <= i < |a| ==> !p(a[i])
    ensures Count(a, p) == 0
  {
    if a != [] {
      CountNone(a[1..], p);
    }
  }

  lemma {:induction false} CountAll<T>(a: seq<T>, p: T -> bool)
    requires forall i :: 0 <= i < |a| ==> p(a[i])
    ensures Count(a, p) == |a|
  {
    if a != [] {
      CountAll(a[1..], p);
    }
  }

  lemma CountAtMost(head: seq<real>, tail: seq<real>, p: real -> bool)
    requires forall i :: 0 <= i < |tail| ==> !p(tail[i])
    ensures Count(head + tail, p) <= |head|
  {
    CountNone(tail, p);
    CountJoin(head, tail, p);
  }

  lemma CountAtLeast(head: seq<real>, tail: seq<real>, p: real -> bool)
    requires forall i :: 0 <= i < |head| ==> p(head[i])
    ensures Count(head + tail, p) >= |head|
  {
    CountAll(head, p);
    CountJoin(head, tail, p);
  }

  lemma SortedRank(s: seq<real>, i: nat)
    requires Ordered(s, RealAtMost) && i < |s|
    ensures OrderStatistic(s, i, s[i])
  {
    var v := s[i];
    forall k | 0 <= k < |s| ensures (k < i ==> s[k] <= v) && (i < k ==> v <= s[k]) {
      assert k < i ==> RealAtMost(s[k], v);
      assert i < k ==> RealAtMost(v, s[k]);
    }
    CountAtMost(s[..i], s[i..], Below(v));
    CountAtLeast(s[..i + 1], s[i + 1..], UpTo(v));
    assert s == s[..i] + s[i..] && s == s[..i + 1] + s[i + 1..];
  }

  // ---- what does not depend on the order --------------------------------------------

  lemma WithoutOne<T>(b: seq<T>, i: nat)
    requires i < |b|
    ensures b == b[..i] + [b[i]] + b[i + 1..]
    ensures multiset(b[..i] + b[i + 1..]) == multiset(b) - multiset{b[i]}
  {
    assert b == b[..i] + [b[i]] + b[i + 1..];
  }

  /** b with one occurrence of the first element of a taken out. */
  lemma TakeOut<T>(a: seq<T>, b: seq<T>) returns (i: nat)
    requires a != [] && multiset(a) == multiset(b)
    ensures i < |b| && b[i] == a[0]
    ensures b == b[..i] + [a[0]] + b[i + 1..]
    ensures multiset(b[..i] + b[i + 1..]) == multiset(a[1..])
  {
    SameMembers(a, b, a[0]);
    i :| 0 <= i < |b| && b[i] == a[0];
    WithoutOne(b, i);
    WithoutFirst(a);
  }

  lemma {:induction false} CountUnordered<T>(a: seq<T>, b: seq<T>, p: T -> bool)
    requires multiset(a) == multiset(b)
    ensures Count(a, p) == Count(b, p)
  {
    if a == [] {
      assert |multiset(b)| == 0;
    } else {
      var i := TakeOut(a, b);
      CountUnordered(a[1..], b[..i] + b[i + 1..], p);
      CountJoin(b[..i], b[i + 1..], p);
      CountJoin(b[..i], [a[0]] + b[i + 1..], p);
      assert b == b[..i] + ([a[0]] + b[i + 1..]);
      assert ([a[0]] + b[i + 1..])[1..] == b[i + 1..];
    }
  }

  function Column<T, U>(ts: seq<T>, f: T -> U): (r: seq<U>)
    ensures |r| == |ts| && forall i :: 0 <= i < |ts| ==> r[i] == f(ts[i])
  {
    if ts == [] then [] else [f(ts[0])] + Column(ts[1..], f)
  }

  lemma ColumnJoin<T, U>(a: seq<T>, b: seq<T>, f: T -> U)
    ensures Column(a + b, f) == Column(a, f) + Column(b, f)
  {
  }

  lemma {:induction false} ColumnUnordered<T, U>(a: seq<T>, b: seq<T>, f: T -> U)
    requires multiset(a) == multiset(b)
    ensures multiset(Column(a, f)) == multiset(Column(b, f))
  {
    if a == [] {
      assert |multiset(b)| == 0;
    } else {
      var i := TakeOut(a, b);
      ColumnUnordered(a[1..], b[..i] + b[i + 1..], f);
      ColumnJoin(b[..i], b[i + 1..], f);
      ColumnJoin(b[..i] + [a[0]], b[i + 1..], f);
      ColumnJoin(b[..i], [a[0]], f);
      assert Column([a[0]], f) == [f(a[0])];
    }
  }

  lemma SortForgetsOrder(a: seq<real>, b: seq<real>)
    requires multiset(a) == multiset(b)
    ensures SortReals(a) == SortReals(b)
  {
    assert Preorder(RealAtMost);
    SortRealsSorts(a);
    SortRealsSorts(b);
    OrderedUnique(SortReals(a), SortReals(b), RealAtMost);
  }

  // ---- one cohort ----------------------------------------------------------------

  /** All transactions of the day, per hour. */
  function TxVelocity(t: SeedToken): real {
    (t.txnsBuys + t.txnsSells) as real / 24.0
  }

  function BuySellRatio(t: SeedToken): real {
    if t.txnsSells > 0 then t.txnsBuys as real / t.txnsSells as real else 1.0
  }

  function Liquidity(t: SeedToken): real { t.liquidityUsd }

  function Volume(t: SeedToken): real { t.volume24hUsd }

  function Socials(t: SeedToken): int { t.socialCount }

  predicate Positive(n: int) { n > 0 }

  function Members(tokens: seq<SeedToken>, key: string): seq<SeedToken> {
    if tokens == [] then []
    else
      var t := tokens[|tokens| - 1];
      Members(tokens[..|tokens| - 1], key) + if t.cohortKey == key then [t] else []
  }

  function GroupOf(ms: seq<SeedToken>): Group {
    Group(Column(ms, Liquidity), Column(ms, Volume), Column(ms, TxVelocity), Column(ms, BuySellRatio),
          Column(ms, Socials), |ms|)
  }

  function Max(x: real, y: real): real { if x < y then y else x }

  function Rate(c: nat, n: nat): real {
    if n > 0 then c as real / n as real else 0.0
  }

  function ProfileOf(key: string, g: Group, def: CohortDef): Profile {
    Profile(
      key, g.count,
      Percentiles(SortReals(g.liquidity)), Percentiles(SortReals(g.volume24h)),
      Percentiles(SortReals(g.txVelocity)), Percentiles(SortReals(g.buySellRatio)),
      Stats(Max(1.0, def.athMultipleP50 * 0.5), def.athMultipleP50, def.athMultipleP50 * 2.0),
      def.timeToRugP10Sec, if def.timeToRugP10Sec > 0.0 then def.timeToRugP10Sec * 2.0 else 0.0,
      def.liquidityMinUsd, def.priorProbability,
      Rate(Count(g.socialCount, Positive), g.count),
      "seed_v0")
  }

  type Defs = map<string, CohortDef>

  /** A missing definition reads as the zero value. */
  function DefFor(defs: Defs, key: string): CohortDef {
    if key in defs then defs[key] else CohortDef(0.0, 0.0, 0.0, 0.0)
  }

  function ProfileFor(tokens: seq<SeedToken>, defs: Defs, key: string): Profile {
    ProfileOf(key, GroupOf(Members(tokens, key)), DefFor(defs, key))
  }

  function Profiler(tokens: seq<SeedToken>, defs: Defs): string -> Profile {
    key => ProfileFor(tokens, defs, key)
  }

  lemma {:induction false} MembersExact(tokens: seq<SeedToken>, key: string, t: SeedToken)
    ensures multiset(Members(tokens, key))[t] == if t.cohortKey == key then multiset(tokens)[t] else 0
  {
    if tokens != [] {
      var front, last := tokens[..|tokens| - 1], tokens[|tokens| - 1];
      assert tokens == front + [last];
      MembersExact(front, key, t);
    }
  }

  lemma MembersUnordered(a: seq<SeedToken>, b: seq<SeedToken>, key: string)
    requires multiset(a) == multiset(b)
    ensures multiset(Members(a, key)) == multiset(Members(b, key))
  {
    forall t ensures multiset(Members(a, key))[t] == multiset(Members(b, key))[t] {
      MembersExact(a, key, t);
      MembersExact(b, key, t);
    }
  }

  lemma ProfileUnordered(a: seq<SeedToken>, b: seq<SeedToken>, defs: Defs, key: string)
    requires multiset(a) == multiset(b)
    ensures ProfileFor(a, defs, key) == ProfileFor(b, defs, key)
  {
    var x, y := Members(a, key), Members(b, key);
    MembersUnordered(a, b, key);
    assert |x| == |multiset(x)| == |multiset(y)| == |y|;
    ColumnUnordered(x, y, Liquidity);
    ColumnUnordered(x, y, Volume);
    ColumnUnordered(x, y, TxVelocity);
    ColumnUnordered(x, y, BuySellRatio);
    ColumnUnordered(x, y, Socials);
    SortForgetsOrder(Column(x, Liquidity), Column(y, Liquidity));
    SortForgetsOrder(Column(x, Volume), Column(y, Volume));
    SortForgetsOrder(Column(x, TxVelocity), Column(y, TxVelocity));
    SortForgetsOrder(Column(x, BuySellRatio), Column(y, BuySellRatio));
    CountUnordered(Column(x, Socials), Column(y, Socials), Positive);
  }

  /** s gives the elements of rank n/10, n/2 and 9n/10 of xs, and zeros for no elements. */
  predicate StatsOf(xs: seq<real>, s: Stats) {
    var n := |xs|;
    if n == 0 then s == Stats(0.0, 0.0, 0.0)
    else
      && OrderStatistic(xs, n / 10, s.p10)
      && OrderStatistic(xs, n / 2, s.p50)
      && OrderStatistic(xs, n * 9 / 10, s.p90)
      && s.p10 <= s.p50 <= s.p90
  }

  lemma OrderStatisticUnordered(a: seq<real>, b: seq<real>, i: nat, v: real)
    requires multiset(a) == multiset(b) && OrderStatistic(a, i, v)
    ensures OrderStatistic(b, i, v)
  {
    SameMembers(a, b, v);
    CountUnordered(a, b, Below(v));
    CountUnordered(a, b, UpTo(v));
  }

  lemma RankInSorted(xs: seq<real>, i: nat)
    requires i < |xs|
    ensures OrderStatistic(xs, i, SortReals(xs)[i])
  {
    SortRealsSorts(xs);
    SortedRank(SortReals(xs), i);
    OrderStatisticUnordered(SortReals(xs), xs, i, SortReals(xs)[i]);
  }

  lemma SortedAt(xs: seq<real>, i: nat, j: nat)
    requires i <= j < |xs|
    ensures SortReals(xs)[i] <= SortReals(xs)[j]
  {
    SortRealsSorts(xs);
    assert i < j ==> RealAtMost(SortReals(xs)[i], SortReals(xs)[j]);
  }

  lemma PercentilesAreRanks(xs: seq<real>)
    ensures StatsOf(xs, Percentiles(SortReals(xs)))
  {
    var n := |xs|;
    if n > 0 {
      RankInSorted(xs, n / 10);
      RankInSorted(xs, n / 2);
      RankInSorted(xs, n * 9 / 10);
      SortedAt(xs, n / 10, n / 2);
      SortedAt(xs, n / 2, n * 9 / 10);
    }
  }

  // ---- what the columns hold ---------------------------------------------------------

  predicate LiquidityOf(t: SeedToken, x: real) { x == t.liquidityUsd }

  predicate VolumeOf(t: SeedToken, x: real) { x == t.volume24hUsd }

  /** Transactions per hour: a day of them makes the day's transactions. */
  predicate VelocityOf(t: SeedToken, x: real) { x * 24.0 == t.txnsBuys as real + t.txnsSells as real }

  /** Buys per sell, and one where nothing was sold. */
  predicate RatioOf(t: SeedToken, x: real) {
    if t.txnsSells > 0 then x * t.txnsSells as real == t.txnsBuys as real else x == 1.0
  }

  /** xs holds for each token a number that is this of it. */
  ghost predicate IsColumn(ms: seq<SeedToken>, xs: seq<real>, ofToken: (SeedToken, real) -> bool) {
    |xs| == |ms| && forall i :: 0 <= i < |ms| ==> ofToken(ms[i], xs[i])
  }

  lemma TokenVelocity(t: SeedToken, x: real)
    ensures VelocityOf(t, x) <==> x == TxVelocity(t)
  {
  }

  lemma SameQuotient(x: real, n: int, d: int)
    requires d > 0
    ensures x * d as real == n as real <==> x == n as real / d as real
  {
  }

  lemma TokenRatio(t: SeedToken, x: real)
    ensures RatioOf(t, x) <==> x == BuySellRatio(t)
  {
    if t.txnsSells > 0 {
      SameQuotient(x, t.txnsBuys, t.txnsSells);
    }
  }

  /** These properties leave no choice: a column that has them is the column computed. */
  lemma ColumnDetermined(ms: seq<SeedToken>, xs: seq<real>, ofToken: (SeedToken, real) -> bool, f: SeedToken -> real)
    requires forall t, x :: ofToken(t, x) <==> x == f(t)
    ensures IsColumn(ms, xs, ofToken) <==> xs == Column(ms, f)
  {
    if IsColumn(ms, xs, ofToken) {
      forall i | 0 <= i < |ms| ensures xs[i] == Column(ms, f)[i] {
        assert ofToken(ms[i], xs[i]);
      }
    }
    if xs == Column(ms, f) {
      forall i | 0 <= i < |ms| ensures ofToken(ms[i], xs[i]) {
        assert xs[i] == f(ms[i]);
      }
    }
  }

  lemma ColumnsDetermined(ms: seq<SeedToken>, xs: seq<real>)
    ensures IsColumn(ms, xs, LiquidityOf) <==> xs == Column(ms, Liquidity)
    ensures IsColumn(ms, xs, VolumeOf) <==> xs == Column(ms, Volume)
    ensures IsColumn(ms, xs, VelocityOf) <==> xs == Column(ms, TxVelocity)
    ensures IsColumn(ms, xs, RatioOf) <==> xs == Column(ms, BuySellRatio)
  {
    forall t, x ensures VelocityOf(t, x) <==> x == TxVelocity(t) {
      TokenVelocity(t, x);
    }
    forall t, x ensures RatioOf(t, x) <==> x == BuySellRatio(t) {
      TokenRatio(t, x);
    }
    ColumnDetermined(ms, xs, LiquidityOf, Liquidity);
    ColumnDetermined(ms, xs, VolumeOf, Volume);
    ColumnDetermined(ms, xs, VelocityOf, TxVelocity);
    ColumnDetermined(ms, xs, RatioOf, BuySellRatio);
  }

  /** Every statistic of a profile is the order statistic of its rank in a column of its
      cohort that holds liquidities, volumes, transactions per hour and buys per sell. */
  lemma ProfileStatistics(tokens: seq<SeedToken>, defs: Defs, key: string, xs: seq<real>)
    ensures var p, ms := ProfileFor(tokens, defs, key), Members(tokens, key);
            && (IsColumn(ms, xs, LiquidityOf) ==> StatsOf(xs, p.liquidityUsd))
            && (IsColumn(ms, xs, VolumeOf) ==> StatsOf(xs, p.volume24h))
            && (IsColumn(ms, xs, VelocityOf) ==> StatsOf(xs, p.txVelocity))
            && (IsColumn(ms, xs, RatioOf) ==> StatsOf(xs, p.buySellRatio))
  {
    ColumnsDetermined(Members(tokens, key), xs);
    PercentilesAreRanks(xs);
  }

  /** The estimated percentiles of the all-time-high multiple are in order exactly when the
      definition's median is at least one: the lowest estimate never goes below one. */
  lemma AthEstimates(tokens: seq<SeedToken>, defs: Defs, key: string)
    ensures var s := ProfileFor(tokens, defs, key).athMultiple;
            (s.p10 <= s.p50 <= s.p90 <==> DefFor(defs, key).athMultipleP50 >= 1.0) && s.p10 >= 1.0
  {
  }

  /** x is c out of n, as a fraction between 0 and 1. */
  predicate Portion(x: real, c: nat, n: nat) {
    0.0 <= x <= 1.0 && x * n as real == c as real
  }

  lemma RateIsFraction(c: nat, n: nat)
    requires c <= n
    ensures Portion(Rate(c, n), c, n)
  {
  }

  predicate HasSocials(t: SeedToken) { t.socialCount > 0 }

  lemma {:induction false} CountThroughColumn(ms: seq<SeedToken>)
    ensures Count(Column(ms, Socials), Positive) == Count(ms, HasSocials)
  {
    if ms != [] {
      CountThroughColumn(ms[1..]);
      assert Column(ms, Socials)[1..] == Column(ms[1..], Socials);
    }
  }

  /** The members with a social link among all members. */
  function Share(ms: seq<SeedToken>): real {
    Rate(Count(ms, HasSocials), |ms|)
  }

  lemma ShareIsPortion(ms: seq<SeedToken>)
    ensures Portion(Share(ms), Count(ms, HasSocials), |ms|)
  {
    RateIsFraction(Count(ms, HasSocials), |ms|);
  }

  /** The social presence rate of a cohort's profile is the share of its tokens with a social
      link, and the token count is their number. */
  lemma SocialPresence(tokens: seq<SeedToken>, defs: Defs, key: string)
    ensures var p, ms := ProfileFor(tokens, defs, key), Members(tokens, key);
            p.socialPresenceRate == Share(ms) && p.tokenCount == |ms|
  {
    CountThroughColumn(Members(tokens, key));
  }

  // ---- all cohorts ---------------------------------------------------------------

  /** The cohort keys in use, each once, in order of first use. */
  function KeyList(tokens: seq<SeedToken>): seq<string> {
    if tokens == [] then []
    else
      var known, key := KeyList(tokens[..|tokens| - 1]), tokens[|tokens| - 1].cohortKey;
      if key == "" || key in known then known else known + [key]
  }

  lemma {:induction false} KeyListExact(tokens: seq<SeedToken>, key: string)
    ensures Distinct(KeyList(tokens))
    ensures key in KeyList(tokens) <==> key != "" && exists t :: t in tokens && t.cohortKey == key
  {
    if tokens != [] {
      var front, last := tokens[..|tokens| - 1], tokens[|tokens| - 1];
      assert tokens == front + [last];
      KeyListExact(front, key);
      assert last in tokens;
    }
  }

  lemma SortStringsUnordered(a: seq<string>, b: seq<string>)
    requires multiset(a) == multiset(b)
    ensures SortStrings(a) == SortStrings(b)
  {
    AtMostIsPreorder();
    SortStringsSorts(a);
    SortStringsSorts(b);
    OrderedUnique(SortStrings(a), SortStrings(b), AtMost);
  }

  predicate AllDefined(tokens: seq<SeedToken>, defs: Defs) {
    forall t :: t in tokens && t.cohortKey != "" ==> t.cohortKey in defs
  }

  /** One profile per cohort key in use, in ascending order of the keys. */
  function AllProfiles(tokens: seq<SeedToken>, defs: Defs): seq<Profile> {
    Column(SortStrings(KeyList(tokens)), Profiler(tokens, defs))
  }

  lemma KeysUnordered(a: seq<SeedToken>, b: seq<SeedToken>)
    requires forall t :: t in a <==> t in b
    ensures SortStrings(KeyList(a)) == SortStrings(KeyList(b))
  {
    forall key ensures key in KeyList(a) <==> key in KeyList(b) {
      KeyListExact(a, key);
      KeyListExact(b, key);
    }
    KeyListExact(a, "");
    KeyListExact(b, "");
    SameSet(KeyList(a), KeyList(b));
    SortStringsUnordered(KeyList(a), KeyList(b));
  }

  lemma ColumnSame(keys: seq<string>, f: string -> Profile, g: string -> Profile)
    requires forall key :: f(key) == g(key)
    ensures Column(keys, f) == Column(keys, g)
  {
  }

  /** Permuting the seed tokens changes no profile, nor their order, nor whether the
      computation fails. */
  lemma ProfilesForgetOrder(a: seq<SeedToken>, b: seq<SeedToken>, defs: Defs)
    requires multiset(a) == multiset(b)
    ensures AllProfiles(a, defs) == AllProfiles(b, defs)
    ensures AllDefined(a, defs) <==> AllDefined(b, defs)
  {
    forall t ensures t in a <==> t in b {
      SameMembers(a, b, t);
    }
    KeysUnordered(a, b);
    forall key ensures Profiler(a, defs)(key) == Profiler(b, defs)(key) {
      ProfileUnordered(a, b, defs, key);
    }
    ColumnSame(SortStrings(KeyList(a)), Profiler(a, defs), Profiler(b, defs));
  }

  function TokenSum(ps: seq<Profile>): nat {
    if ps == [] then 0 else ps[0].tokenCount + TokenSum(ps[1..])
  }

  /** The tokens whose cohort key is one of keys. */
  function Keyed(tokens: seq<SeedToken>, keys: seq<string>): nat {
    if tokens == [] then 0
    else Keyed(tokens[..|tokens| - 1], keys) + if tokens[|tokens| - 1].cohortKey in keys then 1 else 0
  }

  lemma {:induction false} KeyedSplit(tokens: seq<SeedToken>, keys: seq<string>)
    requires keys != [] && Distinct(keys)
    ensures Keyed(tokens, keys) == |Members(tokens, keys[0])| + Keyed(tokens, keys[1..])
  {
    if tokens != [] {
      KeyedSplit(tokens[..|tokens| - 1], keys);
      assert keys == [keys[0]] + keys[1..];
    }
  }

  lemma {:induction false} KeyedNone(tokens: seq<SeedToken>)
    ensures Keyed(tokens, []) == 0
  {
    if tokens != [] {
      KeyedNone(tokens[..|tokens| - 1]);
    }
  }

  lemma {:induction false} SumOverKeys(tokens: seq<SeedToken>, defs: Defs, keys: seq<string>)
    requires Distinct(keys)
    ensures TokenSum(Column(keys, Profiler(tokens, defs))) == Keyed(tokens, keys)
  {
    if keys == [] {
      KeyedNone(tokens);
    } else {
      KeyedSplit(tokens, keys);
      SumOverKeys(tokens, defs, keys[1..]);
      var ps := Column(keys, Profiler(tokens, defs));
      assert ps[1..] == Column(keys[1..], Profiler(tokens, defs));
    }
  }

  /** The tokens with a cohort key. */
  function Grouped(tokens: seq<SeedToken>): nat {
    if tokens == [] then 0
    else Grouped(tokens[..|tokens| - 1]) + if tokens[|tokens| - 1].cohortKey != "" then 1 else 0
  }

  lemma {:induction false} KeyedIsGrouped(tokens: seq<SeedToken>, keys: seq<string>)
    requires "" !in keys
    requires forall t :: t in tokens && t.cohortKey != "" ==> t.cohortKey in keys
    ensures Keyed(tokens, keys) == Grouped(tokens)
  {
    if tokens != [] {
      var front, last := tokens[..|tokens| - 1], tokens[|tokens| - 1];
      assert tokens == front + [last];
      KeyedIsGrouped(front, keys);
    }
  }

  /** No token is lost or counted twice: the token counts add up to the number of tokens
      with a cohort key. */
  lemma TokensAddUp(tokens: seq<SeedToken>, defs: Defs)
    ensures TokenSum(AllProfiles(tokens, defs)) == Grouped(tokens)
  {
    var keys := SortStrings(KeyList(tokens));
    KeyListExact(tokens, "");
    SortedDistinct(KeyList(tokens));
    SumOverKeys(tokens, defs, keys);
    forall t | t in tokens && t.cohortKey != "" ensures t.cohortKey in keys {
      KeyListExact(tokens, t.cohortKey);
    }
    KeyedIsGrouped(tokens, keys);
  }

  // ---- the whole report ----------------------------------------------------------------

  /** ms are the tokens of this cohort, each as often as it occurs. */
  ghost predicate MembersOf(tokens: seq<SeedToken>, key: string, ms: seq<SeedToken>) {
    forall t :: multiset(ms)[t] == if t.cohortKey == key then multiset(tokens)[t] else 0
  }

  ghost function WithSocials(ms: seq<SeedToken>): set<int> {
    set i | 0 <= i < |ms| && ms[i].socialCount > 0
  }

  /** The four statistics, the count and the social share of a cohort with these members. */
  ghost predicate Measures(ms: seq<SeedToken>, p: Profile) {
    && ms != [] && p.tokenCount == |ms|
    && (exists xs :: IsColumn(ms, xs, LiquidityOf) && StatsOf(xs, p.liquidityUsd))
    && (exists xs :: IsColumn(ms, xs, VolumeOf) && StatsOf(xs, p.volume24h))
    && (exists xs :: IsColumn(ms, xs, VelocityOf) && StatsOf(xs, p.txVelocity))
    && (exists xs :: IsColumn(ms, xs, RatioOf) && StatsOf(xs, p.buySellRatio))
    && Portion(p.socialPresenceRate, |WithSocials(ms)|, |ms|)
  }

  /** What the profile takes from the definition of its cohort. */
  ghost predicate Estimates(def: CohortDef, p: Profile) {
    && p.priorProbability == def.priorProbability && p.liquidityMinUsd == def.liquidityMinUsd
    && p.timeToRugP10Sec == def.timeToRugP10Sec
    && (def.timeToRugP10Sec > 0.0 ==> p.timeToRugP50Sec == def.timeToRugP10Sec + def.timeToRugP10Sec)
    && (def.timeToRugP10Sec <= 0.0 ==> p.timeToRugP50Sec == 0.0)
    && p.athMultiple.p50 == def.athMultipleP50
    && p.athMultiple.p90 == def.athMultipleP50 + def.athMultipleP50
    && (def.athMultipleP50 >= 2.0 ==> p.athMultiple.p10 + p.athMultiple.p10 == def.athMultipleP50)
    && (def.athMultipleP50 <= 2.0 ==> p.athMultiple.p10 == 1.0)
    && p.profileVersion == "seed_v0"
  }

  ghost predicate Describes(tokens: seq<SeedToken>, defs: Defs, p: Profile) {
    && p.cohortKey != "" && p.cohortKey in defs
    && Estimates(defs[p.cohortKey], p)
    && exists ms :: MembersOf(tokens, p.cohortKey, ms) && Measures(ms, p)
  }

  /** One profile for each cohort key in use, in the order of the keys. */
  ghost predicate Report(tokens: seq<SeedToken>, defs: Defs, ps: seq<Profile>) {
    && (forall i :: 0 <= i < |ps| ==> Describes(tokens, defs, ps[i]))
    && (forall t :: t in tokens && t.cohortKey != "" ==> exists i :: 0 <= i < |ps| && ps[i].cohortKey == t.cohortKey)
    && (forall i, j :: 0 <= i < j < |ps| ==>
          && ps[i].cohortKey != ps[j].cohortKey
          && (ps[i].cohortKey <= ps[j].cohortKey || exists k: nat :: Smaller(ps[i].cohortKey, ps[j].cohortKey, k)))
  }

  lemma {:induction false} CountIsPlaces(ms: seq<SeedToken>)
    ensures Count(ms, HasSocials) == |Filter.Places(ms, HasSocials)|
  {
    Filter.PassingIsPlaces(ms, HasSocials);
    CountIsPassing(ms, HasSocials);
  }

  lemma {:induction false} CountIsPassing<T>(xs: seq<T>, p: T -> bool)
    ensures Count(xs, p) == Filter.Passing(xs, p)
  {
    if xs != [] {
      var front, last := xs[..|xs| - 1], xs[|xs| - 1];
      CountIsPassing(front, p);
      CountJoin(front, [last], p);
      assert xs == front + [last];
    }
  }

  lemma ShareOfPlaces(ms: seq<SeedToken>)
    ensures Portion(Share(ms), |WithSocials(ms)|, |ms|)
  {
    ShareIsPortion(ms);
    CountIsPlaces(ms);
    assert Filter.Places(ms, HasSocials) == WithSocials(ms);
  }

  lemma ProfileMeasures(tokens: seq<SeedToken>, defs: Defs, key: string)
    requires Members(tokens, key) != []
    ensures Measures(Members(tokens, key), ProfileFor(tokens, defs, key))
  {
    var ms := Members(tokens, key);
    HasStatistics(tokens, defs, key, Column(ms, Liquidity));
    HasStatistics(tokens, defs, key, Column(ms, Volume));
    HasStatistics(tokens, defs, key, Column(ms, TxVelocity));
    HasStatistics(tokens, defs, key, Column(ms, BuySellRatio));
    SocialPresence(tokens, defs, key);
    ShareOfPlaces(ms);
  }

  lemma HasStatistics(tokens: seq<SeedToken>, defs: Defs, key: string, xs: seq<real>)
    ensures var p, ms := ProfileFor(tokens, defs, key), Members(tokens, key);
            && (xs == Column(ms, Liquidity) ==> IsColumn(ms, xs, LiquidityOf) && StatsOf(xs, p.liquidityUsd))
            && (xs == Column(ms, Volume) ==> IsColumn(ms, xs, VolumeOf) && StatsOf(xs, p.volume24h))
            && (xs == Column(ms, TxVelocity) ==> IsColumn(ms, xs, VelocityOf) && StatsOf(xs, p.txVelocity))
            && (xs == Column(ms, BuySellRatio) ==> IsColumn(ms, xs, RatioOf) && StatsOf(xs, p.buySellRatio))
  {
    ColumnsDetermined(Members(tokens, key), xs);
    ProfileStatistics(tokens, defs, key, xs);
  }

  lemma ProfileDescribes(tokens: seq<SeedToken>, defs: Defs, key: string)
    requires key != "" && Members(tokens, key) != [] && key in defs
    ensures Describes(tokens, defs, ProfileFor(tokens, defs, key))
  {
    ProfileMeasures(tokens, defs, key);
    forall t ensures multiset(Members(tokens, key))[t] == if t.cohortKey == key then multiset(tokens)[t] else 0 {
      MembersExact(tokens, key, t);
    }
    assert MembersOf(tokens, key, Members(tokens, key));
  }

  /** The profiles say of each cohort what its tokens and its definition give, without the
      functions that compute it. */
  lemma ProfilesReport(tokens: seq<SeedToken>, defs: Defs)
    requires AllDefined(tokens, defs)
    ensures Report(tokens, defs, AllProfiles(tokens, defs))
  {
    var keys := SortStrings(KeyList(tokens));
    KeysUsed(tokens);
    EachDescribed(tokens, defs, keys);
    ReportOfKeys(tokens, defs, keys, AllProfiles(tokens, defs));
  }

  lemma EachDescribed(tokens: seq<SeedToken>, defs: Defs, keys: seq<string>)
    requires AllDefined(tokens, defs) && forall key :: key in keys ==> key in KeyList(tokens)
    ensures var ps := Column(keys, Profiler(tokens, defs));
            forall i :: 0 <= i < |keys| ==> ps[i].cohortKey == keys[i] && Describes(tokens, defs, ps[i])
  {
    forall i | 0 <= i < |keys|
      ensures Column(keys, Profiler(tokens, defs))[i].cohortKey == keys[i]
      ensures Describes(tokens, defs, Column(keys, Profiler(tokens, defs))[i])
    {
      KeyDescribed(tokens, defs, keys[i]);
      assert Column(keys, Profiler(tokens, defs))[i] == ProfileFor(tokens, defs, keys[i]);
    }
  }

  lemma ReportOfKeys(tokens: seq<SeedToken>, defs: Defs, keys: seq<string>, ps: seq<Profile>)
    requires Distinct(keys) && InNameOrder(keys)
    requires forall t :: t in tokens && t.cohortKey != "" ==> t.cohortKey in keys
    requires |ps| == |keys|
    requires forall i :: 0 <= i < |keys| ==> ps[i].cohortKey == keys[i] && Describes(tokens, defs, ps[i])
    ensures Report(tokens, defs, ps)
  {
    forall t | t in tokens && t.cohortKey != "" ensures exists i :: 0 <= i < |ps| && ps[i].cohortKey == t.cohortKey {
      var i :| 0 <= i < |keys| && keys[i] == t.cohortKey;
      assert ps[i].cohortKey == t.cohortKey;
    }
    KeysInOrder(keys, ps);
  }

  lemma KeysUsed(tokens: seq<SeedToken>)
    ensures var keys := SortStrings(KeyList(tokens));
            && Distinct(keys) && InNameOrder(keys)
            && (forall key :: key in keys ==> key in KeyList(tokens))
            && (forall t :: t in tokens && t.cohortKey != "" ==> t.cohortKey in keys)
  {
    KeyListExact(tokens, "");
    SortedDistinct(KeyList(tokens));
    SortStringsSorts(KeyList(tokens));
    forall t | t in tokens && t.cohortKey != "" ensures t.cohortKey in KeyList(tokens) {
      KeyListExact(tokens, t.cohortKey);
    }
  }

  lemma KeyDescribed(tokens: seq<SeedToken>, defs: Defs, key: string)
    requires AllDefined(tokens, defs) && key in KeyList(tokens)
    ensures Describes(tokens, defs, ProfileFor(tokens, defs, key))
  {
    KeyListExact(tokens, key);
    MembersOfUsedKeys(tokens, key);
    ProfileDescribes(tokens, defs, key);
  }

  lemma KeysInOrder(keys: seq<string>, ps: seq<Profile>)
    requires InNameOrder(keys) && Distinct(keys)
    requires |ps| == |keys| && forall i :: 0 <= i < |ps| ==> ps[i].cohortKey == keys[i]
    ensures forall i, j :: 0 <= i < j < |ps| ==>
              && ps[i].cohortKey != ps[j].cohortKey
              && (ps[i].cohortKey <= ps[j].cohortKey || exists k: nat :: Smaller(ps[i].cohortKey, ps[j].cohortKey, k))
  {
  }

  // ---- the computation -----------------------------------------------------------

  predicate ByKey(p: Profile, q: Profile) {
    AtMost(p.cohortKey, q.cohortKey)
  }

  lemma ByKeyIsPreorder()
    ensures Preorder(ByKey)
  {
    AtMostIsPreorder();
  }

  /** Profiles in the order of their keys: ties are the same profile. */
  lemma KeyOrder(keys: seq<string>, f: string -> Profile)
    requires Ordered(keys, AtMost) && forall key :: f(key).cohortKey == key
    ensures Ordered(Column(keys, f), ByKey) && NoTies(Column(keys, f), ByKey)
  {
    var ps := Column(keys, f);
    forall p, q | p in ps && q in ps && ByKey(p, q) && ByKey(q, p)
      ensures p == q
    {
      AtMostTotal(p.cohortKey, q.cohortKey);
      FromKey(keys, f, p);
      FromKey(keys, f, q);
    }
  }

  lemma FromKey(keys: seq<string>, f: string -> Profile, p: Profile)
    requires p in Column(keys, f) && forall key :: f(key).cohortKey == key
    ensures p == f(p.cohortKey)
  {
    var i :| 0 <= i < |keys| && Column(keys, f)[i] == p;
  }

  lemma SortedColumn(order: seq<string>, keys: seq<string>, f: string -> Profile)
    requires multiset(order) == multiset(keys)
    requires Ordered(keys, AtMost) && forall key :: f(key).cohortKey == key
    ensures Sort(Column(order, f), ByKey) == Column(keys, f)
  {
    ColumnUnordered(order, keys, f);
    ByKeyIsPreorder();
    SortSorts(Column(order, f), ByKey);
    KeyOrder(keys, f);
    OrderedUnique(Column(keys, f), Sort(Column(order, f), ByKey), ByKey);
  }

  /** Profiles made in any order of the keys and then sorted by key. */
  lemma SortedProfiles(tokens: seq<SeedToken>, defs: Defs, order: seq<string>)
    requires Distinct(order)
    requires forall key :: key in order <==> key in KeyList(tokens)
    ensures Sort(Column(order, Profiler(tokens, defs)), ByKey) == AllProfiles(tokens, defs)
  {
    KeyListExact(tokens, "");
    SameSet(order, KeyList(tokens));
    SortStringsSorts(KeyList(tokens));
    SortedColumn(order, SortStrings(KeyList(tokens)), Profiler(tokens, defs));
  }

  type Groups = map<string, Group>

  function Grown(g: Group, t: SeedToken): Group {
    Group(g.liquidity + [t.liquidityUsd], g.volume24h + [t.volume24hUsd],
          g.txVelocity + [TxVelocity(t)], g.buySellRatio + [BuySellRatio(t)],
          g.socialCount + [t.socialCount], g.count + 1)
  }

  const EMPTY: Group := Group([], [], [], [], [], 0)

  lemma GrownIsGroupOf(ms: seq<SeedToken>, t: SeedToken)
    ensures Grown(GroupOf(ms), t) == GroupOf(ms + [t]) && GroupOf([]) == EMPTY
  {
    ColumnJoin(ms, [t], Liquidity);
    ColumnJoin(ms, [t], Volume);
    ColumnJoin(ms, [t], TxVelocity);
    ColumnJoin(ms, [t], BuySellRatio);
    ColumnJoin(ms, [t], Socials);
  }

  /** One group per key in use, holding the columns of the key's tokens in their order. */
  ghost predicate Grouping(groups: Groups, tokens: seq<SeedToken>) {
    && (forall key :: key in groups <==> key != "" && Members(tokens, key) != [])
    && (forall key :: key in groups ==> groups[key] == GroupOf(Members(tokens, key)))
  }

  lemma MembersPush(tokens: seq<SeedToken>, t: SeedToken, key: string)
    ensures Members(tokens + [t], key) == Members(tokens, key) + if t.cohortKey == key then [t] else []
  {
    assert (tokens + [t])[..|tokens|] == tokens;
  }

  lemma GroupingSkips(groups: Groups, tokens: seq<SeedToken>, t: SeedToken)
    requires Grouping(groups, tokens) && t.cohortKey == ""
    ensures Grouping(groups, tokens + [t])
  {
    forall key | key != "" ensures Members(tokens + [t], key) == Members(tokens, key) {
      MembersPush(tokens, t, key);
    }
  }

  function GroupAt(groups: Groups, key: string): Group {
    if key in groups then groups[key] else EMPTY
  }

  lemma GroupAtIsGroupOf(groups: Groups, tokens: seq<SeedToken>, key: string)
    requires Grouping(groups, tokens) && key != ""
    ensures GroupAt(groups, key) == GroupOf(Members(tokens, key))
  {
  }

  lemma GroupingGrows(groups: Groups, tokens: seq<SeedToken>, t: SeedToken)
    requires Grouping(groups, tokens) && t.cohortKey != ""
    ensures Grouping(groups[t.cohortKey := Grown(GroupAt(groups, t.cohortKey), t)], tokens + [t])
  {
    GroupAtIsGroupOf(groups, tokens, t.cohortKey);
    GrownIsGroupOf(Members(tokens, t.cohortKey), t);
    var g := Grown(GroupAt(groups, t.cohortKey), t);
    MembersPush(tokens, t, t.cohortKey);
    assert g == GroupOf(Members(tokens + [t], t.cohortKey));
    forall key | key != t.cohortKey ensures Members(tokens + [t], key) == Members(tokens, key) {
      MembersPush(tokens, t, key);
    }
    Replace(groups, tokens, tokens + [t], t.cohortKey, g);
  }

  lemma Replace(groups: Groups, tokens: seq<SeedToken>, more: seq<SeedToken>, k: string, g: Group)
    requires Grouping(groups, tokens) && k != "" && Members(more, k) != [] && g == GroupOf(Members(more, k))
    requires forall key :: key != k ==> Members(more, key) == Members(tokens, key)
    ensures Grouping(groups[k := g], more)
  {
    var after := groups[k := g];
    forall key
      ensures key in after <==> key != "" && Members(more, key) != []
      ensures key in after ==> after[key] == GroupOf(Members(more, key))
    {
      if key != k {
        assert Members(more, key) == Members(tokens, key);
      }
    }
  }

  /** The columns of a group hold what they are named after, token by token. */
  ghost predicate Holds(ms: seq<SeedToken>, g: Group) {
    && IsColumn(ms, g.liquidity, LiquidityOf) && IsColumn(ms, g.volume24h, VolumeOf)
    && IsColumn(ms, g.txVelocity, VelocityOf) && IsColumn(ms, g.buySellRatio, RatioOf)
    && g.count == |ms| == |g.socialCount| && forall i :: 0 <= i < |ms| ==> g.socialCount[i] == ms[i].socialCount
  }

  lemma GroupHolds(ms: seq<SeedToken>)
    ensures Holds(ms, GroupOf(ms))
  {
    ColumnsDetermined(ms, Column(ms, Liquidity));
    ColumnsDetermined(ms, Column(ms, Volume));
    ColumnsDetermined(ms, Column(ms, TxVelocity));
    ColumnsDetermined(ms, Column(ms, BuySellRatio));
  }

  method GroupTokens(tokens: seq<SeedToken>) returns (groups: Groups)
    ensures Grouping(groups, tokens)
    ensures forall key :: key in groups ==> Holds(Members(tokens, key), groups[key])
  {
    groups := map[];
    for i := 0 to |tokens|
      invariant Grouping(groups, tokens[..i])
    {
      var t := tokens[i];
      assert tokens[..i + 1] == tokens[..i] + [t];
      if t.cohortKey == "" {
        GroupingSkips(groups, tokens[..i], t);
      } else {
        GroupingGrows(groups, tokens[..i], t);
        groups := groups[t.cohortKey := Grown(GroupAt(groups, t.cohortKey), t)];
      }
    }
    assert tokens[..|tokens|] == tokens;
    forall key | key in groups ensures Holds(Members(tokens, key), groups[key]) {
      GroupHolds(Members(tokens, key));
    }
  }

  lemma {:induction false} MembersOfUsedKeys(tokens: seq<SeedToken>, key: string)
    ensures key in KeyList(tokens) <==> key != "" && Members(tokens, key) != []
  {
    if tokens != [] {
      MembersOfUsedKeys(tokens[..|tokens| - 1], key);
    }
  }

  lemma GroupKeys(groups: Groups, tokens: seq<SeedToken>, defs: Defs)
    requires Grouping(groups, tokens)
    ensures forall key :: key in groups <==> key in KeyList(tokens)
    ensures AllDefined(tokens, defs) <==> forall key :: key in groups ==> key in defs
  {
    forall key ensures key in groups <==> key in KeyList(tokens) {
      MembersOfUsedKeys(tokens, key);
    }
    forall t | t in tokens && t.cohortKey != "" ensures t.cohortKey in groups {
      KeyListExact(tokens, t.cohortKey);
    }
    forall key | key in groups ensures exists t :: t in tokens && t.cohortKey == key && key != "" {
      KeyListExact(tokens, key);
    }
  }

  /** The profiles of the groups visited so far, as f makes them. */
  ghost predicate Visited(profiles: seq<Profile>, order: seq<string>, rest: set<string>, groups: Groups,
                          f: string -> Profile, defs: Defs) {
    && Distinct(order)
    && profiles == Column(order, f)
    && (forall key :: key in order <==> key in groups && key !in rest)
    && (forall key :: key in order ==> key in defs)
  }

  lemma VisitOne(profiles: seq<Profile>, order: seq<string>, rest: set<string>, groups: Groups,
                 f: string -> Profile, defs: Defs, key: string)
    requires Visited(profiles, order, rest, groups, f, defs)
    requires key in rest && key in groups && key in defs
    ensures Visited(profiles + [f(key)], order + [key], rest - {key}, groups, f, defs)
  {
    ColumnPush(order, key, f);
    DistinctPush(order, key);
  }

  lemma ProfileOfGroup(groups: Groups, tokens: seq<SeedToken>, defs: Defs, key: string)
    requires Grouping(groups, tokens) && key in groups && key in defs
    ensures ProfileOf(key, groups[key], defs[key]) == Profiler(tokens, defs)(key)
  {
  }

  lemma ColumnPush<T, U>(xs: seq<T>, x: T, f: T -> U)
    ensures Column(xs + [x], f) == Column(xs, f) + [f(x)]
  {
  }

  /** The groups are visited in any order, as map iteration does; the first unknown cohort
      met ends the computation. The result does not depend on the order, except for which
      of several unknown cohorts an error names. */
  method ComputeProfiles(tokens: seq<SeedToken>, defs: Defs) returns (r: Result<seq<Profile>, string>)
    ensures r.Success? <==> AllDefined(tokens, defs)
    ensures r.Success? ==> r.value == AllProfiles(tokens, defs) && Report(tokens, defs, r.value)
    ensures r.Failure? ==> r.error != "" && r.error !in defs && exists t :: t in tokens && t.cohortKey == r.error
  {
    var groups := GroupTokens(tokens);
    GroupKeys(groups, tokens, defs);
    var profiles: seq<Profile> := [];
    ghost var order: seq<string> := [];
    var rest := groups.Keys;
    while rest != {}
      invariant rest <= groups.Keys
      invariant Visited(profiles, order, rest, groups, Profiler(tokens, defs), defs)
    {
      var key :| key in rest;
      if key !in defs {
        KeyListExact(tokens, key);
        return Failure(key);
      }
      ProfileOfGroup(groups, tokens, defs, key);
      VisitOne(profiles, order, rest, groups, Profiler(tokens, defs), defs, key);
      profiles := profiles + [ProfileOf(key, groups[key], defs[key])];
      order := order + [key];
      rest := rest - {key};
    }
    SortedProfiles(tokens, defs, order);
    ProfilesReport(tokens, defs);
    r := Success(Sort(profiles, ByKey));
  }
}
