/** The per-endpoint token bucket of the RPC budget. Times are in nanoseconds. */
module TokenBucket {
  const SECOND: int := 1_000_000_000

  /** The state of one bucket. */
  datatype Bucket = Bucket(tokens: int, capacity: nat, rate: nat, lastFill: int)

  function Min(a: int, b: int): int { if a < b then a else b }

  /** Whole tokens earned since the last fill; a fraction of a token is cut off. */
  function Earned(b: Bucket, now: int): int {
    (now - b.lastFill) * b.rate / SECOND
  }

  function Filled(b: Bucket, now: int): Bucket {
    if Earned(b, now) <= 0 then b
    else b.(tokens := Min(b.tokens + Earned(b, now), b.capacity), lastFill := now)
  }

  predicate Grants(b: Bucket, now: int) {
    Filled(b, now).tokens > 0
  }

  function Taken(b: Bucket, now: int): Bucket {
    var f := Filled(b, now);
    if Grants(b, now) then f.(tokens := f.tokens - 1) else f
  }

  predicate Sound(b: Bucket) {
    0 <= b.tokens <= b.capacity
  }

  /** The bucket after calls at the given times. */
  function After(b: Bucket, times: seq<int>): Bucket {
    if times == [] then b else Taken(After(b, times[..|times| - 1]), times[|times| - 1])
  }

  /** How many of the calls succeed. */
  function Granted(b: Bucket, times: seq<int>): nat {
    if times == [] then 0
    else
      var front := times[..|times| - 1];
      Granted(b, front) + if Grants(After(b, front), times[|times| - 1]) then 1 else 0
  }

  /** The tokens the calls credited, before clamping. */
  function Credited(b: Bucket, times: seq<int>): int {
    if times == [] then 0
    else
      var front := times[..|times| - 1];
      var e := Earned(After(b, front), times[|times| - 1]);
      Credited(b, front) + if e > 0 then e else 0
  }

  predicate Rising(times: seq<int>) {
    forall i, j :: 0 <= i <= j < |times| ==> times[i] <= times[j]
  }

  lemma DivBounds(x: int)
    ensures SECOND * (x / SECOND) <= x < SECOND * (x / SECOND) + SECOND
  {
  }

  lemma Spread(r: nat, a: int, b: int, c: int)
    ensures r * (c - a) == r * (b - a) + r * (c - b)
  {
  }

  lemma {:induction false} AfterSound(b: Bucket, times: seq<int>)
    requires Sound(b)
    ensures Sound(After(b, times)) && After(b, times).rate == b.rate && After(b, times).capacity == b.capacity
  {
    if times != [] {
      AfterSound(b, times[..|times| - 1]);
    }
  }

  lemma {:induction false} LastFillBehind(b: Bucket, times: seq<int>)
    requires times != [] && Rising(times) && b.lastFill <= times[0]
    ensures After(b, times).lastFill <= times[|times| - 1]
  {
    if |times| > 1 {
      LastFillBehind(b, times[..|times| - 1]);
    }
  }

  lemma EarnedBounds(b: Bucket, now: int)
    ensures SECOND * Earned(b, now) <= b.rate * (now - b.lastFill) < SECOND * Earned(b, now) + SECOND
  {
    DivBounds((now - b.lastFill) * b.rate);
  }

  /** One call, with g tokens granted before it and x earned by the last fill before it. */
  lemma TakeBound(b: Bucket, now: int, g: int, x: int)
    requires Sound(b) && SECOND * (g + b.tokens - b.capacity) <= x + SECOND - 1
    ensures var after := g + if Grants(b, now) then 1 else 0;
            var more := if Earned(b, now) > 0 then b.rate * (now - b.lastFill) else 0;
            SECOND * (after + Taken(b, now).tokens - b.capacity) <= x + more + SECOND - 1
  {
    EarnedBounds(b, now);
  }

  /** Tokens held plus tokens granted never outgrow the capacity by more than the time
      since the first call has earned, up to one token the first fill may have cut off. */
  lemma {:induction false} GrantInvariant(b: Bucket, times: seq<int>)
    requires Sound(b) && times != [] && Rising(times) && b.lastFill <= times[0]
    ensures var e := After(b, times);
            SECOND * (Granted(b, times) + e.tokens - b.capacity) <= b.rate * (e.lastFill - times[0]) + SECOND - 1
  {
    var front, now := times[..|times| - 1], times[|times| - 1];
    var mid := After(b, front);
    AfterSound(b, front);
    if |times| == 1 {
      FirstCall(b, now);
    } else {
      GrantInvariant(b, front);
      TakeBound(mid, now, Granted(b, front), b.rate * (mid.lastFill - times[0]));
      Spread(b.rate, times[0], mid.lastFill, now);
    }
  }

  lemma FirstCall(b: Bucket, now: int)
    requires Sound(b)
    ensures SECOND * ((if Grants(b, now) then 1 else 0) + Taken(b, now).tokens - b.capacity)
            <= b.rate * (Taken(b, now).lastFill - now) + SECOND - 1
  {
    EarnedBounds(b, now);
    assert b.rate * (b.lastFill - now) == -(b.rate * (now - b.lastFill));
    assert (if Grants(b, now) then 1 else 0) + Taken(b, now).tokens == Filled(b, now).tokens <= b.capacity;
  }

  function CeilSeconds(x: int): int {
    (x + SECOND - 1) / SECOND
  }

  /** In any stretch of calls between s and t, at most capacity + ceil(rate (t - s))
      succeed, whatever the bucket held and whenever it was last filled before s. */
  lemma UpperBound(b: Bucket, times: seq<int>)
    requires Sound(b) && times != [] && Rising(times) && b.lastFill <= times[0]
    ensures Granted(b, times) <= b.capacity + CeilSeconds(b.rate * (times[|times| - 1] - times[0]))
  {
    GrantInvariant(b, times);
    AfterSound(b, times);
    LastFillBehind(b, times);
    var s, t, e := times[0], times[|times| - 1], After(b, times);
    Monotone(b.rate, e.lastFill - s, t - s);
    FromBalance(Granted(b, times), e.tokens, b.capacity, b.rate * (t - s));
  }

  /** What the balance of seconds says in whole tokens. */
  lemma FromBalance(granted: int, tokens: int, capacity: int, earned: int)
    requires SECOND * (granted + tokens - capacity) <= earned + SECOND - 1 && tokens >= 0
    ensures granted <= capacity + CeilSeconds(earned)
  {
    DivBounds(earned + SECOND - 1);
  }

  lemma {:induction false} Split(b: Bucket, xs: seq<int>, ys: seq<int>)
    ensures After(b, xs + ys) == After(After(b, xs), ys)
    ensures Granted(b, xs + ys) == Granted(b, xs) + Granted(After(b, xs), ys)
  {
    if ys == [] {
      assert xs + ys == xs;
    } else {
      Split(b, xs, ys[..|ys| - 1]);
      assert (xs + ys)[..|xs + ys| - 1] == xs + ys[..|ys| - 1];
    }
  }

  /** The same bound for any stretch ys in the middle of a run. */
  lemma StretchBound(b: Bucket, xs: seq<int>, ys: seq<int>)
    requires Sound(b) && ys != [] && Rising(xs + ys) && b.lastFill <= (xs + ys)[0]
    ensures Granted(b, xs + ys) - Granted(b, xs)
            <= b.capacity + CeilSeconds(b.rate * (ys[|ys| - 1] - ys[0]))
  {
    Split(b, xs, ys);
    AfterSound(b, xs);
    forall i, j | 0 <= i <= j < |ys| ensures ys[i] <= ys[j] {
      assert (xs + ys)[|xs| + i] <= (xs + ys)[|xs| + j];
    }
    if xs != [] {
      forall i, j | 0 <= i <= j < |xs| ensures xs[i] <= xs[j] {
        assert (xs + ys)[i] <= (xs + ys)[j];
      }
      LastFillBehind(b, xs);
      assert (xs + ys)[|xs| - 1] <= (xs + ys)[|xs|];
    }
    UpperBound(After(b, xs), ys);
  }

  lemma Monotone(r: nat, x: int, y: int)
    requires x <= y
    ensures r * x <= r * y
  {
  }

  lemma CreditBound(b: Bucket, now: int)
    requires Earned(b, now) > 0
    ensures (2 * SECOND - 1) * Earned(b, now) >= b.rate * (now - b.lastFill)
  {
    EarnedBounds(b, now);
  }

  /** Over any run the tokens credited are more than half of what the time up to the last
      fill has earned: a fill that credits e tokens cuts off at most SECOND - 1 parts of a
      token, and credits at least one. */
  lemma {:induction false} LowerBound(b: Bucket, times: seq<int>)
    requires Sound(b)
    ensures (2 * SECOND - 1) * Credited(b, times) >= b.rate * (After(b, times).lastFill - b.lastFill)
  {
    if times != [] {
      var front, now := times[..|times| - 1], times[|times| - 1];
      LowerBound(b, front);
      AfterSound(b, front);
      var mid := After(b, front);
      if Earned(mid, now) > 0 {
        CreditBound(mid, now);
        Spread(b.rate, b.lastFill, mid.lastFill, now);
      }
    }
  }

  /** In particular at least half. */
  lemma HalfIsCredited(b: Bucket, times: seq<int>)
    requires Sound(b) && Credited(b, times) > 0
    ensures 2 * SECOND * Credited(b, times) > b.rate * (After(b, times).lastFill - b.lastFill)
  {
    LowerBound(b, times);
  }

  // ---- what calls are granted ----------------------------------------------------------

  /** What a fill at this time would put beyond the capacity. */
  function Overflow(b: Bucket, now: int): int {
    var e := Earned(b, now);
    if e > 0 && b.tokens + e > b.capacity then b.tokens + e - b.capacity else 0
  }

  /** The tokens the clamp has cut off over the calls. */
  function Spilled(b: Bucket, times: seq<int>): int {
    if times == [] then 0
    else Spilled(b, times[..|times| - 1]) + Overflow(After(b, times[..|times| - 1]), times[|times| - 1])
  }

  /** The books balance over any run: what is held and what was granted is what was there
      and what has been credited, less what the clamp cut off. */
  lemma {:induction false} Balance(b: Bucket, times: seq<int>)
    requires Sound(b)
    ensures After(b, times).tokens + Granted(b, times) == b.tokens + Credited(b, times) - Spilled(b, times)
    ensures Spilled(b, times) >= 0
  {
    if times != [] {
      Balance(b, times[..|times| - 1]);
      AfterSound(b, times[..|times| - 1]);
    }
  }

  predicate Fits(b: Bucket, now: int) {
    Earned(b, now) > 0 ==> b.tokens + Earned(b, now) <= b.capacity
  }

  /** No call finds the bucket with more earned than it has room for. */
  predicate HasRoom(b: Bucket, times: seq<int>) {
    forall k :: 0 <= k < |times| ==> Fits(After(b, times[..k]), times[k])
  }

  lemma HasRoomPush(b: Bucket, times: seq<int>, now: int)
    ensures HasRoom(b, times + [now]) <==> HasRoom(b, times) && Fits(After(b, times), now)
    ensures Spilled(b, times + [now]) == Spilled(b, times) + Overflow(After(b, times), now)
  {
    var all := times + [now];
    assert all[..|times|] == times && all[|times|] == now;
    assert forall k :: 0 <= k < |times| ==> all[..k] == times[..k] && all[k] == times[k];
  }

  /** Then nothing is cut off, and only then. */
  lemma {:induction false} SpillsExactly(b: Bucket, times: seq<int>)
    requires Sound(b)
    ensures HasRoom(b, times) <==> Spilled(b, times) == 0
  {
    if times != [] {
      var front, now := times[..|times| - 1], times[|times| - 1];
      SpillsExactly(b, front);
      Balance(b, front);
      HasRoomPush(b, front, now);
      assert times == front + [now];
    }
  }

  /** A refused call finds the bucket empty and less than one token earned. */
  lemma RefusedAtOnce(b: Bucket, now: int)
    requires Sound(b) && Fits(b, now) && !Grants(b, now)
    ensures b.tokens == 0 && b.rate * (now - b.lastFill) < SECOND
  {
    EarnedBounds(b, now);
    assert Earned(b, now) <= 0;
    Monotone(SECOND, Earned(b, now), 0);
  }

  /** Without a loss, all that was there and was credited has been granted once the bucket is
      empty. */
  lemma EmptiedMeansGranted(b: Bucket, times: seq<int>)
    requires Sound(b) && HasRoom(b, times) && After(b, times).tokens == 0
    ensures Granted(b, times) - b.tokens == Credited(b, times)
  {
    SpillsExactly(b, times);
    Balance(b, times);
  }

  /** The guarantee to a caller, at any rate: of calls that never find the bucket over its
      capacity and of which the last is refused, more are granted than the bucket held at
      first and half of what the elapsed time has earned, but for a token. */
  lemma GrantedAtLeast(b: Bucket, times: seq<int>, now: int)
    requires Sound(b) && HasRoom(b, times + [now]) && !Grants(After(b, times), now)
    ensures Granted(b, times + [now]) == Granted(b, times)
    ensures (2 * SECOND - 1) * (Granted(b, times) - b.tokens) > b.rate * (now - b.lastFill) - SECOND
  {
    GrantedMore(b, times, now);
    HasRoomPush(b, times, now);
    GrantedBefore(b, times, After(b, times), now);
  }

  lemma GrantedBefore(b: Bucket, times: seq<int>, mid: Bucket, now: int)
    requires Sound(b) && mid == After(b, times) && HasRoom(b, times) && Fits(mid, now) && !Grants(mid, now)
    ensures (2 * SECOND - 1) * (Granted(b, times) - b.tokens) > b.rate * (now - b.lastFill) - SECOND
  {
    AfterSound(b, times);
    RefusedAtOnce(mid, now);
    EmptiedMeansGranted(b, times);
    LowerBound(b, times);
    UpToNow(b, mid, now, Credited(b, times), Granted(b, times) - b.tokens);
  }

  lemma UpToNow(b: Bucket, mid: Bucket, now: int, credited: int, granted: int)
    requires mid.rate == b.rate && granted == credited
    requires (2 * SECOND - 1) * credited >= b.rate * (mid.lastFill - b.lastFill)
    requires mid.rate * (now - mid.lastFill) < SECOND
    ensures (2 * SECOND - 1) * granted > b.rate * (now - b.lastFill) - SECOND
  {
    Spread(b.rate, b.lastFill, mid.lastFill, now);
  }

  /** And what is held is granted, however fast the calls come. */
  lemma {:induction false} HeldIsGranted(b: Bucket, times: seq<int>)
    requires Sound(b) && |times| <= b.tokens
    ensures Granted(b, times) == |times|
    ensures After(b, times).tokens >= b.tokens - |times|
  {
    if times != [] {
      HeldIsGranted(b, times[..|times| - 1]);
      AfterSound(b, times[..|times| - 1]);
    }
  }

  // ---- the upper bound is attained -----------------------------------------------------

  /** n calls at time 0. */
  function Burst(n: nat): (times: seq<int>)
    ensures |times| == n && forall i :: 0 <= i < n ==> times[i] == 0
  {
    if n == 0 then [] else Burst(n - 1) + [0]
  }

  /** After the burst one call a nanosecond later, and then one a second. */
  function Drip(n: nat, k: nat): (times: seq<int>)
    ensures |times| == n + k
    ensures forall i :: 0 <= i < n ==> times[i] == 0
    ensures forall i :: n <= i < n + k ==> times[i] == 1 + (i - n) * SECOND
  {
    if k == 0 then Burst(n) else Drip(n, k - 1) + [1 + (k - 1) * SECOND]
  }

  /** A full bucket that is a nanosecond short of its next token at time 0. */
  function Brim(capacity: nat): Bucket {
    Bucket(capacity, capacity, 1, 1 - SECOND)
  }

  lemma GrantedMore(b: Bucket, xs: seq<int>, now: int)
    ensures Granted(b, xs + [now]) == Granted(b, xs) + if Grants(After(b, xs), now) then 1 else 0
    ensures After(b, xs + [now]) == Taken(After(b, xs), now)
  {
    assert (xs + [now])[..|xs|] == xs;
  }

  lemma BurstCall(held: nat, capacity: nat)
    requires held > 0
    ensures Grants(Bucket(held, capacity, 1, 1 - SECOND), 0)
    ensures Taken(Bucket(held, capacity, 1, 1 - SECOND), 0) == Bucket(held - 1, capacity, 1, 1 - SECOND)
  {
    assert Earned(Bucket(held, capacity, 1, 1 - SECOND), 0) == 0;
  }

  lemma {:induction false} BurstEmpties(capacity: nat, n: nat)
    requires n <= capacity
    ensures After(Brim(capacity), Burst(n)) == Bucket(capacity - n, capacity, 1, 1 - SECOND)
    ensures Granted(Brim(capacity), Burst(n)) == n
  {
    if n > 0 {
      BurstEmpties(capacity, n - 1);
      GrantedMore(Brim(capacity), Burst(n - 1), 0);
      BurstCall(capacity - n + 1, capacity);
    }
  }

  lemma {:induction false} DripsAreGranted(capacity: nat, k: nat)
    requires capacity > 0
    ensures After(Brim(capacity), Drip(capacity, k)) == Bucket(0, capacity, 1, 1 + (k - 1) * SECOND)
    ensures Granted(Brim(capacity), Drip(capacity, k)) == capacity + k
  {
    if k == 0 {
      BurstEmpties(capacity, capacity);
    } else {
      DripsAreGranted(capacity, k - 1);
      var last, now := 1 + (k - 2) * SECOND, 1 + (k - 1) * SECOND;
      assert After(Brim(capacity), Drip(capacity, k - 1)) == Bucket(0, capacity, 1, last);
      NextSecond(capacity, last, now);
      GrantedMore(Brim(capacity), Drip(capacity, k - 1), now);
      assert Drip(capacity, k) == Drip(capacity, k - 1) + [now];
    }
  }

  lemma NextSecond(capacity: nat, last: int, now: int)
    requires capacity > 0 && now == last + SECOND
    ensures Grants(Bucket(0, capacity, 1, last), now)
    ensures Taken(Bucket(0, capacity, 1, last), now) == Bucket(0, capacity, 1, now)
  {
    assert Earned(Bucket(0, capacity, 1, last), now) == 1;
  }

  lemma {:induction false} DripsRise(capacity: nat, k: nat)
    requires capacity > 0
    ensures Rising(Drip(capacity, k)) && Drip(capacity, k)[0] == 0
    ensures Drip(capacity, k)[capacity + k - 1] == if k == 0 then 0 else 1 + (k - 1) * SECOND
  {
  }

  lemma CeilOfDrip(k: nat)
    ensures CeilSeconds(if k == 0 then 0 else 1 + (k - 1) * SECOND) == k
  {
  }

  lemma BrimIsSound(capacity: nat, t: int)
    ensures Sound(Brim(capacity)) && Brim(capacity).capacity == capacity && Brim(capacity).lastFill < 0
    ensures Brim(capacity).rate * (t - 0) == t
  {
  }

  /** The bound of UpperBound is attained for every number k of tokens beyond the capacity. */
  lemma UpperBoundIsReached(capacity: nat, k: nat) returns (b: Bucket, times: seq<int>)
    requires capacity > 0
    ensures Sound(b) && b.capacity == capacity && times != [] && Rising(times) && b.lastFill <= times[0]
    ensures CeilSeconds(b.rate * (times[|times| - 1] - times[0])) == k
    ensures Granted(b, times) == b.capacity + k
  {
    b, times := Brim(capacity), Drip(capacity, k);
    DripsAreGranted(capacity, k);
    DripsRise(capacity, k);
    CeilOfDrip(k);
    BrimIsSound(capacity, times[|times| - 1]);
  }

  /** The calls that waste most: each comes one nanosecond before its second token. */
  function WastefulCalls(n: nat): seq<int> {
    if n == 0 then [] else WastefulCalls(n - 1) + [n * (2 * SECOND - 1)]
  }

  lemma WastefulCall(b: Bucket, now: int)
    requires b.rate == 1 && b.tokens == 0 && b.capacity > 0 && now == b.lastFill + 2 * SECOND - 1
    ensures Earned(b, now) == 1 && Grants(b, now) && Taken(b, now) == b.(lastFill := now)
  {
    assert Earned(b, now) == 1;
  }

  lemma OneMore(b: Bucket, xs: seq<int>, now: int)
    ensures After(b, xs + [now]) == Taken(After(b, xs), now)
    ensures var e := Earned(After(b, xs), now); Credited(b, xs + [now]) == Credited(b, xs) + if e > 0 then e else 0
    ensures Granted(b, xs + [now]) == Granted(b, xs) + if Grants(After(b, xs), now) then 1 else 0
  {
    assert (xs + [now])[..|xs|] == xs;
  }

  lemma NextMultiple(n: int, x: int)
    ensures n * x == (n - 1) * x + x
  {
  }

  /** The bound of LowerBound is attained for every n: n tokens are credited, and granted,
      over n times two seconds less a nanosecond, at one token a second. */
  lemma {:induction false} LowerBoundIsReached(capacity: nat, n: nat)
    requires capacity > 0
    ensures var b := Bucket(0, capacity, 1, 0);
            && Credited(b, WastefulCalls(n)) == Granted(b, WastefulCalls(n)) == n
            && After(b, WastefulCalls(n)) == b.(lastFill := n * (2 * SECOND - 1))
  {
    if n > 0 {
      var b, xs, now := Bucket(0, capacity, 1, 0), WastefulCalls(n - 1), n * (2 * SECOND - 1);
      LowerBoundIsReached(capacity, n - 1);
      NextMultiple(n, 2 * SECOND - 1);
      WastefulCall(After(b, xs), now);
      OneMore(b, xs, now);
    }
  }

  // ---- the objects ---------------------------------------------------------------

  class LiveBucket {
    var tokens: int
    var capacity: nat
    var rate: nat
    var lastFill: int

    function State(): Bucket
      reads this
    {
      Bucket(tokens, capacity, rate, lastFill)
    }

    constructor (rate: nat, burst: nat, now: int)
      ensures State() == Bucket(burst, burst, rate, now) && Sound(State())
    {
      this.tokens := burst;
      this.capacity := burst;
      this.rate := rate;
      this.lastFill := now;
    }

    method Fill(now: int)
      modifies this
      ensures State() == Filled(old(State()), now)
    {
      var added := (now - lastFill) * rate / SECOND;
      if added > 0 {
        tokens := tokens + added;
        if tokens > capacity {
          tokens := capacity;
        }
        lastFill := now;
      }
    }

    method TryAcquire(now: int) returns (ok: bool)
      modifies this
      ensures ok == Grants(old(State()), now)
      ensures State() == Taken(old(State()), now)
    {
      Fill(now);
      if tokens <= 0 {
        return false;
      }
      tokens := tokens - 1;
      ok := true;
    }
  }

  /** One bucket per endpoint, created at the first call for it. */
  class RPCBudget {
    var buckets: map<string, LiveBucket>
    const rate: nat
    const burst: nat

    ghost predicate Valid()
      reads this, buckets.Values
    {
      && (forall e, f :: e in buckets && f in buckets && e != f ==> buckets[e] != buckets[f])
      && (forall e :: e in buckets ==>
            Sound(buckets[e].State()) && buckets[e].rate == rate && buckets[e].capacity == burst)
    }

    /** The bucket of an endpoint; one not called yet would start full now. */
    ghost function StateOf(endpoint: string, now: int): Bucket
      reads this, buckets.Values
    {
      if endpoint in buckets then buckets[endpoint].State() else Bucket(burst, burst, rate, now)
    }

    constructor (rate: nat, burst: nat)
      ensures Valid() && buckets == map[] && this.rate == rate && this.burst == burst
    {
      this.rate := rate;
      this.burst := burst;
      buckets := map[];
    }

    /** bucket(endpoint): the one bucket of the endpoint, made on demand. */
    method BucketOf(endpoint: string, now: int) returns (b: LiveBucket)
      requires Valid()
      modifies this
      ensures Valid() && endpoint in buckets && b == buckets[endpoint]
      ensures b.State() == old(StateOf(endpoint, now))
      ensures buckets.Keys == old(buckets).Keys + {endpoint}
      ensures endpoint !in old(buckets) ==> fresh(b)
      ensures endpoint !in old(buckets) ==> b.tokens == b.capacity == burst && b.rate == rate && b.lastFill == now
      ensures forall e :: e in old(buckets) ==> buckets[e] == old(buckets)[e] && buckets[e].State() == old(buckets[e].State())
    {
      if endpoint in buckets {
        return buckets[endpoint];
      }
      b := new LiveBucket(rate, burst, now);
      buckets := buckets[endpoint := b];
    }

    /** One attempt of Acquire: only the endpoint's own bucket is drawn on. */
    method TryAcquire(endpoint: string, now: int) returns (ok: bool)
      requires Valid()
      modifies this, buckets.Values
      ensures Valid()
      ensures ok == Grants(old(StateOf(endpoint, now)), now)
      ensures endpoint in buckets && buckets[endpoint].State() == Taken(old(StateOf(endpoint, now)), now)
      ensures forall e :: e in old(buckets) && e != endpoint ==>
                e in buckets && buckets[e].State() == old(buckets[e].State())
      ensures buckets.Keys == old(buckets).Keys + {endpoint}
    {
      var b := BucketOf(endpoint, now);
      ok := b.TryAcquire(now);
    }
  }
}
