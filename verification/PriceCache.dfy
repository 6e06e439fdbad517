/** The TTL cache of on-chain pool prices, with its stale fallback window. Time is in
    nanoseconds and enters as clock readings that the environment supplies. */
module PriceCache {
  import opened Wrappers
  import Text

  /** What the environment supplies to one call of GetTokenPrice: the clock as each cache
      method reads it, and what the resolver and the RPC fetch answer if they are asked. */
  datatype Request = Request(
    chain: string, token: string,
    freshAt: int, staleAt: int, storeAt: int,
    resolved: Resolved, fetched: Fetched)

  datatype Resolved = ResolverError | Resolved(pool: string, found: bool)

  datatype Fetched = FetchError | Fetched(price: string)

  datatype PriceError = UnsupportedChain | EmptyToken | NotConfigured | ResolveFailed | NoPool | FetchFailed | EmptyPrice

  datatype Entry = Entry(price: string, fetchedAt: int)

  /** How a call came to its answer. */
  datatype Route = Rejected | Cached | Fallback | Refetched

  datatype Reply = Reply(result: Result<string, PriceError>, route: Route)

  datatype Config = Config(configured: bool, cacheTTL: int, staleMaxMultiplier: int)

  const DEFAULT_TTL: int := 5_000_000_000
  const DEFAULT_MULTIPLIER: int := 3

  function TTL(c: Config): (ttl: int)
    ensures ttl > 0
  {
    if c.cacheTTL <= 0 then DEFAULT_TTL else c.cacheTTL
  }

  function Multiplier(c: Config): (m: int)
    ensures m >= 1
  {
    if c.staleMaxMultiplier <= 0 then DEFAULT_MULTIPLIER else c.staleMaxMultiplier
  }

  function Window(c: Config): int {
    TTL(c) * Multiplier(c)
  }

  lemma WindowCoversTTL(c: Config)
    ensures TTL(c) <= Window(c)
  {
    Product(TTL(c), Multiplier(c));
  }

  lemma Product(a: int, b: int)
    requires a >= 0 && b >= 1
    ensures a <= a * b
  {
  }

  // ---- keys ----------------------------------------------------------------------

  /** The letters that Unicode simple folding takes to the same letter of "solana". */
  predicate Folds(c: char, i: nat)
    requires i < 6
  {
    match i
    case 0 => c == 's' || c == 'S' || c == '\U{017F}'
    case 1 => c == 'o' || c == 'O'
    case 2 => c == 'l' || c == 'L'
    case 4 => c == 'n' || c == 'N'
    case _ => c == 'a' || c == 'A'
  }

  predicate IsSolana(chain: string) {
    |chain| == 6 && forall i: nat :: i < 6 ==> Folds(chain[i], i)
  }

  function Key(chain: string, token: string): string {
    chain + ":" + token
  }

  /** No two tokens share a cache slot, whatever the spelling of the chain. */
  lemma KeyInjective(c1: string, t1: string, c2: string, t2: string)
    requires IsSolana(c1) && IsSolana(c2)
    ensures Key(c1, t1) == Key(c2, t2) <==> c1 == c2 && t1 == t2
  {
    assert Key(c1, t1)[..6] == c1 && Key(c2, t2)[..6] == c2;
    assert Key(c1, t1)[7..] == t1 && Key(c2, t2)[7..] == t2;
  }

  // ---- one call ------------------------------------------------------------------

  type Cache = map<string, Entry>

  predicate Fresh(c: Config, cache: Cache, key: string, now: int) {
    key in cache && now - cache[key].fetchedAt <= TTL(c)
  }

  predicate Stale(c: Config, cache: Cache, key: string, now: int) {
    key in cache && cache[key].price != "" && now - cache[key].fetchedAt <= Window(c)
  }

  /** Why no new price can be had, if the resolver and the fetch answer as in q. */
  function Obstacle(q: Request): Option<PriceError> {
    if q.resolved.ResolverError? then Some(ResolveFailed)
    else if !q.resolved.found || q.resolved.pool == "" then Some(NoPool)
    else if q.fetched.FetchError? then Some(FetchFailed)
    else if q.fetched.price == "" then Some(EmptyPrice)
    else None
  }

  function Rejection(c: Config, q: Request): Option<PriceError> {
    if !IsSolana(q.chain) then Some(UnsupportedChain)
    else if q.token == "" then Some(EmptyToken)
    else if !c.configured then Some(NotConfigured)
    else None
  }

  function Answer(c: Config, cache: Cache, q: Request): Reply {
    var key := Key(q.chain, q.token);
    if Rejection(c, q).Some? then Reply(Failure(Rejection(c, q).value), Rejected)
    else if Fresh(c, cache, key, q.freshAt) then Reply(Success(cache[key].price), Cached)
    else if Obstacle(q).None? then Reply(Success(q.fetched.price), Refetched)
    else if Stale(c, cache, key, q.staleAt) then Reply(Success(cache[key].price), Fallback)
    else Reply(Failure(Obstacle(q).value), Fallback)
  }

  function Updated(c: Config, cache: Cache, q: Request): Cache {
    if Answer(c, cache, q).route == Refetched
    then cache[Key(q.chain, q.token) := Entry(q.fetched.price, q.storeAt)]
    else cache
  }

  class SolanaPoolPriceClient {
    const config: Config
    var cache: Cache

    constructor (config: Config)
      ensures this.config == config && cache == map[]
    {
      this.config := config;
      cache := map[];
    }

    method CachedFresh(key: string, now: int) returns (price: string, ok: bool)
      ensures ok <==> Fresh(config, cache, key, now)
      ensures var ttl := if config.cacheTTL > 0 then config.cacheTTL else 5_000_000_000;
              ok <==> (key in cache && now - cache[key].fetchedAt <= ttl)
      ensures price == if ok then cache[key].price else ""
    {
      if key !in cache {
        return "", false;
      }
      if now - cache[key].fetchedAt > TTL(config) {
        return "", false;
      }
      return cache[key].price, true;
    }

    method CachedStale(key: string, now: int) returns (price: string, ok: bool)
      ensures ok <==> Stale(config, cache, key, now)
      ensures var ttl := if config.cacheTTL > 0 then config.cacheTTL else 5_000_000_000;
              var window := ttl * if config.staleMaxMultiplier > 0 then config.staleMaxMultiplier else 3;
              ok <==> (key in cache && cache[key].price != "" && now - cache[key].fetchedAt <= window)
      ensures price == if ok then cache[key].price else ""
    {
      if key !in cache || cache[key].price == "" {
        return "", false;
      }
      if now - cache[key].fetchedAt > TTL(config) * Multiplier(config) {
        return "", false;
      }
      return cache[key].price, true;
    }

    method StoreCache(key: string, price: string, now: int)
      modifies this
      ensures cache == old(cache)[key := Entry(price, now)]
    {
      cache := cache[key := Entry(price, now)];
    }

    /** The price or the error, with the branch the call left by. */
    method GetTokenPrice(q: Request) returns (reply: Reply)
      modifies this
      ensures reply == Answer(config, old(cache), q)
      ensures cache == Updated(config, old(cache), q)
    {
      if !IsSolana(q.chain) {
        return Reply(Failure(UnsupportedChain), Rejected);
      }
      if q.token == "" {
        return Reply(Failure(EmptyToken), Rejected);
      }
      if !config.configured {
        return Reply(Failure(NotConfigured), Rejected);
      }
      var key := q.chain + ":" + q.token;
      var price, ok := CachedFresh(key, q.freshAt);
      if ok {
        return Reply(Success(price), Cached);
      }
      if q.resolved.ResolverError? {
        price, ok := CachedStale(key, q.staleAt);
        return if ok then Reply(Success(price), Fallback) else Reply(Failure(ResolveFailed), Fallback);
      }
      if !q.resolved.found || q.resolved.pool == "" {
        price, ok := CachedStale(key, q.staleAt);
        return if ok then Reply(Success(price), Fallback) else Reply(Failure(NoPool), Fallback);
      }
      if q.fetched.FetchError? || q.fetched.price == "" {
        price, ok := CachedStale(key, q.staleAt);
        if ok {
          return Reply(Success(price), Fallback);
        }
        return Reply(Failure(if q.fetched.FetchError? then FetchFailed else EmptyPrice), Fallback);
      }
      StoreCache(key, q.fetched.price, q.storeAt);
      return Reply(Success(q.fetched.price), Refetched);
    }
  }

  /** A letter, case aside; the long s folds to s as well. */
  function Folded(c: char): char {
    if c == '\U{017F}' then 's' else Text.LowerChar(c)
  }

  predicate SpellsSolana(chain: string) {
    |chain| == 6 && forall i :: 0 <= i < 6 ==> Folded(chain[i]) == "solana"[i]
  }

  /** What is rejected at the top, and with which error; nothing is cached for it. */
  lemma RejectsExactly(c: Config, cache: Cache, q: Request)
    ensures var reply := Answer(c, cache, q);
            && (reply.route == Rejected <==> !SpellsSolana(q.chain) || q.token == "" || !c.configured)
            && (reply.result == Failure(UnsupportedChain) <==> !SpellsSolana(q.chain))
            && (reply.result == Failure(EmptyToken) <==> SpellsSolana(q.chain) && q.token == "")
            && (reply.result == Failure(NotConfigured) <==> SpellsSolana(q.chain) && q.token != "" && !c.configured)
            && (reply.route == Rejected ==> Updated(c, cache, q) == cache)
  {
    SolanaExactly(q.chain);
  }

  lemma SolanaExactly(chain: string)
    ensures IsSolana(chain) <==> SpellsSolana(chain)
  {
    assert "solana" == ['s', 'o', 'l', 'a', 'n', 'a'];
    if |chain| == 6 {
      assert forall i: nat :: i < 6 ==> (Folds(chain[i], i) <==> Folded(chain[i]) == "solana"[i]);
    }
  }

  // ---- runs ----------------------------------------------------------------------

  /** The cache after a run of calls, one at a time, from an empty one. */
  function CacheAfter(c: Config, qs: seq<Request>): Cache {
    if qs == [] then map[] else Updated(c, CacheAfter(c, qs[..|qs| - 1]), qs[|qs| - 1])
  }

  /** The call asks for the token of this key and passes the checks at the top. */
  predicate Asks(c: Config, q: Request, key: string) {
    Rejection(c, q).None? && Key(q.chain, q.token) == key
  }

  /** A definition without any cache: the latest price fetched for one key, where a call
      for the key fetches unless the latest price is at most TTL old by then. */
  function Latest(c: Config, qs: seq<Request>, key: string): Option<Entry> {
    if qs == [] then None
    else
      var known := Latest(c, qs[..|qs| - 1], key);
      var q := qs[|qs| - 1];
      if Asks(c, q, key) && Obstacle(q).None? && !(known.Some? && q.freshAt - known.value.fetchedAt <= TTL(c))
      then Some(Entry(q.fetched.price, q.storeAt))
      else known
  }

  predicate Holds(cache: Cache, key: string, e: Option<Entry>) {
    if key in cache then e == Some(cache[key]) else e == None
  }

  /** The one map over all keys holds for each key what a log of that key alone gives, and
      no empty price ever. */
  lemma {:induction false} CacheIsLatest(c: Config, qs: seq<Request>, key: string)
    ensures Holds(CacheAfter(c, qs), key, Latest(c, qs, key))
    ensures Latest(c, qs, key).Some? ==> Latest(c, qs, key).value.price != ""
  {
    if qs != [] {
      CacheIsLatest(c, qs[..|qs| - 1], key);
    }
  }

  /** The accepted calls for one key. */
  function OnlyFor(c: Config, qs: seq<Request>, key: string): seq<Request> {
    if qs == [] then []
    else OnlyFor(c, qs[..|qs| - 1], key) + if Asks(c, qs[|qs| - 1], key) then [qs[|qs| - 1]] else []
  }

  /** Keys do not disturb each other: dropping every call for another key, and every
      rejected call, changes nothing for this one. */
  lemma {:induction false} KeysAreIndependent(c: Config, qs: seq<Request>, key: string)
    ensures Latest(c, OnlyFor(c, qs, key), key) == Latest(c, qs, key)
  {
    if qs != [] {
      var front, q := qs[..|qs| - 1], qs[|qs| - 1];
      KeysAreIndependent(c, front, key);
      var few := OnlyFor(c, front, key);
      if Asks(c, q, key) {
        assert (few + [q])[..|few|] == few;
      } else {
        assert few + [] == few;
      }
    }
  }

  predicate Within(e: Option<Entry>, now: int, age: int) {
    e.Some? && now - e.value.fetchedAt <= age
  }

  /** Every price that a run hands out is non-empty and is the latest one fetched for that
      very key, this call included; it is at most TTL old if nothing was tried, new if the
      refetch worked, and within the stale window if it did not. */
  lemma ServedPrices(c: Config, qs: seq<Request>, q: Request)
    requires Answer(c, CacheAfter(c, qs), q).result.Success?
    ensures var reply := Answer(c, CacheAfter(c, qs), q);
            var known := Latest(c, qs + [q], Key(q.chain, q.token));
            var ttl := if c.cacheTTL > 0 then c.cacheTTL else 5_000_000_000;
            var window := ttl * if c.staleMaxMultiplier > 0 then c.staleMaxMultiplier else 3;
            && known.Some? && known.value.price == reply.result.value != ""
            && (reply.route == Cached <==> Within(Latest(c, qs, Key(q.chain, q.token)), q.freshAt, ttl))
            && (reply.route == Cached ==> known == Latest(c, qs, Key(q.chain, q.token)))
            && (reply.route == Refetched ==> known.value == Entry(q.fetched.price, q.storeAt))
            && (reply.route == Fallback ==> !Obtainable(q) && q.staleAt - known.value.fetchedAt <= window)
  {
    var key := Key(q.chain, q.token);
    assert (qs + [q])[..|qs|] == qs;
    CacheIsLatest(c, qs, key);
    CacheIsLatest(c, qs + [q], key);
  }

  /** The resolver finds a pool and the fetch a price. */
  predicate Obtainable(q: Request) {
    q.resolved.Resolved? && q.resolved.found && q.resolved.pool != "" && q.fetched.Fetched? && q.fetched.price != ""
  }

  /** The error says how far the call has come. */
  predicate Names(e: PriceError, q: Request) {
    match e
    case ResolveFailed => q.resolved.ResolverError?
    case NoPool => q.resolved.Resolved? && (!q.resolved.found || q.resolved.pool == "")
    case FetchFailed => q.resolved.Resolved? && q.resolved.found && q.resolved.pool != "" && q.fetched.FetchError?
    case EmptyPrice => q.resolved.Resolved? && q.resolved.found && q.resolved.pool != "" && q.fetched == Fetched("")
    case _ => false
  }

  /** An accepted call fails exactly when nothing new can be had and the latest price of
      its key is missing, or older than TTL at the first look and older than the stale
      window at the second. The error names the obstacle. */
  lemma FailsExactlyWhen(c: Config, qs: seq<Request>, q: Request)
    requires Rejection(c, q).None?
    ensures var reply := Answer(c, CacheAfter(c, qs), q);
            var known := Latest(c, qs, Key(q.chain, q.token));
            var ttl := if c.cacheTTL > 0 then c.cacheTTL else 5_000_000_000;
            var window := ttl * if c.staleMaxMultiplier > 0 then c.staleMaxMultiplier else 3;
            && (reply.result.Failure? <==>
                  !Obtainable(q) &&
                  (known.None? || (q.freshAt - known.value.fetchedAt > ttl
                                   && q.staleAt - known.value.fetchedAt > window)))
            && (reply.result.Failure? ==> Names(reply.result.error, q))
  {
    CacheIsLatest(c, qs, Key(q.chain, q.token));
  }

  /** The clock never runs backwards. */
  predicate Timely(qs: seq<Request>) {
    && (forall k :: 0 <= k < |qs| ==> qs[k].freshAt <= qs[k].staleAt && qs[k].freshAt <= qs[k].storeAt)
    && (forall k :: 1 <= k < |qs| ==> qs[k - 1].staleAt <= qs[k].freshAt && qs[k - 1].storeAt <= qs[k].freshAt)
  }

  predicate Spaced(c: Config, times: seq<int>) {
    forall k :: 1 <= k < |times| ==> times[k] - times[k - 1] > TTL(c)
  }

  /** The times at which a price was stored for the key. */
  function StoredAt(c: Config, qs: seq<Request>, key: string): seq<int> {
    if qs == [] then []
    else
      var front := qs[..|qs| - 1];
      StoredAt(c, front, key) +
      if Latest(c, qs, key) != Latest(c, front, key) then [qs[|qs| - 1].storeAt] else []
  }

  lemma {:induction false} LatestIsLastStored(c: Config, qs: seq<Request>, key: string)
    ensures Latest(c, qs, key).None? <==> StoredAt(c, qs, key) == []
    ensures Latest(c, qs, key).Some? ==>
              StoredAt(c, qs, key) != [] &&
              Latest(c, qs, key).value.fetchedAt == StoredAt(c, qs, key)[|StoredAt(c, qs, key)| - 1]
  {
    if qs != [] {
      LatestIsLastStored(c, qs[..|qs| - 1], key);
    }
  }

  /** The load on the RPC endpoint: a price stored for a key is stored more than TTL after the
      one before it. */
  lemma {:induction false} RefetchesAreSpaced(c: Config, qs: seq<Request>, key: string)
    requires Timely(qs)
    ensures Spaced(c, StoredAt(c, qs, key))
  {
    if qs != [] {
      RefetchesAreSpaced(c, qs[..|qs| - 1], key);
      LatestIsLastStored(c, qs[..|qs| - 1], key);
    }
  }
}
