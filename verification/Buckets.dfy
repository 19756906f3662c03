/** TokenBucketAlgorithm and LeakyBucketAlgorithm of packages/limit/src/strategies.ts over exact real arithmetic.

    The clock reading of each call is an argument. The two algorithms are run side by side on one request sequence:
    a token bucket's tokens are what a leaky bucket has left below its limit. */
module Buckets {
  import opened Common
  import opened RateLimit

  datatype TokenState = TokenState(tokens: real, lastRefill: real)
  datatype LeakState = LeakState(level: real, lastLeak: real)

  function Min(a: real, b: real): real { if a <= b then a else b }
  function Max(a: real, b: real): real { if a >= b then a else b }

  /** What accrues in dt milliseconds at limit per window. */
  function Accrued(limit: real, windowMs: real, dt: real): real
    requires windowMs != 0.0
  {
    dt / 1000.0 * (limit / (windowMs / 1000.0))
  }

  // ---------------------------------------------------------------- one call, per key

  function TokenStart(limit: real, now: real): TokenState { TokenState(limit, now) }
  function LeakStart(now: real): LeakState { LeakState(0.0, now) }

  function Refilled(b: TokenState, limit: real, windowMs: real, now: real): TokenState
    requires windowMs != 0.0
  {
    TokenState(Min(limit, b.tokens + Accrued(limit, windowMs, now - b.lastRefill)), now)
  }

  function Leaked(b: LeakState, limit: real, windowMs: real, now: real): LeakState
    requires windowMs != 0.0
  {
    LeakState(Max(0.0, b.level - Accrued(limit, windowMs, now - b.lastLeak)), now)
  }

  function TokenAllows(b: TokenState, cost: real): bool { b.tokens >= cost }
  function LeakAllows(b: LeakState, cost: real, limit: real): bool { b.level + cost <= limit }

  function TokenTake(b: TokenState, cost: real): TokenState {
    if TokenAllows(b, cost) then b.(tokens := b.tokens - cost) else b
  }

  function LeakTake(b: LeakState, cost: real, limit: real): LeakState {
    if LeakAllows(b, cost, limit) then b.(level := b.level + cost) else b
  }

  type TokenMap = map<string, TokenState>
  type LeakMap = map<string, LeakState>

  function TokenReady(buckets: TokenMap, key: string, limit: real, windowMs: real, now: real): TokenState
    requires windowMs != 0.0
  {
    Refilled(if key in buckets then buckets[key] else TokenStart(limit, now), limit, windowMs, now)
  }

  function LeakReady(buckets: LeakMap, key: string, limit: real, windowMs: real, now: real): LeakState
    requires windowMs != 0.0
  {
    Leaked(if key in buckets then buckets[key] else LeakStart(now), limit, windowMs, now)
  }

  // ---------------------------------------------------------------- the classes

  class TokenBucket {
    var buckets: TokenMap

    constructor ()
      ensures buckets == map[]
    {
      buckets := map[];
    }

    method Consume(key: string, cost: real, limit: real, windowMs: real, now: real) returns (r: Decision<real>)
      requires windowMs != 0.0
      modifies this
      ensures var ready := TokenReady(old(buckets), key, limit, windowMs, now); var after := TokenTake(ready, cost);
        && buckets == old(buckets)[key := after]
        && r == Decision(TokenAllows(ready, cost), Max(0.0, after.tokens.Floor as real),
                         limit - Max(0.0, after.tokens.Floor as real), now + windowMs)
    {
      var refillRate := limit / (windowMs / 1000.0);
      var resetTime := now + windowMs;
      var bucket := if key in buckets then buckets[key] else TokenState(limit, now);
      var timePassed := (now - bucket.lastRefill) / 1000.0;
      bucket := bucket.(tokens := Min(limit, bucket.tokens + timePassed * refillRate));
      bucket := bucket.(lastRefill := now);
      assert bucket == TokenReady(buckets, key, limit, windowMs, now);
      var allowed := bucket.tokens >= cost;
      if allowed {
        bucket := bucket.(tokens := bucket.tokens - cost);
      }
      buckets := buckets[key := bucket];
      var remaining := Max(0.0, bucket.tokens.Floor as real);
      r := Decision(allowed, remaining, limit - remaining, resetTime);
    }

    method Reset(key: string)
      modifies this
      ensures buckets == old(buckets) - {key}
    {
      buckets := buckets - {key};
    }
  }

  class LeakyBucket {
    var buckets: LeakMap

    constructor ()
      ensures buckets == map[]
    {
      buckets := map[];
    }

    method Consume(key: string, cost: real, limit: real, windowMs: real, now: real) returns (r: Decision<real>)
      requires windowMs != 0.0
      modifies this
      ensures var ready := LeakReady(old(buckets), key, limit, windowMs, now);
        var after := LeakTake(ready, cost, limit);
        && buckets == old(buckets)[key := after]
        && r == Decision(LeakAllows(ready, cost, limit), Max(0.0, limit - after.level),
                         limit - Max(0.0, limit - after.level), now + windowMs)
    {
      var leakRate := limit / (windowMs / 1000.0);
      var resetTime := now + windowMs;
      var bucket := if key in buckets then buckets[key] else LeakState(0.0, now);
      var timePassed := (now - bucket.lastLeak) / 1000.0;
      bucket := bucket.(level := Max(0.0, bucket.level - timePassed * leakRate));
      bucket := bucket.(lastLeak := now);
      assert bucket == LeakReady(buckets, key, limit, windowMs, now);
      var allowed := bucket.level + cost <= limit;
      if allowed {
        bucket := bucket.(level := bucket.level + cost);
      }
      buckets := buckets[key := bucket];
      var remaining := Max(0.0, limit - bucket.level);
      r := Decision(allowed, remaining, limit - remaining, resetTime);
    }

    method Reset(key: string)
      modifies this
      ensures buckets == old(buckets) - {key}
    {
      buckets := buckets - {key};
    }
  }

  // ---------------------------------------------------------------- request sequences

  datatype Call = Consume(key: string, cost: real, now: real) | Reset(key: string)

  /** The limit and window each key is called with. */
  datatype Policy = Policy(limit: string -> real, windowMs: string -> real)

  ghost predicate Sensible(policy: Policy) {
    forall k :: policy.windowMs(k) > 0.0
  }

  function TokenRun(policy: Policy, calls: seq<Call>, n: nat): TokenMap
    requires Sensible(policy) && n <= |calls|
  {
    if n == 0 then map[]
    else
      var before := TokenRun(policy, calls, n - 1);
      match calls[n - 1]
      case Consume(key, cost, now) =>
        before[key := TokenTake(TokenReady(before, key, policy.limit(key), policy.windowMs(key), now), cost)]
      case Reset(key) => before - {key}
  }

  function LeakRun(policy: Policy, calls: seq<Call>, n: nat): LeakMap
    requires Sensible(policy) && n <= |calls|
  {
    if n == 0 then map[]
    else
      var before := LeakRun(policy, calls, n - 1);
      match calls[n - 1]
      case Consume(key, cost, now) =>
        before[key := LeakTake(LeakReady(before, key, policy.limit(key), policy.windowMs(key), now), cost,
          policy.limit(key))]
      case Reset(key) => before - {key}
  }

  function TokenAdmits(policy: Policy, calls: seq<Call>, n: nat): bool
    requires Sensible(policy) && n < |calls|
  {
    calls[n].Consume? && var k := calls[n].key;
    TokenAllows(TokenReady(TokenRun(policy, calls, n), k, policy.limit(k), policy.windowMs(k), calls[n].now),
      calls[n].cost)
  }

  function LeakAdmits(policy: Policy, calls: seq<Call>, n: nat): bool
    requires Sensible(policy) && n < |calls|
  {
    calls[n].Consume? && var k := calls[n].key;
    LeakAllows(LeakReady(LeakRun(policy, calls, n), k, policy.limit(k), policy.windowMs(k), calls[n].now),
      calls[n].cost, policy.limit(k))
  }

  // ---------------------------------------------------------------- the two buckets are one

  ghost predicate Mirrored(t: TokenState, l: LeakState, limit: real) {
    t.tokens + l.level == limit && t.lastRefill == l.lastLeak
  }

  ghost predicate MirrorImages(policy: Policy, tokens: TokenMap, levels: LeakMap) {
    && tokens.Keys == levels.Keys
    && forall k :: k in tokens ==> Mirrored(tokens[k], levels[k], policy.limit(k))
  }

  /** After every prefix of any request sequence, whatever its costs and clock readings, each key has
      tokens + level = limit. */
  lemma {:induction false} SameState(policy: Policy, calls: seq<Call>, n: nat)
    requires Sensible(policy) && n <= |calls|
    ensures MirrorImages(policy, TokenRun(policy, calls, n), LeakRun(policy, calls, n))
  {
    if n == 0 {
    } else {
      SameState(policy, calls, n - 1);
    }
  }

  /** Both algorithms admit exactly the same requests. */
  lemma SameDecisions(policy: Policy, calls: seq<Call>, n: nat)
    requires Sensible(policy) && n < |calls|
    ensures TokenAdmits(policy, calls, n) <==> LeakAdmits(policy, calls, n)
  {
    SameState(policy, calls, n);
  }

  /** What the token bucket reports as remaining is the leaky bucket's remaining, rounded down. */
  lemma SameRemaining(t: TokenState, l: LeakState, limit: real)
    requires Mirrored(t, l, limit)
    ensures Max(0.0, t.tokens.Floor as real) == Max(0.0, limit - l.level).Floor as real
  {
    if t.tokens < 0.0 {
      assert t.tokens.Floor < 0;
    }
  }

  // ---------------------------------------------------------------- what is admitted in an interval

  predicate Consumes(c: Call, key: string) {
    c.Consume? && c.key == key
  }

  /** The cost admitted for key by the first n calls, counting those made in [s, t] and since the last reset of key. */
  function TokenAdmitted(policy: Policy, calls: seq<Call>, n: nat, key: string, s: real, t: real): real
    requires Sensible(policy) && n <= |calls|
  {
    if n == 0 || calls[n - 1] == Reset(key) then 0.0
    else
      TokenAdmitted(policy, calls, n - 1, key, s, t)
      + if TokenAdmits(policy, calls, n - 1) && calls[n - 1].key == key && s <= calls[n - 1].now <= t
        then calls[n - 1].cost else 0.0
  }

  function LeakAdmitted(policy: Policy, calls: seq<Call>, n: nat, key: string, s: real, t: real): real
    requires Sensible(policy) && n <= |calls|
  {
    if n == 0 || calls[n - 1] == Reset(key) then 0.0
    else
      LeakAdmitted(policy, calls, n - 1, key, s, t)
      + if LeakAdmits(policy, calls, n - 1) && calls[n - 1].key == key && s <= calls[n - 1].now <= t
        then calls[n - 1].cost else 0.0
  }

  lemma {:induction false} SameAdmitted(policy: Policy, calls: seq<Call>, n: nat, key: string, s: real, t: real)
    requires Sensible(policy) && n <= |calls|
    ensures TokenAdmitted(policy, calls, n, key, s, t) == LeakAdmitted(policy, calls, n, key, s, t)
  {
    if n == 0 {
    } else {
      SameAdmitted(policy, calls, n - 1, key, s, t);
      SameDecisions(policy, calls, n - 1);
    }
  }

  /** The calls for key have nonnegative costs and come in the order of the clock. */
  ghost predicate Orderly(calls: seq<Call>, key: string) {
    && (forall i :: 0 <= i < |calls| && Consumes(calls[i], key) ==> calls[i].cost >= 0.0)
    && (forall i, j :: 0 <= i < j < |calls| && Consumes(calls[i], key) && Consumes(calls[j], key)
                ==> calls[i].now <= calls[j].now)
  }

  lemma AccruedGrows(limit: real, windowMs: real, dt: real)
    requires windowMs > 0.0 && limit >= 0.0 && dt >= 0.0
    ensures Accrued(limit, windowMs, dt) >= 0.0
  {
    assert limit / (windowMs / 1000.0) >= 0.0;
  }

  /** In dt milliseconds limit * dt / windowMs accrues. */
  lemma AccruedIs(limit: real, windowMs: real, dt: real)
    requires windowMs > 0.0
    ensures Accrued(limit, windowMs, dt) == limit * dt / windowMs
  {
    var r := limit / (windowMs / 1000.0);
    assert r * (windowMs / 1000.0) == limit;
    assert dt / 1000.0 * r * windowMs == limit * dt;
  }

  /** The bucket b (None before the first call), once `admitted` has been admitted since s: it holds no more than
      the limit and what has accrued since s, less what was admitted. */
  ghost predicate Holds(b: Option<TokenState>, limit: real, windowMs: real, s: real, admitted: real)
    requires windowMs > 0.0
  {
    match b
    case None => admitted == 0.0
    case Some(st) =>
      && 0.0 <= st.tokens <= limit
      && (st.lastRefill < s ==> admitted == 0.0)
      && (st.lastRefill >= s ==> admitted + st.tokens <= limit + Accrued(limit, windowMs, st.lastRefill - s))
  }

  function Bucket(buckets: TokenMap, key: string): Option<TokenState> {
    if key in buckets then Some(buckets[key]) else None
  }

  lemma HoldsRefilled(b: Option<TokenState>, limit: real, windowMs: real, s: real, admitted: real, now: real)
    requires windowMs > 0.0 && limit >= 0.0 && Holds(b, limit, windowMs, s, admitted)
    requires b.Some? ==> b.value.lastRefill <= now
    ensures var before := if b.Some? then b.value else TokenStart(limit, now);
      Holds(Some(Refilled(before, limit, windowMs, now)), limit, windowMs, s, admitted)
  {
    if b.Some? {
      AccruedGrows(limit, windowMs, now - b.value.lastRefill);
    } else {
      AccruedGrows(limit, windowMs, 0.0);
    }
    if now >= s {
      AccruedGrows(limit, windowMs, now - s);
    }
  }

  lemma {:induction false} RefillTime(policy: Policy, calls: seq<Call>, n: nat, key: string)
    requires Sensible(policy) && n <= |calls|
    ensures var run := TokenRun(policy, calls, n);
      key in run ==>
        exists i :: 0 <= i < n && Consumes(calls[i], key) && calls[i].now == run[key].lastRefill
  {
    if n == 0 {
    } else {
      RefillTime(policy, calls, n - 1, key);
    }
  }

  lemma {:induction false} HoldsRun(policy: Policy, calls: seq<Call>, n: nat, key: string, s: real, t: real)
    requires Sensible(policy) && n <= |calls| && Orderly(calls, key) && policy.limit(key) >= 0.0
    requires forall i :: 0 <= i < n && Consumes(calls[i], key) ==> calls[i].now <= t
    ensures Holds(Bucket(TokenRun(policy, calls, n), key), policy.limit(key), policy.windowMs(key), s,
                  TokenAdmitted(policy, calls, n, key, s, t))
  {
    if n == 0 {
    } else {
      HoldsRun(policy, calls, n - 1, key, s, t);
      var c, before := calls[n - 1], TokenRun(policy, calls, n - 1);
      if Consumes(c, key) {
        RefillTime(policy, calls, n - 1, key);
        var admitted := TokenAdmitted(policy, calls, n - 1, key, s, t);
        HoldsRefilled(Bucket(before, key), policy.limit(key), policy.windowMs(key), s, admitted, c.now);
      }
    }
  }

  lemma HoldsBound(b: Option<TokenState>, limit: real, windowMs: real, s: real, t: real, admitted: real)
    requires windowMs > 0.0 && limit >= 0.0 && s <= t && Holds(b, limit, windowMs, s, admitted)
    requires b.Some? ==> b.value.lastRefill <= t
    ensures admitted <= limit + Accrued(limit, windowMs, t - s)
  {
    AccruedGrows(limit, windowMs, t - s);
    if b.Some? && b.value.lastRefill >= s {
      AccruedGrows(limit, windowMs, t - b.value.lastRefill);
    }
  }

  lemma {:induction false} AccruedBound(policy: Policy, calls: seq<Call>, n: nat, key: string, s: real, t: real)
    requires Sensible(policy) && n <= |calls| && Orderly(calls, key) && policy.limit(key) >= 0.0 && s <= t
    ensures TokenAdmitted(policy, calls, n, key, s, t) <= policy.limit(key) + Accrued(policy.limit(key),
      policy.windowMs(key), t - s)
  {
    if n == 0 || calls[n - 1] == Reset(key) {
      AccruedGrows(policy.limit(key), policy.windowMs(key), t - s);
    } else if !(Consumes(calls[n - 1], key) && calls[n - 1].now <= t) {
      AccruedBound(policy, calls, n - 1, key, s, t);
    } else {
      HoldsRun(policy, calls, n, key, s, t);
      RefillTime(policy, calls, n, key);
      HoldsBound(Bucket(TokenRun(policy, calls, n), key), policy.limit(key), policy.windowMs(key), s, t,
                 TokenAdmitted(policy, calls, n, key, s, t));
    }
  }

  // ---------------------------------------------------------------- the exact decision

  lemma AccruedAdds(limit: real, windowMs: real, a: real, b: real)
    requires windowMs > 0.0
    ensures Accrued(limit, windowMs, a) + Accrued(limit, windowMs, b) == Accrued(limit, windowMs, a + b)
  {
    AccruedIs(limit, windowMs, a);
    AccruedIs(limit, windowMs, b);
    AccruedIs(limit, windowMs, a + b);
    QuotientAdds(limit * a, limit * b, windowMs);
    assert limit * (a + b) == limit * a + limit * b;
  }

  lemma QuotientAdds(x: real, y: real, z: real)
    requires z > 0.0
    ensures x / z + y / z == (x + y) / z
  {
  }

  /** One of the calls for key, at time s, left the bucket, now last refilled at time u, with exactly the limit and what
      has accrued since s less what has been admitted since s. */
  ghost predicate TightSince(policy: Policy, calls: seq<Call>, n: nat, key: string, i: nat, u: real)
    requires Sensible(policy) && n <= |calls| && key in TokenRun(policy, calls, n)
  {
    && i < n && Consumes(calls[i], key) && calls[i].now <= u
    && TokenRun(policy, calls, n)[key].lastRefill == u
    && TokenRun(policy, calls, n)[key].tokens
       == policy.limit(key) + Accrued(policy.limit(key), policy.windowMs(key), u - calls[i].now)
          - TokenAdmitted(policy, calls, n, key, calls[i].now, u)
  }

  lemma {:induction false} AdmittedUntil(
      policy: Policy, calls: seq<Call>, n: nat, key: string, s: real, t: real, u: real)
    requires Sensible(policy) && n <= |calls|
    requires forall i :: 0 <= i < n && Consumes(calls[i], key)
                ==> calls[i].now <= t && calls[i].now <= u
    ensures TokenAdmitted(policy, calls, n, key, s, t) == TokenAdmitted(policy, calls, n, key, s, u)
  {
    if n == 0 {
    } else {
      AdmittedUntil(policy, calls, n - 1, key, s, t, u);
    }
  }

  lemma {:induction false} AdmittedNonNegative(policy: Policy, calls: seq<Call>, n: nat, key: string, s: real, t: real)
    requires Sensible(policy) && n <= |calls| && Orderly(calls, key)
    ensures TokenAdmitted(policy, calls, n, key, s, t) >= 0.0
  {
    if n == 0 {
    } else {
      AdmittedNonNegative(policy, calls, n - 1, key, s, t);
    }
  }

  /** What call n, a consume for key, finds in its bucket. */
  function Found(policy: Policy, calls: seq<Call>, n: nat): real
    requires Sensible(policy) && n < |calls| && calls[n].Consume?
  {
    var k := calls[n].key;
    TokenReady(TokenRun(policy, calls, n), k, policy.limit(k), policy.windowMs(k), calls[n].now).tokens
  }

  /** The room left at call n by what has been admitted since s. */
  function RoomSince(policy: Policy, calls: seq<Call>, n: nat, s: real): real
    requires Sensible(policy) && n < |calls| && calls[n].Consume?
  {
    var c := calls[n];
    policy.limit(c.key) + Accrued(policy.limit(c.key), policy.windowMs(c.key), c.now - s)
    - TokenAdmitted(policy, calls, n, c.key, s, c.now)
  }

  /** The bucket never holds more than the room since any earlier time. */
  lemma FoundAtMost(policy: Policy, calls: seq<Call>, n: nat, s: real)
    requires Sensible(policy) && n < |calls| && calls[n].Consume? && Orderly(calls, calls[n].key)
    requires policy.limit(calls[n].key) >= 0.0 && s <= calls[n].now
    ensures Found(policy, calls, n) <= RoomSince(policy, calls, n, s)
  {
    var c := calls[n];
    var limit, w := policy.limit(c.key), policy.windowMs(c.key);
    HoldsRun(policy, calls, n, c.key, s, c.now);
    RefillTime(policy, calls, n, c.key);
    HoldsRefilled(Bucket(TokenRun(policy, calls, n), c.key), limit, w, s, TokenAdmitted(policy, calls, n, c.key, s,
      c.now), c.now);
  }

  /** An earlier call for the same key as call n. */
  ghost predicate Earlier(calls: seq<Call>, n: nat, i: nat)
    requires n < |calls|
  {
    i < n && Consumes(calls[i], calls[n].key)
  }

  /** It holds exactly the room since now, or since some earlier call for the key. */
  lemma FoundIs(policy: Policy, calls: seq<Call>, n: nat) returns (i: int)
    requires Sensible(policy) && n < |calls| && calls[n].Consume? && Orderly(calls, calls[n].key)
    requires policy.limit(calls[n].key) >= 0.0
    ensures i < 0 ==> Found(policy, calls, n) == RoomSince(policy, calls, n, calls[n].now)
    ensures i >= 0 ==> Earlier(calls, n, i) && Found(policy, calls, n) == RoomSince(policy, calls, n, calls[i].now)
    decreases n, 1
  {
    var c, run := calls[n], TokenRun(policy, calls, n);
    var limit, w := policy.limit(c.key), policy.windowMs(c.key);
    i := -1;
    AccruedIs(limit, w, 0.0);
    if c.key in run {
      var j := Tight(policy, calls, n, c.key);
      var u := run[c.key].lastRefill;
      LastCall(policy, calls, n, c.key);
      AdmittedUntil(policy, calls, n, c.key, calls[j].now, u, c.now);
      AccruedAdds(limit, w, u - calls[j].now, c.now - u);
      if Found(policy, calls, n) < limit {
        i := j;
      } else {
        FoundAtMost(policy, calls, n, c.now);
        AdmittedNonNegative(policy, calls, n, c.key, c.now, c.now);
      }
    } else {
      NothingAdmitted(policy, calls, n, c.key, c.now, c.now);
    }
  }

  lemma {:induction false} NothingAdmitted(policy: Policy, calls: seq<Call>, n: nat, key: string, s: real, t: real)
    requires Sensible(policy) && n <= |calls| && Orderly(calls, key) && key !in TokenRun(policy, calls, n)
    ensures TokenAdmitted(policy, calls, n, key, s, t) == 0.0
  {
    if n == 0 || calls[n - 1] == Reset(key) {
    } else {
      NothingAdmitted(policy, calls, n - 1, key, s, t);
    }
  }

  /** The bucket was last refilled at the last call for its key. */
  lemma {:induction false} LastCall(policy: Policy, calls: seq<Call>, n: nat, key: string)
    requires Sensible(policy) && n <= |calls| && Orderly(calls, key) && key in TokenRun(policy, calls, n)
    ensures forall i :: 0 <= i < n && Consumes(calls[i], key)
              ==> calls[i].now <= TokenRun(policy, calls, n)[key].lastRefill
    ensures n < |calls| && Consumes(calls[n], key) ==> TokenRun(policy, calls, n)[key].lastRefill <= calls[n].now
  {
    RefillTime(policy, calls, n, key);
    if n > 0 && !Consumes(calls[n - 1], key) {
      LastCall(policy, calls, n - 1, key);
    }
  }

  lemma Tight(policy: Policy, calls: seq<Call>, n: nat, key: string) returns (i: nat)
    requires Sensible(policy) && n <= |calls| && Orderly(calls, key) && policy.limit(key) >= 0.0
    requires key in TokenRun(policy, calls, n)
    ensures TightSince(policy, calls, n, key, i, TokenRun(policy, calls, n)[key].lastRefill)
    decreases n, 0
  {
    var p := n - 1;
    if Consumes(calls[p], key) {
      i := TightAfter(policy, calls, p);
    } else {
      i := Tight(policy, calls, p, key);
    }
  }

  lemma TightAfter(policy: Policy, calls: seq<Call>, p: nat) returns (i: nat)
    requires Sensible(policy) && p < |calls| && calls[p].Consume? && Orderly(calls, calls[p].key)
    requires policy.limit(calls[p].key) >= 0.0
    ensures TightSince(policy, calls, p + 1, calls[p].key, i, calls[p].now)
    decreases p, 2
  {
    var j := FoundIs(policy, calls, p);
    i := if j < 0 then p else j;
    assert calls[i].now <= calls[p].now;
  }

  /** Call n, of this cost, fits into what may be admitted since s. */
  ghost predicate Fits(policy: Policy, calls: seq<Call>, n: nat, s: real)
    requires Sensible(policy) && n < |calls| && calls[n].Consume?
  {
    var c := calls[n];
    TokenAdmitted(policy, calls, n, c.key, s, c.now) + c.cost
    <= policy.limit(c.key) + policy.limit(c.key) * (c.now - s) / policy.windowMs(c.key)
  }

  lemma FitsArith(admitted: real, cost: real, limit: real, windowMs: real, dt: real)
    requires windowMs > 0.0
    ensures admitted + cost <= limit + limit * dt / windowMs
        <==> cost <= limit + Accrued(limit, windowMs, dt) - admitted
  {
    AccruedIs(limit, windowMs, dt);
  }

  lemma FitsIs(policy: Policy, calls: seq<Call>, n: nat, s: real)
    requires Sensible(policy) && n < |calls| && calls[n].Consume?
    ensures Fits(policy, calls, n, s) <==> calls[n].cost <= RoomSince(policy, calls, n, s)
  {
    var c := calls[n];
    FitsArith(TokenAdmitted(policy, calls, n, c.key, s, c.now), c.cost, policy.limit(c.key), policy.windowMs(c.key),
      c.now - s);
  }

  /** Exactly when a token bucket admits a call: what was admitted since s, together with its cost, is at most limit +
      limit * (now - s) / windowMs, for now itself and for the time s of every earlier call for the key. */
  lemma TokenDecision(policy: Policy, calls: seq<Call>, n: nat)
    requires Sensible(policy) && n < |calls| && calls[n].Consume? && Orderly(calls, calls[n].key)
    requires policy.limit(calls[n].key) >= 0.0
    ensures TokenAdmits(policy, calls, n)
        <==> && Fits(policy, calls, n, calls[n].now)
             && forall i: nat :: Earlier(calls, n, i) ==> Fits(policy, calls, n, calls[i].now)
  {
    var j := FoundIs(policy, calls, n);
    FitsIs(policy, calls, n, calls[n].now);
    FoundAtMost(policy, calls, n, calls[n].now);
    forall i: nat | Earlier(calls, n, i)
      ensures Fits(policy, calls, n, calls[i].now) <==> calls[n].cost <= RoomSince(policy, calls, n, calls[i].now)
      ensures Found(policy, calls, n) <= RoomSince(policy, calls, n, calls[i].now)
    {
      FitsIs(policy, calls, n, calls[i].now);
      FoundAtMost(policy, calls, n, calls[i].now);
    }
    assert TokenAdmits(policy, calls, n) <==> calls[n].cost <= Found(policy, calls, n);
  }

  /** A leaky bucket decides by the same rule. */
  lemma LeakDecision(policy: Policy, calls: seq<Call>, n: nat)
    requires Sensible(policy) && n < |calls| && calls[n].Consume? && Orderly(calls, calls[n].key)
    requires policy.limit(calls[n].key) >= 0.0
    ensures LeakAdmits(policy, calls, n)
        <==> && Fits(policy, calls, n, calls[n].now)
             && forall i: nat :: Earlier(calls, n, i) ==> Fits(policy, calls, n, calls[i].now)
  {
    SameDecisions(policy, calls, n);
    TokenDecision(policy, calls, n);
  }

  // ---------------------------------------------------------------- the bound in plain terms

  lemma BoundIs(admitted: real, limit: real, windowMs: real, dt: real)
    requires windowMs > 0.0 && admitted <= limit + Accrued(limit, windowMs, dt)
    ensures admitted <= limit + limit * dt / windowMs
  {
    AccruedIs(limit, windowMs, dt);
  }

  /** In every interval [s, t] a token bucket admits at most limit + limit * (t - s) / windowMs. */
  lemma TokenBound(policy: Policy, calls: seq<Call>, n: nat, key: string, s: real, t: real,
                                      limit: real, windowMs: real, dt: real)
    requires Sensible(policy) && n <= |calls| && Orderly(calls, key) && s <= t
    requires limit == policy.limit(key) >= 0.0 && windowMs == policy.windowMs(key) && dt == t - s
    ensures TokenAdmitted(policy, calls, n, key, s, t) <= limit + limit * dt / windowMs
  {
    AccruedBound(policy, calls, n, key, s, t);
    BoundIs(TokenAdmitted(policy, calls, n, key, s, t), limit, windowMs, dt);
  }

  /** And so does a leaky bucket. */
  lemma LeakBound(policy: Policy, calls: seq<Call>, n: nat, key: string, s: real, t: real,
                                     limit: real, windowMs: real, dt: real)
    requires Sensible(policy) && n <= |calls| && Orderly(calls, key) && s <= t
    requires limit == policy.limit(key) >= 0.0 && windowMs == policy.windowMs(key) && dt == t - s
    ensures LeakAdmitted(policy, calls, n, key, s, t) <= limit + limit * dt / windowMs
  {
    SameAdmitted(policy, calls, n, key, s, t);
    TokenBound(policy, calls, n, key, s, t, limit, windowMs, dt);
  }
}
