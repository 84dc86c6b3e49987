/** In-process token buckets, kept per key in a bounded least-recently-used cache. Times are in
    seconds and, like token amounts, real numbers. */
module TokenBucket {

  datatype Bucket = Bucket(tokens: real, last: real)

  /** `rate` tokens per second up to `burst`; at most `capacity` keys are remembered. */
  datatype Config = Config(rate: real, burst: nat, capacity: nat)

  predicate ValidConfig(cfg: Config) { cfg.rate > 0.0 && cfg.burst >= 1 && cfg.capacity >= 1 }

  function Min(a: real, b: real): real { if a < b then a else b }

  /** What trickles in during `dt`; a clock that went back counts as no time passed. */
  function Grown(cfg: Config, dt: real): real {
    if dt > 0.0 then dt * cfg.rate else 0.0
  }

  /** Tokens available at `now`. */
  function Available(cfg: Config, b: Bucket, now: real): real {
    Min(cfg.burst as real, b.tokens + Grown(cfg, now - b.last))
  }

  lemma GrownIsNotNegative(cfg: Config, dt: real)
    requires ValidConfig(cfg)
    ensures Grown(cfg, dt) >= 0.0
  {
  }

  lemma GrownAdds(cfg: Config, a: real, b: real, sum: real)
    requires ValidConfig(cfg) && a >= 0.0 && b >= 0.0 && sum == a + b
    ensures Grown(cfg, sum) == Grown(cfg, a) + Grown(cfg, b)
  {
    Distribute(a, b, cfg.rate);
  }

  /** Allow: takes a whole token, or leaves the bucket as it was. */
  function Take(cfg: Config, b: Bucket, now: real): (Bucket, bool) {
    var tokens := Available(cfg, b, now);
    if tokens >= 1.0 then (Bucket(tokens - 1.0, now), true) else (b, false)
  }

  /** The buckets by key, and the keys from most to least recently used. */
  datatype Cache = Cache(buckets: map<string, Bucket>, order: seq<string>)

  function Without(order: seq<string>, key: string): (r: seq<string>)
    ensures key !in r && forall k :: k in r <==> k in order && k != key
    ensures |r| <= |order| && (key in order ==> |r| < |order|)
  {
    if order == [] then [] else
      assert order == [order[0]] + order[1..];
      if order[0] == key then Without(order[1..], key) else [order[0]] + Without(order[1..], key)
  }

  /** The key moved or added to the front. */
  function Touch(cache: Cache, key: string): seq<string> { [key] + Without(cache.order, key) }

  /** The bucket for `key`: the remembered one, or a new full one. */
  function BucketFor(cfg: Config, cache: Cache, key: string, now: real): Bucket {
    if key in cache.buckets then cache.buckets[key] else Bucket(cfg.burst as real, now)
  }

  /** The key that adding `key` pushes out, if the cache is full. */
  function Evicted(cfg: Config, cache: Cache, key: string): set<string> {
    var order := Touch(cache, key);
    if key !in cache.buckets && |order| > cfg.capacity then {order[|order| - 1]} else {}
  }

  /** One request: look up or create the bucket, evict if over capacity, try to take a token. */
  function Request(cfg: Config, cache: Cache, key: string, now: real): (Cache, bool) {
    var order := Touch(cache, key);
    var (bucket, ok) := Take(cfg, BucketFor(cfg, cache, key, now), now);
    var gone := Evicted(cfg, cache, key);
    (Cache(cache.buckets[key := bucket] - gone, if gone == {} then order else Without(order, order[|order| - 1])), ok)
  }

  /** Buckets hold between zero and `burst` tokens and were last used no later than `now`. */
  ghost predicate Valid(cfg: Config, cache: Cache, now: real) {
    && (forall k :: k in cache.buckets <==> k in cache.order)
    && |cache.order| <= cfg.capacity
    && (forall k :: k in cache.buckets ==>
          0.0 <= cache.buckets[k].tokens <= cfg.burst as real && cache.buckets[k].last <= now)
  }

  lemma EvictionSparesTheUser(cfg: Config, cache: Cache, key: string)
    requires ValidConfig(cfg)
    ensures key !in Evicted(cfg, cache, key)
  {
    var order := Touch(cache, key);
    var rest := Without(cache.order, key);
    if |order| > cfg.capacity {
      assert order[|order| - 1] == rest[|rest| - 1];
      assert rest[|rest| - 1] in rest;
    }
  }

  /** A request of one key leaves every other key's bucket alone, or drops it. */
  lemma OthersKeepTheirBuckets(cfg: Config, cache: Cache, key: string, now: real, other: string)
    requires other != key && other in Request(cfg, cache, key, now).0.buckets
    ensures other in cache.buckets && Request(cfg, cache, key, now).0.buckets[other] == cache.buckets[other]
  {
  }

  lemma OrderStaysRight(cfg: Config, cache: Cache, key: string, now: real)
    requires (forall k :: k in cache.buckets <==> k in cache.order) && |cache.order| <= cfg.capacity
    ensures
      var cache' := Request(cfg, cache, key, now).0;
      (forall k :: k in cache'.buckets <==> k in cache'.order) && |cache'.order| <= cfg.capacity
  {
    var order := Touch(cache, key);
    assert forall k :: k in order <==> k in cache.order || k == key;
    assert key in cache.order ==> |order| <= |cache.order|;
  }

  lemma RequestKeepsValid(cfg: Config, cache: Cache, key: string, before: real, now: real)
    requires ValidConfig(cfg) && Valid(cfg, cache, before) && before <= now
    ensures Valid(cfg, Request(cfg, cache, key, now).0, now)
  {
    OrderStaysRight(cfg, cache, key, now);
    var cache' := Request(cfg, cache, key, now).0;
    var b := BucketFor(cfg, cache, key, now);
    assert 0.0 <= b.tokens <= cfg.burst as real && b.last <= now;
    forall k | k in cache'.buckets
      ensures 0.0 <= cache'.buckets[k].tokens <= cfg.burst as real && cache'.buckets[k].last <= now
    {
      if k != key {
        OthersKeepTheirBuckets(cfg, cache, key, now, k);
      } else {
        TakeKeepsBounds(cfg, b, now);
      }
    }
  }

  lemma TakeKeepsBounds(cfg: Config, b: Bucket, now: real)
    requires ValidConfig(cfg) && 0.0 <= b.tokens <= cfg.burst as real && b.last <= now
    ensures 0.0 <= Take(cfg, b, now).0.tokens <= cfg.burst as real && Take(cfg, b, now).0.last <= now
  {
  }

  // ----- runs

  datatype Hit = Hit(key: string, at: real)

  /** The cache after a run of requests. */
  function After(cfg: Config, cache: Cache, reqs: seq<Hit>): Cache {
    if reqs == [] then cache
    else Request(cfg, After(cfg, cache, reqs[..|reqs| - 1]), reqs[|reqs| - 1].key, reqs[|reqs| - 1].at).0
  }

  /** Times never go back and lie between the two bounds. */
  ghost predicate Timed(reqs: seq<Hit>, from: real, to: real) {
    && from <= to
    && (forall i :: 0 <= i < |reqs| ==> from <= reqs[i].at <= to)
    && (forall i, j :: 0 <= i < j < |reqs| ==> reqs[i].at <= reqs[j].at)
  }

  lemma TimedPrefix(reqs: seq<Hit>, from: real, to: real)
    requires Timed(reqs, from, to) && reqs != []
    ensures Timed(reqs[..|reqs| - 1], from, reqs[|reqs| - 1].at)
  {
  }

  lemma {:induction false} RunKeepsValid(cfg: Config, cache: Cache, reqs: seq<Hit>, from: real, to: real)
    requires ValidConfig(cfg) && Valid(cfg, cache, from) && Timed(reqs, from, to)
    ensures Valid(cfg, After(cfg, cache, reqs), to)
  {
    if reqs == [] {
    } else {
      var last := reqs[|reqs| - 1];
      TimedPrefix(reqs, from, to);
      RunKeepsValid(cfg, cache, reqs[..|reqs| - 1], from, last.at);
      RequestKeepsValid(cfg, After(cfg, cache, reqs[..|reqs| - 1]), last.key, last.at, last.at);
    }
  }

  // ----- Retry-After

  /** validateUserRateLimit accepts the pair and the limiter is enabled. */
  predicate Enabled(perMin: int, burst: int) { perMin > 0 && burst > 0 }

  function UserConfig(perMin: int, burst: int, capacity: nat): Config
    requires Enabled(perMin, burst)
  {
    Config(perMin as real / 60.0, burst, capacity)
  }

  function CeilDiv(a: nat, b: nat): nat
    requires b > 0
  {
    (a + b - 1) / b
  }

  /** The header value, in whole seconds. */
  function RetryAfter(perMin: int): nat
    requires perMin > 0
  {
    var seconds := CeilDiv(60, perMin);
    if seconds > 1 then seconds else 1
  }

  lemma {:induction false} OthersDoNotSpend(cfg: Config, cache: Cache, reqs: seq<Hit>, key: string)
    requires forall i :: 0 <= i < |reqs| ==> reqs[i].key != key
    ensures key in After(cfg, cache, reqs).buckets ==>
      key in cache.buckets && After(cfg, cache, reqs).buckets[key] == cache.buckets[key]
  {
    if reqs == [] {
    } else {
      OthersDoNotSpend(cfg, cache, reqs[..|reqs| - 1], key);
      var last := reqs[|reqs| - 1];
      if key in After(cfg, cache, reqs).buckets {
        OthersKeepTheirBuckets(cfg, After(cfg, cache, reqs[..|reqs| - 1]), last.key, last.at, key);
      }
    }
  }

  const EMPTY := Cache(map[], [])

  /** A denial with its history and aftermath: `prior` leads to the cache, `key` is denied at `t`, and
      then only other keys send (`others`) until `t'`. */
  ghost predicate DeniedThenQuiet(cfg: Config, from: real, prior: seq<Hit>, key: string, t: real, others: seq<Hit>,
      t': real)
  {
    && Timed(prior, from, t) && !Request(cfg, After(cfg, EMPTY, prior), key, t).1
    && Timed(others, t, t') && forall i :: 0 <= i < |others| ==> others[i].key != key
  }

  /** Whether `key` is admitted at `t'` after that. */
  function Retried(cfg: Config, prior: seq<Hit>, key: string, t: real, others: seq<Hit>, t': real): bool {
    Request(cfg, After(cfg, Request(cfg, After(cfg, EMPTY, prior), key, t).0, others), key, t').1
  }

  /** `k` seconds are an honest promise: a user denied at any time who then sends nothing for at least
      that long is admitted, whatever the other users did and whether or not the bucket was evicted. */
  ghost predicate HonestPromise(cfg: Config, k: nat) {
    forall from, prior, key, t, others, t' ::
      DeniedThenQuiet(cfg, from, prior, key, t, others, t') && t' >= t + k as real ==>
        Retried(cfg, prior, key, t, others, t')
  }

  lemma Refilled(cfg: Config, b: Bucket, t': real, dt: real)
    requires ValidConfig(cfg) && dt >= 0.0 && Refills(cfg, dt) && b.tokens >= 0.0 && t' >= b.last + dt
    ensures Available(cfg, b, t') >= 1.0
  {
    var more := t' - b.last - dt;
    GrownIsNotNegative(cfg, more);
    GrownAdds(cfg, dt, more, t' - b.last);
    assert Grown(cfg, dt) >= 1.0;
    assert cfg.burst as real >= 1.0;
  }

  lemma EnoughTimeRefills(cfg: Config, from: real, prior: seq<Hit>, key: string, t: real, others: seq<Hit>, t': real,
      k: nat)
    requires ValidConfig(cfg) && Refills(cfg, k as real)
    requires DeniedThenQuiet(cfg, from, prior, key, t, others, t') && t' >= t + k as real
    ensures Retried(cfg, prior, key, t, others, t')
  {
    var cache := After(cfg, EMPTY, prior);
    RunKeepsValid(cfg, EMPTY, prior, from, t);
    var denied := Request(cfg, cache, key, t).0;
    RequestKeepsValid(cfg, cache, key, t, t);
    OthersDoNotSpend(cfg, denied, others, key);
    var cache' := After(cfg, denied, others);
    if key in cache'.buckets {
      Refilled(cfg, cache'.buckets[key], t', k as real);
    }
  }

  lemma Times(a: nat, b: nat, n: nat)
    requires a <= b
    ensures a * n <= b * n
  {
    assert b * n == a * n + (b - a) * n;
  }

  /** The ceiling of 60 / perMin is the least k with k * perMin >= 60. */
  lemma CeilingCovers(perMin: int, k: nat)
    requires perMin > 0
    ensures k >= RetryAfter(perMin) <==> k * perMin >= 60
  {
    var q := CeilDiv(60, perMin);
    var r := (59 + perMin) % perMin;
    assert 59 + perMin == q * perMin + r && 0 <= r < perMin;
    if k >= q {
      Times(q, k, perMin);
    } else {
      Times(k, q - 1, perMin);
    }
  }

  /** A whole token trickles in within `dt` seconds. */
  predicate Refills(cfg: Config, dt: real) { dt * cfg.rate >= 1.0 }

  lemma RateTimes(perMin: int, burst: int, capacity: nat, k: nat)
    requires Enabled(perMin, burst)
    ensures Refills(UserConfig(perMin, burst, capacity), k as real) <==> k * perMin >= 60
  {
    assert k as real * (perMin as real / 60.0) == (k * perMin) as real / 60.0;
  }

  /** The cache in which one user has `left` tokens, all requests having come at time zero. */
  function Only(left: nat): Cache { Cache(map["u" := Bucket(left as real, 0.0)], ["u"]) }

  function Hits(n: nat): seq<Hit> { seq(n, _ => Hit("u", 0.0)) }

  lemma SpendOne(cfg: Config, left: nat)
    requires ValidConfig(cfg) && 1 <= left <= cfg.burst
    ensures Request(cfg, Only(left), "u", 0.0) == (Only(left - 1), true)
  {
    assert Evicted(cfg, Only(left), "u") == {};
    assert Touch(Only(left), "u") == ["u"];
    assert Available(cfg, Bucket(left as real, 0.0), 0.0) == left as real;
    assert Request(cfg, Only(left), "u", 0.0).0.buckets == Only(left - 1).buckets;
  }

  lemma FirstSpend(cfg: Config)
    requires ValidConfig(cfg)
    ensures Request(cfg, EMPTY, "u", 0.0).0 == Only(cfg.burst - 1)
  {
    assert Evicted(cfg, EMPTY, "u") == {};
    assert Touch(EMPTY, "u") == ["u"];
  }

  lemma {:induction false} Spend(cfg: Config, n: nat)
    requires ValidConfig(cfg) && 1 <= n <= cfg.burst
    ensures After(cfg, EMPTY, Hits(n)) == Only(cfg.burst - n)
  {
    assert Hits(n)[..n - 1] == Hits(n - 1);
    if n == 1 {
      FirstSpend(cfg);
      assert After(cfg, EMPTY, Hits(0)) == EMPTY;
    } else {
      Spend(cfg, n - 1);
      SpendOne(cfg, cfg.burst - n + 1);
    }
  }

  /** A denied request of the only user changes nothing. */
  lemma DrainedStaysDrained(cfg: Config)
    requires ValidConfig(cfg)
    ensures Request(cfg, Only(0), "u", 0.0) == (Only(0), false)
  {
    assert Evicted(cfg, Only(0), "u") == {};
    assert Touch(Only(0), "u") == ["u"];
    assert Request(cfg, Only(0), "u", 0.0).0.buckets == Only(0).buckets;
  }

  lemma TooEarly(cfg: Config, dt: real)
    requires dt >= 0.0 && !Refills(cfg, dt)
    ensures Available(cfg, Bucket(0.0, 0.0), dt) < 1.0
  {
    assert dt - 0.0 == dt;
    assert Grown(cfg, dt) < 1.0;
  }

  /** A drained bucket denies until its first whole token has trickled in. */
  lemma DrainedDeniesAt(cfg: Config, dt: real)
    requires ValidConfig(cfg) && dt >= 0.0 && !Refills(cfg, dt)
    ensures !Request(cfg, Only(0), "u", dt).1
  {
    TooEarly(cfg, dt);
    assert BucketFor(cfg, Only(0), "u", dt) == Bucket(0.0, 0.0);
  }

  lemma EarlyPromisesBreak(cfg: Config, k: nat, dt: real)
    requires ValidConfig(cfg) && dt == k as real && !Refills(cfg, dt)
    ensures !HonestPromise(cfg, k)
  {
    var prior, none: seq<Hit> := Hits(cfg.burst), [];
    Spend(cfg, cfg.burst);
    DrainedStaysDrained(cfg);
    DrainedDeniesAt(cfg, dt);
    assert Timed(prior, 0.0, 0.0) && Timed(none, 0.0, dt);
    assert DeniedThenQuiet(cfg, 0.0, prior, "u", 0.0, none, dt);
    assert !Retried(cfg, prior, "u", 0.0, none, dt);
  }

  lemma LatePromisesHold(cfg: Config, k: nat)
    requires ValidConfig(cfg) && Refills(cfg, k as real)
    ensures HonestPromise(cfg, k)
  {
    forall from, prior, key, t, others, t' | DeniedThenQuiet(cfg, from, prior, key, t, others, t')
      && t' >= t + k as real
      ensures Retried(cfg, prior, key, t, others, t')
    {
      EnoughTimeRefills(cfg, from, prior, key, t, others, t', k);
    }
  }

  lemma UserConfigIsValid(perMin: int, burst: int, capacity: nat)
    requires Enabled(perMin, burst) && capacity >= 1
    ensures ValidConfig(UserConfig(perMin, burst, capacity))
  {
  }

  /** Retry-After is the least honest promise in whole seconds, for every validated configuration. */
  lemma RetryAfterIsExact(perMin: int, burst: int, capacity: nat, k: nat)
    requires perMin > 0 && burst > 0 && capacity >= 1
    ensures HonestPromise(UserConfig(perMin, burst, capacity), k) <==> k >= RetryAfter(perMin)
  {
    var cfg := UserConfig(perMin, burst, capacity);
    UserConfigIsValid(perMin, burst, capacity);
    CeilingCovers(perMin, k);
    RateTimes(perMin, burst, capacity, k);
    PromiseExactly(cfg, k);
  }

  lemma PromiseExactly(cfg: Config, k: nat)
    requires ValidConfig(cfg)
    ensures HonestPromise(cfg, k) <==> Refills(cfg, k as real)
  {
    if Refills(cfg, k as real) {
      LatePromisesHold(cfg, k);
    } else {
      EarlyPromisesBreak(cfg, k, k as real);
    }
  }

  // ----- the rate over any interval

  /** Admitted requests of `key` during a run. */
  function Admitted(cfg: Config, cache: Cache, reqs: seq<Hit>, key: string): nat {
    if reqs == [] then 0
    else
      var init, last := reqs[..|reqs| - 1], reqs[|reqs| - 1];
      Admitted(cfg, cache, init, key)
      + (if last.key == key && Request(cfg, After(cfg, cache, init), last.key, last.at).1 then 1 else 0)
  }

  /** What `key` could spend at `now`. */
  function Tokens(cfg: Config, cache: Cache, key: string, now: real): real {
    Available(cfg, BucketFor(cfg, cache, key, now), now)
  }

  /** Once remembered, the key's bucket stays through the run. */
  ghost predicate NeverEvicted(cfg: Config, cache: Cache, reqs: seq<Hit>, key: string)
    decreases |reqs|
  {
    reqs != [] ==>
      var init := reqs[..|reqs| - 1];
      NeverEvicted(cfg, cache, init, key)
      && (key in After(cfg, cache, init).buckets ==> key in After(cfg, cache, reqs).buckets)
  }

  lemma AvailableTrickles(cfg: Config, b: Bucket, from: real, to: real)
    requires ValidConfig(cfg) && b.last <= from <= to
    ensures Available(cfg, b, to) <= Available(cfg, b, from) + Grown(cfg, to - from)
  {
    GrownIsNotNegative(cfg, to - from);
    GrownAdds(cfg, from - b.last, to - from, to - b.last);
  }

  /** A new bucket is full whenever it is made. */
  lemma NewBucketIsFull(cfg: Config, now: real)
    ensures Available(cfg, Bucket(cfg.burst as real, now), now) == cfg.burst as real
  {
    assert Grown(cfg, now - now) == 0.0;
  }

  lemma TokensTrickle(cfg: Config, cache: Cache, key: string, from: real, to: real)
    requires ValidConfig(cfg) && Valid(cfg, cache, from) && from <= to
    ensures Tokens(cfg, cache, key, to) <= Tokens(cfg, cache, key, from) + Grown(cfg, to - from)
  {
    if key in cache.buckets {
      AvailableTrickles(cfg, cache.buckets[key], from, to);
    } else {
      GrownIsNotNegative(cfg, to - from);
      NewBucketIsFull(cfg, from);
      NewBucketIsFull(cfg, to);
    }
  }

  lemma RequestSpends(cfg: Config, cache: Cache, hit: Hit, key: string)
    requires ValidConfig(cfg) && Valid(cfg, cache, hit.at)
    requires key in cache.buckets ==> key in Request(cfg, cache, hit.key, hit.at).0.buckets
    ensures
      var (cache', ok) := Request(cfg, cache, hit.key, hit.at);
      Tokens(cfg, cache', key, hit.at) == Tokens(cfg, cache, key, hit.at) - (if hit.key == key && ok then 1.0 else 0.0)
  {
    var (cache', ok) := Request(cfg, cache, hit.key, hit.at);
    if hit.key == key {
      EvictionSparesTheUser(cfg, cache, key);
      assert cache'.buckets[key] == Take(cfg, BucketFor(cfg, cache, key, hit.at), hit.at).0;
    } else if key in cache'.buckets {
      OthersKeepTheirBuckets(cfg, cache, hit.key, hit.at, key);
    }
  }

  lemma Distribute(a: real, b: real, r: real)
    ensures (a + b) * r == a * r + b * r
  {
  }

  /** One if the request is an admitted one of `key`. */
  function Spent(cfg: Config, cache: Cache, hit: Hit, key: string): nat {
    if hit.key == key && Request(cfg, cache, hit.key, hit.at).1 then 1 else 0
  }

  lemma Unroll(cfg: Config, cache: Cache, reqs: seq<Hit>, key: string)
    requires reqs != []
    ensures
      var init, last := reqs[..|reqs| - 1], reqs[|reqs| - 1];
      && After(cfg, cache, reqs) == Request(cfg, After(cfg, cache, init), last.key, last.at).0
      && Admitted(cfg, cache, reqs, key) ==
        Admitted(cfg, cache, init, key) + Spent(cfg, After(cfg, cache, init), last, key)
  {
  }

  /** Whether a run that ends in cache `end` at `to` has spent within what `key` had and what trickled in. */
  ghost predicate WithinBudget(cfg: Config, admitted: nat, end: Cache, key: string, start: real, from: real, to: real) {
    admitted as real + Tokens(cfg, end, key, to) <= start + Grown(cfg, to - from)
  }

  lemma BudgetSpend(cfg: Config, admitted: nat, cache: Cache, hit: Hit, key: string, start: real, from: real,
      after: Cache)
    requires ValidConfig(cfg) && Valid(cfg, cache, hit.at) && after == Request(cfg, cache, hit.key, hit.at).0
    requires key in cache.buckets ==> key in after.buckets
    requires WithinBudget(cfg, admitted, cache, key, start, from, hit.at)
    ensures WithinBudget(cfg, admitted + Spent(cfg, cache, hit, key), after, key, start, from, hit.at)
  {
    RequestSpends(cfg, cache, hit, key);
  }

  lemma BudgetWait(cfg: Config, admitted: nat, cache: Cache, key: string, start: real, from: real, at: real, to: real)
    requires ValidConfig(cfg) && Valid(cfg, cache, at) && from <= at <= to
    requires WithinBudget(cfg, admitted, cache, key, start, from, at)
    ensures WithinBudget(cfg, admitted, cache, key, start, from, to)
  {
    TokensTrickle(cfg, cache, key, at, to);
    GrownAdds(cfg, at - from, to - at, to - from);
  }

  lemma BudgetStep(cfg: Config, admitted: nat, cache: Cache, hit: Hit, key: string, start: real, from: real, to: real)
    requires ValidConfig(cfg) && Valid(cfg, cache, hit.at) && from <= hit.at <= to
    requires key in cache.buckets ==> key in Request(cfg, cache, hit.key, hit.at).0.buckets
    requires WithinBudget(cfg, admitted, cache, key, start, from, hit.at)
    ensures WithinBudget(cfg, admitted + Spent(cfg, cache, hit, key), Request(cfg, cache, hit.key, hit.at).0, key,
      start, from, to)
  {
    var after := Request(cfg, cache, hit.key, hit.at).0;
    RequestKeepsValid(cfg, cache, hit.key, hit.at, hit.at);
    BudgetSpend(cfg, admitted, cache, hit, key, start, from, after);
    BudgetWait(cfg, admitted + Spent(cfg, cache, hit, key), after, key, start, from, hit.at, to);
  }

  lemma {:induction false} SpendingIsBounded(cfg: Config, cache: Cache, reqs: seq<Hit>, key: string, from: real,
      to: real)
    requires ValidConfig(cfg) && Valid(cfg, cache, from) && Timed(reqs, from, to) && NeverEvicted(cfg, cache, reqs, key)
    ensures WithinBudget(cfg, Admitted(cfg, cache, reqs, key), After(cfg, cache, reqs), key,
      Tokens(cfg, cache, key, from), from, to)
    decreases |reqs|
  {
    if reqs == [] {
      TokensTrickle(cfg, cache, key, from, to);
    } else {
      var init, last := reqs[..|reqs| - 1], reqs[|reqs| - 1];
      TimedPrefix(reqs, from, to);
      SpendingIsBounded(cfg, cache, init, key, from, last.at);
      RunKeepsValid(cfg, cache, init, from, last.at);
      Unroll(cfg, cache, reqs, key);
      BudgetStep(cfg, Admitted(cfg, cache, init, key), After(cfg, cache, init), last, key,
        Tokens(cfg, cache, key, from), from, to);
    }
  }

  lemma TokensAreBounded(cfg: Config, cache: Cache, key: string, now: real)
    requires ValidConfig(cfg) && Valid(cfg, cache, now)
    ensures 0.0 <= Tokens(cfg, cache, key, now) <= cfg.burst as real
  {
    AvailableIsBounded(cfg, BucketFor(cfg, cache, key, now), now);
  }

  lemma AvailableIsBounded(cfg: Config, b: Bucket, now: real)
    requires ValidConfig(cfg) && 0.0 <= b.tokens <= cfg.burst as real && b.last <= now
    ensures 0.0 <= Available(cfg, b, now) <= cfg.burst as real
  {
    GrownIsNotNegative(cfg, now - b.last);
  }

  lemma BudgetBounds(cfg: Config, admitted: nat, end: Cache, key: string, start: real, from: real, to: real)
    requires ValidConfig(cfg) && Valid(cfg, end, to) && WithinBudget(cfg, admitted, end, key, start, from, to)
    ensures admitted as real <= start + Grown(cfg, to - from)
  {
    TokensAreBounded(cfg, end, key, to);
  }

  lemma AdmittedWithin(cfg: Config, cache: Cache, reqs: seq<Hit>, key: string, from: real, to: real, d: real)
    requires ValidConfig(cfg) && Valid(cfg, cache, from) && to - from == d
    requires Timed(reqs, from, to) && NeverEvicted(cfg, cache, reqs, key)
    ensures Admitted(cfg, cache, reqs, key) as real <= cfg.burst as real + Grown(cfg, d)
  {
    var start, end := Tokens(cfg, cache, key, from), After(cfg, cache, reqs);
    SpendingIsBounded(cfg, cache, reqs, key, from, to);
    RunKeepsValid(cfg, cache, reqs, from, to);
    BudgetBounds(cfg, Admitted(cfg, cache, reqs, key), end, key, start, from, to);
    TokensAreBounded(cfg, cache, key, from);
  }

  /** Without eviction any interval of d seconds admits at most burst + d * rate requests of a user,
      where UserConfig's rate is perMin / 60, whatever came before and whatever the other users do. */
  lemma IntervalBound(cfg: Config, cache: Cache, reqs: seq<Hit>, key: string, from: real, d: real)
    requires ValidConfig(cfg) && Valid(cfg, cache, from)
    requires Timed(reqs, from, from + d) && NeverEvicted(cfg, cache, reqs, key)
    ensures Admitted(cfg, cache, reqs, key) as real <= cfg.burst as real + d * cfg.rate
  {
    AdmittedWithin(cfg, cache, reqs, key, from, from + d, d);
    InSeconds(cfg, Admitted(cfg, cache, reqs, key), d);
  }

  lemma InSeconds(cfg: Config, admitted: nat, d: real)
    requires d >= 0.0 && admitted as real <= cfg.burst as real + Grown(cfg, d)
    ensures admitted as real <= cfg.burst as real + d * cfg.rate
  {
    GrownIs(cfg, d);
  }

  lemma GrownIs(cfg: Config, dt: real)
    requires dt >= 0.0
    ensures Grown(cfg, dt) == dt * cfg.rate
  {
    if dt == 0.0 {
      assert dt * cfg.rate == 0.0 * cfg.rate == 0.0;
    }
  }

  // ----- the burst

  /** The user's own bucket after a request: remembered, and a token poorer if one was there. */
  lemma OwnBucket(cfg: Config, cache: Cache, key: string, now: real)
    requires ValidConfig(cfg)
    ensures
      var (after, ok) := Request(cfg, cache, key, now);
      key in after.buckets && (after.buckets[key], ok) == Take(cfg, BucketFor(cfg, cache, key, now), now)
  {
    EvictionSparesTheUser(cfg, cache, key);
  }

  /** `n` requests of one key at one moment. */
  function AtOnce(key: string, at: real, n: nat): seq<Hit> { seq(n, _ => Hit(key, at)) }

  lemma TakeAtOnce(cfg: Config, tokens: real, at: real)
    requires 0.0 <= tokens <= cfg.burst as real
    ensures Take(cfg, Bucket(tokens, at), at) ==
            if tokens >= 1.0 then (Bucket(tokens - 1.0, at), true) else (Bucket(tokens, at), false)
  {
    assert Grown(cfg, at - at) == 0.0;
  }

  lemma DrainStep(cfg: Config, cache: Cache, key: string, at: real, left: nat)
    requires ValidConfig(cfg) && left <= cfg.burst && BucketFor(cfg, cache, key, at) == Bucket(left as real, at)
    ensures
      var left' := if left >= 1 then left - 1 else 0;
      && BucketFor(cfg, Request(cfg, cache, key, at).0, key, at) == Bucket(left' as real, at)
      && Spent(cfg, cache, Hit(key, at), key) == left - left'
  {
    OwnBucket(cfg, cache, key, at);
    TakeAtOnce(cfg, left as real, at);
  }

  function Left(burst: nat, n: nat): nat { if n <= burst then burst - n else 0 }

  lemma {:induction false} DrainAtOnce(cfg: Config, cache: Cache, key: string, at: real, n: nat)
    requires ValidConfig(cfg) && key !in cache.buckets
    ensures BucketFor(cfg, After(cfg, cache, AtOnce(key, at, n)), key, at) == Bucket(Left(cfg.burst, n) as real, at)
    ensures Admitted(cfg, cache, AtOnce(key, at, n), key) == cfg.burst - Left(cfg.burst, n)
  {
    if n == 0 {
      assert AtOnce(key, at, 0) == [];
    } else {
      var before, hits := AtOnce(key, at, n - 1), AtOnce(key, at, n);
      DrainAtOnce(cfg, cache, key, at, n - 1);
      assert hits[..n - 1] == before && hits[n - 1] == Hit(key, at);
      Unroll(cfg, cache, hits, key);
      DrainStep(cfg, After(cfg, cache, before), key, at, Left(cfg.burst, n - 1));
    }
  }

  /** Whatever happened before, a key without a bucket is granted exactly `burst` requests at once. */
  lemma BurstIsGranted(cfg: Config, cache: Cache, key: string, at: real, n: nat)
    requires ValidConfig(cfg) && key !in cache.buckets
    ensures Admitted(cfg, cache, AtOnce(key, at, n), key) == if n <= cfg.burst then n else cfg.burst
  {
    DrainAtOnce(cfg, cache, key, at, n);
  }

  // ----- eviction

  /** The place of a key's last request in a run, or -1. */
  function LastUse(reqs: seq<Hit>, key: string): int {
    if reqs == [] then -1
    else if reqs[|reqs| - 1].key == key then |reqs| - 1
    else LastUse(reqs[..|reqs| - 1], key)
  }

  lemma {:induction false} LastUseIsPast(reqs: seq<Hit>, key: string)
    ensures -1 <= LastUse(reqs, key) < |reqs|
  {
    if reqs == [] {
    } else {
      LastUseIsPast(reqs[..|reqs| - 1], key);
    }
  }

  /** Keys from most to least recently used. */
  ghost predicate ByRecency(order: seq<string>, reqs: seq<Hit>) {
    forall i, j :: 0 <= i < j < |order| ==> LastUse(reqs, order[i]) > LastUse(reqs, order[j])
  }

  lemma {:induction false} WithoutKeepsOrder(order: seq<string>, key: string, reqs: seq<Hit>)
    requires ByRecency(order, reqs)
    ensures ByRecency(Without(order, key), reqs)
  {
    if order == [] {
    } else {
      var rest := Without(order[1..], key);
      WithoutKeepsOrder(order[1..], key, reqs);
      forall j | 0 <= j < |rest| ensures LastUse(reqs, order[0]) > LastUse(reqs, rest[j]) {
        assert rest[j] in order[1..];
        var k :| 0 <= k < |order[1..]| && order[1..][k] == rest[j];
        assert order[k + 1] == rest[j];
      }
    }
  }

  lemma TouchKeepsOrder(order: seq<string>, init: seq<Hit>, hit: Hit, reqs: seq<Hit>)
    requires ByRecency(order, init) && reqs == init + [hit]
    ensures ByRecency([hit.key] + Without(order, hit.key), reqs)
  {
    var rest := Without(order, hit.key);
    WithoutKeepsOrder(order, hit.key, init);
    assert reqs[..|reqs| - 1] == init;
    forall j | 0 <= j < |rest| ensures LastUse(reqs, rest[j]) == LastUse(init, rest[j]) < |init| {
      assert rest[j] in rest && rest[j] != hit.key;
      LastUseIsPast(init, rest[j]);
    }
  }

  lemma {:induction false} OrderIsByRecency(cfg: Config, reqs: seq<Hit>)
    ensures ByRecency(After(cfg, EMPTY, reqs).order, reqs)
  {
    if reqs == [] {
    } else {
      var init, hit := reqs[..|reqs| - 1], reqs[|reqs| - 1];
      var cache := After(cfg, EMPTY, init);
      OrderIsByRecency(cfg, init);
      assert reqs == init + [hit];
      TouchKeepsOrder(cache.order, init, hit, reqs);
      RequestKeepsOrder(cfg, cache, hit.key, hit.at, reqs);
    }
  }

  lemma RequestKeepsOrder(cfg: Config, cache: Cache, key: string, now: real, reqs: seq<Hit>)
    requires ByRecency(Touch(cache, key), reqs)
    ensures ByRecency(Request(cfg, cache, key, now).0.order, reqs)
  {
    var order := Touch(cache, key);
    WithoutKeepsOrder(order, order[|order| - 1], reqs);
  }

  lemma EvictedIsLast(cfg: Config, cache: Cache, key: string, rest: seq<string>, reqs: seq<Hit>, other: string,
      gone: string)
    requires ValidConfig(cfg) && rest == Without(cache.order, key) && ByRecency(rest, reqs)
    requires gone in Evicted(cfg, cache, key) && other in rest && other != gone
    ensures LastUse(reqs, other) > LastUse(reqs, gone)
  {
    var k :| 0 <= k < |rest| && rest[k] == other;
    assert Touch(cache, key)[|rest|] == rest[|rest| - 1];
  }

  lemma OnlyFullCachesEvict(cfg: Config, cache: Cache, key: string, gone: string)
    requires gone in Evicted(cfg, cache, key)
    ensures key !in cache.buckets && |cache.order| >= cfg.capacity
  {
  }

  /** After any run, the key that a new one pushes out is the one used longest ago, and there is one only
      when the cache is full. */
  lemma LeastRecentlyUsedIsEvicted(cfg: Config, reqs: seq<Hit>, cache: Cache, key: string, other: string, gone: string)
    requires ValidConfig(cfg) && cache == After(cfg, EMPTY, reqs) && gone in Evicted(cfg, cache, key)
    requires other in cache.order && other != gone && other != key
    ensures key !in cache.buckets && |cache.order| >= cfg.capacity && LastUse(reqs, other) > LastUse(reqs, gone)
  {
    OrderIsByRecency(cfg, reqs);
    OnlyFullCachesEvict(cfg, cache, key, gone);
    WithoutKeepsOrder(cache.order, key, reqs);
    EvictedIsLast(cfg, cache, key, Without(cache.order, key), reqs, other, gone);
  }
}
