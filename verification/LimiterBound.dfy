/** One limiter as a whole: what Redis and the in-process fallback admit together, over any sequence of
    pipeline failures. */
module LimiterBound {
  import opened RateLimiters
  import FixedWindow
  import TokenBucket

  function Seconds(t: int): real { t as real / 1_000_000_000.0 }

  /** A key's counter in Redis and all requests that were put to the fallback, of whatever key. A request
      whose pipeline fails goes to the fallback, with or without having been counted. */
  datatype World = World(redis: FixedWindow.World, hits: seq<TokenBucket.Hit>)

  datatype Action = Redis(a: FixedWindow.Action) | Fallback(key: string)

  predicate Enabled(w: World, a: Action) { a.Redis? ==> FixedWindow.Enabled(w.redis, a.a) }

  function Apply(w: World, a: Action): World
    requires Enabled(w, a)
  {
    match a
    case Redis(r) => w.(redis := FixedWindow.Apply(w.redis, r))
    case Fallback(key) => w.(hits := w.hits + [TokenBucket.Hit(key, Seconds(w.redis.now))])
  }

  predicate Init(w: World) {
    FixedWindow.Init(w.redis) && w.redis.window == WINDOW && w.redis.limit >= 1 && w.hits == []
  }

  ghost predicate IsRun(ws: seq<World>, acts: seq<Action>) {
    && |ws| == |acts| + 1
    && Init(ws[0])
    && forall i :: 0 <= i < |acts| ==> Enabled(ws[i], acts[i]) && ws[i + 1] == Apply(ws[i], acts[i])
  }

  /** A limiter's commands on a key of the shared Redis are the steps of that key's counter. */
  lemma CommandsAreSteps(keys: Keys, c: Command, w: FixedWindow.World, client: nat)
    requires Get(keys, KeyOf(c.limiter, c.caller)) == w.key && w.now == c.now && w.window == WINDOW
    requires c.incr <==> client !in w.waiting
    ensures
      var w' := FixedWindow.Apply(w, if c.incr then FixedWindow.Incr(client) else FixedWindow.Expire(client));
      && Get(Step(keys, c), KeyOf(c.limiter, c.caller)) == w'.key
      && (c.incr ==> IncrCommand(keys, KeyOf(c.limiter, c.caller), c.now).1 == w'.log[|w.log|].count)
  {
    StepGet(keys, c, KeyOf(c.limiter, c.caller));
  }

  lemma SecondsGrow(t: int, t': int)
    requires t <= t'
    ensures Seconds(t) <= Seconds(t')
  {
  }

  ghost predicate WorldInv(w: World, start: int, limit: nat) {
    && FixedWindow.Inv(w.redis) && w.redis.window == WINDOW && w.redis.limit == limit
    && start <= w.redis.now && TokenBucket.Timed(w.hits, Seconds(start), Seconds(w.redis.now))
  }

  lemma TimedLonger(hits: seq<TokenBucket.Hit>, from: real, to: real, to': real)
    requires TokenBucket.Timed(hits, from, to) && to <= to'
    ensures TokenBucket.Timed(hits, from, to')
  {
  }

  lemma TimedAppend(hits: seq<TokenBucket.Hit>, from: real, now: real, key: string)
    requires TokenBucket.Timed(hits, from, now)
    ensures TokenBucket.Timed(hits + [TokenBucket.Hit(key, now)], from, now)
  {
  }

  lemma ClockGoesOn(w: FixedWindow.World, a: FixedWindow.Action)
    requires FixedWindow.Enabled(w, a)
    ensures
      var w' := FixedWindow.Apply(w, a);
      w.now <= w'.now && w'.limit == w.limit && w'.window == w.window
  {
  }

  lemma WorldInvKept(w: World, a: Action, start: int, limit: nat)
    requires WorldInv(w, start, limit) && Enabled(w, a)
    ensures WorldInv(Apply(w, a), start, limit)
  {
    match a
    case Redis(r) =>
      FixedWindow.InvKept(w.redis, r);
      ClockGoesOn(w.redis, r);
      SecondsGrow(w.redis.now, FixedWindow.Apply(w.redis, r).now);
      TimedLonger(w.hits, Seconds(start), Seconds(w.redis.now), Seconds(FixedWindow.Apply(w.redis, r).now));
    case Fallback(key) => TimedAppend(w.hits, Seconds(start), Seconds(w.redis.now), key);
  }

  lemma {:induction false} RunKeepsInv(ws: seq<World>, acts: seq<Action>, n: nat)
    requires IsRun(ws, acts) && n < |ws|
    ensures WorldInv(ws[n], ws[0].redis.now, ws[0].redis.limit)
  {
    if n == 0 {
    } else {
      RunKeepsInv(ws, acts, n - 1);
      WorldInvKept(ws[n - 1], acts[n - 1], ws[0].redis.now, ws[0].redis.limit);
    }
  }

  /** The fallback's requests number i up to k, all made in the window that starts at `a`. */
  ghost predicate Stretch(hits: seq<TokenBucket.Hit>, i: nat, k: nat, a: int) {
    i <= k <= |hits| && forall m :: i <= m < k ==> Seconds(a) <= hits[m].at < Seconds(a + WINDOW)
  }

  /** Requests of `key` that buckets configured by `cfg` admit in the stretch. */
  function FallbackAdmits(cfg: TokenBucket.Config, hits: seq<TokenBucket.Hit>, i: nat, k: nat, key: string): nat
    requires i <= k <= |hits|
  {
    TokenBucket.Admitted(cfg, TokenBucket.After(cfg, TokenBucket.EMPTY, hits[..i]), hits[i..k], key)
  }

  /** The key's bucket is not evicted during the stretch. */
  ghost predicate Remembered(cfg: TokenBucket.Config, hits: seq<TokenBucket.Hit>, i: nat, k: nat, key: string)
    requires i <= k <= |hits|
  {
    TokenBucket.NeverEvicted(cfg, TokenBucket.After(cfg, TokenBucket.EMPTY, hits[..i]), hits[i..k], key)
  }

  lemma WindowIsAMinute(a: int)
    ensures Seconds(a + WINDOW) == Seconds(a) + 60.0
  {
  }

  lemma StretchIsTimed(hits: seq<TokenBucket.Hit>, from: real, to: real, i: nat, k: nat, a: int,
      minute: real)
    requires minute == 60.0 && TokenBucket.Timed(hits, from, to) && Stretch(hits, i, k, a) && i < k
    ensures TokenBucket.Timed(hits[..i], from, hits[i].at)
    ensures TokenBucket.Timed(hits[i..k], hits[i].at, hits[i].at + minute)
  {
    WindowIsAMinute(a);
  }

  lemma CacheIsValid(cfg: TokenBucket.Config, before: seq<TokenBucket.Hit>, from: real, at: real)
    requires TokenBucket.ValidConfig(cfg) && TokenBucket.Timed(before, from, at)
    ensures TokenBucket.Valid(cfg, TokenBucket.After(cfg, TokenBucket.EMPTY, before), at)
  {
    TokenBucket.RunKeepsValid(cfg, TokenBucket.EMPTY, before, from, at);
  }

  lemma AdmittedDuring(cfg: TokenBucket.Config, cache: TokenBucket.Cache, hits: seq<TokenBucket.Hit>, at: real, d: real,
      key: string, admitted: nat)
    requires TokenBucket.ValidConfig(cfg) && TokenBucket.Valid(cfg, cache, at)
    requires TokenBucket.Timed(hits, at, at + d) && TokenBucket.NeverEvicted(cfg, cache, hits, key)
    requires admitted == TokenBucket.Admitted(cfg, cache, hits, key)
    ensures admitted as real <= cfg.burst as real + d * cfg.rate
  {
    TokenBucket.IntervalBound(cfg, cache, hits, key, at, d);
  }

  lemma MinuteOfTokens(cfg: TokenBucket.Config, limit: nat, admitted: nat, minute: real)
    requires minute == 60.0 && cfg == FallbackConfig(limit)
    requires admitted as real <= cfg.burst as real + minute * cfg.rate
    ensures admitted <= 10 + limit
  {
    assert minute * cfg.rate == 60.0 * (limit as real / 60.0) == limit as real;
  }

  lemma FallbackBound(cfg: TokenBucket.Config, hits: seq<TokenBucket.Hit>, from: real, to: real, i: nat, k: nat, a: int,
      key: string, minute: real)
    requires minute == 60.0 && TokenBucket.ValidConfig(cfg) && TokenBucket.Timed(hits, from, to)
    requires Stretch(hits, i, k, a) && i < k && Remembered(cfg, hits, i, k, key)
    ensures FallbackAdmits(cfg, hits, i, k, key) as real <= cfg.burst as real + minute * cfg.rate
  {
    StretchIsTimed(hits, from, to, i, k, a, minute);
    CacheIsValid(cfg, hits[..i], from, hits[i].at);
    var cache := TokenBucket.After(cfg, TokenBucket.EMPTY, hits[..i]);
    AdmittedDuring(cfg, cache, hits[i..k], hits[i].at, minute, key, FallbackAdmits(cfg, hits, i, k, key));
  }

  lemma EmptyStretch(cfg: TokenBucket.Config, hits: seq<TokenBucket.Hit>, i: nat, key: string)
    requires i <= |hits|
    ensures FallbackAdmits(cfg, hits, i, i, key) == 0
  {
    assert hits[i..i] == [];
  }

  lemma FallbackIsValid(limit: nat)
    requires limit >= 1
    ensures TokenBucket.ValidConfig(FallbackConfig(limit))
  {
  }

  lemma HitsAreTimed(ws: seq<World>, acts: seq<Action>, n: nat)
    requires IsRun(ws, acts) && n < |ws|
    ensures ws[0].redis.limit >= 1
    ensures TokenBucket.Timed(ws[n].hits, Seconds(ws[0].redis.now), Seconds(ws[n].redis.now))
  {
    RunKeepsInv(ws, acts, n);
  }

  lemma RedisPart(ws: seq<World>, acts: seq<Action>, n: nat, a: int)
    requires IsRun(ws, acts) && n < |ws|
    ensures |FixedWindow.InWindow(ws[n].redis, a)| <= 2 * ws[0].redis.limit - 1
  {
    RunKeepsInv(ws, acts, n);
    FixedWindow.WindowBound(ws[n].redis, a);
  }

  lemma FallbackPart(cfg: TokenBucket.Config, limit: nat, hits: seq<TokenBucket.Hit>, from: real, to: real, i: nat,
      k: nat, a: int, key: string, minute: real)
    requires minute == 60.0 && limit >= 1 && cfg == FallbackConfig(limit) && TokenBucket.Timed(hits, from, to)
    requires Stretch(hits, i, k, a) && i < k && Remembered(cfg, hits, i, k, key)
    ensures FallbackAdmits(cfg, hits, i, k, key) <= 10 + limit
  {
    FallbackIsValid(limit);
    FallbackBound(cfg, hits, from, to, i, k, a, key, minute);
    MinuteOfTokens(cfg, limit, FallbackAdmits(cfg, hits, i, k, key), minute);
  }

  /** Over every run, whichever pipelines fail and wherever, one limiter admits at most 3 * limit + 9
      requests of a key in any half-open window: 2 * limit - 1 through Redis, and the fallback's burst and
      refill, barring eviction of the key. */
  lemma LimiterWindowBound(ws: seq<World>, acts: seq<Action>, n: nat, i: nat, k: nat, a: int, key: string)
    requires IsRun(ws, acts) && n < |ws| && Stretch(ws[n].hits, i, k, a)
    requires Remembered(FallbackConfig(ws[0].redis.limit), ws[n].hits, i, k, key)
    ensures
      var limit := ws[0].redis.limit;
      |FixedWindow.InWindow(ws[n].redis, a)| + FallbackAdmits(FallbackConfig(limit), ws[n].hits, i, k, key)
        <= 3 * limit + 9
  {
    var limit, hits := ws[0].redis.limit, ws[n].hits;
    var cfg := FallbackConfig(limit);
    HitsAreTimed(ws, acts, n);
    RedisPart(ws, acts, n, a);
    if i == k {
      EmptyStretch(cfg, hits, i, key);
    } else {
      FallbackPart(cfg, limit, hits, Seconds(ws[0].redis.now), Seconds(ws[n].redis.now), i, k, a, key, 60.0);
    }
  }
}
