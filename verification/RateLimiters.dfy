/** The service's limiters over one Redis: their keys, their middleware, and their independence. */
module RateLimiters {
  import opened Options
  import opened Uuids
  import opened Counters
  import TokenBucket

  datatype Limiter = GlobalIp | WaitlistIp | Comms

  /** Requests per minute, as the router configures them. */
  function LimitOf(l: Limiter): nat {
    match l
    case GlobalIp => 120
    case WaitlistIp => 5
    case Comms => 300
  }

  const WINDOW: nat := 60_000_000_000

  /** What keying looks at: the client address and the authenticated service id, if any. */
  datatype Caller = Caller(ip: string, service: string)

  function KeyOf(l: Limiter, c: Caller): string {
    match l
    case GlobalIp => "notification:rl:ip:" + c.ip
    case WaitlistIp => "notification:rl:waitlist:ip:" + c.ip
    case Comms => if c.service != "" then "notification:rl:svc:" + c.service else "notification:rl:svc-ip:" + c.ip
  }

  /** The sixteen characters all keys share; the two after them tell the families apart, but for the
      two of the service limiter, which the twentieth tells apart. */
  lemma FamiliesAreDisjoint(l: Limiter, c: Caller, l': Limiter, c': Caller)
    ensures KeyOf(l, c) == KeyOf(l', c') ==>
      l == l' && (l.Comms? ==> c.service == c'.service && (c.service == "" ==> c.ip == c'.ip))
        && (!l.Comms? ==> c.ip == c'.ip)
  {
    var k, k' := KeyOf(l, c), KeyOf(l', c');
    SuffixOf("notification:rl:ip:", c.ip);
    SuffixOf("notification:rl:ip:", c'.ip);
    SuffixOf("notification:rl:waitlist:ip:", c.ip);
    SuffixOf("notification:rl:waitlist:ip:", c'.ip);
    SuffixOf("notification:rl:svc:", c.service);
    SuffixOf("notification:rl:svc:", c'.service);
    SuffixOf("notification:rl:svc-ip:", c.ip);
    SuffixOf("notification:rl:svc-ip:", c'.ip);
    if k == k' {
      assert k[16] == k'[16];
      assert l.Comms? && l'.Comms? ==> k[19] == k'[19];
    }
  }

  lemma SuffixOf(prefix: string, suffix: string)
    ensures (prefix + suffix)[|prefix|..] == suffix
    ensures forall i :: 0 <= i < |prefix| ==> (prefix + suffix)[i] == prefix[i]
  {
  }

  // ----- commands

  type Keys = map<string, Counter>

  function Get(keys: Keys, key: string): Option<Counter> {
    if key in keys then Some(keys[key]) else None
  }

  function Put(keys: Keys, key: string, c: Option<Counter>): Keys {
    if c.Some? then keys[key := c.value] else keys - {key}
  }

  /** INCR and EXPIRE NX on one key of many. */
  function IncrCommand(keys: Keys, key: string, now: int): (Keys, nat) {
    var counter := IncrCounter(Get(keys, key), now);
    (keys[key := counter], counter.count)
  }

  function ExpireCommand(keys: Keys, key: string, now: int, window: nat): Keys {
    Put(keys, key, ExpireCounter(Get(keys, key), now, window))
  }

  /** One command as Redis executes it: which limiter issued it, for whom, when. */
  datatype Command = Command(limiter: Limiter, caller: Caller, now: int, incr: bool)

  function Step(keys: Keys, c: Command): Keys {
    if c.incr then IncrCommand(keys, KeyOf(c.limiter, c.caller), c.now).0
    else ExpireCommand(keys, KeyOf(c.limiter, c.caller), c.now, WINDOW)
  }

  function Run(keys: Keys, cmds: seq<Command>): Keys {
    if cmds == [] then keys else Step(Run(keys, cmds[..|cmds| - 1]), cmds[|cmds| - 1])
  }

  /** The verdicts of one limiter's requests, in order: was the count within its limit? */
  function Verdicts(keys: Keys, cmds: seq<Command>, l: Limiter): seq<bool> {
    if cmds == [] then []
    else
      var init, c := cmds[..|cmds| - 1], cmds[|cmds| - 1];
      Verdicts(keys, init, l)
      + (if c.limiter == l && c.incr then [IncrCommand(Run(keys, init), KeyOf(l, c.caller), c.now).1 <= LimitOf(l)]
        else [])
  }

  /** The commands one limiter issued. */
  function Only(cmds: seq<Command>, l: Limiter): seq<Command> {
    if cmds == [] then []
    else Only(cmds[..|cmds| - 1], l) + (if cmds[|cmds| - 1].limiter == l then [cmds[|cmds| - 1]] else [])
  }

  ghost predicate AgreeFor(a: Keys, b: Keys, l: Limiter) {
    forall c :: Get(a, KeyOf(l, c)) == Get(b, KeyOf(l, c))
  }

  lemma StepGet(keys: Keys, c: Command, key: string)
    ensures Get(Step(keys, c), key) ==
            if key != KeyOf(c.limiter, c.caller) then Get(keys, key)
            else if c.incr then Some(IncrCounter(Get(keys, key), c.now))
              else ExpireCounter(Get(keys, key), c.now, WINDOW)
  {
  }

  lemma StepAgrees(a: Keys, b: Keys, c: Command, l: Limiter)
    requires AgreeFor(a, b, l)
    ensures AgreeFor(Step(a, c), if c.limiter == l then Step(b, c) else b, l)
  {
    forall caller
      ensures Get(Step(a, c), KeyOf(l, caller)) == Get(if c.limiter == l then Step(b, c) else b, KeyOf(l, caller))
    {
      StepGet(a, c, KeyOf(l, caller));
      StepGet(b, c, KeyOf(l, caller));
      FamiliesAreDisjoint(c.limiter, c.caller, l, caller);
    }
  }

  /** The verdict, if any, that a command brings its limiter. */
  function VerdictOf(keys: Keys, c: Command, l: Limiter): seq<bool> {
    if c.limiter == l && c.incr then [IncrCommand(keys, KeyOf(l, c.caller), c.now).1 <= LimitOf(l)] else []
  }

  lemma RunAppend(keys: Keys, cmds: seq<Command>, c: Command, l: Limiter)
    ensures Run(keys, cmds + [c]) == Step(Run(keys, cmds), c)
    ensures Verdicts(keys, cmds + [c], l) == Verdicts(keys, cmds, l) + VerdictOf(Run(keys, cmds), c, l)
  {
    assert (cmds + [c])[..|cmds|] == cmds;
  }

  lemma VerdictAgrees(a: Keys, b: Keys, c: Command, l: Limiter)
    requires AgreeFor(a, b, l)
    ensures VerdictOf(a, c, l) == VerdictOf(b, c, l)
  {
    assert Get(a, KeyOf(l, c.caller)) == Get(b, KeyOf(l, c.caller));
  }

  lemma InitAndLast<T>(s: seq<T>)
    requires s != []
    ensures s == s[..|s| - 1] + [s[|s| - 1]]
  {
  }

  /** In any interleaving a limiter gives the verdicts it would give if it ran alone. */
  lemma {:induction false} LimitersDoNotInteract(keys: Keys, cmds: seq<Command>, l: Limiter)
    ensures AgreeFor(Run(keys, cmds), Run(keys, Only(cmds, l)), l)
    ensures Verdicts(keys, cmds, l) == Verdicts(keys, Only(cmds, l), l)
  {
    if cmds == [] {
    } else {
      InitAndLast(cmds);
      LimitersDoNotInteract(keys, cmds[..|cmds| - 1], l);
      OneMoreCommand(keys, cmds[..|cmds| - 1], cmds[|cmds| - 1], l);
    }
  }

  lemma OneMoreCommand(keys: Keys, init: seq<Command>, c: Command, l: Limiter)
    requires AgreeFor(Run(keys, init), Run(keys, Only(init, l)), l)
    requires Verdicts(keys, init, l) == Verdicts(keys, Only(init, l), l)
    ensures AgreeFor(Run(keys, init + [c]), Run(keys, Only(init + [c], l)), l)
    ensures Verdicts(keys, init + [c], l) == Verdicts(keys, Only(init + [c], l), l)
  {
    assert (init + [c])[..|init|] == init;
    assert Only(init + [c], l) == if c.limiter == l then Only(init, l) + [c] else Only(init, l);
    RunAppend(keys, init, c, l);
    StepAgrees(Run(keys, init), Run(keys, Only(init, l)), c, l);
    VerdictAgrees(Run(keys, init), Run(keys, Only(init, l)), c, l);
    if c.limiter == l {
      RunAppend(keys, Only(init, l), c, l);
    }
  }

  // ----- middleware

  class RedisServer {
    var keys: Keys

    constructor ()
      ensures keys == map[]
    {
      keys := map[];
    }

    method Incr(key: string, now: int) returns (count: nat)
      modifies this
      ensures (keys, count) == IncrCommand(old(keys), key, now)
    {
      var r := IncrCommand(keys, key, now);
      keys := r.0;
      return r.1;
    }

    method ExpireNX(key: string, now: int, window: nat)
      modifies this
      ensures keys == ExpireCommand(old(keys), key, now, window)
    {
      keys := ExpireCommand(keys, key, now, window);
    }
  }

  /** How the pipeline ends: answered, or failed before or after its INCR ran. */
  datatype PipelineFault = NoFault | BeforeIncr | AfterIncr

  /** The in-process buckets of a limiter: its limit spread over the minute, bursts of ten. */
  function FallbackConfig(limit: nat): TokenBucket.Config {
    TokenBucket.Config(limit as real / 60.0, 10, 100_000)
  }

  /** One request was counted on `key`: it is admitted up to `limit` in a lifetime of the counter, which
      starts at one when the key is absent or lapsed, lasts a minute from then, and is no other key's. */
  predicate Counted(keys: Keys, keys': Keys, key: string, now: int, limit: nat, admitted: bool) {
    var live := key in keys && (keys[key].expiry.None? || keys[key].expiry.value > now);
    var count := if live then keys[key].count + 1 else 1;
    && (admitted <==> count <= limit)
    && keys' == keys[key := Counter(count, if live && keys[key].expiry.Some? then keys[key].expiry
                                           else Some(now + 60 * 1_000_000_000))]
  }

  lemma StepsCount(keys: Keys, l: Limiter, c: Caller, now: int)
    ensures
      var keys' := Step(Step(keys, Command(l, c, now, true)), Command(l, c, now, false));
      Counted(keys, keys', KeyOf(l, c), now, LimitOf(l), IncrCommand(keys, KeyOf(l, c), now).1 <= LimitOf(l))
  {
  }

  class RateLimiter {
    const limiter: Limiter
    const redis: RedisServer?
    const fallbackConfig: TokenBucket.Config
    var fallback: TokenBucket.Cache

    constructor (limiter: Limiter, redis: RedisServer?)
      ensures this.limiter == limiter && this.redis == redis && fallback == TokenBucket.EMPTY
      ensures fallbackConfig == FallbackConfig(LimitOf(limiter))
      ensures fallbackConfig.burst == 10 && fallbackConfig.capacity == 100_000
      ensures fallbackConfig.rate ==
        match limiter case GlobalIp => 2.0 case WaitlistIp => 5.0 / 60.0 case Comms => 5.0
    {
      this.limiter := limiter;
      this.redis := redis;
      fallbackConfig := FallbackConfig(LimitOf(limiter));
      fallback := TokenBucket.EMPTY;
    }

    /** Handler: Redis decides when it answers; otherwise the in-process bucket does, and a failed
        pipeline may still have counted the request. */
    method Handle(caller: Caller, now: int, seconds: real, fault: PipelineFault) returns (admitted: bool)
      modifies this`fallback, redis
      ensures redis != null && fault.NoFault? ==>
        var key := match limiter
                   case GlobalIp => "notification:rl:ip:" + caller.ip
                   case WaitlistIp => "notification:rl:waitlist:ip:" + caller.ip
                   case Comms =>
                     if caller.service != "" then "notification:rl:svc:" + caller.service
                     else "notification:rl:svc-ip:" + caller.ip;
        Counted(old(redis.keys), redis.keys, key, now,
                match limiter case GlobalIp => 120 case WaitlistIp => 5 case Comms => 300, admitted)
      ensures redis != null && fault.NoFault? ==>
        && fallback == old(fallback)
        && admitted == (IncrCommand(old(redis.keys), KeyOf(limiter, caller), now).1 <= LimitOf(limiter))
        && redis.keys == Step(Step(old(redis.keys), Command(limiter, caller, now, true)),
          Command(limiter, caller, now, false))
      ensures redis == null || !fault.NoFault? ==>
        (fallback, admitted) == TokenBucket.Request(fallbackConfig, old(fallback), KeyOf(limiter, caller), seconds)
      ensures redis != null && !fault.NoFault? ==>
        redis.keys == if fault.AfterIncr? then Step(old(redis.keys), Command(limiter, caller, now, true))
          else old(redis.keys)
    {
      var key := KeyOf(limiter, caller);
      if redis == null || fault.BeforeIncr? {
        admitted := Fall(key, seconds);
        return;
      }
      var count := redis.Incr(key, now);
      if fault.AfterIncr? {
        admitted := Fall(key, seconds);
        return;
      }
      redis.ExpireNX(key, now, WINDOW);
      StepsCount(old(redis.keys), limiter, caller, now);
      return count <= LimitOf(limiter);
    }

    method Fall(key: string, seconds: real) returns (admitted: bool)
      modifies this`fallback
      ensures (fallback, admitted) == TokenBucket.Request(fallbackConfig, old(fallback), key, seconds)
    {
      var r := TokenBucket.Request(fallbackConfig, fallback, key, seconds);
      fallback := r.0;
      return r.1;
    }
  }

  datatype UserVerdict = Pass | Denied(retryAfter: nat)

  class UserRateLimiter {
    const perMin: int
    const cfg: TokenBucket.Config
    var buckets: TokenBucket.Cache

    constructor (perMin: int, burst: int)
      requires perMin > 0 && burst > 0
      ensures cfg.burst == burst && cfg.capacity == 100_000 && cfg.rate == perMin as real / 60.0
      ensures this.perMin == perMin && cfg == TokenBucket.UserConfig(perMin, burst, 100_000)
        && buckets == TokenBucket.EMPTY
    {
      this.perMin := perMin;
      cfg := TokenBucket.UserConfig(perMin, burst, 100_000);
      buckets := TokenBucket.EMPTY;
    }

    /** Handler: a request without a verified user passes unlimited; a denial carries Retry-After. */
    method Handle(user: Option<Uuid>, seconds: real) returns (v: UserVerdict)
      requires perMin > 0
      modifies this`buckets
      ensures user == None || user == Some(0) ==> v == Pass && buckets == old(buckets)
      ensures user.Some? && user.value != 0 ==>
        var key := "notification:rl:user:" + Render(user.value);
        var (after, ok) := TokenBucket.Request(cfg, old(buckets), key, seconds);
        buckets == after && v == if ok then Pass else Denied(TokenBucket.RetryAfter(perMin))
    {
      if user.None? || user.value == NIL {
        return Pass;
      }
      var r := TokenBucket.Request(cfg, buckets, "notification:rl:user:" + Render(user.value), seconds);
      buckets := r.0;
      return if r.1 then Pass else Denied(TokenBucket.RetryAfter(perMin));
    }
  }

  /** Users never share a bucket. */
  lemma UsersHaveTheirOwnKeys(u: Uuid, u': Uuid)
    ensures "notification:rl:user:" + Render(u) == "notification:rl:user:" + Render(u') ==> u == u'
  {
    SuffixOf("notification:rl:user:", Render(u));
    SuffixOf("notification:rl:user:", Render(u'));
    ParseRender(u);
    ParseRender(u');
  }
}
