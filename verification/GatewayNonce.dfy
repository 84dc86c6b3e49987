/** The timing side of request verification: the skew check and the nonce store. */
module GatewayNonce {
  import opened GoTime

  const MAX_SKEW: int := 30 * SECOND
  const NONCE_TTL: int := MAX_SKEW + 5 * SECOND

  /** Seconds from year 1 to 1970, the offset of time.Time's internal second count. */
  const UNIX_TO_INTERNAL: int := 62_135_596_800

  /** The instant time.Unix(ts, 0) stands for, in nanoseconds since 1970; its second count wraps. */
  function UnixInstant(ts: int): int {
    SECOND * (Wrap64(ts + UNIX_TO_INTERNAL) - UNIX_TO_INTERNAL)
  }

  /** withinGatewaySkew: the absolute value of a clamped difference, negated with wrap-around. */
  predicate WithinSkew(ts: int, now: int) {
    var delta := Sub(now, UnixInstant(ts));
    (if delta < 0 then Negate(delta) else delta) <= MAX_SKEW
  }

  /** For every 64-bit timestamp and every clock reading up to the year 2262: the check passes for
      timestamps within the skew, and for the band of future ones so far ahead that the difference
      clamps to the one duration whose negation is itself. */
  lemma WithinSkewExactly(ts: int, now: int)
    requires IsInt64(ts) && 0 <= now <= MAX_INT64
    ensures WithinSkew(ts, now) <==>
      || -30_000_000_000 <= now - 1_000_000_000 * ts <= 30_000_000_000
      || (SECOND * ts - now >= -MIN_INT64 && ts <= MAX_INT64 - UNIX_TO_INTERNAL)
  {
    WrapOnce(ts);
  }

  lemma WrapOnce(ts: int)
    requires IsInt64(ts)
    ensures UnixInstant(ts) ==
            if ts <= MAX_INT64 - UNIX_TO_INTERNAL then SECOND * ts else SECOND * (ts - 0x1_0000_0000_0000_0000)
  {
  }

  /** For instance the year 5138, for as long as the clock lasts. */
  lemma FarFuturePasses(now: int)
    requires 0 <= now <= MAX_INT64
    ensures WithinSkew(100_000_000_000, now)
  {
    WithinSkewExactly(100_000_000_000, now);
  }

  /** Timestamps for which the difference does not clamp. */
  predicate Ordinary(ts: int) { 0 <= SECOND * ts <= MAX_INT64 }

  // ----- nonces

  /** Redis's view: request ids with the time their nonce lapses. */
  type Nonces = map<string, int>

  /** SET key 1 NX EX 35. */
  function SetNX(nonces: Nonces, id: string, now: int): (Nonces, bool) {
    if id in nonces && now < nonces[id] then (nonces, false) else (nonces[id := now + NONCE_TTL], true)
  }

  /** A signed request as it passes the middleware: when its skew was checked and its nonce stored. */
  datatype Attempt = Attempt(id: string, ts: int, genuine: bool, checkedAt: int, storedAt: int, redisUp: bool)

  /** The checks that come before the nonce step. */
  predicate Reaches(a: Attempt) {
    WithinSkew(a.ts, a.checkedAt) && a.genuine && a.id != "" && a.redisUp
  }

  function StepNonces(nonces: Nonces, a: Attempt): (Nonces, bool) {
    if Reaches(a) then SetNX(nonces, a.id, a.storedAt) else (nonces, false)
  }

  /** The nonces after a run of attempts, taken in the order of their nonce steps. */
  function After(run: seq<Attempt>): Nonces {
    if run == [] then map[] else StepNonces(After(run[..|run| - 1]), run[|run| - 1]).0
  }

  predicate Accepted(run: seq<Attempt>, i: nat)
    requires i < |run|
  {
    StepNonces(After(run[..i]), run[i]).1
  }

  ghost predicate Timed(run: seq<Attempt>) {
    && (forall i :: 0 <= i < |run| ==> 0 <= run[i].checkedAt <= run[i].storedAt <= MAX_INT64)
    && (forall i, j :: 0 <= i < j < |run| ==> run[i].storedAt <= run[j].storedAt)
  }

  /** An accepted nonce is remembered until its time to live has passed. */
  lemma {:induction false} NonceIsRemembered(run: seq<Attempt>, i: nat, n: nat)
    requires Timed(run) && i < n <= |run| && Accepted(run, i)
    ensures run[i].id in After(run[..n]) && After(run[..n])[run[i].id] >= run[i].storedAt + NONCE_TTL
  {
    assert run[..n][..n - 1] == run[..n - 1];
    if n == i + 1 {
    } else {
      NonceIsRemembered(run, i, n - 1);
    }
  }

  /** Two acceptances of one request id have nonce steps at least 35 seconds apart. */
  lemma AcceptancesAreApart(run: seq<Attempt>, i: nat, j: nat)
    requires Timed(run) && i < j < |run| && run[i].id == run[j].id && Accepted(run, i) && Accepted(run, j)
    ensures run[j].storedAt >= run[i].storedAt + 35_000_000_000
  {
    NonceIsRemembered(run, i, j);
  }

  /** All attempts with this id are copies of one request, stored at most `d` after their check. */
  ghost predicate Copies(run: seq<Attempt>, id: string, ts: int, d: int) {
    forall i :: 0 <= i < |run| && run[i].id == id ==> run[i].ts == ts && run[i].storedAt <= run[i].checkedAt + d
  }

  ghost predicate AcceptedAgain(run: seq<Attempt>, id: string, first: int) {
    exists i, j :: 0 <= i < j < |run| && run[i].id == id && run[j].id == id
      && run[i].storedAt == first && Accepted(run, i) && Accepted(run, j)
  }

  /** A copy accepted at `first` is never accepted again, in any run, exactly when its nonce outlives
      the last moment at which a copy can pass: its timestamp plus the skew plus the longest delay. */
  lemma AcceptedOnceExactly(id: string, ts: int, d: int, first: int)
    requires id != "" && d >= 0 && 0 <= first
    requires Ordinary(ts) && SECOND * ts + MAX_SKEW + d <= MAX_INT64 - NONCE_TTL
    requires SECOND * ts - MAX_SKEW <= first <= SECOND * ts + MAX_SKEW + d
    ensures (forall run: seq<Attempt> :: Timed(run) && Copies(run, id, ts, d) ==> !AcceptedAgain(run, id, first))
            <==> first + NONCE_TTL > SECOND * ts + MAX_SKEW + d
  {
    if first + NONCE_TTL > SECOND * ts + MAX_SKEW + d {
      forall run: seq<Attempt> | Timed(run) && Copies(run, id, ts, d) ensures !AcceptedAgain(run, id, first) {
        forall i, j | 0 <= i < j < |run| && run[i].id == id && run[j].id == id && run[i].storedAt == first
          && Accepted(run, i)
          ensures !Accepted(run, j)
        {
          TooLateToPass(run, i, j, ts, d);
        }
      }
    } else {
      var run := TwiceAccepted(id, ts, d, first);
    }
  }

  lemma TooLateToPass(run: seq<Attempt>, i: nat, j: nat, ts: int, d: int)
    requires Timed(run) && i < j < |run| && run[i].id == run[j].id && Copies(run, run[i].id, ts, d) && Ordinary(ts)
    requires Accepted(run, i) && run[i].storedAt + NONCE_TTL > SECOND * ts + MAX_SKEW + d
    ensures !Accepted(run, j)
  {
    NonceIsRemembered(run, i, j);
    WithinSkewExactly(ts, run[j].checkedAt);
  }

  lemma TwiceAccepted(id: string, ts: int, d: int, first: int) returns (run: seq<Attempt>)
    requires id != "" && d >= 0 && 0 <= first
    requires Ordinary(ts) && SECOND * ts + MAX_SKEW + d <= MAX_INT64 - NONCE_TTL
    requires SECOND * ts - MAX_SKEW <= first && first + NONCE_TTL <= SECOND * ts + MAX_SKEW + d
    ensures Timed(run) && Copies(run, id, ts, d) && AcceptedAgain(run, id, first)
  {
    var latest := SECOND * ts + MAX_SKEW;
    var check := if first <= latest then first else latest;
    var again := if latest > first + NONCE_TTL then latest else first + NONCE_TTL;
    var a, b := Attempt(id, ts, true, check, first, true), Attempt(id, ts, true, latest, again, true);
    run := [a, b];
    WithinSkewExactly(ts, check);
    WithinSkewExactly(ts, latest);
    assert run[..0] == [] && run[..1] == [a];
    assert Accepted(run, 0) && Accepted(run, 1);
  }

  /** A genuine request whose timestamp is that far ahead is never used up: whenever a copy is accepted
      there is a run that accepts another, without any delay, as soon as the nonce has lapsed. */
  lemma FarFutureIsReplayed(id: string, ts: int, first: int) returns (run: seq<Attempt>)
    requires id != "" && IsInt64(ts) && ts <= MAX_INT64 - UNIX_TO_INTERNAL
    requires 0 <= first && first + NONCE_TTL <= MAX_INT64 && SECOND * ts - (first + NONCE_TTL) >= -MIN_INT64
    ensures Timed(run) && Copies(run, id, ts, 0) && AcceptedAgain(run, id, first)
  {
    var again := first + NONCE_TTL;
    var a, b := Attempt(id, ts, true, first, first, true), Attempt(id, ts, true, again, again, true);
    run := [a, b];
    WithinSkewExactly(ts, first);
    WithinSkewExactly(ts, again);
    assert run[..0] == [] && run[..1] == [a];
    assert Accepted(run, 0) && Accepted(run, 1);
  }

  /** In particular a request first accepted no earlier than its timestamp, with delays under five
      seconds, is accepted once in the whole run. */
  lemma AcceptedOnce(run: seq<Attempt>, id: string, ts: int, d: int, i: nat, j: nat)
    requires Timed(run) && Copies(run, id, ts, d) && d < 5 * SECOND && Ordinary(ts)
    requires i < |run| && j < |run| && run[i].id == id && run[j].id == id && Accepted(run, i) && Accepted(run, j)
    requires i <= j && run[i].storedAt >= SECOND * ts
    ensures i == j
  {
    if i < j {
      TooLateToPass(run, i, j, ts, d);
    }
  }
}
