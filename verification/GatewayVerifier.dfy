/** The middleware: the order of its checks, and what each acceptance implies. */
module GatewayVerifier {
  import opened Options
  import opened Numerals
  import opened GoTime
  import opened GatewayCanonical
  import opened GatewayNonce

  const BODY_LIMIT := 0x10_0000

  /** A request as the middleware reads it. `signature` is the decoded header, None if it is not
      hexadecimal; `body` is None when reading it fails. */
  datatype Request = Request(method_: string, path: string, body: Option<string>, identity: Identity,
                             signatureHeader: string, signature: Option<string>)

  datatype Verdict = Unauthorized | TooLarge | Passed

  /** strconv.ParseInt with base 10 and 64 bits. */
  function ParseTimestamp(ts: string): Option<int> {
    var n := if |ts| >= 2 && ts[0] == '+' && AllDigits(ts[1..]) then Some(Value(ts[1..]) as int) else ParseInt(ts);
    if n.Some? && IsInt64(n.value) then n else None
  }

  class Verifier {
    const secret: string
    const mac: (string, string) -> string
    const hash: string -> string
    const useRedis: bool
    var nonces: Nonces

    constructor (secret: string, mac: (string, string) -> string, hash: string -> string, useRedis: bool)
      ensures this.secret == secret && this.mac == mac && this.hash == hash && this.useRedis == useRedis
        && nonces == map[]
    {
      this.secret, this.mac, this.hash, this.useRedis := secret, mac, hash, useRedis;
      nonces := map[];
    }

    /** The gateway, holding the secret, signed exactly this method, path, body and identity. */
    predicate Signed(r: Request)
    {
      r.body.Some? && r.signature ==
        Some(mac(secret, Canonical(r.method_, r.path, hash(r.body.value), IdentityText(r.identity))))
    }

    /** Everything before the nonce step. */
    predicate Admissible(r: Request, checkedAt: int)
    {
      var ts := ParseTimestamp(r.identity.ts);
      && r.signatureHeader != "" && ts.Some? && WithinSkew(ts.value, checkedAt)
      && Signed(r) && |r.body.value| <= BODY_LIMIT
    }

    /** VerifyGatewaySignature. Without a secret everything passes. With one, a request passes exactly
        when it is admissible and, with Redis, carries a request id whose nonce is new; only then is a
        nonce stored. A readable body over the limit is named as such, but only behind the header checks. */
    method Verify(r: Request, checkedAt: int, storedAt: int, redisUp: bool) returns (v: Verdict)
      modifies this`nonces
      ensures secret == "" ==> v == Passed && nonces == old(nonces)
      ensures v == TooLarge <==>
        && secret != "" && r.signatureHeader != "" && r.body.Some? && |r.body.value| > 1_048_576
        && var ts := ParseTimestamp(r.identity.ts); ts.Some? && WithinSkew(ts.value, checkedAt)
      ensures secret != "" ==> (v == Passed <==>
        (Admissible(r, checkedAt)
         && (useRedis ==> r.identity.request != "" && redisUp && SetNX(old(nonces), r.identity.request, storedAt).1)))
      ensures secret != "" && v == Passed ==> exists m ::
        && r.signature == Some(mac(secret, m)) && r.body.Some?
        && Decode(m) == Some(Fields(r.method_, r.path, hash(r.body.value), IdentityText(r.identity)))
      ensures nonces == if secret != "" && useRedis && Admissible(r, checkedAt) && r.identity.request != "" && redisUp
                        then SetNX(old(nonces), r.identity.request, storedAt).0 else old(nonces)
      ensures secret != "" && useRedis && ParseTimestamp(r.identity.ts).Some? ==>
        (nonces, v == Passed) == StepNonces(old(nonces),
          Attempt(r.identity.request, ParseTimestamp(r.identity.ts).value, Admissible(r, checkedAt), checkedAt,
            storedAt, redisUp))
    {
      if secret == "" {
        return Passed;
      }
      if r.signatureHeader == "" || r.identity.ts == "" {
        return Unauthorized;
      }
      var ts := ParseTimestamp(r.identity.ts);
      if ts.None? || !WithinSkew(ts.value, checkedAt) {
        return Unauthorized;
      }
      if r.body.None? {
        return Unauthorized;
      }
      if |r.body.value| > BODY_LIMIT {
        return TooLarge;
      }
      var expected := mac(secret, Canonical(r.method_, r.path, hash(r.body.value), IdentityText(r.identity)));
      if r.signature != Some(expected) {
        return Unauthorized;
      }
      DecodeCanonical(r.method_, r.path, hash(r.body.value), IdentityText(r.identity));
      if useRedis {
        if r.identity.request == "" || !redisUp {
          return Unauthorized;
        }
        var stored := SetNX(nonces, r.identity.request, storedAt);
        nonces := stored.0;
        if !stored.1 {
          return Unauthorized;
        }
      }
      return Passed;
    }
  }

  /** Two different texts that a function does not tell apart. */
  predicate Collides(f: string -> string, a: string, b: string) { a != b && f(a) == f(b) }

  predicate MacCollides(v: Verifier, a: string, b: string) { a != b && v.mac(v.secret, a) == v.mac(v.secret, b) }

  /** The two requests are the same in everything the service acts on. */
  predicate SameRequest(r: Request, r': Request) {
    r.method_ == r'.method_ && r.path == r'.path && r.body == r'.body && r.identity == r'.identity
  }

  /** Two requests that pass with one signature are one request, body and identity included, provided the
      identity headers of one of them hold no bar; otherwise the MAC or the hash collides. */
  lemma SignatureCoversTheRequest(v: Verifier, r: Request, r': Request, at: int, at': int)
    requires v.Admissible(r, at) && v.Admissible(r', at') && r.signature == r'.signature && NoBars(r.identity)
    ensures
      || SameRequest(r, r')
      || Collides(v.hash, r.body.value, r'.body.value)
      || exists m, m' :: MacCollides(v, m, m')
  {
    var m := Canonical(r.method_, r.path, v.hash(r.body.value), IdentityText(r.identity));
    var m' := Canonical(r'.method_, r'.path, v.hash(r'.body.value), IdentityText(r'.identity));
    if m == m' {
      TimestampIsClean(r.identity.ts);
      CanonicalIsInjective(r.method_, r.path, v.hash(r.body.value), r.identity,
                           r'.method_, r'.path, v.hash(r'.body.value), r'.identity);
    } else {
      assert MacCollides(v, m, m');
    }
  }

  lemma TimestampIsClean(ts: string)
    requires ParseTimestamp(ts).Some?
    ensures IsTimestamp(ts)
  {
  }

  /** The decimal text of every 64-bit number is read as that number, and of no other number at all. */
  lemma TimestampsAreRead(n: int)
    ensures ParseTimestamp(Itoa(n)) == if -0x8000_0000_0000_0000 <= n <= 0x7fff_ffff_ffff_ffff then Some(n) else None
  {
    ParseItoa(n);
    assert Itoa(n)[0] != '+';
  }
}
