/** The gateway's canonical signing text: three length-prefixed fields, then the identity joined with bars. */
module GatewayCanonical {
  import opened Options
  import opened Text
  import opened Numerals

  /** A field preceded by its byte length and a newline, and followed by a newline. */
  function Frame(field: string): string {
    Decimal(|field|) + "\n" + field + "\n"
  }

  datatype Identity = Identity(user: string, tier: string, account: string, verified: string, request: string,
      ts: string)

  function HeadersOf(id: Identity): seq<string> { [id.user, id.tier, id.account, id.verified, id.request, id.ts] }

  function IdentityText(id: Identity): string {
    Join(HeadersOf(id), '|')
  }

  /** The text computeGatewaySignature signs, for a body hash already in hexadecimal. */
  function Canonical(method_: string, path: string, bodyHash: string, identity: string): string {
    Frame(method_) + Frame(path) + Frame(bodyHash) + identity
  }

  /** The layout, byte for byte: lengths and fields on lines of their own, the headers in order at the end. */
  lemma LayoutOfOneText()
    ensures Canonical("PUT", "/v1?x=1", "ab", IdentityText(Identity("u", "2", "a", "true", "r", "9")))
         == "3\nPUT\n" + "7\n/v1?x=1\n" + "2\nab\n" + "u|2|a|true|r|9"
  {
    ThreeFrames();
    OneIdentity();
  }

  lemma ThreeFrames()
    ensures Frame("PUT") == "3\nPUT\n" && Frame("/v1?x=1") == "7\n/v1?x=1\n" && Frame("ab") == "2\nab\n"
  {
    assert Decimal(3) == "3" && Decimal(7) == "7" && Decimal(2) == "2";
  }

  lemma OneIdentity()
    ensures IdentityText(Identity("u", "2", "a", "true", "r", "9")) == "u|2|a|true|r|9"
  {
    JoinOne("r", ["9"], '|');
    JoinOne("true", ["r"] + ["9"], '|');
    JoinOne("a", ["true"] + (["r"] + ["9"]), '|');
    JoinOne("2", ["a"] + (["true"] + (["r"] + ["9"])), '|');
    JoinOne("u", ["2"] + (["a"] + (["true"] + (["r"] + ["9"]))), '|');
    var parts := ["u"] + (["2"] + (["a"] + (["true"] + (["r"] + ["9"]))));
    assert HeadersOf(Identity("u", "2", "a", "true", "r", "9")) == parts;
    assert Join(["9"], '|') == "9";
  }

  /** Reads one frame off the front: the field and what follows it. */
  function Unframe(s: string): Option<(string, string)> {
    var i := IndexOf(s, '\n');
    if i < 1 || !AllDigits(s[..i]) then None
    else
      var n, rest := Value(s[..i]), s[i + 1..];
      if n < |rest| && rest[n] == '\n' then Some((rest[..n], rest[n + 1..])) else None
  }

  datatype Fields = Fields(method_: string, path: string, bodyHash: string, identity: string)

  function Decode(s: string): Option<Fields> {
    var m := Unframe(s);
    if m.None? then None else
      var p := Unframe(m.value.1);
      if p.None? then None else
        var b := Unframe(p.value.1);
        if b.None? then None else Some(Fields(m.value.0, p.value.0, b.value.0, b.value.1))
  }

  lemma UnframeFrame(field: string, rest: string)
    ensures Unframe(Frame(field) + rest) == Some((field, rest))
  {
    var digits := Decimal(|field|);
    var s := Frame(field) + rest;
    assert s == digits + ['\n'] + (field + "\n" + rest);
    assert '\n' !in digits;
    IndexOfIs(digits, '\n', field + "\n" + rest);
    assert s[..|digits|] == digits && s[|digits| + 1..] == field + "\n" + rest;
    assert (field + "\n" + rest)[..|field|] == field && (field + "\n" + rest)[|field| + 1..] == rest;
  }

  /** Method, path, body hash and identity text are recovered whatever bytes they hold. */
  lemma DecodeCanonical(method_: string, path: string, bodyHash: string, identity: string)
    ensures Decode(Canonical(method_, path, bodyHash, identity)) == Some(Fields(method_, path, bodyHash, identity))
  {
    var s := Canonical(method_, path, bodyHash, identity);
    assert s == Frame(method_) + (Frame(path) + (Frame(bodyHash) + identity));
    UnframeFrame(method_, Frame(path) + (Frame(bodyHash) + identity));
    UnframeFrame(path, Frame(bodyHash) + identity);
    UnframeFrame(bodyHash, identity);
  }

  predicate NoBars(id: Identity) {
    '|' !in id.user && '|' !in id.tier && '|' !in id.account && '|' !in id.verified && '|' !in id.request
  }

  function DecodeIdentity(s: string): Option<Identity> {
    var parts := Split(s, '|');
    if |parts| == 6 then Some(Identity(parts[0], parts[1], parts[2], parts[3], parts[4], parts[5])) else None
  }

  /** A timestamp header that strconv.ParseInt accepts has no bar. */
  predicate IsTimestamp(ts: string) { ParseInt(ts).Some? || (|ts| >= 2 && ts[0] == '+' && AllDigits(ts[1..])) }

  lemma HeadersAreClean(id: Identity)
    requires IsTimestamp(id.ts)
    ensures NoBars(id) <==> NonePart(HeadersOf(id), '|')
  {
    var parts := HeadersOf(id);
    assert '|' !in id.ts;
    assert parts[0] == id.user && parts[1] == id.tier && parts[2] == id.account && parts[3] == id.verified
      && parts[4] == id.request;
  }

  lemma SameHeaders(id: Identity, id': Identity)
    requires HeadersOf(id) == HeadersOf(id')
    ensures id == id'
  {
    var a, b := HeadersOf(id), HeadersOf(id');
    assert a[0] == b[0] && a[1] == b[1] && a[2] == b[2] && a[3] == b[3] && a[4] == b[4] && a[5] == b[5];
  }

  /** An identity text whose genuine headers hold no bar stands for no other headers at all. */
  lemma IdentityTextIsInjective(id: Identity, id': Identity)
    requires NoBars(id) && IsTimestamp(id.ts) && IdentityText(id) == IdentityText(id')
    ensures id == id'
  {
    HeadersAreClean(id);
    JoinIsInjective(HeadersOf(id), HeadersOf(id'), '|');
    SameHeaders(id, id');
  }

  /** When the signed request has no bar in its identity headers, no other request has the same
      signed text, whatever its nine fields hold. */
  lemma CanonicalIsInjective(m: string, p: string, b: string, id: Identity, m': string, p': string, b': string,
      id': Identity)
    requires NoBars(id) && IsTimestamp(id.ts)
    requires Canonical(m, p, b, IdentityText(id)) == Canonical(m', p', b', IdentityText(id'))
    ensures m == m' && p == p' && b == b' && id == id'
  {
    DecodeCanonical(m, p, b, IdentityText(id));
    DecodeCanonical(m', p', b', IdentityText(id'));
    IdentityTextIsInjective(id, id');
  }

  /** Cuts a header at its first bar and pushes the rest into the next one. */
  function Push(first: string, second: string): (string, string)
    requires '|' in first
  {
    var i := IndexOf(first, '|');
    (first[..i], first[i + 1..] + "|" + second)
  }

  /** Cuts a header at its first bar and pushes its head into the one before. */
  function Pull(first: string, second: string): (string, string)
    requires '|' in second
  {
    var i := IndexOf(second, '|');
    (first + "|" + second[..i], second[i + 1..])
  }

  lemma PushKeepsTheText(first: string, second: string)
    requires '|' in first
    ensures Push(first, second).0 + "|" + Push(first, second).1 == first + "|" + second
    ensures Push(first, second).0 != first
  {
    var i := IndexOf(first, '|');
    assert first == first[..i] + "|" + first[i + 1..];
    assert |first[..i]| < |first|;
  }

  lemma PullKeepsTheText(first: string, second: string)
    requires '|' in second
    ensures Pull(first, second).0 + "|" + Pull(first, second).1 == first + "|" + second
    ensures Pull(first, second).0 != first
  {
    var i := IndexOf(second, '|');
    assert second == second[..i] + "|" + second[i + 1..];
    assert |Pull(first, second).0| > |first|;
  }

  /** The headers that share an identity text with headers that hold a bar. */
  function Other(id: Identity): Identity
    requires !NoBars(id)
  {
    if '|' in id.user then var (a, b) := Push(id.user, id.tier); id.(user := a, tier := b)
    else if '|' in id.tier then var (a, b) := Push(id.tier, id.account); id.(tier := a, account := b)
    else if '|' in id.account then var (a, b) := Push(id.account, id.verified); id.(account := a, verified := b)
    else if '|' in id.verified then var (a, b) := Push(id.verified, id.request); id.(verified := a, request := b)
    else var (a, b) := Pull(id.verified, id.request); id.(verified := a, request := b)
  }

  lemma OtherSharesTheText(id: Identity)
    requires !NoBars(id)
    ensures Other(id) != id && Other(id).ts == id.ts && IdentityText(Other(id)) == IdentityText(id)
  {
    if '|' in id.user {
      PushKeepsTheText(id.user, id.tier);
      SharesTheText(id, Other(id), 0);
    } else if '|' in id.tier {
      PushKeepsTheText(id.tier, id.account);
      SharesTheText(id, Other(id), 1);
    } else if '|' in id.account {
      PushKeepsTheText(id.account, id.verified);
      SharesTheText(id, Other(id), 2);
    } else {
      if '|' in id.verified {
        PushKeepsTheText(id.verified, id.request);
      } else {
        PullKeepsTheText(id.verified, id.request);
      }
      SharesTheText(id, Other(id), 3);
    }
  }

  /** Two identities that differ in headers k and k + 1 only, around a bar that moved. */
  lemma SharesTheText(id: Identity, id': Identity, k: nat)
    requires k < 5
    requires
      var a, b := HeadersOf(id), HeadersOf(id');
      a[..k] == b[..k] && a[k + 2..] == b[k + 2..] && a[k] + "|" + a[k + 1] == b[k] + "|" + b[k + 1]
    ensures IdentityText(id) == IdentityText(id')
  {
    var a, b := HeadersOf(id), HeadersOf(id');
    assert a == a[..k] + [a[k], a[k + 1]] + a[k + 2..] && b == b[..k] + [b[k], b[k + 1]] + b[k + 2..];
    MoveSeparator(a[..k], a[k], a[k + 1], b[k], b[k + 1], a[k + 2..], '|');
  }

  /** Headers are told apart from all others by their text, and decode from it, exactly when none of
      the five holds a bar. */
  lemma IdentityDecodesExactly(id: Identity)
    requires IsTimestamp(id.ts)
    ensures DecodeIdentity(IdentityText(id)) == Some(id) <==> NoBars(id)
    ensures (exists id' :: id' != id && IsTimestamp(id'.ts) && IdentityText(id') == IdentityText(id)) <==> !NoBars(id)
  {
    if NoBars(id) {
      HeadersAreClean(id);
      SplitJoin(HeadersOf(id), '|');
      forall id' | IdentityText(id') == IdentityText(id) ensures id' == id {
        IdentityTextIsInjective(id, id');
      }
    } else {
      OtherSharesTheText(id);
      if DecodeIdentity(IdentityText(id)) == Some(id) {
        PiecesHaveNoBars(IdentityText(id), id);
      }
    }
  }

  /** So a signed text stands for a second request exactly when an identity header holds a bar. */
  lemma SignedTextIsSharedExactly(m: string, p: string, b: string, id: Identity)
    requires IsTimestamp(id.ts)
    ensures
      (exists m', p', b', id' ::
         && (m', p', b', id') != (m, p, b, id) && IsTimestamp(id'.ts)
         && Canonical(m', p', b', IdentityText(id')) == Canonical(m, p, b, IdentityText(id)))
      <==> !NoBars(id)
  {
    if NoBars(id) {
      forall m', p', b', id' | Canonical(m', p', b', IdentityText(id')) == Canonical(m, p, b, IdentityText(id))
        ensures (m', p', b', id') == (m, p, b, id)
      {
        CanonicalIsInjective(m, p, b, id, m', p', b', id');
      }
    } else {
      OtherSharesTheText(id);
      assert Canonical(m, p, b, IdentityText(Other(id))) == Canonical(m, p, b, IdentityText(id));
    }
  }

  lemma PiecesHaveNoBars(s: string, id: Identity)
    requires DecodeIdentity(s) == Some(id)
    ensures NoBars(id)
  {
    SplitPiecesAreClean(s, '|');
  }
}
