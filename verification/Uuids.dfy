/** UUIDs as 128-bit numbers; the big-endian value orders them as PostgreSQL does. */
module Uuids {
  import opened Options
  import opened Numerals

  type Uuid = n: nat | n < 0x1_0000_0000_0000_0000_0000_0000_0000_0000

  /** The bound is what 32 hexadecimal digits can hold. */
  lemma SixteenToThe32()
    ensures Pow16(32) == 0x1_0000_0000_0000_0000_0000_0000_0000_0000
  {
    assert Pow16(4) == 0x1_0000 && Pow16(8) == 0x1_0000 * Pow16(4) && Pow16(12) == 0x1_0000 * Pow16(8);
    assert Pow16(16) == 0x1_0000 * Pow16(12) && Pow16(20) == 0x1_0000 * Pow16(16) && Pow16(24) == 0x1_0000 * Pow16(20);
  }

  const NIL: Uuid := 0

  /** uuid.String: 8-4-4-4-12 lower-case hexadecimal digits. */
  function Render(id: Uuid): (s: string)
    ensures |s| == 36
    ensures forall k :: 0 <= k < |s| ==> IsHex(s[k]) || s[k] == '-'
  {
    var h := FixedHex(id, 32);
    h[..8] + "-" + h[8..12] + "-" + h[12..16] + "-" + h[16..20] + "-" + h[20..]
  }

  function ParseHyphenated(s: string): Option<Uuid>
    requires |s| == 36
  {
    var h := s[..8] + s[9..13] + s[14..18] + s[19..23] + s[24..];
    SixteenToThe32();
    if s[8] == '-' && s[13] == '-' && s[18] == '-' && s[23] == '-' && AllHex(h) then Some(HexValue(h)) else None
  }

  function AsciiLower(c: char): char {
    if 'A' <= c <= 'Z' then (c as int + 32) as char else c
  }

  predicate IsUrnPrefix(s: string)
    requires |s| == 9
  {
    var urn := "urn:uuid:";
    forall k :: 0 <= k < 9 ==> AsciiLower(s[k]) == urn[k]
  }

  /** uuid.Parse: hyphenated, URN, braced or bare hexadecimal form, chosen by length alone. */
  function Parse(s: string): Option<Uuid> {
    SixteenToThe32();
    if |s| == 36 then ParseHyphenated(s)
    else if |s| == 45 && IsUrnPrefix(s[..9]) then ParseHyphenated(s[9..])
    else if |s| == 38 then ParseHyphenated(s[1..37])
    else if |s| == 32 && AllHex(s) then Some(HexValue(s))
    else None
  }

  lemma ParseRender(id: Uuid)
    ensures Parse(Render(id)) == Some(id)
  {
    var h := FixedHex(id, 32);
    Hyphenated(h, Render(id));
    SixteenToThe32();
    FixedHexValue(id, 32);
  }

  lemma Hyphenated(h: string, s: string)
    requires |h| == 32 && s == h[..8] + "-" + h[8..12] + "-" + h[12..16] + "-" + h[16..20] + "-" + h[20..]
    ensures |s| == 36 && s[8] == '-' && s[13] == '-' && s[18] == '-' && s[23] == '-'
    ensures s[..8] + s[9..13] + s[14..18] + s[19..23] + s[24..] == h
  {
    assert s[..8] == h[..8] && s[9..13] == h[8..12] && s[14..18] == h[12..16];
    assert s[19..23] == h[16..20] && s[24..] == h[20..];
  }

  lemma {:induction false} HexIsLowerCase(n: nat, w: nat)
    ensures forall k :: 0 <= k < w ==> !('A' <= FixedHex(n, w)[k] <= 'F')
  {
    if w == 0 {
    } else {
      HexIsLowerCase(n / 16, w - 1);
    }
  }

  /** The layout: 8-4-4-4-12 lower-case hexadecimal digits, which read from the left are the id. */
  lemma RenderLayout(id: Uuid)
    ensures
      var s := Render(id);
      var digits := s[..8] + s[9..13] + s[14..18] + s[19..23] + s[24..];
      && s[8] == '-' && s[13] == '-' && s[18] == '-' && s[23] == '-'
      && |digits| == 32 && AllHex(digits) && HexValue(digits) == id
      && forall k :: 0 <= k < 32 ==> !('A' <= digits[k] <= 'F')
  {
    Hyphenated(FixedHex(id, 32), Render(id));
    SixteenToThe32();
    FixedHexValue(id, 32);
    HexIsLowerCase(id, 32);
  }
}
