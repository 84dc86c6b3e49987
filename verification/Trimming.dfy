/** Trimming white space as strings.TrimSpace does. */
module Trimming {

  /** unicode.IsSpace. */
  predicate IsSpace(c: char) {
    c in "\t\n\U{B}\U{C}\r " || c == '\U{85}' || c == '\U{A0}' || c == '\U{1680}'
    || '\U{2000}' <= c <= '\U{200A}' || c in "\U{2028}\U{2029}\U{202F}\U{205F}\U{3000}"
  }

  /** The twenty-five white-space code points of Unicode. */
  lemma SpacesExactly(c: char)
    ensures IsSpace(c) <==>
      || 9 <= c as int <= 13 || c as int in {32, 0x85, 0xA0, 0x1680} || 0x2000 <= c as int <= 0x200A
      || c as int in {0x2028, 0x2029, 0x202F, 0x205F, 0x3000}
  {
  }

  predicate AllSpace(s: string) { forall k :: 0 <= k < |s| ==> IsSpace(s[k]) }

  function TrimLeft(s: string): string {
    if s != "" && IsSpace(s[0]) then TrimLeft(s[1..]) else s
  }

  function TrimRight(s: string): string {
    if s != "" && IsSpace(s[|s| - 1]) then TrimRight(s[..|s| - 1]) else s
  }

  function Trim(s: string): string { TrimRight(TrimLeft(s)) }

  /** No blanks at either end. */
  predicate IsTrimmed(s: string) {
    s != "" ==> !IsSpace(s[0]) && !IsSpace(s[|s| - 1])
  }

  lemma {:induction false} TrimLeftDrops(blank: string, s: string)
    requires AllSpace(blank)
    ensures TrimLeft(blank + s) == TrimLeft(s)
  {
    if blank == "" {
      assert blank + s == s;
    } else {
      assert (blank + s)[1..] == blank[1..] + s;
      TrimLeftDrops(blank[1..], s);
    }
  }

  lemma {:induction false} TrimRightDrops(s: string, blank: string)
    requires AllSpace(blank)
    ensures TrimRight(s + blank) == TrimRight(s)
  {
    if blank == "" {
      assert s + blank == s;
    } else {
      assert (s + blank)[..|s + blank| - 1] == s + blank[..|blank| - 1];
      TrimRightDrops(s, blank[..|blank| - 1]);
    }
  }

  lemma OneMoreLeft(s: string, blank: string, rest: string)
    requires s != "" && s[1..] == blank + rest
    ensures s == [s[0]] + blank + rest
  {
    assert s == [s[0]] + s[1..];
  }

  lemma OneMoreRight(s: string, rest: string, blank: string)
    requires s != "" && s[..|s| - 1] == rest + blank
    ensures s == rest + (blank + [s[|s| - 1]])
  {
    assert s == s[..|s| - 1] + [s[|s| - 1]];
  }

  /** A text is what TrimLeft leaves, after blanks. */
  lemma {:induction false} TrimLeftParts(s: string) returns (blank: string)
    ensures AllSpace(blank) && s == blank + TrimLeft(s) && (TrimLeft(s) != "" ==> !IsSpace(TrimLeft(s)[0]))
  {
    if s != "" && IsSpace(s[0]) {
      var rest := TrimLeftParts(s[1..]);
      blank := [s[0]] + rest;
      OneMoreLeft(s, rest, TrimLeft(s[1..]));
    } else {
      blank := "";
    }
  }

  lemma {:induction false} TrimRightParts(s: string) returns (blank: string)
    ensures AllSpace(blank) && s == TrimRight(s) + blank
      && (TrimRight(s) != "" ==> !IsSpace(TrimRight(s)[|TrimRight(s)| - 1]))
  {
    if s != "" && IsSpace(s[|s| - 1]) {
      var rest := TrimRightParts(s[..|s| - 1]);
      blank := rest + [s[|s| - 1]];
      OneMoreRight(s, TrimRight(s[..|s| - 1]), rest);
    } else {
      blank := "";
    }
  }

  lemma AllBlank(s: string)
    requires AllSpace(s)
    ensures Trim(s) == ""
  {
    TrimLeftDrops(s, "");
    assert s + "" == s;
  }

  /** Blanks around a trimmed text are all that is trimmed. */
  lemma TrimBetween(left: string, s: string, right: string)
    requires AllSpace(left) && AllSpace(right) && IsTrimmed(s)
    ensures Trim(left + s + right) == s
  {
    if s == "" {
      assert left + s + right == left + right;
      AllBlank(left + right);
    } else {
      assert left + s + right == left + (s + right);
      TrimLeftDrops(left, s + right);
      assert TrimLeft(s + right) == s + right;
      TrimRightDrops(s, right);
    }
  }

  lemma Regroup(a: string, b: string, c: string, d: string, e: string)
    ensures a + (b + (c + d)) + e == (a + b) + c + (d + e)
  {
  }

  lemma TrimIgnoresBlanks(left: string, s: string, right: string)
    requires AllSpace(left) && AllSpace(right)
    ensures Trim(left + s + right) == Trim(s)
  {
    var a := TrimLeftParts(s);
    var rest := TrimLeft(s);
    var b := TrimRightParts(rest);
    var core := TrimRight(rest);
    TrimmedCore(s);
    Regroup(left, a, core, b, right);
    TrimBetween(left + a, core, b + right);
  }

  lemma TrimmedCore(s: string)
    ensures IsTrimmed(Trim(s))
  {
    var a := TrimLeftParts(s);
    var b := TrimRightParts(TrimLeft(s));
  }
}
