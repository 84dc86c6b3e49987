/** Searching, splitting and joining of text. A char stands for one byte wherever the service works on bytes. */
module Text {

  /** Position of the first `c` in `s`, or -1. */
  function IndexOf(s: string, c: char): (i: int)
    ensures -1 <= i < |s|
    ensures i >= 0 ==> s[i] == c && c !in s[..i]
    ensures i < 0 ==> c !in s
  {
    if s == "" then -1
    else if s[0] == c then 0
    else
      var rest := IndexOf(s[1..], c);
      assert s == [s[0]] + s[1..];
      if rest < 0 then -1 else
        assert s[..rest + 1] == [s[0]] + s[1..][..rest];
        rest + 1
  }

  /** The first occurrence is determined by what precedes it. */
  lemma IndexOfIs(before: string, c: char, after: string)
    requires c !in before
    ensures IndexOf(before + [c] + after, c) == |before|
  {
    var s := before + [c] + after;
    assert s[|before|] == c;
    assert forall k :: 0 <= k < |before| ==> s[k] == before[k];
  }

  /** The pieces of `s` between the occurrences of `c`; never empty. */
  function Split(s: string, c: char): (parts: seq<string>)
    ensures |parts| >= 1
    decreases |s|
  {
    var i := IndexOf(s, c);
    if i < 0 then [s] else [s[..i]] + Split(s[i + 1..], c)
  }

  lemma {:induction false} SplitPiecesAreClean(s: string, c: char)
    ensures forall k :: 0 <= k < |Split(s, c)| ==> c !in Split(s, c)[k]
    decreases |s|
  {
    var i := IndexOf(s, c);
    if i < 0 {
    } else {
      var rest := Split(s[i + 1..], c);
      SplitPiecesAreClean(s[i + 1..], c);
      forall k | 0 <= k < |Split(s, c)|
        ensures c !in Split(s, c)[k]
      {
        if k > 0 {
          assert Split(s, c)[k] == rest[k - 1];
        }
      }
    }
  }

  function Join(parts: seq<string>, c: char): string
    requires |parts| >= 1
  {
    if |parts| == 1 then parts[0] else parts[0] + [c] + Join(parts[1..], c)
  }

  /** A piece without separator in front is split off. */
  lemma SplitAtFirst(piece: string, c: char, rest: string)
    requires c !in piece
    ensures Split(piece + [c] + rest, c) == [piece] + Split(rest, c)
  {
    var s := piece + [c] + rest;
    IndexOfIs(piece, c, rest);
    assert s[..|piece|] == piece && s[|piece| + 1..] == rest;
  }

  lemma JoinOne(piece: string, rest: seq<string>, c: char)
    requires |rest| >= 1
    ensures Join([piece] + rest, c) == piece + [c] + Join(rest, c)
  {
    assert ([piece] + rest)[1..] == rest;
  }

  lemma SplitOneMore(piece: string, parts: seq<string>, c: char)
    requires |parts| >= 1 && c !in piece
    ensures Split(Join([piece] + parts, c), c) == [piece] + Split(Join(parts, c), c)
  {
    JoinOne(piece, parts, c);
    SplitAtFirst(piece, c, Join(parts, c));
  }

  lemma Shift<T>(a: seq<T>, b: seq<T>)
    requires a != []
    ensures a + b == [a[0]] + (a[1..] + b)
  {
  }

  /** Clean pieces in front of a join are split off one by one. */
  lemma {:induction false} SplitPrefix(prefix: seq<string>, rest: seq<string>, c: char)
    requires |rest| >= 1 && forall k :: 0 <= k < |prefix| ==> c !in prefix[k]
    ensures Split(Join(prefix + rest, c), c) == prefix + Split(Join(rest, c), c)
  {
    if prefix == [] {
      assert prefix + rest == rest;
    } else {
      SplitPrefix(prefix[1..], rest, c);
      SplitOneMore(prefix[0], prefix[1..] + rest, c);
      Shift(prefix, rest);
      Shift(prefix, Split(Join(rest, c), c));
    }
  }

  lemma SplitJoin(parts: seq<string>, c: char)
    requires |parts| >= 1
    requires forall k :: 0 <= k < |parts| ==> c !in parts[k]
    ensures Split(Join(parts, c), c) == parts
  {
    var init, last := parts[..|parts| - 1], parts[|parts| - 1];
    assert parts == init + [last];
    SplitPrefix(init, [last], c);
    assert Join([last], c) == last;
  }

  lemma {:induction false} JoinSplit(s: string, c: char)
    ensures Join(Split(s, c), c) == s
    decreases |s|
  {
    var i := IndexOf(s, c);
    if i < 0 {
      assert Join([s], c) == s;
    } else {
      JoinSplit(s[i + 1..], c);
      JoinOne(s[..i], Split(s[i + 1..], c), c);
      CutAt(s, i);
    }
  }

  lemma CutAt<T>(s: seq<T>, i: nat)
    requires i < |s|
    ensures s[..i] + [s[i]] + s[i + 1..] == s
  {
  }

  lemma {:induction false} JoinAppend(parts: seq<string>, last: string, c: char)
    requires |parts| >= 1
    ensures Join(parts + [last], c) == Join(parts, c) + [c] + last
  {
    if |parts| == 1 {
      assert (parts + [last])[1..] == [last];
    } else {
      JoinAppend(parts[1..], last, c);
      assert (parts + [last])[1..] == parts[1..] + [last];
    }
  }

  /** Splitting a concatenation around one separator splits both sides. */
  lemma SplitConcat(a: string, c: char, b: string)
    ensures Split(a + [c] + b, c) == Split(a, c) + Split(b, c)
  {
    JoinSplit(a, c);
    JoinAppend(Split(a, c), b, c);
    SplitPiecesAreClean(a, c);
    SplitPrefix(Split(a, c), [b], c);
  }

  /** A join is not changed by a separator that moves between two neighbours. */
  lemma {:induction false} MoveSeparator(prefix: seq<string>, a: string, b: string, a': string, b': string,
      rest: seq<string>, c: char)
    requires a + [c] + b == a' + [c] + b'
    ensures Join(prefix + [a, b] + rest, c) == Join(prefix + [a', b'] + rest, c)
  {
    if prefix == [] {
      PairFirst(a, b, rest, c);
      PairFirst(a', b', rest, c);
      NoPrefix(prefix, [a, b], rest);
      NoPrefix(prefix, [a', b'], rest);
    } else {
      MoveSeparator(prefix[1..], a, b, a', b', rest, c);
      JoinOne(prefix[0], prefix[1..] + [a, b] + rest, c);
      JoinOne(prefix[0], prefix[1..] + [a', b'] + rest, c);
      HeadFirst(prefix, [a, b], rest);
      HeadFirst(prefix, [a', b'], rest);
    }
  }

  lemma NoPrefix<T>(a: seq<T>, b: seq<T>, c: seq<T>)
    requires a == []
    ensures a + b + c == b + c
  {
  }

  lemma HeadFirst<T>(a: seq<T>, b: seq<T>, c: seq<T>)
    requires a != []
    ensures a + b + c == [a[0]] + (a[1..] + b + c)
  {
  }

  /** The first two parts enter a join only through the text around their separator. */
  lemma PairFirst(a: string, b: string, rest: seq<string>, c: char)
    ensures Join([a, b] + rest, c) == if rest == [] then a + [c] + b else a + [c] + b + [c] + Join(rest, c)
  {
    assert [a, b] + rest == [a] + ([b] + rest);
    JoinOne(a, [b] + rest, c);
    if rest == [] {
      assert [b] + rest == [b];
    } else {
      JoinOne(b, rest, c);
      assert a + [c] + (b + [c] + Join(rest, c)) == a + [c] + b + [c] + Join(rest, c);
    }
  }

  predicate NonePart(parts: seq<string>, c: char) { forall k :: 0 <= k < |parts| ==> c !in parts[k] }

  lemma OnePiece(s: string, c: char)
    ensures |Split(s, c)| == 1 <==> c !in s
  {
  }

  /** A join splits into at least as many pieces as it was made of, and into no more only if no part
      holds the separator. */
  lemma {:induction false} JoinedPieces(parts: seq<string>, c: char)
    requires |parts| >= 1
    ensures |Split(Join(parts, c), c)| >= |parts|
    ensures |Split(Join(parts, c), c)| == |parts| ==> NonePart(parts, c)
  {
    OnePiece(parts[0], c);
    if |parts| == 1 {
      assert Join(parts, c) == parts[0];
    } else {
      var rest := parts[1..];
      JoinedPieces(rest, c);
      SplitConcat(parts[0], c, Join(rest, c));
      assert forall k :: 0 < k < |parts| ==> parts[k] == rest[k - 1];
    }
  }

  /** A join of parts without separator is no join of any other parts, as many of them. */
  lemma JoinIsInjective(a: seq<string>, b: seq<string>, c: char)
    requires |a| == |b| >= 1 && NonePart(a, c) && Join(a, c) == Join(b, c)
    ensures a == b
  {
    SplitJoin(a, c);
    JoinedPieces(b, c);
    SplitJoin(b, c);
  }
}
