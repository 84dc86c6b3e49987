/** Cursor text: "<createdAt>|<id>". */
module Cursors {
  import opened Options
  import opened Uuids
  import TimeText

  datatype Cursor = Cursor(createdAt: int, id: Uuid)

  /** buildCursor. */
  function Build(createdAt: string, id: Uuid): string {
    createdAt + "|" + Render(id)
  }

  function LastBar(s: string): (i: int)
    ensures -1 <= i < |s|
    ensures i >= 0 ==> s[i] == '|'
    ensures forall k :: i < k < |s| ==> s[k] != '|'
  {
    if s == "" then -1 else if s[|s| - 1] == '|' then |s| - 1 else LastBar(s[..|s| - 1])
  }

  /** What a cursor text means when its separator is at `i`: a time, then an id. */
  function DecodeAt(s: string, i: int): Option<Cursor>
    requires i < |s|
  {
    if i < 0 then None else
      var at, id := TimeText.Parse(s[..i]), Parse(s[i + 1..]);
      if at.Some? && id.Some? then Some(Cursor(at.value, id.value)) else None
  }

  /** The separator is the last bar. */
  function Decode(s: string): Option<Cursor> { DecodeAt(s, LastBar(s)) }

  lemma LastBarIs(s: string, i: int)
    requires -1 <= i < |s| && (i >= 0 ==> s[i] == '|') && forall k :: i < k < |s| ==> s[k] != '|'
    ensures LastBar(s) == i
  {
  }

  /** parseCursor: a backward scan for the separator, then both halves are validated. */
  method ParseCursor(s: string) returns (r: Option<Cursor>)
    ensures r == Decode(s)
  {
    var i := |s| - 1;
    while i >= 0 && s[i] != '|'
      invariant -1 <= i < |s|
      invariant forall k :: i < k < |s| ==> s[k] != '|'
    {
      i := i - 1;
    }
    LastBarIs(s, i);
    r := ParseHalves(s, i);
  }

  /** The validation of both halves, time first. */
  method ParseHalves(s: string, i: int) returns (r: Option<Cursor>)
    requires -1 <= i < |s|
    ensures r == DecodeAt(s, i)
  {
    if i < 0 {
      return None;
    }
    var at := TimeText.Parse(s[..i]);
    if at.None? {
      return None;
    }
    var id := Parse(s[i + 1..]);
    if id.None? {
      return None;
    }
    return Some(Cursor(at.value, id.value));
  }

  /** For every time text, even one holding bars, and every id: the halves come back unchanged, so a
      built cursor is accepted exactly when its time text is. */
  lemma DecodeBuild(createdAt: string, id: Uuid)
    ensures LastBar(Build(createdAt, id)) == |createdAt| && Build(createdAt, id)[|createdAt|] == '|'
    ensures Decode(Build(createdAt, id)) ==
            if TimeText.Parse(createdAt).Some? then Some(Cursor(TimeText.Parse(createdAt).value, id)) else None
  {
    var s := Build(createdAt, id);
    assert s[|createdAt|] == '|';
    assert forall k :: |createdAt| < k < |s| ==> s[k] == Render(id)[k - |createdAt| - 1];
    assert s[..|createdAt|] == createdAt && s[|createdAt| + 1..] == Render(id);
    ParseRender(id);
  }

  lemma RoundTrip(c: Cursor)
    requires TimeText.InRange(c.createdAt)
    ensures Decode(Build(TimeText.Format(c.createdAt), c.id)) == Some(c)
  {
    TimeText.ParseFormat(c.createdAt);
    DecodeBuild(TimeText.Format(c.createdAt), c.id);
  }
}
