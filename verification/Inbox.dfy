/**
 The notifications table: one function per SQL statement, the newest-first order, and what
 every run of statements keeps.
 */
module Inbox {
  import opened Options
  import opened Uuids

  datatype Notification = Notification(
    id: Uuid,
    user: Uuid,
    kind: string,
    title: string,
    body: string,
    data: Option<string>,
    sourceEvent: Option<Uuid>,
    readAt: Option<int>,
    createdAt: int)

  /** The table in insertion order. */
  type Rows = seq<Notification>

  ghost predicate DistinctIds(rows: Rows) {
    forall i, j :: 0 <= i < j < |rows| ==> rows[i].id != rows[j].id
  }

  predicate SameEvent(a: Notification, b: Notification) {
    a.sourceEvent.Some? && a.user == b.user && a.sourceEvent == b.sourceEvent
  }

  /** The partial unique index on (user_id, source_event_id). */
  ghost predicate OneRowPerEvent(rows: Rows) {
    forall i, j :: 0 <= i < j < |rows| ==> !SameEvent(rows[i], rows[j])
  }

  ghost predicate Valid(rows: Rows) { DistinctIds(rows) && OneRowPerEvent(rows) }

  // ----- statements

  predicate HasEvent(rows: Rows, n: Notification) {
    exists k :: 0 <= k < |rows| && SameEvent(n, rows[k])
  }

  predicate HasId(rows: Rows, id: Uuid) {
    exists k :: 0 <= k < |rows| && rows[k].id == id
  }

  datatype InsertOutcome = Stored | Duplicate | IdClash

  function InsertOutcomeOf(rows: Rows, n: Notification): InsertOutcome {
    if HasEvent(rows, n) then Duplicate else if HasId(rows, n.id) then IdClash else Stored
  }

  /** No other row has the id, unless the row is a duplicate anyway. */
  predicate IdIsNew(rows: Rows, n: Notification) {
    HasEvent(rows, n) || !HasId(rows, n.id)
  }

  /** INSERT ... ON CONFLICT (user_id, source_event_id) WHERE source_event_id IS NOT NULL DO NOTHING. */
  function InsertRow(rows: Rows, n: Notification): (r: Rows)
    ensures Valid(rows) ==> Valid(r)
    ensures r == rows || r == rows + [n]
    ensures r == rows + [n] <==>
      forall k :: 0 <= k < |rows| ==>
        && rows[k].id != n.id
        && (n.sourceEvent.None? || rows[k].user != n.user || rows[k].sourceEvent != n.sourceEvent)
    ensures r == if HasEvent(rows, n) || HasId(rows, n.id) then rows else rows + [n]
  {
    assert (rows + [n])[|rows|] == n;
    if InsertOutcomeOf(rows, n).Stored? then rows + [n] else rows
  }

  predicate Marks(r: Notification, id: Option<Uuid>, user: Uuid) {
    r.user == user && r.readAt.None? && (id.Some? ==> r.id == id.value)
  }

  /** UPDATE ... SET read_at WHERE user_id AND read_at IS NULL, for one id or for all. */
  function MarkRows(rows: Rows, id: Option<Uuid>, user: Uuid, now: int): (r: Rows)
    ensures |r| == |rows|
    ensures forall k :: 0 <= k < |rows| ==>
      r[k] == if rows[k].user == user && rows[k].readAt.None? && (id.None? || rows[k].id == id.value)
              then rows[k].(readAt := Some(now)) else rows[k]
    ensures Valid(rows) ==> Valid(r)
  {
    var r := seq(|rows|, k requires 0 <= k < |rows| => if Marks(rows[k], id, user) then rows[k].(readAt := Some(now))
      else rows[k]);
    assert Valid(rows) ==> Valid(r) by {
      assert forall i, j :: 0 <= i < j < |rows| ==> SameEvent(r[i], r[j]) == SameEvent(rows[i], rows[j]);
    }
    r
  }

  /** RowsAffected of that update. */
  function Affected(rows: Rows, id: Option<Uuid>, user: Uuid): nat {
    if rows == [] then 0
    else Affected(rows[..|rows| - 1], id, user) + (if Marks(rows[|rows| - 1], id, user) then 1 else 0)
  }

  /** SELECT COUNT(*) WHERE user_id AND read_at IS NULL. */
  function Unread(rows: Rows, user: Uuid): nat {
    Affected(rows, None, user)
  }

  // ----- newest first

  predicate Newer(a: Notification, b: Notification) {
    a.createdAt > b.createdAt || (a.createdAt == b.createdAt && a.id > b.id)
  }

  ghost predicate NewestFirst(s: Rows) {
    forall i, j :: 0 <= i < j < |s| ==> Newer(s[i], s[j])
  }

  /** Insertion into a newest-first list. */
  function Place(s: Rows, n: Notification): Rows {
    if s == [] then [n]
    else if Newer(n, s[0]) then [n] + s
    else [s[0]] + Place(s[1..], n)
  }

  /** ORDER BY created_at DESC, id DESC. */
  function Sort(rows: Rows): Rows {
    if rows == [] then [] else Place(Sort(rows[..|rows| - 1]), rows[|rows| - 1])
  }

  lemma {:induction false} PlaceAdds(s: Rows, n: Notification)
    ensures multiset(Place(s, n)) == multiset(s) + multiset{n}
  {
    if s == [] || Newer(n, s[0]) {
    } else {
      PlaceAdds(s[1..], n);
      assert s == [s[0]] + s[1..];
    }
  }

  lemma AddLast(init: Rows, n: Notification, rows: Rows)
    requires rows != [] && init == rows[..|rows| - 1] && n == rows[|rows| - 1]
    ensures multiset(rows) == multiset(init) + multiset{n}
  {
    assert rows == init + [n];
  }

  lemma {:induction false} SortPermutes(rows: Rows)
    ensures multiset(Sort(rows)) == multiset(rows)
  {
    if rows == [] {
    } else {
      var init, n := rows[..|rows| - 1], rows[|rows| - 1];
      SortPermutes(init);
      PlaceAdds(Sort(init), n);
      AddLast(init, n, rows);
    }
  }

  lemma PlaceMembers(s: Rows, n: Notification, r: Notification)
    ensures r in Place(s, n) <==> r in s || r == n
  {
    PlaceAdds(s, n);
    assert r in multiset(Place(s, n)) <==> r in multiset(s) + multiset{n};
  }

  lemma SortMembers(rows: Rows, r: Notification)
    ensures r in Sort(rows) <==> r in rows
  {
    SortPermutes(rows);
    assert r in multiset(Sort(rows)) <==> r in multiset(rows);
  }

  lemma SortLength(rows: Rows)
    ensures |Sort(rows)| == |rows|
  {
    SortPermutes(rows);
    assert |multiset(Sort(rows))| == |multiset(rows)|;
  }
}
