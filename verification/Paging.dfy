/** The paginated list query, the handler's page, and walks that follow next cursors. */
module Paging {
  import opened Options
  import opened Uuids
  import opened Inbox
  import opened Cursors
  import TimeText

  // ----- sorting

  lemma {:induction false} PlaceKeepsOrder(s: Rows, n: Notification)
    requires NewestFirst(s) && forall k :: 0 <= k < |s| ==> s[k].id != n.id
    ensures NewestFirst(Place(s, n))
  {
    if s == [] || Newer(n, s[0]) {
    } else {
      PlaceKeepsOrder(s[1..], n);
      var rest := Place(s[1..], n);
      forall k | 0 <= k < |rest|
        ensures Newer(s[0], rest[k])
      {
        PlaceMembers(s[1..], n, rest[k]);
      }
    }
  }

  lemma {:induction false} SortOrders(rows: Rows)
    requires DistinctIds(rows)
    ensures NewestFirst(Sort(rows))
  {
    if rows == [] {
    } else {
      var init, n := rows[..|rows| - 1], rows[|rows| - 1];
      SortOrders(init);
      forall k | 0 <= k < |Sort(init)|
        ensures Sort(init)[k].id != n.id
      {
        SortMembers(init, Sort(init)[k]);
      }
      PlaceKeepsOrder(Sort(init), n);
    }
  }

  // ----- the query

  predicate Below(r: Notification, c: Cursor) {
    r.createdAt < c.createdAt || (r.createdAt == c.createdAt && r.id < c.id)
  }

  predicate Eligible(r: Notification, user: Uuid, cursor: Option<Cursor>) {
    r.user == user && (cursor.Some? ==> Below(r, cursor.value))
  }

  /** The WHERE clause. */
  function Select(rows: Rows, user: Uuid, cursor: Option<Cursor>): (r: Rows)
    ensures |r| <= |rows|
    ensures forall x :: x in r <==> x in rows && Eligible(x, user, cursor)
  {
    if rows == [] then [] else
      var n := rows[|rows| - 1];
      assert rows == rows[..|rows| - 1] + [n];
      Select(rows[..|rows| - 1], user, cursor) + (if Eligible(n, user, cursor) then [n] else [])
  }

  lemma {:induction false} SelectDistinct(rows: Rows, user: Uuid, cursor: Option<Cursor>)
    requires DistinctIds(rows)
    ensures DistinctIds(Select(rows, user, cursor))
  {
    if rows == [] {
    } else {
      var init, n := rows[..|rows| - 1], rows[|rows| - 1];
      SelectDistinct(init, user, cursor);
      var s := Select(init, user, cursor);
      forall k | 0 <= k < |s| ensures s[k].id != n.id {
        assert s[k] in init;
      }
    }
  }

  /** All rows the query ranges over, newest first. */
  function Listing(rows: Rows, user: Uuid, cursor: Option<Cursor>): (r: Rows) {
    Sort(Select(rows, user, cursor))
  }

  lemma ListingFacts(rows: Rows, user: Uuid, cursor: Option<Cursor>)
    requires DistinctIds(rows)
    ensures NewestFirst(Listing(rows, user, cursor))
    ensures forall r :: r in Listing(rows, user, cursor) <==> r in rows && Eligible(r, user, cursor)
  {
    SelectDistinct(rows, user, cursor);
    SortOrders(Select(rows, user, cursor));
    forall r ensures r in Listing(rows, user, cursor) <==> r in rows && Eligible(r, user, cursor) {
      SortMembers(Select(rows, user, cursor), r);
    }
  }

  function Take(s: Rows, n: nat): Rows { if |s| <= n then s else s[..n] }

  lemma TakeFacts(all: Rows, n: nat)
    requires NewestFirst(all) && n >= 1
    ensures NewestFirst(Take(all, n)) && forall r :: r in Take(all, n) ==> r in all
    ensures |Take(all, n)| < n ==> Take(all, n) == all
    ensures |Take(all, n)| == n ==> forall r :: r in all ==> r in Take(all, n) || Newer(Take(all, n)[n - 1], r)
  {
    var items := Take(all, n);
    if |items| == n {
      assert forall m :: 0 <= m < n ==> items[m] == all[m] && items[m] in items;
      forall r | r in all && r !in items ensures Newer(items[n - 1], r) {
        var k :| 0 <= k < |all| && all[k] == r;
      }
    }
  }

  const DEFAULT_LIMIT := 20
  const MAX_LIMIT := 100

  /** The limit normalisation, done by the handler (None: not a number) and again by the store. */
  function Limit(raw: Option<int>): (n: nat)
    ensures 1 <= n <= 100
    ensures n == if raw.Some? && 1 <= raw.value <= 100 then raw.value else 20
  {
    if raw.None? || raw.value <= 0 || raw.value > MAX_LIMIT then DEFAULT_LIMIT else raw.value
  }

  /** The store's query. */
  function Query(rows: Rows, user: Uuid, cursor: Option<Cursor>, limit: int): Rows {
    Take(Listing(rows, user, cursor), Limit(Some(limit)))
  }

  /** The query returns rows of the table that it is asked for, no more than its limit. */
  lemma QueryHolds(rows: Rows, user: Uuid, cursor: Option<Cursor>, limit: int, items: Rows)
    requires items == Query(rows, user, cursor, limit)
    ensures |items| <= Limit(Some(limit))
    ensures forall r :: r in items ==> r in rows && Eligible(r, user, cursor)
  {
    forall r | r in items ensures r in rows && Eligible(r, user, cursor) {
      assert r in Listing(rows, user, cursor);
      SortMembers(Select(rows, user, cursor), r);
    }
  }

  datatype Page = BadCursor | Page(items: Rows, next: Option<string>)

  function KeyOf(r: Notification): Cursor { Cursor(r.createdAt, r.id) }

  ghost predicate TimesInRange(rows: Rows) {
    forall k :: 0 <= k < |rows| ==> TimeText.InRange(rows[k].createdAt)
  }

  /** How cursors are written and read. */
  datatype Codec = Codec(text: Notification -> string, key: string -> Option<Cursor>)

  /** A cursor is not empty and is read back as the key it was written from. */
  ghost predicate Faithful(c: Codec) {
    forall r: Notification :: TimeText.InRange(r.createdAt) ==> c.text(r) != "" && c.key(c.text(r)) == Some(KeyOf(r))
  }

  /** The text of a row's key; a time outside the format has no model text. */
  function CursorText(r: Notification): string {
    if TimeText.InRange(r.createdAt) then Build(TimeText.Format(r.createdAt), r.id) else ""
  }

  /** The handler's cursors. */
  const CURSORS := Codec(CursorText, Decode)

  lemma TextDecodes(r: Notification)
    requires TimeText.InRange(r.createdAt)
    ensures CursorText(r) != "" && Decode(CursorText(r)) == Some(KeyOf(r))
  {
    RoundTrip(KeyOf(r));
  }

  lemma CursorsAreFaithful()
    ensures Faithful(CURSORS)
  {
    forall r: Notification | TimeText.InRange(r.createdAt)
      ensures CursorText(r) != "" && Decode(CursorText(r)) == Some(KeyOf(r))
    {
      TextDecodes(r);
    }
  }

  /** Cursors as the handler writes them when the times it is given carry a zone `offset` ahead of UTC:
      the layout's Z is a literal, so the zone's wall clock is written as if it were UTC. */
  function ZonedCursors(offset: int): Codec {
    Codec(r => CursorText(Shifted(r, offset)), Decode)
  }

  function Shifted(r: Notification, offset: int): Notification { r.(createdAt := r.createdAt + offset) }

  lemma FaithfulAsTexts(c: Codec)
    requires forall r :: c.text(r) == CursorText(r)
    requires forall r: Notification :: TimeText.InRange(r.createdAt) ==> c.key(CursorText(r)) == Some(KeyOf(r))
    requires forall r: Notification :: TimeText.InRange(r.createdAt) ==> CursorText(r) != ""
    ensures Faithful(c)
  {
    forall r: Notification | TimeText.InRange(r.createdAt)
      ensures c.text(r) != "" && c.key(c.text(r)) == Some(KeyOf(r))
    {
      assert c.text(r) == CursorText(r);
    }
  }

  lemma UnfaithfulAt(c: Codec, r: Notification, text: string)
    requires TimeText.InRange(r.createdAt) && c.text(r) == text
    requires text == "" || c.key(text) != Some(KeyOf(r))
    ensures !Faithful(c)
  {
  }

  /** The row of the epoch shows a wrong cursor in any other zone. */
  lemma ShiftedTextIsWrong(r: Notification, offset: int, text: string)
    requires offset != 0 && text == CursorText(Shifted(r, offset))
    ensures text == "" || Decode(text) != Some(KeyOf(r))
  {
    if TimeText.InRange(r.createdAt + offset) {
      TextDecodes(Shifted(r, offset));
    }
  }

  const AT_THE_EPOCH := Notification(1, 1, "", "", "", None, None, None, 0)

  /** Those cursors are read back as the key they were written from exactly when the zone is UTC. */
  lemma FaithfulExactlyInUtc(offset: int)
    ensures Faithful(ZonedCursors(offset)) <==> offset == 0
  {
    var c := ZonedCursors(offset);
    if offset == 0 {
      forall r: Notification ensures c.text(r) == CursorText(r) {
        assert Shifted(r, offset) == r;
      }
      forall r: Notification | TimeText.InRange(r.createdAt)
        ensures CursorText(r) != "" && c.key(CursorText(r)) == Some(KeyOf(r))
      {
        TextDecodes(r);
      }
      FaithfulAsTexts(c);
    } else {
      var text := c.text(AT_THE_EPOCH);
      ShiftedTextIsWrong(AT_THE_EPOCH, offset, text);
      UnfaithfulAt(c, AT_THE_EPOCH, text);
    }
  }

  /** The decoded meaning of a request's cursor. */
  function CursorValue(c: Codec, cursor: string): Option<Cursor> {
    if cursor == "" then None else c.key(cursor)
  }

  predicate ValidCursor(c: Codec, cursor: string) { cursor == "" || c.key(cursor).Some? }

  function MakePage(c: Codec, items: Rows, n: nat): Page
    requires n >= 1
  {
    Page(items, if |items| == n then Some(c.text(items[n - 1])) else None)
  }

  /** The handler's answer to one list request; an empty cursor text asks for the first page. */
  function PageOf(c: Codec, rows: Rows, user: Uuid, limit: Option<int>, cursor: string): Page {
    var n := Limit(limit);
    if !ValidCursor(c, cursor) then BadCursor else
      MakePage(c, Query(rows, user, CursorValue(c, cursor), n), n)
  }

  // ----- walks

  /** One list request: the table and limit it met, and the page it returned. */
  datatype Exchange = Exchange(rows: Rows, limit: Option<int>, items: Rows)

  /** The requests of a client that follows next cursors to the end. */
  datatype Walk = Last(first: Exchange) | Then(first: Exchange, rest: Walk)

  /** Every page of the walk put together. */
  function Returned(w: Walk): Rows {
    match w
    case Last(e) => e.items
    case Then(e, rest) => e.items + Returned(rest)
  }

  function Requests(w: Walk): nat {
    match w
    case Last(_) => 1
    case Then(_, rest) => 1 + Requests(rest)
  }

  /** Each page is the handler's answer to the cursor of the one before; the first page without a next cursor is
      the last. */
  ghost predicate IsWalk(c: Codec, w: Walk, user: Uuid, cursor: string) {
    var p := PageOf(c, w.first.rows, user, w.first.limit, cursor);
    && p.Page? && p.items == w.first.items
    && match w
       case Last(_) => p.next.None?
       case Then(_, rest) => p.next.Some? && IsWalk(c, rest, user, p.next.value)
  }

  /** What a page is, however it is computed: newest first, at most `n` rows below `key`, and only a
      full page leaves any out, all of them older than its last. */
  ghost predicate IsPage(rows: Rows, user: Uuid, key: Option<Cursor>, n: nat, items: Rows) {
    && |items| <= n && NewestFirst(items)
    && (forall r :: r in items ==> r in rows && Eligible(r, user, key))
    && (forall r :: r in rows && Eligible(r, user, key) ==> r in items || (0 < n == |items| && Newer(items[n - 1], r)))
  }

  /** A walk as the store's queries see it: each page starts below the last row of the one before,
      and the first page shorter than its limit is the last. */
  ghost predicate IsKeyWalk(w: Walk, user: Uuid, key: Option<Cursor>) {
    var n, items := Limit(w.first.limit), w.first.items;
    && IsPage(w.first.rows, user, key, n, items)
    && match w
       case Last(_) => |items| < n
       case Then(_, rest) => |items| == n && IsKeyWalk(rest, user, Some(KeyOf(items[n - 1])))
  }

  /** One request: the limits of the handler and of the store agree, and a page that is full names
      its last row as the next cursor. */
  lemma PageIsQuery(c: Codec, rows: Rows, user: Uuid, limit: Option<int>, cursor: string, items: Rows)
    requires Faithful(c) && DistinctIds(rows) && TimesInRange(rows) && ValidCursor(c, cursor)
    requires items == Query(rows, user, CursorValue(c, cursor), Limit(limit))
    ensures
      var p := PageOf(c, rows, user, limit, cursor);
      && p.Page? && p.items == items && |items| <= Limit(limit)
      && (p.next.Some? <==> |items| == Limit(limit))
      && (p.next.Some? ==>
        ValidCursor(c, p.next.value) && CursorValue(c, p.next.value) == Some(KeyOf(items[|items| - 1])))
  {
    if |items| == Limit(limit) {
      LastInRange(rows, user, CursorValue(c, cursor), items);
    }
    NextOf(c, items, Limit(limit));
  }

  lemma NextOf(c: Codec, items: Rows, n: nat)
    requires Faithful(c)
    requires 0 < n == |items| ==> TimeText.InRange(items[n - 1].createdAt)
    requires n > 0
    ensures
      var p := MakePage(c, items, n);
      && (p.next.Some? <==> |items| == n)
      && (p.next.Some? ==> ValidCursor(c, p.next.value) && CursorValue(c, p.next.value) == Some(KeyOf(items[n - 1])))
  {
  }

  lemma LastInRange(rows: Rows, user: Uuid, key: Option<Cursor>, items: Rows)
    requires TimesInRange(rows) && items != [] && items <= Listing(rows, user, key)
    ensures TimeText.InRange(items[|items| - 1].createdAt)
  {
    var last := items[|items| - 1];
    SortMembers(Select(rows, user, key), last);
    assert last == Listing(rows, user, key)[|items| - 1];
    assert last in rows;
  }

  ghost predicate InboxTable(rows: Rows) { DistinctIds(rows) && TimesInRange(rows) }

  ghost predicate OverInbox(w: Walk) {
    InboxTable(w.first.rows) && (w.Then? ==> OverInbox(w.rest))
  }

  lemma QueryIsPage(rows: Rows, user: Uuid, key: Option<Cursor>, n: nat)
    requires DistinctIds(rows) && 1 <= n <= MAX_LIMIT
    ensures IsPage(rows, user, key, n, Query(rows, user, key, n))
  {
    ListingFacts(rows, user, key);
    TakeFacts(Listing(rows, user, key), n);
  }

  lemma {:induction false} PagesAgree(rows: Rows, user: Uuid, key: Option<Cursor>, n: nat, a: Rows, b: Rows, k: nat)
    requires IsPage(rows, user, key, n, a) && IsPage(rows, user, key, n, b) && k <= |a| && k <= |b|
    ensures a[..k] == b[..k]
  {
    if k == 0 {
    } else {
      PagesAgree(rows, user, key, n, a, b, k - 1);
      NotNewer(rows, user, key, n, a, b, k - 1);
      NotNewer(rows, user, key, n, b, a, k - 1);
      assert a[k - 1] in a && b[k - 1] in b;
    }
  }

  lemma NotNewer(rows: Rows, user: Uuid, key: Option<Cursor>, n: nat, a: Rows, b: Rows, k: nat)
    requires IsPage(rows, user, key, n, a) && IsPage(rows, user, key, n, b)
    requires k < |a| && k < |b| && a[..k] == b[..k]
    ensures a[k] == b[k] || Newer(b[k], a[k])
  {
    assert a[k] in a;
    assert forall j :: 0 <= j < k ==> a[j] == a[..k][j] == b[..k][j] == b[j];
    if a[k] in b {
      var j :| 0 <= j < |b| && b[j] == a[k];
      assert j >= k;
    }
  }

  lemma NextIsNew(s: Rows, k: nat)
    requires NewestFirst(s) && k < |s|
    ensures s[k] in s && s[k] !in s[..k]
  {
  }

  lemma NotShorter(rows: Rows, user: Uuid, key: Option<Cursor>, n: nat, a: Rows, b: Rows)
    requires IsPage(rows, user, key, n, a) && IsPage(rows, user, key, n, b)
    ensures |a| >= |b|
  {
    if |a| < |b| {
      PagesAgree(rows, user, key, n, a, b, |a|);
      assert a == b[..|a|];
      NextIsNew(b, |a|);
      assert false;
    }
  }

  /** There is only one page. */
  lemma PageIsUnique(rows: Rows, user: Uuid, key: Option<Cursor>, n: nat, a: Rows, b: Rows)
    requires IsPage(rows, user, key, n, a) && IsPage(rows, user, key, n, b)
    ensures a == b
  {
    NotShorter(rows, user, key, n, a, b);
    NotShorter(rows, user, key, n, b, a);
    PagesAgree(rows, user, key, n, a, b, |a|);
    assert a[..|a|] == a && b[..|b|] == b;
  }

  /** The store's query, filtering, sorting and truncating, computes the page. */
  lemma QueryIsThePage(rows: Rows, user: Uuid, key: Option<Cursor>, n: nat, items: Rows)
    requires DistinctIds(rows) && 1 <= n <= MAX_LIMIT
    ensures IsPage(rows, user, key, n, items) <==> items == Query(rows, user, key, n)
  {
    QueryIsPage(rows, user, key, n);
    if IsPage(rows, user, key, n, items) {
      PageIsUnique(rows, user, key, n, items, Query(rows, user, key, n));
    }
  }

  /** Following cursor texts is walking by keys: the codec loses nothing between requests. */
  lemma {:induction false} WalksAreKeyWalks(c: Codec, w: Walk, user: Uuid, cursor: string)
    requires Faithful(c) && OverInbox(w) && ValidCursor(c, cursor)
    ensures IsWalk(c, w, user, cursor) <==> IsKeyWalk(w, user, CursorValue(c, cursor))
  {
    var e := w.first;
    var items := Query(e.rows, user, CursorValue(c, cursor), Limit(e.limit));
    PageIsQuery(c, e.rows, user, e.limit, cursor, items);
    QueryIsThePage(e.rows, user, CursorValue(c, cursor), Limit(e.limit), e.items);
    var next := PageOf(c, e.rows, user, e.limit, cursor).next;
    if w.Then? && next.Some? {
      WalksAreKeyWalks(c, w.rest, user, next.value);
    }
  }

  // ----- a changing inbox

  /** The same row, but perhaps for its read time. */
  predicate SameRow(a: Notification, b: Notification) {
    a.id == b.id && a.user == b.user && a.createdAt == b.createdAt
  }

  ghost predicate InTable(rows: Rows, r: Notification) {
    exists k :: 0 <= k < |rows| && SameRow(rows[k], r)
  }

  /** Every request of the walk meets a table that holds `r`. */
  ghost predicate Stays(w: Walk, r: Notification) {
    InTable(w.first.rows, r) && (w.Then? ==> Stays(w.rest, r))
  }

  lemma JoinOrdered(a: Rows, b: Rows)
    requires NewestFirst(a) && NewestFirst(b) && a != [] && forall r :: r in b ==> Newer(a[|a| - 1], r)
    ensures NewestFirst(a + b)
  {
    forall i, j | 0 <= i < j < |a + b| ensures Newer((a + b)[i], (a + b)[j]) {
      if i < |a| <= j {
        assert b[j - |a|] in b;
        assert i < |a| - 1 ==> Newer(a[i], a[|a| - 1]);
      }
    }
  }

  ghost predicate Has(walk: Rows, r: Notification) {
    exists k :: 0 <= k < |walk| && walk[k].id == r.id
  }

  lemma HasAfter(a: Rows, b: Rows, r: Notification)
    requires Has(a, r) || Has(b, r)
    ensures Has(a + b, r)
  {
    if Has(a, r) {
      var k :| 0 <= k < |a| && a[k].id == r.id;
      assert (a + b)[k].id == r.id;
    } else {
      var k :| 0 <= k < |b| && b[k].id == r.id;
      assert (a + b)[|a| + k].id == r.id;
    }
  }

  /** Whatever happens to the table between requests, pages continue each other in order. */
  lemma {:induction false} KeyWalkIsOrdered(w: Walk, user: Uuid, key: Option<Cursor>)
    requires IsKeyWalk(w, user, key)
    ensures NewestFirst(Returned(w)) && forall r :: r in Returned(w) ==> Eligible(r, user, key)
  {
    match w
    case Last(e) =>
    case Then(e, rest) =>
      KeyWalkIsOrdered(rest, user, Some(KeyOf(e.items[Limit(e.limit) - 1])));
      PrependPage(e.rows, user, key, Limit(e.limit), e.items, Returned(rest));
  }

  lemma PrependPage(rows: Rows, user: Uuid, key: Option<Cursor>, n: nat, items: Rows, rest: Rows)
    requires IsPage(rows, user, key, n, items) && 0 < n == |items| && NewestFirst(rest)
    requires forall r :: r in rest ==> Eligible(r, user, Some(KeyOf(items[n - 1])))
    ensures NewestFirst(items + rest) && forall r :: r in items + rest ==> Eligible(r, user, key)
  {
    assert items[n - 1] in items;
    JoinOrdered(items, rest);
  }

  /** A row that no page has returned is below every page so far. */
  lemma OnPageOrBelow(rows: Rows, user: Uuid, key: Option<Cursor>, n: nat, items: Rows, r: Notification)
    requires IsPage(rows, user, key, n, items) && n >= 1 && InTable(rows, r) && Eligible(r, user, key)
    ensures Has(items, r) || (|items| == n && Eligible(r, user, Some(KeyOf(items[n - 1]))))
  {
    var k :| 0 <= k < |rows| && SameRow(rows[k], r);
    var x := rows[k];
    assert x in rows && Eligible(x, user, key);
    if x in items {
      var m :| 0 <= m < |items| && items[m] == x;
    } else {
      assert Newer(items[n - 1], x);
    }
  }

  /** A row that stays in the table is returned. */
  lemma {:induction false} KeyWalkFinds(w: Walk, user: Uuid, key: Option<Cursor>, r: Notification)
    requires IsKeyWalk(w, user, key) && Stays(w, r) && Eligible(r, user, key)
    ensures Has(Returned(w), r)
  {
    var n, items := Limit(w.first.limit), w.first.items;
    OnPageOrBelow(w.first.rows, user, key, n, items, r);
    match w
    case Last(_) =>
    case Then(_, rest) =>
      if !Has(items, r) {
        KeyWalkFinds(rest, user, Some(KeyOf(items[n - 1])), r);
      }
      HasAfter(items, Returned(rest), r);
  }

  lemma WalkCursorIsValid(c: Codec, w: Walk, user: Uuid, cursor: string)
    requires IsWalk(c, w, user, cursor)
    ensures ValidCursor(c, cursor)
  {
    assert PageOf(c, w.first.rows, user, w.first.limit, cursor).Page?;
  }

  /** While others insert, mark and delete rows, a finished walk has returned only the user's rows, in
      strictly decreasing (created_at, id) order and so none twice, and has returned every row that
      was in the table at all its requests. */
  lemma WalkReturnsEverythingOnce(c: Codec, w: Walk, user: Uuid, cursor: string)
    requires Faithful(c) && OverInbox(w) && IsWalk(c, w, user, cursor)
    ensures NewestFirst(Returned(w))
    ensures forall r :: r in Returned(w) ==> Eligible(r, user, CursorValue(c, cursor))
    ensures forall r :: Stays(w, r) && Eligible(r, user, CursorValue(c, cursor)) ==> Has(Returned(w), r)
  {
    var key := CursorValue(c, cursor);
    WalkCursorIsValid(c, w, user, cursor);
    WalksAreKeyWalks(c, w, user, cursor);
    KeyWalkIsOrdered(w, user, key);
    forall r | Stays(w, r) && Eligible(r, user, key) ensures Has(Returned(w), r) {
      KeyWalkFinds(w, user, key, r);
    }
  }

  // ----- a fixed inbox

  /** The rows below the i-th of a listing are the rest of that listing. */
  lemma BelowIsSuffix(all: Rows, i: nat, r: Notification)
    requires NewestFirst(all) && 0 < i <= |all|
    ensures r in all[i..] <==> r in all && Below(r, KeyOf(all[i - 1]))
  {
    if r in all && Below(r, KeyOf(all[i - 1])) {
      var k :| 0 <= k < |all| && all[k] == r;
      assert k >= i;
      assert all[i..][k - i] == r;
    }
    if r in all[i..] {
      var k :| 0 <= k < |all[i..]| && all[i..][k] == r;
      assert all[i + k] == r && Newer(all[i - 1], all[i + k]);
    }
  }

  /** `all` is the user's whole list, newest first. */
  ghost predicate IsListing(rows: Rows, user: Uuid, all: Rows) {
    NewestFirst(all) && forall r :: r in all <==> r in rows && Eligible(r, user, None)
  }

  /** The key of the i-th row of a listing, where the rest of it starts. */
  function KeyAt(all: Rows, i: nat): Option<Cursor>
    requires i <= |all|
  {
    if i == 0 then None else Some(KeyOf(all[i - 1]))
  }

  lemma SuffixIsPage(rows: Rows, user: Uuid, all: Rows, n: nat, i: nat)
    requires IsListing(rows, user, all) && i <= |all| && n >= 1
    ensures IsPage(rows, user, KeyAt(all, i), n, Take(all[i..], n))
  {
    TakeFacts(all[i..], n);
    forall r ensures r in all[i..] <==> r in rows && Eligible(r, user, KeyAt(all, i)) {
      if i > 0 {
        BelowIsSuffix(all, i, r);
      }
    }
  }

  lemma PageAt(rows: Rows, user: Uuid, all: Rows, n: nat, i: nat, items: Rows)
    requires IsListing(rows, user, all) && i <= |all| && n >= 1
    ensures IsPage(rows, user, KeyAt(all, i), n, items) <==> items == Take(all[i..], n)
  {
    SuffixIsPage(rows, user, all, n, i);
    if IsPage(rows, user, KeyAt(all, i), n, items) {
      PageIsUnique(rows, user, KeyAt(all, i), n, items, Take(all[i..], n));
    }
  }

  /** Every request meets the same table with the same limit. */
  ghost predicate Fixed(w: Walk, rows: Rows, limit: Option<int>) {
    w.first.rows == rows && w.first.limit == limit && (w.Then? ==> Fixed(w.rest, rows, limit))
  }

  lemma {:induction false} FixedIsOverInbox(w: Walk, rows: Rows, limit: Option<int>)
    requires Fixed(w, rows, limit) && InboxTable(rows)
    ensures OverInbox(w)
  {
    if w.Last? {
    } else {
      FixedIsOverInbox(w.rest, rows, limit);
    }
  }

  lemma TakeThenRest(all: Rows, i: nat, n: nat)
    requires i + n <= |all|
    ensures Take(all[i..], n) + all[i + n..] == all[i..]
  {
  }

  lemma QuotientStep(m: nat, n: nat)
    requires n >= 1
    ensures m < n ==> m / n == 0
    ensures m >= n ==> m / n == (m - n) / n + 1
  {
    QuotientIs(m, n, if m < n then 0 else (m - n) / n + 1);
  }

  lemma QuotientIs(m: nat, n: nat, q: nat)
    requires n >= 1 && q * n <= m < q * n + n
    ensures m / n == q
  {
    assert m / n * n <= m < m / n * n + n;
    MulLess(m / n, q, n);
    MulLess(q, m / n, n);
  }

  lemma Spread(x: nat, y: nat, z: nat, n: nat)
    requires z == x + y
    ensures z * n == x * n + y * n
  {
  }

  lemma MulLess(a: nat, b: nat, n: nat)
    ensures a < b ==> a * n + n <= b * n
  {
    if a < b {
      Spread(a, 1, a + 1, n);
      Spread(a + 1, b - a - 1, b, n);
    }
  }

  lemma {:induction false} FixedKeyWalk(w: Walk, rows: Rows, user: Uuid, all: Rows, limit: Option<int>, i: nat)
    requires Fixed(w, rows, limit) && IsListing(rows, user, all)
    requires i <= |all| && IsKeyWalk(w, user, KeyAt(all, i))
    ensures Returned(w) == all[i..]
    ensures Requests(w) == (|all| - i) / Limit(limit) + 1
  {
    var n := Limit(limit);
    PageAt(rows, user, all, n, i, w.first.items);
    QuotientStep(|all| - i, n);
    if w.Last? {
    } else {
      FixedKeyWalk(w.rest, rows, user, all, limit, i + n);
      TakeThenRest(all, i, n);
    }
  }

  /** Over a fixed inbox of n rows and a fixed limit L, a walk takes exactly n / L + 1 requests and
      its pages put together are the user's rows sorted newest first. */
  lemma FixedWalk(c: Codec, w: Walk, rows: Rows, user: Uuid, limit: Option<int>)
    requires Faithful(c) && InboxTable(rows) && Fixed(w, rows, limit) && IsWalk(c, w, user, "")
    ensures Returned(w) == Sort(Select(rows, user, None))
    ensures Requests(w) == |Select(rows, user, None)| / Limit(limit) + 1
  {
    FixedIsOverInbox(w, rows, limit);
    WalksAreKeyWalks(c, w, user, "");
    FixedWalkByKeys(w, rows, user, limit);
  }

  lemma FixedWalkByKeys(w: Walk, rows: Rows, user: Uuid, limit: Option<int>)
    requires DistinctIds(rows) && Fixed(w, rows, limit) && IsKeyWalk(w, user, None)
    ensures Returned(w) == Sort(Select(rows, user, None))
    ensures Requests(w) == |Select(rows, user, None)| / Limit(limit) + 1
  {
    var all := Listing(rows, user, None);
    ListingFacts(rows, user, None);
    FixedKeyWalk(w, rows, user, all, limit, 0);
    SortLength(Select(rows, user, None));
    assert all[0..] == all;
  }

  lemma {:induction false} FixedKeyWalkExists(rows: Rows, user: Uuid, all: Rows, limit: Option<int>, i: nat)
      returns (w: Walk)
    requires IsListing(rows, user, all) && i <= |all|
    ensures Fixed(w, rows, limit) && IsKeyWalk(w, user, KeyAt(all, i))
    decreases |all| - i
  {
    var e := Exchange(rows, limit, Take(all[i..], Limit(limit)));
    PageAt(rows, user, all, Limit(limit), i, e.items);
    if |e.items| < Limit(limit) {
      w := Last(e);
    } else {
      w := FixedKeyWalkExists(rows, user, all, limit, i + Limit(limit));
      w := Then(e, w);
    }
  }

  /** Following cursors over a fixed inbox ends. */
  lemma FixedWalkExists(c: Codec, rows: Rows, user: Uuid, limit: Option<int>) returns (w: Walk)
    requires Faithful(c) && InboxTable(rows)
    ensures Fixed(w, rows, limit) && IsWalk(c, w, user, "")
  {
    ListingFacts(rows, user, None);
    w := FixedKeyWalkExists(rows, user, Listing(rows, user, None), limit, 0);
    FixedIsOverInbox(w, rows, limit);
    WalksAreKeyWalks(c, w, user, "");
  }
}
