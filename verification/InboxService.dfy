/** The notification store and the list handler as the service runs them. */
module InboxService {
  import opened Options
  import opened Uuids
  import opened Inbox
  import opened Cursors
  import opened Paging
  import opened InboxRuns
  import TimeText

  datatype MarkOutcome = Marked | NotFound | Failed

  class NotificationStore {
    var rows: Rows

    constructor ()
      ensures rows == [] && Valid(rows)
    {
      rows := [];
    }

    /** Insert: a duplicate (user, event) pair is silently ignored, a reused id is an error. */
    method Insert(n: Notification, fault: Fault) returns (ok: bool)
      requires Valid(rows)
      modifies this
      ensures Valid(rows) && rows == if fault.FailsBefore? then old(rows) else InsertRow(old(rows), n)
      ensures
        var duplicate := exists k :: 0 <= k < |old(rows)| && old(rows)[k].user == n.user
                                     && n.sourceEvent.Some? && old(rows)[k].sourceEvent == n.sourceEvent;
        var idTaken := exists k :: 0 <= k < |old(rows)| && old(rows)[k].id == n.id;
        && (ok <==> fault.NoFault? && (duplicate || !idTaken))
        && rows == if fault.FailsBefore? || duplicate || idTaken then old(rows) else old(rows) + [n]
    {
      var outcome := InsertOutcomeOf(rows, n);
      assert HasEvent(rows, n) <==> exists k :: 0 <= k < |rows| && rows[k].user == n.user
                                               && n.sourceEvent.Some? && rows[k].sourceEvent == n.sourceEvent;
      if fault.FailsBefore? {
        return false;
      }
      rows := InsertRow(rows, n);
      return fault.NoFault? && !outcome.IdClash?;
    }

    /** List: runs the query and collects its rows one by one; None if either fails. */
    method List(user: Uuid, cursor: Option<Cursor>, limit: int, fails: bool) returns (result: Option<Rows>)
      ensures result.None? <==> fails
      ensures result.Some? ==> result.value == Query(rows, user, cursor, limit)
      ensures result.Some? ==> |result.value| <= if 1 <= limit <= 100 then limit else 20
      ensures result.Some? ==> forall r :: r in result.value ==>
        && r in rows && r.user == user
        && (cursor.Some? ==>
              || r.createdAt < cursor.value.createdAt
              || (r.createdAt == cursor.value.createdAt && r.id < cursor.value.id))
      ensures result.Some? && DistinctIds(rows) ==> forall i, j :: 0 <= i < j < |result.value| ==>
        var a, b := result.value[i], result.value[j];
        a.createdAt > b.createdAt || (a.createdAt == b.createdAt && a.id > b.id)
      ensures result.Some? && DistinctIds(rows) ==> IsPage(rows, user, cursor, Limit(Some(limit)), result.value)
    {
      if fails {
        return None;
      }
      var answer := Query(rows, user, cursor, limit);
      var items: Rows := [];
      for k := 0 to |answer|
        invariant items == answer[..k]
      {
        items := items + [answer[k]];
      }
      assert answer[..|answer|] == answer;
      QueryHolds(rows, user, cursor, limit, answer);
      if DistinctIds(rows) {
        QueryIsPage(rows, user, cursor, Limit(Some(limit)));
      }
      return Some(items);
    }

    method UnreadCount(user: Uuid, fails: bool) returns (answer: Option<nat>)
      ensures answer == if fails then None else Some(Unread(rows, user))
      ensures answer.Some? ==> answer.value == |set k: nat | k < |rows| && rows[k].user == user && rows[k].readAt.None?|
    {
      if fails {
        return None;
      }
      var count := 0;
      for k := 0 to |rows|
        invariant count == Unread(rows[..k], user)
      {
        assert rows[..k + 1][..k] == rows[..k];
        if rows[k].user == user && rows[k].readAt.None? {
          count := count + 1;
        }
      }
      assert rows[..|rows|] == rows;
      UnreadIsCount(rows, user);
      return Some(count);
    }

    /** MarkRead: not found, another user's and already read are one and the same failure. */
    method MarkRead(id: Uuid, user: Uuid, now: int, fault: Fault) returns (outcome: MarkOutcome)
      requires Valid(rows)
      modifies this
      ensures Valid(rows) && rows == if fault.FailsBefore? then old(rows) else MarkRows(old(rows), Some(id), user, now)
      ensures outcome == Failed <==> !fault.NoFault?
      ensures outcome == Marked <==>
        && fault.NoFault?
        && exists k ::
             && 0 <= k < |old(rows)| && old(rows)[k].id == id
             && old(rows)[k].user == user && old(rows)[k].readAt.None?
      ensures outcome == NotFound ==> rows == old(rows)
    {
      if fault.FailsBefore? {
        return Failed;
      }
      var found := exists k :: 0 <= k < |rows| && Marks(rows[k], Some(id), user);
      rows := MarkRows(rows, Some(id), user, now);
      return if fault.FailsAfter? then Failed else if found then Marked else NotFound;
    }

    method MarkAllRead(user: Uuid, now: int, fault: Fault) returns (ok: bool)
      requires Valid(rows)
      modifies this
      ensures Valid(rows) && rows == if fault.FailsBefore? then old(rows) else MarkRows(old(rows), None, user, now)
      ensures ok <==> fault.NoFault?
      ensures ok ==> forall k :: 0 <= k < |rows| && rows[k].user == user ==> rows[k].readAt.Some?
    {
      if fault.FailsBefore? {
        return false;
      }
      rows := MarkRows(rows, None, user, now);
      return fault.NoFault?;
    }
  }

  /** The JSON shape of one notification. */
  datatype Item = Item(id: Uuid, kind: string, title: string, body: string, data: Option<string>,
                       sourceEvent: Option<Uuid>, readAt: Option<string>, createdAt: string)

  function TextOf(t: int): string { if TimeText.InRange(t) then TimeText.Format(t) else "" }

  function ToItem(n: Notification): Item {
    Item(n.id, n.kind, n.title, n.body, if n.data == Some("") then None else n.data, n.sourceEvent,
         if n.readAt.Some? then Some(TextOf(n.readAt.value)) else None, TextOf(n.createdAt))
  }

  /** Each field of an item is the row's own, times as texts that are read back as those times, and empty
      data is left out. */
  lemma ItemShowsRow(n: Notification)
    requires TimeText.InRange(n.createdAt) && (n.readAt.Some? ==> TimeText.InRange(n.readAt.value))
    ensures
      var item := ToItem(n);
      && item.id == n.id && item.kind == n.kind && item.title == n.title && item.body == n.body
      && item.sourceEvent == n.sourceEvent
      && (item.data.Some? <==> n.data.Some? && n.data.value != "") && (item.data.Some? ==> item.data == n.data)
      && TimeText.Parse(item.createdAt) == Some(n.createdAt)
      && (item.readAt.Some? <==> n.readAt.Some?)
      && (n.readAt.Some? ==> TimeText.Parse(item.readAt.value) == Some(n.readAt.value))
  {
    TimeText.ParseFormat(n.createdAt);
    if n.readAt.Some? {
      TimeText.ParseFormat(n.readAt.value);
    }
  }

  datatype Response = Unauthorized | BadRequest | InternalError | Ok(items: seq<Item>, next: Option<string>)

  /** The response that shows a page. */
  predicate Shows(r: Response, p: Page) {
    match p
    case BadCursor => r == BadRequest
    case Page(rows, next) =>
      r.Ok? && r.next == next && |r.items| == |rows| && forall k :: 0 <= k < |rows| ==> r.items[k] == ToItem(rows[k])
  }

  method ToItems(notifications: Rows) returns (items: seq<Item>)
    ensures |items| == |notifications| && forall k :: 0 <= k < |items| ==> items[k] == ToItem(notifications[k])
  {
    items := [];
    for k := 0 to |notifications|
      invariant |items| == k
      invariant forall m :: 0 <= m < k ==> items[m] == ToItem(notifications[m])
    {
      items := items + [ToItem(notifications[k])];
    }
  }

  /** What the handler answers with the rows its query returned is the page of the cursor. */
  lemma AnswerIsPage(rows: Rows, user: Uuid, limit: Option<int>, cursor: string, items: Rows)
    requires ValidCursor(CURSORS, cursor) && items == Query(rows, user, CursorValue(CURSORS, cursor), Limit(limit))
    ensures PageOf(CURSORS, rows, user, limit, cursor) == MakePage(CURSORS, items, Limit(limit))
  {
  }

  /** GET /v1/me/notifications: for a user, the response is the page that walks are made of, a bad
      request exactly when the cursor means nothing, or an internal error when the query fails. */
  method HandleList(store: NotificationStore, identity: Option<Uuid>, rawLimit: Option<int>, cursor: string,
      fails: bool)
    returns (r: Response)
    ensures identity.None? ==> r == Unauthorized
    ensures identity.Some? ==>
      var p := PageOf(CURSORS, store.rows, identity.value, rawLimit, cursor);
      if p.Page? && fails then r == InternalError else Shows(r, p)
  {
    if identity.None? {
      return Unauthorized;
    }
    var user := identity.value;
    var limit := if rawLimit.None? || rawLimit.value <= 0 || rawLimit.value > MAX_LIMIT then DEFAULT_LIMIT
      else rawLimit.value;
    assert limit == Limit(rawLimit) && limit == Limit(Some(limit));
    var from: Option<Cursor> := None;
    if cursor != "" {
      from := ParseCursor(cursor);
      if from.None? {
        return BadRequest;
      }
    }
    var answer := store.List(user, from, limit, fails);
    if answer.None? {
      return InternalError;
    }
    AnswerIsPage(store.rows, user, rawLimit, cursor, answer.value);
    r := Respond(answer.value, limit);
  }

  /** The items, and a next cursor if there are as many as the limit. */
  method Respond(notifications: Rows, limit: nat) returns (r: Response)
    requires limit >= 1
    ensures Shows(r, MakePage(CURSORS, notifications, limit))
  {
    var items := ToItems(notifications);
    var next := None;
    if |notifications| == limit {
      next := Some(CursorText(notifications[limit - 1]));
    }
    return Ok(items, next);
  }
}
