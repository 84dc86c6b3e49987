/** Page walks while the inbox changes in every way it can: inserts, marks, and the deletion of old rows. */
module InboxRetention {
  import opened Options
  import opened Uuids
  import opened Inbox
  import opened Paging
  import opened Cursors
  import opened InboxRuns

  /** The garbage collector's DELETE ... WHERE created_at < cutoff. */
  function Pruned(rows: Rows, cutoff: int): (r: Rows)
    ensures forall x :: x in r <==> x in rows && x.createdAt >= cutoff
  {
    if rows == [] then [] else
      var init, n := rows[..|rows| - 1], rows[|rows| - 1];
      assert rows == init + [n];
      Pruned(init, cutoff) + (if n.createdAt >= cutoff then [n] else [])
  }

  lemma {:induction false} PrunedIsValid(rows: Rows, cutoff: int)
    requires Valid(rows)
    ensures Valid(Pruned(rows, cutoff))
  {
    if rows == [] {
    } else {
      var init := rows[..|rows| - 1];
      PrunedIsValid(init, cutoff);
      LastIsNew(rows, init, Pruned(init, cutoff));
    }
  }

  lemma LastIsNew(rows: Rows, init: Rows, kept: Rows)
    requires Valid(rows) && rows != [] && init == rows[..|rows| - 1]
    requires Valid(kept) && forall x :: x in kept ==> x in init
    ensures Valid(kept + [rows[|rows| - 1]])
  {
    var n := rows[|rows| - 1];
    forall k | 0 <= k < |kept| ensures kept[k].id != n.id && !SameEvent(kept[k], n) {
      assert kept[k] in kept;
      var j :| 0 <= j < |init| && init[j] == kept[k];
      assert rows[j] == kept[k];
    }
  }

  datatype Change = Statement(op: Op) | Prune(cutoff: int)

  function ApplyChange(rows: Rows, c: Change): (r: Rows)
    ensures Valid(rows) ==> Valid(r)
  {
    match c
    case Statement(op) => ApplyOp(rows, op)
    case Prune(cutoff) =>
      assert Valid(rows) ==> Valid(Pruned(rows, cutoff)) by { if Valid(rows) { PrunedIsValid(rows, cutoff); } }
      Pruned(rows, cutoff)
  }

  /** The table after all changes. */
  function Table(rows: Rows, changes: seq<Change>): (r: Rows)
    ensures Valid(rows) ==> Valid(r)
  {
    if changes == [] then rows else ApplyChange(Table(rows, changes[..|changes| - 1]), changes[|changes| - 1])
  }

  /** The table at moment `m`. */
  function At(rows: Rows, changes: seq<Change>, m: nat): (r: Rows)
    requires m <= |changes|
    ensures Valid(rows) ==> Valid(r)
  {
    Table(rows, changes[..m])
  }

  lemma NextMoment(rows: Rows, changes: seq<Change>, m: nat)
    requires m < |changes|
    ensures At(rows, changes, m + 1) == ApplyChange(At(rows, changes, m), changes[m])
  {
    assert changes[..m + 1][..m] == changes[..m];
  }

  predicate Stores(rows: Rows, c: Change) {
    c.Statement? && c.op.Insert? && InsertOutcomeOf(rows, c.op.n).Stored?
  }

  /** No row is stored under the id of an earlier one, even of a deleted one. */
  ghost predicate NoIdReturns(rows: Rows, changes: seq<Change>) {
    forall k, m :: 0 <= k <= m < |changes| && Stores(At(rows, changes, m), changes[m]) ==>
      !HasId(At(rows, changes, k), changes[m].op.n.id)
  }

  /** A row after a change was there before, or is the one just stored. */
  lemma Origin(rows: Rows, c: Change, x: Notification)
    requires x in ApplyChange(rows, c)
    ensures InTable(rows, x) || (Stores(rows, c) && x == c.op.n)
  {
    var k :| 0 <= k < |ApplyChange(rows, c)| && ApplyChange(rows, c)[k] == x;
    if c.Prune? {
      assert x in rows;
      var j :| 0 <= j < |rows| && rows[j] == x;
      assert SameRow(rows[j], x);
    } else if k < |rows| {
      assert SameRow(rows[k], x);
    }
  }

  /** Whoever has the id of an earlier row is that row. */
  lemma {:induction false} IdNamesRow(rows: Rows, changes: seq<Change>, i: nat, m: nat, r: Notification,
      x: Notification)
    requires Valid(rows) && NoIdReturns(rows, changes) && i <= m <= |changes|
    requires r in At(rows, changes, i) && x in At(rows, changes, m) && x.id == r.id
    ensures SameRow(r, x)
  {
    if m == i {
      SameIdSameRow(At(rows, changes, i), r, x);
    } else {
      var before := At(rows, changes, m - 1);
      assert HasId(At(rows, changes, i), r.id);
      NextMoment(rows, changes, m - 1);
      Origin(before, changes[m - 1], x);
      if InTable(before, x) {
        var k :| 0 <= k < |before| && SameRow(before[k], x);
        IdNamesRow(rows, changes, i, m - 1, r, before[k]);
      } else {
        assert false;
      }
    }
  }

  lemma SameIdSameRow(rows: Rows, x: Notification, y: Notification)
    requires DistinctIds(rows) && x in rows && y in rows && x.id == y.id
    ensures x == y
  {
    var i :| 0 <= i < |rows| && rows[i] == x;
    var j :| 0 <= j < |rows| && rows[j] == y;
  }

  /** An id that is there at two moments is there in between. */
  lemma {:induction false} IdIsThereBetween(rows: Rows, changes: seq<Change>, i: nat, m: nat, j: nat, id: Uuid)
    requires NoIdReturns(rows, changes) && i <= m <= j <= |changes|
    requires HasId(At(rows, changes, i), id) && HasId(At(rows, changes, j), id)
    ensures HasId(At(rows, changes, m), id)
  {
    if m == j {
    } else {
      var before, after := At(rows, changes, j - 1), At(rows, changes, j);
      NextMoment(rows, changes, j - 1);
      var k :| 0 <= k < |after| && after[k].id == id;
      Origin(before, changes[j - 1], after[k]);
      IdIsThereBetween(rows, changes, i, m, j - 1, id);
    }
  }

  lemma RowIsThereBetween(rows: Rows, changes: seq<Change>, i: nat, m: nat, j: nat, r: Notification)
    requires Valid(rows) && NoIdReturns(rows, changes) && i <= m <= j <= |changes|
    requires r in At(rows, changes, i) && HasId(At(rows, changes, j), r.id)
    ensures InTable(At(rows, changes, m), r)
  {
    assert HasId(At(rows, changes, i), r.id);
    IdIsThereBetween(rows, changes, i, m, j, r.id);
    var k :| 0 <= k < |At(rows, changes, m)| && At(rows, changes, m)[k].id == r.id;
    IdNamesRow(rows, changes, i, m, r, At(rows, changes, m)[k]);
    assert SameRow(At(rows, changes, m)[k], r);
  }

  // ----- read state

  /** As Origin, for the read time: what was read stays read, at the same time. */
  lemma ReadOrigin(rows: Rows, c: Change, x: Notification)
    requires x in ApplyChange(rows, c)
    ensures
      || (Stores(rows, c) && x == c.op.n)
      || exists k :: 0 <= k < |rows| && SameRow(rows[k], x) && (rows[k].readAt.Some? ==> x.readAt == rows[k].readAt)
  {
    var k :| 0 <= k < |ApplyChange(rows, c)| && ApplyChange(rows, c)[k] == x;
    if c.Prune? {
      assert x in rows;
      var j :| 0 <= j < |rows| && rows[j] == x;
      assert SameRow(rows[j], x);
    } else if k < |rows| {
      assert SameRow(rows[k], x);
    }
  }

  /** Whoever has the id of a read row has its read time. */
  lemma {:induction false} ReadStays(rows: Rows, changes: seq<Change>, i: nat, m: nat, r: Notification, x: Notification)
    requires Valid(rows) && NoIdReturns(rows, changes) && i <= m <= |changes|
    requires r in At(rows, changes, i) && x in At(rows, changes, m) && x.id == r.id && r.readAt.Some?
    ensures x.readAt == r.readAt
  {
    if m == i {
      SameIdSameRow(At(rows, changes, i), r, x);
    } else {
      var before := At(rows, changes, m - 1);
      assert HasId(At(rows, changes, i), r.id);
      NextMoment(rows, changes, m - 1);
      ReadOrigin(before, changes[m - 1], x);
      if k :| 0 <= k < |before| && SameRow(before[k], x) && (before[k].readAt.Some? ==> x.readAt == before[k].readAt) {
        ReadStays(rows, changes, i, m - 1, r, before[k]);
      }
    }
  }

  /** Deletions included, a MarkRead that succeeded is never followed by another for its id. */
  lemma MarkReadSucceedsOnce(rows: Rows, changes: seq<Change>, i: nat, j: nat)
    requires Valid(rows) && NoIdReturns(rows, changes) && i < j < |changes|
    requires changes[i].Statement? && changes[i].op.MarkRead? && changes[j].Statement? && changes[j].op.MarkRead?
    requires changes[i].op.id == changes[j].op.id && Reads(At(rows, changes, i), changes[i].op) > 0
    ensures Reads(At(rows, changes, j), changes[j].op) == 0
  {
    var first, second := changes[i].op, changes[j].op;
    var now := At(rows, changes, j);
    NextMoment(rows, changes, i);
    var k := SuccessfulMarkReads(At(rows, changes, i), first);
    var r := At(rows, changes, i + 1)[k];
    AffectedExactly(now, Some(second.id), second.user);
    if Reads(now, second) > 0 {
      var m :| 0 <= m < |now| && Marks(now[m], Some(second.id), second.user);
      ReadStays(rows, changes, i + 1, j, r, now[m]);
      assert false;
    }
  }

  /** The unread rows of `user` that a deletion takes. */
  function UnreadBefore(rows: Rows, cutoff: int, user: Uuid): nat {
    if rows == [] then 0
    else
      var n := rows[|rows| - 1];
      UnreadBefore(rows[..|rows| - 1], cutoff, user) + (if n.createdAt < cutoff && Marks(n, None, user) then 1 else 0)
  }

  lemma UnreadAppend(rows: Rows, n: Notification, user: Uuid)
    ensures Unread(rows + [n], user) == Unread(rows, user) + (if Marks(n, None, user) then 1 else 0)
  {
    assert (rows + [n])[..|rows|] == rows;
  }

  lemma {:induction false} PruningReducesUnread(rows: Rows, cutoff: int, user: Uuid)
    ensures Unread(Pruned(rows, cutoff), user) + UnreadBefore(rows, cutoff, user) == Unread(rows, user)
  {
    if rows == [] {
    } else {
      var init, n := rows[..|rows| - 1], rows[|rows| - 1];
      PruningReducesUnread(init, cutoff, user);
      assert rows == init + [n];
      UnreadAppend(init, n, user);
      UnreadAppend(Pruned(init, cutoff), n, user);
      assert Pruned(init, cutoff) + [] == Pruned(init, cutoff);
    }
  }

  /** Unread rows of `user` that a change adds, reads and deletes. */
  function Added(rows: Rows, c: Change, user: Uuid): nat {
    if c.Statement? then Arrival(rows, c.op, user) else 0
  }

  function Taken(rows: Rows, c: Change, user: Uuid): nat {
    if c.Statement? then UserReads(rows, c.op, user) else 0
  }

  function Deleted(rows: Rows, c: Change, user: Uuid): nat {
    if c.Prune? then UnreadBefore(rows, c.cutoff, user) else 0
  }

  /** The sum of `f` over the changes of a run. */
  function Total(rows: Rows, changes: seq<Change>, user: Uuid, f: (Rows, Change, Uuid) -> nat): nat {
    if changes == [] then 0
    else
      var init := changes[..|changes| - 1];
      Total(rows, init, user, f) + f(Table(rows, init), changes[|changes| - 1], user)
  }

  lemma ChangeBalances(rows: Rows, c: Change, user: Uuid)
    ensures Unread(ApplyChange(rows, c), user) + Taken(rows, c, user) + Deleted(rows, c, user)
         == Unread(rows, user) + Added(rows, c, user)
  {
    match c
    case Statement(op) => StepBalances(rows, op, user);
    case Prune(cutoff) => PruningReducesUnread(rows, cutoff, user);
  }

  /** Deletions included, UnreadCount is rows stored less rows read less rows deleted unread. */
  lemma {:induction false} UnreadBalances(rows: Rows, changes: seq<Change>, user: Uuid)
    ensures Unread(Table(rows, changes), user) + Total(rows, changes, user, Taken) + Total(rows, changes, user, Deleted)
         == Unread(rows, user) + Total(rows, changes, user, Added)
  {
    if changes == [] {
    } else {
      var init := changes[..|changes| - 1];
      UnreadBalances(rows, init, user);
      ChangeBalances(Table(rows, init), changes[|changes| - 1], user);
    }
  }

  // ----- walks

  /** The requests of the walk meet the table at moments between `i` and `j`, in order. */
  ghost predicate During(w: Walk, rows: Rows, changes: seq<Change>, i: nat, j: nat)
    requires j <= |changes|
  {
    exists m: nat :: i <= m <= j && w.first.rows == At(rows, changes, m)
      && (w.Then? ==> During(w.rest, rows, changes, m, j))
  }

  ghost predicate AlwaysInRange(rows: Rows, changes: seq<Change>) {
    forall m :: 0 <= m <= |changes| ==> TimesInRange(At(rows, changes, m))
  }

  lemma {:induction false} MeetsInboxes(w: Walk, rows: Rows, changes: seq<Change>, i: nat, j: nat)
    requires Valid(rows) && AlwaysInRange(rows, changes) && j <= |changes| && During(w, rows, changes, i, j)
    ensures OverInbox(w)
  {
    var m: nat :| i <= m <= j && w.first.rows == At(rows, changes, m)
      && (w.Then? ==> During(w.rest, rows, changes, m, j));
    match w
    case Last(_) =>
    case Then(_, rest) => MeetsInboxes(rest, rows, changes, m, j);
  }

  lemma {:induction false} StaysThroughout(w: Walk, rows: Rows, changes: seq<Change>, i: nat, from: nat, j: nat,
      r: Notification)
    requires Valid(rows) && NoIdReturns(rows, changes) && i <= from && j <= |changes|
      && During(w, rows, changes, from, j)
    requires r in At(rows, changes, i) && HasId(At(rows, changes, j), r.id)
    ensures Stays(w, r)
  {
    var m: nat :| from <= m <= j && w.first.rows == At(rows, changes, m)
      && (w.Then? ==> During(w.rest, rows, changes, m, j));
    RowIsThereBetween(rows, changes, i, m, j, r);
    match w
    case Last(_) =>
    case Then(_, rest) => StaysThroughout(rest, rows, changes, i, m, j, r);
  }

  /** A returned row was in the table at some moment. */
  lemma {:induction false} ReturnedAt(w: Walk, user: Uuid, key: Option<Cursor>, rows: Rows, changes: seq<Change>,
      i: nat, j: nat, r: Notification)
    returns (m: nat)
    requires IsKeyWalk(w, user, key) && j <= |changes| && During(w, rows, changes, i, j) && r in Returned(w)
    ensures m <= j && r in At(rows, changes, m)
  {
    m :| i <= m <= j && w.first.rows == At(rows, changes, m) && (w.Then? ==> During(w.rest, rows, changes, m, j));
    if r in w.first.items {
    } else {
      var last := w.first.items[Limit(w.first.limit) - 1];
      m := ReturnedAt(w.rest, user, Some(KeyOf(last)), rows, changes, m, j, r);
    }
  }

  lemma NoRowTwice(w: Walk, user: Uuid, key: Option<Cursor>, rows: Rows, changes: seq<Change>, i: nat, j: nat)
    requires IsKeyWalk(w, user, key) && j <= |changes| && During(w, rows, changes, i, j)
    requires Valid(rows) && NoIdReturns(rows, changes) && NewestFirst(Returned(w))
    ensures DistinctIds(Returned(w))
  {
    var all := Returned(w);
    forall x, y | 0 <= x < y < |all| ensures all[x].id != all[y].id {
      var m := ReturnedAt(w, user, key, rows, changes, i, j, all[x]);
      var n := ReturnedAt(w, user, key, rows, changes, i, j, all[y]);
      OlderIsAnother(rows, changes, m, n, all[x], all[y]);
    }
  }

  lemma OlderIsAnother(rows: Rows, changes: seq<Change>, m: nat, n: nat, x: Notification, y: Notification)
    requires Valid(rows) && NoIdReturns(rows, changes) && m <= |changes| && n <= |changes|
    requires x in At(rows, changes, m) && y in At(rows, changes, n) && Newer(x, y)
    ensures x.id != y.id
  {
    if x.id == y.id {
      if m <= n {
        IdNamesRow(rows, changes, m, n, x, y);
      } else {
        IdNamesRow(rows, changes, n, m, y, x);
      }
    }
  }

  /** Over every run of inserts, marks and deletions, and every walk made between moments `i` and `j`
      of it: the walk returns no row twice, newest first, only the user's, and it returns every row
      that was there at `i` and is still there at `j`. */
  lemma WalkDuringRun(c: Codec, w: Walk, rows: Rows, changes: seq<Change>, i: nat, j: nat, user: Uuid)
    requires Faithful(c) && Valid(rows) && NoIdReturns(rows, changes) && AlwaysInRange(rows, changes)
    requires i <= j <= |changes| && During(w, rows, changes, i, j) && IsWalk(c, w, user, "")
    ensures NewestFirst(Returned(w)) && DistinctIds(Returned(w)) && forall r :: r in Returned(w) ==> r.user == user
    ensures forall r :: r in At(rows, changes, i) && r.user == user && HasId(At(rows, changes, j), r.id) ==>
      Has(Returned(w), r)
  {
    MeetsInboxes(w, rows, changes, i, j);
    WalkReturnsEverythingOnce(c, w, user, "");
    WalksAreKeyWalks(c, w, user, "");
    NoRowTwice(w, user, None, rows, changes, i, j);
    forall r | r in At(rows, changes, i) && r.user == user && HasId(At(rows, changes, j), r.id)
      ensures Has(Returned(w), r)
    {
      StaysThroughout(w, rows, changes, i, i, j, r);
    }
  }

  // ----- without deletions

  predicate StatementsOnly(changes: seq<Change>) { forall k :: 0 <= k < |changes| ==> changes[k].Statement? }

  lemma {:induction false} IdsStay(rows: Rows, changes: seq<Change>, i: nat, m: nat, id: Uuid)
    requires StatementsOnly(changes) && i <= m <= |changes| && HasId(At(rows, changes, i), id)
    ensures HasId(At(rows, changes, m), id)
  {
    if m == i {
    } else {
      IdsStay(rows, changes, i, m - 1, id);
      NextMoment(rows, changes, m - 1);
      var before, after := At(rows, changes, m - 1), At(rows, changes, m);
      var k :| 0 <= k < |before| && before[k].id == id;
      StepReadsOnce(before, changes[m - 1].op);
      assert after[k].id == id;
    }
  }

  /** A run without deletions stores no id twice and loses no row, so there the walk returns every row
      that was there when it started, and nothing need be assumed of ids. */
  lemma WithoutDeletionsNothingReturns(rows: Rows, changes: seq<Change>)
    requires StatementsOnly(changes)
    ensures NoIdReturns(rows, changes)
    ensures forall i, j, id :: 0 <= i <= j <= |changes| && HasId(At(rows, changes, i), id) ==>
      HasId(At(rows, changes, j), id)
  {
    forall i, j, id | 0 <= i <= j <= |changes| && HasId(At(rows, changes, i), id)
      ensures HasId(At(rows, changes, j), id)
    {
      IdsStay(rows, changes, i, j, id);
    }
  }
}
