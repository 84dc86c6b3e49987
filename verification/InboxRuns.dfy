/** Read state over every run of inbox statements. */
module InboxRuns {
  import opened Options
  import opened Uuids
  import opened Inbox
  import opened Paging

  datatype Op =
    | Insert(n: Notification)
    | MarkRead(id: Uuid, user: Uuid, now: int)
    | MarkAllRead(user: Uuid, now: int)

  function ApplyOp(rows: Rows, op: Op): Rows {
    match op
    case Insert(n) => InsertRow(rows, n)
    case MarkRead(id, user, now) => MarkRows(rows, Some(id), user, now)
    case MarkAllRead(user, now) => MarkRows(rows, None, user, now)
  }

  /** The table after all of `ops`. */
  function Run(rows: Rows, ops: seq<Op>): Rows {
    if ops == [] then rows else ApplyOp(Run(rows, ops[..|ops| - 1]), ops[|ops| - 1])
  }

  /** Both unique indexes hold after every run. */
  lemma {:induction false} RunStaysValid(rows: Rows, ops: seq<Op>)
    requires Valid(rows)
    ensures Valid(Run(rows, ops))
  {
    if ops == [] {
    } else {
      RunStaysValid(rows, ops[..|ops| - 1]);
    }
  }

  /** The rows an operation turns from unread to read, as RowsAffected counts them. */
  function Reads(rows: Rows, op: Op): nat {
    match op
    case Insert(_) => 0
    case MarkRead(id, user, _) => Affected(rows, Some(id), user)
    case MarkAllRead(user, _) => Affected(rows, None, user)
  }

  // ----- read_at is set at most once

  /** Rows stay, in place and unchanged but for their read time; new rows come after them. */
  ghost predicate Evolves(rows: Rows, rows': Rows) {
    |rows| <= |rows'| && forall k :: 0 <= k < |rows| ==> rows'[k].(readAt := rows[k].readAt) == rows[k]
  }

  /** Rows stay in place, keep everything but read_at, and keep read_at once it is set. */
  ghost predicate ReadOnce(rows: Rows, rows': Rows) {
    && Evolves(rows, rows')
    && forall k :: 0 <= k < |rows| && rows[k].readAt.Some? ==> rows'[k] == rows[k]
  }

  lemma ReadOnceOn(a: Rows, b: Rows, c: Rows)
    requires ReadOnce(a, b) && ReadOnce(b, c)
    ensures ReadOnce(a, c)
  {
    forall k | 0 <= k < |a| ensures c[k].(readAt := a[k].readAt) == a[k] {
      assert b[k].(readAt := a[k].readAt) == a[k] && c[k].(readAt := b[k].readAt) == b[k];
    }
  }

  lemma StepReadsOnce(rows: Rows, op: Op)
    ensures ReadOnce(rows, ApplyOp(rows, op))
  {
  }

  /** Over every run: rows are never lost or altered, and read_at goes from null to set at most once. */
  lemma {:induction false} RunReadsOnce(rows: Rows, ops: seq<Op>, i: nat, j: nat)
    requires i <= j <= |ops|
    ensures ReadOnce(Run(rows, ops[..i]), Run(rows, ops[..j]))
  {
    if i == j {
    } else {
      RunReadsOnce(rows, ops, i, j - 1);
      assert ops[..j][..j - 1] == ops[..j - 1];
      StepReadsOnce(Run(rows, ops[..j - 1]), ops[j - 1]);
      ReadOnceOn(Run(rows, ops[..i]), Run(rows, ops[..j - 1]), Run(rows, ops[..j]));
    }
  }

  // ----- MarkRead succeeds at most once per row

  lemma {:induction false} AffectedExactly(rows: Rows, id: Option<Uuid>, user: Uuid)
    ensures Affected(rows, id, user) > 0 <==> exists k :: 0 <= k < |rows| && Marks(rows[k], id, user)
  {
    if rows == [] {
    } else {
      var init := rows[..|rows| - 1];
      AffectedExactly(init, id, user);
      if k :| 0 <= k < |init| && Marks(init[k], id, user) {
        assert Marks(rows[k], id, user);
      }
      if k :| 0 <= k < |rows| && Marks(rows[k], id, user) {
        assert k < |init| ==> Marks(init[k], id, user);
      }
    }
  }

  lemma {:induction false} AffectedAtMostOne(rows: Rows, id: Uuid, user: Uuid)
    requires DistinctIds(rows)
    ensures Affected(rows, Some(id), user) <= 1
  {
    if rows == [] {
    } else {
      AffectedAtMostOne(rows[..|rows| - 1], id, user);
      AffectedExactly(rows[..|rows| - 1], Some(id), user);
    }
  }

  lemma ReadRowBlocksMarking(rows: Rows, k: nat, user: Uuid)
    requires DistinctIds(rows) && k < |rows| && rows[k].readAt.Some?
    ensures Affected(rows, Some(rows[k].id), user) == 0
  {
    AffectedExactly(rows, Some(rows[k].id), user);
    forall m | 0 <= m < |rows| ensures !Marks(rows[m], Some(rows[k].id), user) {
      assert m < k || m > k ==> rows[m].id != rows[k].id;
    }
  }

  lemma SuccessfulMarkReads(rows: Rows, op: Op) returns (k: nat)
    requires op.MarkRead? && Reads(rows, op) > 0
    ensures k < |rows| && rows[k].user == op.user && rows[k].id == op.id && rows[k].readAt.None?
    ensures ApplyOp(rows, op)[k].id == op.id && ApplyOp(rows, op)[k].readAt == Some(op.now)
  {
    AffectedExactly(rows, Some(op.id), op.user);
    k :| 0 <= k < |rows| && Marks(rows[k], Some(op.id), op.user);
  }

  lemma RunPrefix(rows: Rows, ops: seq<Op>, i: nat)
    requires i < |ops|
    ensures Run(rows, ops[..i + 1]) == ApplyOp(Run(rows, ops[..i]), ops[i])
  {
    assert ops[..i + 1][..i] == ops[..i];
  }

  /** After a successful MarkRead no later one for that id succeeds, for whichever user. */
  lemma MarkReadSucceedsOnce(rows: Rows, ops: seq<Op>, i: nat, j: nat)
    requires Valid(rows) && i < j < |ops| && ops[i].MarkRead? && ops[j].MarkRead? && ops[i].id == ops[j].id
    requires Reads(Run(rows, ops[..i]), ops[i]) > 0
    ensures Reads(Run(rows, ops[..j]), ops[j]) == 0
  {
    RunPrefix(rows, ops, i);
    RunReadsOnce(rows, ops, i + 1, j);
    RunStaysValid(rows, ops[..j]);
    SecondMarkFails(Run(rows, ops[..i]), ops[i], Run(rows, ops[..j]), ops[j]);
  }

  lemma SecondMarkFails(before: Rows, op: Op, later: Rows, op': Op)
    requires op.MarkRead? && op'.MarkRead? && op.id == op'.id && Reads(before, op) > 0
    requires ReadOnce(ApplyOp(before, op), later) && DistinctIds(later)
    ensures Reads(later, op') == 0
  {
    var k := SuccessfulMarkReads(before, op);
    assert later[k] == ApplyOp(before, op)[k];
    ReadRowBlocksMarking(later, k, op'.user);
  }

  // ----- the unread count

  function Arrival(rows: Rows, op: Op, user: Uuid): nat {
    if op.Insert? && InsertOutcomeOf(rows, op.n).Stored? && op.n.user == user && op.n.readAt.None? then 1 else 0
  }

  function UserReads(rows: Rows, op: Op, user: Uuid): nat {
    if !op.Insert? && op.user == user then Reads(rows, op) else 0
  }

  /** Unread rows of `user` stored during the run. */
  function Arrivals(rows: Rows, ops: seq<Op>, user: Uuid): nat {
    if ops == [] then 0
    else
      var init := ops[..|ops| - 1];
      Arrivals(rows, init, user) + Arrival(Run(rows, init), ops[|ops| - 1], user)
  }

  /** Rows of `user` read during the run. */
  function AllReads(rows: Rows, ops: seq<Op>, user: Uuid): nat {
    if ops == [] then 0
    else
      var init := ops[..|ops| - 1];
      AllReads(rows, init, user) + UserReads(Run(rows, init), ops[|ops| - 1], user)
  }

  lemma {:induction false} MarkingReducesUnread(rows: Rows, id: Option<Uuid>, marker: Uuid, now: int, user: Uuid)
    ensures Unread(MarkRows(rows, id, marker, now), user) ==
            Unread(rows, user) - (if marker == user then Affected(rows, id, marker) else 0)
  {
    if rows == [] {
    } else {
      var init := rows[..|rows| - 1];
      MarkingReducesUnread(init, id, marker, now, user);
      assert MarkRows(rows, id, marker, now)[..|rows| - 1] == MarkRows(init, id, marker, now);
    }
  }

  lemma InsertRaisesUnread(rows: Rows, n: Notification, user: Uuid)
    ensures Unread(InsertRow(rows, n), user) == Unread(rows, user) + Arrival(rows, Insert(n), user)
  {
    assert (rows + [n])[..|rows|] == rows;
  }

  lemma StepBalances(rows: Rows, op: Op, user: Uuid)
    ensures Unread(ApplyOp(rows, op), user) + UserReads(rows, op, user) == Unread(rows, user) + Arrival(rows, op, user)
  {
    match op
    case Insert(n) => InsertRaisesUnread(rows, n, user);
    case MarkRead(id, marker, now) => MarkingReducesUnread(rows, Some(id), marker, now, user);
    case MarkAllRead(marker, now) => MarkingReducesUnread(rows, None, marker, now, user);
  }

  /** UnreadCount is rows stored less rows read, for every user after every run. */
  lemma {:induction false} UnreadBalances(rows: Rows, ops: seq<Op>, user: Uuid)
    ensures Unread(Run(rows, ops), user) + AllReads(rows, ops, user) == Unread(rows, user) + Arrivals(rows, ops, user)
  {
    if ops == [] {
    } else {
      var init, op := ops[..|ops| - 1], ops[|ops| - 1];
      UnreadBalances(rows, init, user);
      StepBalances(Run(rows, init), op, user);
    }
  }

  /** The unread rows of a user, as a set of places. */
  function UnreadPlaces(rows: Rows, user: Uuid): set<nat> {
    set k: nat | k < |rows| && rows[k].user == user && rows[k].readAt.None?
  }

  /** The count is the number of the user's rows without a read time. */
  lemma {:induction false} UnreadIsCount(rows: Rows, user: Uuid)
    ensures Unread(rows, user) == |UnreadPlaces(rows, user)|
  {
    if rows == [] {
      assert UnreadPlaces(rows, user) == {};
    } else {
      var init, last := rows[..|rows| - 1], |rows| - 1;
      UnreadIsCount(init, user);
      var places, here := UnreadPlaces(init, user), if Marks(rows[last], None, user) then {last} else {};
      assert UnreadPlaces(rows, user) == places + here;
    }
  }

  // ----- users do not interfere

  function UserOf(op: Op): Uuid { if op.Insert? then op.n.user else op.user }

  /** The operations that concern `user`. */
  function OpsOf(ops: seq<Op>, user: Uuid): seq<Op> {
    if ops == [] then []
    else OpsOf(ops[..|ops| - 1], user) + (if UserOf(ops[|ops| - 1]) == user then [ops[|ops| - 1]] else [])
  }

  lemma SelectAppend(rows: Rows, n: Notification, user: Uuid)
    ensures Select(rows + [n], user, None) == Select(rows, user, None) + (if n.user == user then [n] else [])
  {
    assert (rows + [n])[..|rows|] == rows;
  }

  lemma MarkAppend(rows: Rows, n: Notification, id: Option<Uuid>, marker: Uuid, now: int)
    ensures MarkRows(rows + [n], id, marker, now) ==
            MarkRows(rows, id, marker, now) + [if Marks(n, id, marker) then n.(readAt := Some(now)) else n]
  {
  }

  ghost predicate Commutes(rows: Rows, id: Option<Uuid>, marker: Uuid, now: int, user: Uuid) {
    Select(MarkRows(rows, id, marker, now), user, None) ==
    if marker == user then MarkRows(Select(rows, user, None), id, marker, now) else Select(rows, user, None)
  }

  lemma NoRowsCommute(id: Option<Uuid>, marker: Uuid, now: int, user: Uuid)
    ensures Commutes([], id, marker, now, user)
  {
  }

  lemma OneMoreRowCommutes(init: Rows, n: Notification, id: Option<Uuid>, marker: Uuid, now: int, user: Uuid)
    requires Commutes(init, id, marker, now, user)
    ensures Commutes(init + [n], id, marker, now, user)
  {
    var n' := if Marks(n, id, marker) then n.(readAt := Some(now)) else n;
    MarkAppend(init, n, id, marker, now);
    SelectAppend(init, n, user);
    SelectAppend(MarkRows(init, id, marker, now), n', user);
    MarkAppend(Select(init, user, None), n, id, marker, now);
  }

  lemma {:induction false} MarkingCommutes(rows: Rows, id: Option<Uuid>, marker: Uuid, now: int, user: Uuid)
    ensures Commutes(rows, id, marker, now, user)
  {
    if rows == [] {
      NoRowsCommute(id, marker, now, user);
    } else {
      var init, n := rows[..|rows| - 1], rows[|rows| - 1];
      assert rows == init + [n];
      MarkingCommutes(init, id, marker, now, user);
      OneMoreRowCommutes(init, n, id, marker, now, user);
    }
  }

  lemma InsertCommutes(rows: Rows, n: Notification, user: Uuid)
    requires IdIsNew(rows, n)
    ensures Select(InsertRow(rows, n), user, None) ==
            if n.user == user then InsertRow(Select(rows, user, None), n) else Select(rows, user, None)
  {
    var mine := Select(rows, user, None);
    assert (rows + [n])[..|rows|] == rows;
    if n.user == user {
      if k :| 0 <= k < |rows| && SameEvent(n, rows[k]) {
        assert rows[k] in mine;
        var m :| 0 <= m < |mine| && mine[m] == rows[k];
        assert SameEvent(n, mine[m]);
      }
      forall m | 0 <= m < |mine| && (SameEvent(n, mine[m]) || mine[m].id == n.id)
        ensures HasEvent(rows, n) || HasId(rows, n.id)
      {
        assert mine[m] in rows;
      }
      forall m | 0 <= m < |mine| && SameEvent(n, mine[m]) ensures HasEvent(rows, n) { assert mine[m] in rows; }
    }
  }

  /** No insert of the run reuses the id of another stored row. */
  ghost predicate FreshIds(rows: Rows, ops: seq<Op>) {
    ops != [] ==>
      var init, op := ops[..|ops| - 1], ops[|ops| - 1];
      FreshIds(rows, init) && (op.Insert? ==> IdIsNew(Run(rows, init), op.n))
  }

  lemma StepCommutes(rows: Rows, op: Op, user: Uuid)
    requires op.Insert? ==> IdIsNew(rows, op.n)
    ensures Select(ApplyOp(rows, op), user, None) ==
            if UserOf(op) == user then ApplyOp(Select(rows, user, None), op) else Select(rows, user, None)
  {
    match op
    case Insert(n) => InsertCommutes(rows, n, user);
    case MarkRead(id, marker, now) => MarkingCommutes(rows, Some(id), marker, now, user);
    case MarkAllRead(marker, now) => MarkingCommutes(rows, None, marker, now, user);
  }

  lemma RunAppend(rows: Rows, ops: seq<Op>, op: Op)
    ensures Run(rows, ops + [op]) == ApplyOp(Run(rows, ops), op)
  {
    assert (ops + [op])[..|ops|] == ops;
  }

  /** A user's inbox after any interleaved run is what that user's own operations alone would make it. */
  lemma {:induction false} UsersDoNotInterfere(rows: Rows, ops: seq<Op>, user: Uuid)
    requires FreshIds(rows, ops)
    ensures Select(Run(rows, ops), user, None) == Run(Select(rows, user, None), OpsOf(ops, user))
  {
    if ops == [] {
    } else {
      var init, op := ops[..|ops| - 1], ops[|ops| - 1];
      UsersDoNotInterfere(rows, init, user);
      OneMoreCommutes(rows, Select(rows, user, None), init, op, user);
      InitAndLast(ops);
    }
  }

  lemma InitAndLast<T>(s: seq<T>)
    requires s != []
    ensures s == s[..|s| - 1] + [s[|s| - 1]]
  {
  }

  lemma OpsOfAppend(ops: seq<Op>, op: Op, user: Uuid)
    ensures OpsOf(ops + [op], user) == if UserOf(op) == user then OpsOf(ops, user) + [op] else OpsOf(ops, user)
  {
    assert (ops + [op])[..|ops|] == ops;
  }

  lemma OneMoreCommutes(rows: Rows, mine: Rows, init: seq<Op>, op: Op, user: Uuid)
    requires op.Insert? ==> IdIsNew(Run(rows, init), op.n)
    requires Select(Run(rows, init), user, None) == Run(mine, OpsOf(init, user))
    ensures Select(Run(rows, init + [op]), user, None) == Run(mine, OpsOf(init + [op], user))
  {
    RunAppend(rows, init, op);
    OpsOfAppend(init, op, user);
    StepCommutes(Run(rows, init), op, user);
    RunAppend(mine, OpsOf(init, user), op);
  }
}
