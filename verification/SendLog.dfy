/**
 The comms_send_log table: one function per SQL statement, and the store whose methods
 issue those statements.
 */
module SendLog {
  import opened Options
  import opened Uuids

  datatype Channel = Email | Sms | Push | InApp | Line

  datatype Status = Pending | Sent | Failed | Dead

  datatype Row = Row(
    key: string,
    channel: Channel,
    provider: string,
    template: string,
    user: Option<Uuid>,
    recipientHash: string,
    status: Status,
    attempts: nat,
    messageId: Option<string>,
    lastError: Option<string>,
    createdAt: int,
    updatedAt: int)

  type Table = map<Uuid, Row>

  predicate KeyTaken(t: Table, key: string) {
    exists id :: id in t && t[id].key == key
  }

  /** The unique index on idempotency_key. */
  ghost predicate UniqueKeys(t: Table) {
    forall i, j :: i in t && j in t && t[i].key == t[j].key ==> i == j
  }

  /** A reserved row; of the recipient only a hash is kept. */
  function PendingRow(key: string, channel: Channel, provider: string, template: string, user: Option<Uuid>,
                      recipientHash: string, now: int): Row {
    Row(key, channel, provider, template, user, recipientHash, Pending, 0, None, None, now, now)
  }

  /** INSERT ... ON CONFLICT (idempotency_key) DO NOTHING. */
  function InsertStatement(t: Table, id: Uuid, row: Row): (r: Table)
    ensures UniqueKeys(t) && id !in t ==> UniqueKeys(r)
    ensures KeyTaken(r, row.key)
    ensures KeyTaken(t, row.key) ==> r == t
    ensures !KeyTaken(t, row.key) ==>
      r.Keys == t.Keys + {id} && r[id] == row && forall other :: other in t && other != id ==> r[other] == t[other]
  {
    if KeyTaken(t, row.key) then t else
      assert t[id := row][id].key == row.key;
      t[id := row]
  }

  /** The error text that is stored. */
  function Sanitized(sanitize: string -> string, error: Option<string>): Option<string> {
    if error.Some? then Some(sanitize(error.value)) else None
  }

  /** UPDATE ... SET status, attempts + 1, COALESCE(msgID), last_error, updated_at WHERE id. */
  function UpdateStatement(t: Table, id: Uuid, status: Status, messageId: Option<string>, error: Option<string>,
      now: int): (r: Table)
    ensures r.Keys == t.Keys
    ensures UniqueKeys(t) ==> UniqueKeys(r)
    ensures forall other :: other in t && other != id ==> r[other] == t[other]
    ensures id in t ==>
      var row, row' := t[id], r[id];
      && row'.status == status
      && row'.attempts == row.attempts + 1
      && row'.lastError == error
      && row'.updatedAt == now
      && row'.messageId == (if messageId.Some? then messageId else row.messageId)
      && row' == row.(status := row'.status, attempts := row'.attempts, messageId := row'.messageId,
                      lastError := row'.lastError, updatedAt := row'.updatedAt)
  {
    if id !in t then t else
      var row := t[id];
      t[id := row.(status := status,
                   attempts := row.attempts + 1,
                   messageId := if messageId.Some? then messageId else row.messageId,
                   lastError := error,
                   updatedAt := now)]
  }

  /** The rows DELETE ... WHERE created_at < cutoff removes. */
  function Expired(t: Table, cutoff: int): set<Uuid> {
    set id | id in t && t[id].createdAt < cutoff
  }

  function DeleteStatement(t: Table, cutoff: int): (r: Table)
    ensures UniqueKeys(t) ==> UniqueKeys(r)
    ensures forall id :: id in r <==> id in t && t[id].createdAt >= cutoff
    ensures forall id :: id in r ==> r[id] == t[id]
  {
    t - Expired(t, cutoff)
  }
}
