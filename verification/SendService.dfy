/**
 The send-log store and the Send pipeline as the service runs them, statement by statement.
 A sequential Send is one client's steps of the protocol taken without interference.
 */
module SendService {
  import opened Options
  import opened Uuids
  import opened SendLog
  import opened SendProtocol

  datatype Reservation = Claim(id: Uuid) | Existing(id: Uuid, status: Status) | Error

  /** What a purge reports: the rows it deleted from both tables, and whether it finished. */
  datatype PurgeReport = PurgeReport(sendLog: nat, receipts: nat, ok: bool)

  /** The send log, and the delivery receipts by the time they arrived. */
  class SendLogStore {
    var rows: Table
    var receipts: map<Uuid, int>

    const sanitize: string -> string

    constructor (sanitize: string -> string)
      ensures rows == map[] && receipts == map[] && this.sanitize == sanitize
    {
      rows, receipts := map[], map[];
      this.sanitize := sanitize;
    }

    /** Reserve: the INSERT and, when the key was taken, the SELECT. */
    method Reserve(id: Uuid, row: Row, insertFault: Fault, lookupFault: Fault) returns (r: Reservation)
      requires id !in rows && UniqueKeys(rows)
      modifies this`rows
      ensures UniqueKeys(rows)
      ensures rows == if insertFault.FailsBefore? then old(rows) else InsertStatement(old(rows), id, row)
      ensures !insertFault.NoFault? ==> r == Error
      ensures insertFault.NoFault? && !KeyTaken(old(rows), row.key) ==> r == Claim(id)
      ensures insertFault.NoFault? && KeyTaken(old(rows), row.key) ==>
        if lookupFault.NoFault? then
          r.Existing? && r.id in rows && rows[r.id].key == row.key && r.status == rows[r.id].status
        else
          r == Error
    {
      if insertFault.FailsBefore? {
        return Error;
      }
      var taken := KeyTaken(rows, row.key);
      rows := InsertStatement(rows, id, row);
      if insertFault.FailsAfter? {
        return Error;
      }
      if !taken {
        return Claim(id);
      }
      if !lookupFault.NoFault? {
        return Error;
      }
      var hit :| hit in rows && rows[hit].key == row.key;
      return Existing(hit, rows[hit].status);
    }

    /** MarkResult: refuses a non-terminal status, and reports a row that is gone. */
    method MarkResult(id: Uuid, status: Status, messageId: string, error: Option<string>, now: int, fault: Fault)
        returns (ok: bool)
      modifies this`rows
      ensures
        var given := if messageId == "" then None else Some(messageId);
        rows == if status.Pending? || fault.FailsBefore? then old(rows)
                else UpdateStatement(old(rows), id, status, given, Sanitized(sanitize, error), now)
      ensures ok <==> !status.Pending? && fault.NoFault? && id in old(rows)
    {
      if status.Pending? || fault.FailsBefore? {
        return false;
      }
      var found := id in rows;
      var given := if messageId == "" then None else Some(messageId);
      rows := UpdateStatement(rows, id, status, given, Sanitized(sanitize, error), now);
      return fault.NoFault? && found;
    }

    /** PurgeExpired: the default cutoff is now less 30 days. */
    method PurgeExpired(cutoff: Option<int>, now: int, first: Fault, second: Fault) returns (r: PurgeReport)
      modifies this
      ensures PurgesBefore(Cutoff(cutoff, now), first, second, old(rows), old(receipts), rows, receipts, r)
    {
      r := Purge(Cutoff(cutoff, now), first, second);
    }

    /** Two deletes with one cutoff. A failing first delete reports nothing and leaves the receipts alone,
        a failing second one reports the first count. */
    method Purge(limit: int, first: Fault, second: Fault) returns (r: PurgeReport)
      modifies this
      ensures PurgesBefore(limit, first, second, old(rows), old(receipts), rows, receipts, r)
    {
      var deleted := 0;
      if !first.FailsBefore? {
        deleted := PurgeRows(limit);
      }
      if !first.NoFault? {
        return PurgeReport(0, 0, false);
      }
      if second.FailsBefore? {
        return PurgeReport(deleted, 0, false);
      }
      var count := PurgeReceipts(limit);
      return PurgeReport(deleted, if second.NoFault? then count else 0, second.NoFault?);
    }

    method PurgeReceipts(limit: int) returns (deleted: nat)
      modifies this`receipts
      ensures receipts == OldReceiptsGone(old(receipts), limit) && deleted + |receipts| == |old(receipts)|
    {
      var gone := set id | id in receipts && receipts[id] < limit;
      assert receipts.Keys == (receipts.Keys - gone) + gone;
      var kept := OldReceiptsGone(receipts, limit);
      assert kept.Keys == receipts.Keys - gone;
      deleted := |gone|;
      receipts := kept;
    }

    method PurgeRows(limit: int) returns (deleted: nat)
      modifies this`rows
      ensures rows == DeleteStatement(old(rows), limit) && deleted + |rows| == |old(rows)|
    {
      var gone := Expired(rows, limit);
      assert rows.Keys == (rows.Keys - gone) + gone;
      var kept := DeleteStatement(rows, limit);
      assert kept.Keys == rows.Keys - gone;
      deleted := |gone|;
      rows := kept;
    }
  }

  /** The cutoff of a purge: by default thirty days, in nanoseconds, ago. */
  function Cutoff(given: Option<int>, now: int): (limit: int)
    ensures limit == if given.Some? then given.value else now - 30 * 24 * 3600 * 1_000_000_000
  {
    if given.Some? then given.value else now - RETENTION
  }

  /** What a purge does to both tables and reports. */
  ghost predicate PurgesBefore(limit: int, first: Fault, second: Fault, rows: Table, receipts: map<Uuid, int>,
      rows': Table, receipts': map<Uuid, int>, r: PurgeReport)
  {
    && rows' == (if first.FailsBefore? then rows else DeleteStatement(rows, limit))
    && receipts' == (if !first.NoFault? || second.FailsBefore? then receipts else OldReceiptsGone(receipts, limit))
    && (r.ok <==> first.NoFault? && second.NoFault?)
    && r.sendLog + (if first.NoFault? then |rows'| else 0) == (if first.NoFault? then |rows| else 0)
    && r.receipts + (if r.ok then |receipts'| else 0) == (if r.ok then |receipts| else 0)
  }

  /** A purge that succeeds leaves exactly what was created, or arrived, at the cutoff or later, unchanged,
      and counts what it took. */
  lemma PurgeMeans(limit: int, rows: Table, receipts: map<Uuid, int>, rows': Table, receipts': map<Uuid, int>,
      r: PurgeReport)
    requires PurgesBefore(limit, NoFault, NoFault, rows, receipts, rows', receipts', r)
    ensures forall id :: id in rows' <==> id in rows && rows[id].createdAt >= limit
    ensures forall id :: id in rows' ==> rows'[id] == rows[id]
    ensures forall id :: id in receipts' <==> id in receipts && receipts[id] >= limit
    ensures r.ok && r.sendLog == |rows| - |rows'| && r.receipts == |receipts| - |receipts'|
  {
  }

  /** The receipts a purge leaves. */
  function OldReceiptsGone(receipts: map<Uuid, int>, cutoff: int): (r: map<Uuid, int>)
    ensures forall id :: id in r <==> id in receipts && receipts[id] >= cutoff
    ensures forall id :: id in r ==> r[id] == receipts[id]
  {
    map id | id in receipts && receipts[id] >= cutoff :: receipts[id]
  }

  /** What the outside decides during one Send. */
  datatype Env = Env(
    id: Uuid, now: int,
    insertFault: Fault, lookupFault: Fault,
    templateError: Option<string>,
    providerOk: bool, providerError: string,
    markFault: Fault)

  /** What Send returns after it has won the reservation. */
  function ResultOfClaim(cfg: Config, req: Request, env: Env): Result
    requires ValidRequest(req)
  {
    if env.templateError.Some? then TemplateError
    else if HasSender(cfg, req.channel.value) && env.providerOk then Delivered(env.id)
    else SendFailed(env.id)
  }

  /** What Send returns, given the table it found. */
  predicate Returns(cfg: Config, before: Table, req: Request, env: Env, result: Result) {
    if !ValidRequest(req) then result == Invalid
    else if !env.insertFault.NoFault? then result == ReserveError
    else if !KeyTaken(before, req.key) then result == ResultOfClaim(cfg, req, env)
    else if !env.lookupFault.NoFault? then result == ReserveError
    else
      && result.Deduped? && result.id in before
      && before[result.id].key == req.key && before[result.id].status == result.status
  }

  /** The outcome of a claimed row as MarkResult writes it. */
  function Recorded(cfg: Config, t: Table, result: Result, env: Env): Table {
    var error := if env.templateError.Some? then env.templateError else Some(env.providerError);
    if env.markFault.FailsBefore? then t
    else if result.Delivered? then UpdateStatement(t, env.id, Sent, None, None, env.now)
    else UpdateStatement(t, env.id, Failed, None, Sanitized(cfg.sanitize, error), env.now)
  }

  /** The table Send leaves. */
  function TableAfter(cfg: Config, before: Table, req: Request, env: Env): Table {
    if !ValidRequest(req) || env.insertFault.FailsBefore? || KeyTaken(before, req.key) then before
    else
      var t := InsertStatement(before, env.id, NewRow(cfg, req, env.now));
      if env.insertFault.FailsAfter? then t else Recorded(cfg, t, ResultOfClaim(cfg, req, env), env)
  }

  // ----- the specification in the source's own terms

  ghost predicate KeyIsFree(t: Table, key: string) {
    forall id :: id in t ==> t[id].key != key
  }

  /** Which requests are invalid, and how each of the others ends. */
  lemma AnswersOf(cfg: Config, before: Table, req: Request, env: Env, result: Result)
    requires Returns(cfg, before, req, env, result)
    ensures result == Invalid <==>
      !(&& req.channel.Some? && 1 <= |req.to| <= 320 && 1 <= |req.template| <= 128
        && 1 <= |req.key| <= 200 && req.vars <= 50)
    ensures result != Invalid && !env.insertFault.NoFault? ==> result == ReserveError
    ensures result != Invalid && env.insertFault.NoFault? && !KeyIsFree(before, req.key) ==>
      if !env.lookupFault.NoFault? then result == ReserveError
      else exists id :: id in before && before[id].key == req.key && result == Deduped(id, before[id].status)
    ensures result != Invalid && env.insertFault.NoFault? && KeyIsFree(before, req.key) ==>
      result == match req.channel.value
                case Email =>
                  if env.templateError.Some? then TemplateError
                  else if cfg.hasEmail && env.providerOk then Delivered(env.id) else SendFailed(env.id)
                case Sms =>
                  if env.templateError.Some? then TemplateError
                  else if cfg.hasSms && env.providerOk then Delivered(env.id) else SendFailed(env.id)
                case _ => if env.templateError.Some? then TemplateError else SendFailed(env.id)
  {
    if result.Deduped? {
      assert before[result.id].key == req.key;
    }
  }

  /** A Send that reserves nothing leaves the table alone. */
  lemma NothingRecorded(cfg: Config, before: Table, req: Request, env: Env)
    requires !ValidRequest(req) || env.insertFault.FailsBefore? || !KeyIsFree(before, req.key)
    ensures TableAfter(cfg, before, req, env) == before
  {
    if ValidRequest(req) && !env.insertFault.FailsBefore? {
      var id :| id in before && before[id].key == req.key;
    }
  }

  /** A Send that reserves adds one row: the request's columns, the provider of its channel, the hash of
      the recipient, and the outcome as far as it could be recorded. */
  lemma RowRecorded(cfg: Config, before: Table, req: Request, env: Env)
    requires ValidRequest(req) && !env.insertFault.FailsBefore? && KeyIsFree(before, req.key) && env.id !in before
    ensures
      var after := TableAfter(cfg, before, req, env);
      after.Keys == before.Keys + {env.id} && forall id :: id in before ==> after[id] == before[id]
    ensures
      var row := TableAfter(cfg, before, req, env)[env.id];
      && row.key == req.key && Some(row.channel) == req.channel && row.template == req.template && row.user == req.user
      && row.provider == (match row.channel case Email => cfg.emailName case Sms => cfg.smsName case _ => "none")
      && row.recipientHash == cfg.hash(req.to) && row.createdAt == env.now && row.updatedAt == env.now
      && row.messageId == None
    ensures
      var row := TableAfter(cfg, before, req, env)[env.id];
      var sent := env.templateError.None? && env.providerOk
                  && ((row.channel.Email? && cfg.hasEmail) || (row.channel.Sms? && cfg.hasSms));
      var error := if env.templateError.Some? then env.templateError.value else env.providerError;
      if env.insertFault.FailsAfter? || env.markFault.FailsBefore? then
        row.status == Pending && row.attempts == 0 && row.lastError == None
      else if sent then
        row.status == Sent && row.attempts == 1 && row.lastError == None
      else
        row.status == Failed && row.attempts == 1 && row.lastError == Some(cfg.sanitize(error))
  {
    assert !KeyTaken(before, req.key);
  }

  /** From `w`, the steps `acts` lead to `w'`. */
  ghost predicate Executes(w: World, acts: seq<Action>, w': World)
    decreases |acts|
  {
    if acts == [] then w == w'
    else Enabled(w, acts[0]) && Executes(Apply(w, acts[0]), acts[1..], w')
  }

  lemma {:induction false} ExecutesOneMore(w: World, acts: seq<Action>, w': World, a: Action)
    requires Executes(w, acts, w') && Enabled(w', a)
    ensures Executes(w, acts + [a], Apply(w', a))
    decreases |acts|
  {
    if acts != [] {
      ExecutesOneMore(Apply(w, acts[0]), acts[1..], w', a);
      assert (acts + [a])[1..] == acts[1..] + [a];
    } else {
      assert [a][1..] == [];
      assert acts + [a] == [a];
    }
  }

  /** An execution from the last world of a run continues that run, so all that holds of runs holds
      of tables on which Send is called. */
  lemma {:induction false} ExecutionsAreRuns(ws: seq<World>, past: seq<Action>, acts: seq<Action>, w': World)
    returns (ws': seq<World>)
    requires IsRun(ws, past) && Executes(ws[|ws| - 1], acts, w')
    ensures IsRun(ws', past + acts) && ws <= ws' && ws'[|ws'| - 1] == w'
    decreases |acts|
  {
    if acts == [] {
      ws' := ws;
      assert past + acts == past;
    } else {
      var next := Apply(ws[|ws| - 1], acts[0]);
      assert IsRun(ws + [next], past + [acts[0]]);
      ws' := ExecutionsAreRuns(ws + [next], past + [acts[0]], acts[1..], w');
      assert past + [acts[0]] + acts[1..] == past + acts;
    }
  }

  ghost predicate Matches(w: World, store: SendLogStore)
    reads store
  {
    w.table == store.rows && w.cfg.sanitize == store.sanitize && TableInv(w)
  }

  class CommsService {
    const cfg: Config
    const store: SendLogStore

    constructor (cfg: Config, store: SendLogStore)
      ensures this.cfg == cfg && this.store == store
    {
      this.cfg := cfg;
      this.store := store;
    }

    /** Send. Whatever world the table belongs to, the call is client `c` taking protocol steps there
        until it is done with this result. */
    method Send(req: Request, env: Env, ghost w: World, ghost c: nat)
        returns (result: Result, ghost acts: seq<Action>, ghost w': World)
      requires Matches(w, store) && w.cfg == cfg && w.now == env.now && c !in w.clients && env.id !in w.births
      modifies store`rows
      ensures Matches(w', store)
      ensures Executes(w, acts, w') && c in w'.clients && w'.clients[c].phase == Done(result)
      ensures Returns(cfg, old(store.rows), req, env, result)
      ensures store.rows == TableAfter(cfg, old(store.rows), req, env)
      ensures result == Invalid <==>
        !(&& req.channel.Some? && 1 <= |req.to| <= 320 && 1 <= |req.template| <= 128
          && 1 <= |req.key| <= 200 && req.vars <= 50)
      ensures result != Invalid && env.insertFault.NoFault? && KeyIsFree(old(store.rows), req.key) ==>
        result == match req.channel.value
                  case Email =>
                    if env.templateError.Some? then TemplateError
                    else if cfg.hasEmail && env.providerOk then Delivered(env.id) else SendFailed(env.id)
                  case Sms =>
                    if env.templateError.Some? then TemplateError
                    else if cfg.hasSms && env.providerOk then Delivered(env.id) else SendFailed(env.id)
                  case _ => if env.templateError.Some? then TemplateError else SendFailed(env.id)
    {
      acts, w' := Step([], w, w, Start(c, req));
      result, acts, w' := Pipeline(req, env, acts, w, w', c);
      AnswersOf(cfg, old(store.rows), req, env, result);
    }

    /** Send from its validation on, for a client that has just begun. */
    method Pipeline(req: Request, env: Env, ghost past: seq<Action>, ghost start: World, ghost w: World, ghost c: nat)
      returns (result: Result, ghost acts: seq<Action>, ghost w': World)
      requires Matches(w, store) && w.cfg == cfg && w.now == env.now && Executes(start, past, w) && env.id !in w.births
      requires c in w.clients && w.clients[c].req == req
      requires w.clients[c].phase == if ValidRequest(req) then Reserving else Done(Invalid)
      modifies store`rows
      ensures Matches(w', store)
      ensures Executes(start, acts, w') && c in w'.clients && w'.clients[c].phase == Done(result)
      ensures Returns(cfg, old(store.rows), req, env, result)
        && store.rows == TableAfter(cfg, old(store.rows), req, env)
      ensures result != Invalid && env.insertFault.NoFault? && KeyIsFree(old(store.rows), req.key) ==>
        result == match req.channel.value
                  case Email =>
                    if env.templateError.Some? then TemplateError
                    else if cfg.hasEmail && env.providerOk then Delivered(env.id) else SendFailed(env.id)
                  case Sms =>
                    if env.templateError.Some? then TemplateError
                    else if cfg.hasSms && env.providerOk then Delivered(env.id) else SendFailed(env.id)
                  case _ => if env.templateError.Some? then TemplateError else SendFailed(env.id)
    {
      acts, w' := past, w;
      if !ValidRequest(req) {
        return Invalid, acts, w';
      }
      var row := NewRow(cfg, req, env.now);
      var reservation := store.Reserve(env.id, row, env.insertFault, env.lookupFault);
      if !env.insertFault.NoFault? {
        acts, w' := Step(acts, start, w', InsertError(c, env.id, env.insertFault.FailsAfter?));
        return ReserveError, acts, w';
      }
      acts, w' := Step(acts, start, w', Insert(c, env.id));
      match reservation {
        case Error =>
          acts, w' := Step(acts, start, w', LookupError(c));
          return ReserveError, acts, w';
        case Existing(id, status) =>
          acts, w' := Step(acts, start, w', Lookup(c, Some(id)));
          return Deduped(id, status), acts, w';
        case Claim(id) =>
          result, acts, w' := Deliver(req, env, acts, start, w', c);
      }
    }

    /** EventHandler.Handle: malformed, forged and stale payloads are dropped, anything else is sent;
        in the protocol it is the delivery of the payload followed by the same pipeline. */
    method Handle(payload: Payload, env: Env, ghost w: World, ghost c: nat)
        returns (sent: Option<Result>, ghost acts: seq<Action>, ghost w': World)
      requires Matches(w, store) && w.cfg == cfg && w.now == env.now && c !in w.clients && env.id !in w.births
      modifies store`rows
      ensures Matches(w', store) && Executes(w, acts, w')
      ensures sent.Some? <==>
        && payload.Envelope? && payload.genuine
        && payload.event.occurredAt - 60_000_000_000 <= env.now <= payload.event.occurredAt + 300_000_000_000
      ensures sent.None? ==> w' == w && store.rows == old(store.rows)
      ensures sent.Some? ==> c in w'.clients && w'.clients[c].phase == Done(sent.value)
      ensures sent.Some? ==>
        var req := ToSendRequest(payload.event);
        Returns(cfg, old(store.rows), req, env, sent.value) && store.rows == TableAfter(cfg, old(store.rows), req, env)
      ensures sent.Some? && payload.event.data.key == "" && env.insertFault.NoFault? ==>
        KeyIsFree(old(store.rows), "evt:" + Render(payload.event.id)) ==> !sent.value.Deduped?
    {
      acts, w' := Step([], w, w, SendProtocol.Deliver(c, payload));
      if payload.Malformed? || !payload.genuine {
        return None, acts, w';
      }
      FreshExactly(payload.event, env.now);
      if !IsFresh(payload.event, env.now) {
        return None, acts, w';
      }
      var result;
      result, acts, w' := Pipeline(ToSendRequest(payload.event), env, acts, w, w', c);
      sent := Some(result);
      RequestOfEvent(payload.event);
      AnswersOf(cfg, old(store.rows), ToSendRequest(payload.event), env, result);
    }

    /** The pipeline after a won reservation: render, dispatch, record. */
    method Deliver(req: Request, env: Env, ghost past: seq<Action>, ghost start: World, ghost w: World, ghost c: nat)
      returns (result: Result, ghost acts: seq<Action>, ghost w': World)
      requires Matches(w, store) && w.cfg == cfg && w.now == env.now && Executes(start, past, w)
      requires c in w.clients && w.clients[c].req == req && w.clients[c].phase == Rendering(env.id) && ValidRequest(req)
      modifies store`rows
      ensures Matches(w', store)
      ensures Executes(start, acts, w') && c in w'.clients && w'.clients[c].phase == Done(result)
      ensures result == ResultOfClaim(cfg, req, env) && store.rows == Recorded(cfg, old(store.rows), result, env)
      ensures
        result == match req.channel.value
                  case Email =>
                    if env.templateError.Some? then TemplateError
                    else if cfg.hasEmail && env.providerOk then Delivered(env.id) else SendFailed(env.id)
                  case Sms =>
                    if env.templateError.Some? then TemplateError
                    else if cfg.hasSms && env.providerOk then Delivered(env.id) else SendFailed(env.id)
                  case _ => if env.templateError.Some? then TemplateError else SendFailed(env.id)
    {
      var status, error := Failed, Some(env.providerError);
      if env.templateError.Some? {
        result, error := TemplateError, env.templateError;
      } else if HasSender(cfg, req.channel.value) && env.providerOk {
        result, status, error := Delivered(env.id), Sent, None;
      } else {
        result := SendFailed(env.id);
      }
      acts, w' := RenderAndDispatch(past, start, w, c, env);
      assert w'.clients[c].phase == Recording(env.id, status, error, result);
      var _ := store.MarkResult(env.id, status, "", error, env.now, env.markFault);
      acts, w' := Step(acts, start, w', RecordError(c, !env.markFault.FailsBefore?));
    }

    /** The protocol steps of rendering and, unless that fails, of the provider call. */
    ghost method RenderAndDispatch(past: seq<Action>, start: World, w: World, c: nat, env: Env)
        returns (acts: seq<Action>, w': World)
      requires Executes(start, past, w) && TableInv(w) && c in w.clients && w.clients[c].phase == Rendering(env.id)
      requires ValidRequest(w.clients[c].req)
      ensures Executes(start, acts, w') && TableInv(w') && c in w'.clients
      ensures w'.table == w.table && w'.now == w.now && w'.cfg == w.cfg
      ensures w'.clients[c].phase ==
              if env.templateError.Some? then Recording(env.id, Failed, env.templateError, TemplateError)
              else if HasSender(w.cfg, w.clients[c].req.channel.value) && env.providerOk
                then Recording(env.id, Sent, None, Delivered(env.id))
              else Recording(env.id, Failed, Some(env.providerError), SendFailed(env.id))
    {
      if env.templateError.Some? {
        acts, w' := Step(past, start, w, RenderError(c, env.templateError.value));
      } else {
        acts, w' := Step(past, start, w, RenderOk(c));
        acts, w' := Step(acts, start, w', Dispatch(c, env.providerOk, env.providerError));
      }
    }

    /** One more protocol step of a growing execution. */
    ghost method Step(acts: seq<Action>, start: World, w: World, a: Action) returns (acts': seq<Action>, w': World)
      requires Executes(start, acts, w) && Enabled(w, a) && TableInv(w)
      ensures acts' == acts + [a] && w' == Apply(w, a) && Executes(start, acts', w') && TableInv(w')
    {
      acts', w' := acts + [a], Apply(w, a);
      ExecutesOneMore(start, acts, w, a);
      TableInvKept(w, a);
    }
  }
}
