/**
 The send pipeline as a concurrent protocol. Any number of clients run Send over one send-log
 table; every SQL statement, provider call and purge is one atomic step, and a statement may
 fail with or without having taken effect.
 */
module SendProtocol {
  import opened Options
  import opened Uuids
  import opened GoTime
  import opened SendLog

  const MAX_RECIPIENT := 320
  const MAX_TEMPLATE := 128
  const MAX_KEY := 200
  const MAX_VARS := 50

  const MAX_EVENT_AGE: int := 5 * MINUTE
  const EVENT_SKEW: int := MINUTE
  const RETENTION: int := 30 * DAY

  /** `channel` is None for a name that is not one of the five channels; `vars` counts the variables. */
  datatype Request = Request(
    channel: Option<Channel>,
    to: string,
    template: string,
    key: string,
    vars: nat,
    user: Option<Uuid>)

  /** validateRequest. */
  predicate ValidRequest(req: Request) {
    && req.channel.Some?
    && 1 <= |req.to| <= MAX_RECIPIENT
    && 1 <= |req.template| <= MAX_TEMPLATE
    && 1 <= |req.key| <= MAX_KEY
    && req.vars <= MAX_VARS
  }

  /** Which senders are injected, the provider names recorded for them, the hash of recipients, and the
      sanitizing of error texts. */
  datatype Config = Config(
    hasEmail: bool,
    hasSms: bool,
    emailName: string,
    smsName: string,
    hash: string -> string,
    sanitize: string -> string)

  predicate HasSender(cfg: Config, channel: Channel) {
    (channel.Email? && cfg.hasEmail) || (channel.Sms? && cfg.hasSms)
  }

  function ProviderName(cfg: Config, channel: Channel): string {
    match channel
    case Email => cfg.emailName
    case Sms => cfg.smsName
    case _ => "none"
  }

  datatype Event = Event(id: Uuid, occurredAt: int, version: int, data: Request)

  /** A payload either does not parse or carries an event and the outcome of its signature check. */
  datatype Payload = Malformed | Envelope(event: Event, genuine: bool)

  /** ToSendRequest: the event id stands in for a missing idempotency key. */
  function ToSendRequest(e: Event): Request {
    if e.data.key == "" then e.data.(key := "evt:" + Render(e.id)) else e.data
  }

  /** A key that is given is kept, a missing one is made from the event's own id, and nothing else changes. */
  lemma RequestOfEvent(e: Event)
    ensures e.data.key != "" ==> ToSendRequest(e) == e.data
    ensures e.data.key == "" ==> ToSendRequest(e).key == "evt:" + Render(e.id)
    ensures ToSendRequest(e).channel == e.data.channel && ToSendRequest(e).to == e.data.to
    ensures ToSendRequest(e).template == e.data.template && ToSendRequest(e).vars == e.data.vars
    ensures ToSendRequest(e).user == e.data.user
  {
  }

  /** Events without a key never share one. */
  lemma KeylessEventsAreKeyedApart(e: Event, e': Event)
    requires e.data.key == "" && e'.data.key == "" && ToSendRequest(e).key == ToSendRequest(e').key
    ensures e.id == e'.id
  {
    assert ToSendRequest(e).key[4..] == Render(e.id) && ToSendRequest(e').key[4..] == Render(e'.id);
    ParseRender(e.id);
    ParseRender(e'.id);
  }

  /** IsSendRequestedFresh. */
  predicate IsFresh(e: Event, now: int) {
    var age := Sub(now, e.occurredAt);
    age <= MAX_EVENT_AGE && age >= -EVENT_SKEW
  }

  /** Clamping never changes the verdict: freshness is the plain inequality for all times. */
  lemma FreshExactly(e: Event, now: int)
    ensures IsFresh(e, now) <==> e.occurredAt - EVENT_SKEW <= now <= e.occurredAt + MAX_EVENT_AGE
    ensures IsFresh(e, now) <==> e.occurredAt - 60_000_000_000 <= now <= e.occurredAt + 300_000_000_000
  {
  }

  datatype Result =
    | Invalid
    | ReserveError
    | RowVanished
    | Deduped(id: Uuid, status: Status)
    | TemplateError
    | SendFailed(id: Uuid)
    | Delivered(id: Uuid)

  datatype Phase =
    | Reserving
    | LookingUp
    | Rendering(id: Uuid)
    | Dispatching(id: Uuid)
    | Recording(id: Uuid, status: Status, error: Option<string>, result: Result)
    | Done(result: Result)

  datatype Origin = Direct | FromEvent(event: Event, checkedAt: int)

  datatype Client = Client(req: Request, origin: Origin, phase: Phase)

  /** Who inserted a row, under which key and when; kept for every row ever inserted. */
  datatype Birth = Birth(owner: nat, key: string, at: int)

  /** What an observer of the table and the providers sees, in order. */
  datatype Record =
    | Inserted(id: Uuid, owner: nat, acknowledged: bool)
    | Called(id: Uuid, caller: nat, key: string, ok: bool, live: bool)
    | Marked(id: Uuid, status: Status)
    | Unrecorded(id: Uuid, status: Status)
    | Purged(ids: set<Uuid>)

  datatype World = World(
    cfg: Config,
    now: int,
    table: Table,
    clients: Clients,
    births: map<Uuid, Birth>,
    history: seq<Record>)

  datatype Action =
    | Tick(dt: nat)
    | Start(c: nat, req: Request)
    | Deliver(c: nat, payload: Payload)
    | Insert(c: nat, id: Uuid)
    | InsertError(c: nat, id: Uuid, applied: bool)
    | Lookup(c: nat, hit: Option<Uuid>)
    | LookupError(c: nat)
    | RenderOk(c: nat)
    | RenderError(c: nat, error: string)
    | Dispatch(c: nat, ok: bool, error: string)
    | Record(c: nat)
    | RecordError(c: nat, applied: bool)
    | Purge(cutoff: int)

  predicate LookupAnswer(t: Table, key: string, hit: Option<Uuid>) {
    match hit
    case Some(id) => id in t && t[id].key == key
    case None => !KeyTaken(t, key)
  }

  /** When a step can happen. Fresh row ids are the service's reliance on uuid.New. */
  predicate Enabled(w: World, a: Action) {
    match a
    case Tick(_) => true
    case Start(c, _) => c !in w.clients
    case Deliver(c, _) => c !in w.clients
    case Insert(c, id) => c in w.clients && w.clients[c].phase.Reserving? && id !in w.births
    case InsertError(c, id, _) => c in w.clients && w.clients[c].phase.Reserving? && id !in w.births
    case Lookup(c, hit) =>
      c in w.clients && w.clients[c].phase.LookingUp? && LookupAnswer(w.table, w.clients[c].req.key, hit)
    case LookupError(c) => c in w.clients && w.clients[c].phase.LookingUp?
    case RenderOk(c) => c in w.clients && w.clients[c].phase.Rendering?
    case RenderError(c, _) => c in w.clients && w.clients[c].phase.Rendering?
    case Dispatch(c, _, _) => c in w.clients && w.clients[c].phase.Dispatching?
    case Record(c) => c in w.clients && w.clients[c].phase.Recording?
    case RecordError(c, _) => c in w.clients && w.clients[c].phase.Recording?
    case Purge(_) => true
  }

  type Clients = map<nat, Client>

  /** One client moved to another phase. */
  function Moved(clients: Clients, c: nat, phase: Phase): Clients
    requires c in clients
  {
    clients[c := clients[c].(phase := phase)]
  }

  /** Send up to its first statement: validation, then the reservation. */
  function Begin(w: World, c: nat, req: Request, origin: Origin): World {
    w.(clients := w.clients[c := Client(req, origin, if ValidRequest(req) then Reserving else Done(Invalid))])
  }

  /** The row a client inserts for its request. */
  function NewRow(cfg: Config, req: Request, now: int): Row {
    var channel := if req.channel.Some? then req.channel.value else Email;
    PendingRow(req.key, channel, ProviderName(cfg, channel), req.template, req.user, cfg.hash(req.to), now)
  }

  /** The reservation's INSERT; a client that is not told of its row gives up on it. */
  function ApplyInsert(w: World, c: nat, id: Uuid, acknowledged: bool): World
    requires c in w.clients
  {
    var req := w.clients[c].req;
    if KeyTaken(w.table, req.key) then
      w.(clients := Moved(w.clients, c, if acknowledged then LookingUp else Done(ReserveError)))
    else
      w.(table := InsertStatement(w.table, id, NewRow(w.cfg, req, w.now)),
         clients := Moved(w.clients, c, if acknowledged then Rendering(id) else Done(ReserveError)),
         births := w.births[id := Birth(c, req.key, w.now)],
         history := w.history + [Inserted(id, c, acknowledged)])
  }

  /** dispatch: a channel without a sender fails without any provider call. */
  function ApplyDispatch(w: World, c: nat, id: Uuid, ok: bool, error: string): World
    requires c in w.clients
  {
    var req := w.clients[c].req;
    var failed := Recording(id, Failed, Some(error), SendFailed(id));
    if req.channel.Some? && HasSender(w.cfg, req.channel.value) then
      w.(clients := Moved(w.clients, c, if ok then Recording(id, Sent, None, Delivered(id)) else failed),
         history := w.history + [Called(id, c, req.key, ok, id in w.table)])
    else
      w.(clients := Moved(w.clients, c, failed))
  }

  /** MarkResult; Send returns the same result whether or not the update took effect. */
  function ApplyRecord(w: World, c: nat, p: Phase, applied: bool): World
    requires c in w.clients && p.Recording?
  {
    if applied && p.id in w.table then
      w.(table := UpdateStatement(w.table, p.id, p.status, None, Sanitized(w.cfg.sanitize, p.error), w.now),
         clients := Moved(w.clients, c, Done(p.result)),
         history := w.history + [Marked(p.id, p.status)])
    else
      w.(clients := Moved(w.clients, c, Done(p.result)), history := w.history + [Unrecorded(p.id, p.status)])
  }

  /** A client's step that touches nothing but the client. */
  function ApplyMove(w: World, c: nat, phase: Phase): World
    requires c in w.clients
  {
    w.(clients := Moved(w.clients, c, phase))
  }

  function Apply(w: World, a: Action): World
    requires Enabled(w, a)
  {
    match a
    case Tick(dt) => w.(now := w.now + dt)
    case Start(c, req) => Begin(w, c, req, Direct)
    case Deliver(c, payload) =>
      if payload.Envelope? && payload.genuine && IsFresh(payload.event, w.now) then
        Begin(w, c, ToSendRequest(payload.event), FromEvent(payload.event, w.now))
      else w
    case Insert(c, id) => ApplyInsert(w, c, id, true)
    case InsertError(c, id, applied) =>
      if applied then ApplyInsert(w, c, id, false) else ApplyMove(w, c, Done(ReserveError))
    case Lookup(c, hit) =>
      ApplyMove(w, c, Done(if hit.Some? then Deduped(hit.value, w.table[hit.value].status) else RowVanished))
    case LookupError(c) => ApplyMove(w, c, Done(ReserveError))
    case RenderOk(c) => ApplyMove(w, c, Dispatching(w.clients[c].phase.id))
    case RenderError(c, error) =>
      ApplyMove(w, c, Recording(w.clients[c].phase.id, Failed, Some(error), TemplateError))
    case Dispatch(c, ok, error) => ApplyDispatch(w, c, w.clients[c].phase.id, ok, error)
    case Record(c) => ApplyRecord(w, c, w.clients[c].phase, true)
    case RecordError(c, applied) => ApplyRecord(w, c, w.clients[c].phase, applied)
    case Purge(cutoff) =>
      w.(table := DeleteStatement(w.table, cutoff), history := w.history + [Purged(Expired(w.table, cutoff))])
  }

  predicate Init(w: World) {
    w.table == map[] && w.clients == map[] && w.births == map[] && w.history == []
  }

  /** A run: the worlds visited and the steps between them. */
  ghost predicate IsRun(ws: seq<World>, acts: seq<Action>) {
    && |ws| == |acts| + 1
    && Init(ws[0])
    && forall i :: 0 <= i < |acts| ==> Enabled(ws[i], acts[i]) && ws[i + 1] == Apply(ws[i], acts[i])
  }

  // ----- invariants

  /** The row a client has inserted and not yet finished with. */
  predicate Holds(w: World, c: nat, id: Uuid) {
    && c in w.clients
    && var p := w.clients[c].phase;
      (p.Rendering? || p.Dispatching? || p.Recording?) && p.id == id
  }

  /** Rows carry the key and time of their birth and keys are unique. */
  ghost predicate TableInv(w: World) {
    && UniqueKeys(w.table)
    && forall id :: id in w.table ==>
        id in w.births && w.births[id].key == w.table[id].key && w.births[id].at == w.table[id].createdAt
  }

  /** A client works only on a row it inserted itself, for its own key. */
  ghost predicate OwnerInv(w: World) {
    forall c, id :: Holds(w, c, id) ==>
      id in w.births && w.births[id].owner == c && w.births[id].key == w.clients[c].req.key
  }

  predicate IsCall(w: World, i: int, id: Uuid) {
    0 <= i < |w.history| && w.history[i].Called? && w.history[i].id == id
  }

  /** No provider call has been made for `id`. */
  ghost predicate Uncalled(w: World, id: Uuid) {
    forall i :: !IsCall(w, i, id)
  }

  ghost predicate Succeeded(w: World, id: Uuid) {
    exists i :: IsCall(w, i, id) && w.history[i].ok
  }

  ghost predicate BeforeCall(w: World, c: nat, id: Uuid) {
    Holds(w, c, id) && !w.clients[c].phase.Recording?
  }

  ghost predicate CallInv(w: World) {
    && (forall i, id :: IsCall(w, i, id) ==>
          id in w.births && w.births[id].owner == w.history[i].caller && w.births[id].key == w.history[i].key)
    && (forall i, j, id :: IsCall(w, i, id) && IsCall(w, j, id) ==> i == j)
    && (forall c, id :: BeforeCall(w, c, id) ==> Uncalled(w, id))
  }

  /** PENDING and untried, or finished after one attempt with the provider's own verdict. */
  ghost predicate GoodRow(w: World, id: Uuid)
    requires id in w.table
  {
    var row := w.table[id];
    || (row.status == Pending && row.attempts == 0)
    || (row.status == Sent && row.attempts == 1 && Succeeded(w, id))
    || (row.status == Failed && row.attempts == 1 && !Succeeded(w, id))
  }

  /** What a client is about to record is what the provider told it. */
  ghost predicate TruthfulRecording(w: World, c: nat, id: Uuid) {
    Holds(w, c, id) && w.clients[c].phase.Recording? ==>
      var status := w.clients[c].phase.status;
      (status == Sent && Succeeded(w, id)) || (status == Failed && !Succeeded(w, id))
  }

  ghost predicate RowInv(w: World) {
    && (forall id :: id in w.table ==> GoodRow(w, id))
    && (forall c, id :: Holds(w, c, id) && id in w.table ==> w.table[id].status == Pending)
    && (forall c, id :: TruthfulRecording(w, c, id))
  }

  ghost predicate Inv(w: World) {
    TableInv(w) && OwnerInv(w) && CallInv(w) && RowInv(w)
  }

  lemma TableInvInsert(w: World, c: nat, id: Uuid, acknowledged: bool)
    requires TableInv(w) && c in w.clients && id !in w.births
    ensures TableInv(ApplyInsert(w, c, id, acknowledged))
  {
  }

  lemma TableInvRecord(w: World, c: nat, p: Phase, applied: bool)
    requires TableInv(w) && c in w.clients && p.Recording?
    ensures TableInv(ApplyRecord(w, c, p, applied))
  {
  }

  lemma TableInvPurge(w: World, cutoff: int)
    requires TableInv(w)
    ensures TableInv(Apply(w, Purge(cutoff)))
  {
  }

  lemma TableInvKept(w: World, a: Action)
    requires TableInv(w) && Enabled(w, a)
    ensures TableInv(Apply(w, a))
  {
    match a
    case Insert(c, id) => TableInvInsert(w, c, id, true);
    case InsertError(c, id, applied) => TableInvInsert(w, c, id, false);
    case Record(c) => TableInvRecord(w, c, w.clients[c].phase, true);
    case RecordError(c, applied) => TableInvRecord(w, c, w.clients[c].phase, applied);
    case Purge(cutoff) => TableInvPurge(w, cutoff);
    case _ => OtherStepsKeepTheTable(w, a);
  }

  lemma OtherStepsKeepTheTable(w: World, a: Action)
    requires Enabled(w, a) && !a.Insert? && !a.InsertError? && !a.Record? && !a.RecordError? && !a.Purge?
    ensures Apply(w, a).table == w.table && Apply(w, a).births == w.births
  {
  }

  /** A client comes to hold a row only by inserting it. */
  lemma NewHolds(w: World, a: Action, c: nat, id: Uuid)
    requires Enabled(w, a) && Holds(Apply(w, a), c, id)
    ensures Holds(w, c, id) || (a.Insert? && a.c == c && a.id == id && Apply(w, a).table[id].status == Pending)
    ensures a.Record? || a.RecordError? ==> a.c != c
    ensures BeforeCall(Apply(w, a), c, id) && Holds(w, c, id) ==> BeforeCall(w, c, id) && !(a.Dispatch? && a.c == c)
  {
  }

  lemma OwnerInvKept(w: World, a: Action)
    requires OwnerInv(w) && Enabled(w, a)
    ensures OwnerInv(Apply(w, a))
  {
    var w' := Apply(w, a);
    forall c, id | Holds(w', c, id)
      ensures id in w'.births && w'.births[id].owner == c && w'.births[id].key == w'.clients[c].req.key
    {
      NewHolds(w, a, c, id);
    }
  }

  /** The only new provider call is one by a client that holds its row and has not called yet. */
  lemma NewCalls(w: World, a: Action, i: int, id: Uuid)
    requires Enabled(w, a) && IsCall(Apply(w, a), i, id)
    ensures IsCall(w, i, id) || (i == |w.history| && a.Dispatch? && BeforeCall(w, a.c, id)
                                 && Apply(w, a).history[i].caller == a.c
                                 && Apply(w, a).history[i].key == w.clients[a.c].req.key)
    ensures IsCall(w, i, id) ==> Apply(w, a).history[i] == w.history[i]
  {
  }

  lemma OldCalls(w: World, a: Action, i: int, id: Uuid)
    requires Enabled(w, a) && IsCall(w, i, id)
    ensures IsCall(Apply(w, a), i, id) && Apply(w, a).history[i] == w.history[i]
    ensures id in w.births ==> id in Apply(w, a).births && Apply(w, a).births[id] == w.births[id]
  {
  }

  lemma UncalledStaysUncalled(w: World, a: Action, c: nat, id: Uuid)
    requires OwnerInv(w) && CallInv(w) && Enabled(w, a) && BeforeCall(Apply(w, a), c, id)
    ensures Uncalled(Apply(w, a), id)
  {
    NewHolds(w, a, c, id);
    forall i ensures !IsCall(Apply(w, a), i, id) {
      if IsCall(Apply(w, a), i, id) {
        NewCalls(w, a, i, id);
      }
    }
  }

  lemma CallsStayOwned(w: World, a: Action, i: int, id: Uuid)
    requires OwnerInv(w) && CallInv(w) && Enabled(w, a) && IsCall(Apply(w, a), i, id)
    ensures
      var w' := Apply(w, a);
      id in w'.births && w'.births[id].owner == w'.history[i].caller && w'.births[id].key == w'.history[i].key
  {
    NewCalls(w, a, i, id);
    if IsCall(w, i, id) {
      OldCalls(w, a, i, id);
    }
  }

  lemma CallsStayUnique(w: World, a: Action, i: int, j: int, id: Uuid)
    requires CallInv(w) && Enabled(w, a) && IsCall(Apply(w, a), i, id) && IsCall(Apply(w, a), j, id)
    ensures i == j
  {
    NewCalls(w, a, i, id);
    NewCalls(w, a, j, id);
  }

  lemma CallInvKept(w: World, a: Action)
    requires OwnerInv(w) && CallInv(w) && Enabled(w, a)
    ensures CallInv(Apply(w, a))
  {
    var w' := Apply(w, a);
    forall i, id | IsCall(w', i, id)
      ensures id in w'.births && w'.births[id].owner == w'.history[i].caller && w'.births[id].key == w'.history[i].key
    {
      CallsStayOwned(w, a, i, id);
    }
    forall i, j, id | IsCall(w', i, id) && IsCall(w', j, id) ensures i == j { CallsStayUnique(w, a, i, j, id); }
    forall c, id | BeforeCall(w', c, id) ensures Uncalled(w', id) { UncalledStaysUncalled(w, a, c, id); }
  }

  lemma SucceededKept(w: World, a: Action, id: Uuid)
    requires Enabled(w, a)
    ensures Succeeded(w, id) ==> Succeeded(Apply(w, a), id)
    ensures Succeeded(Apply(w, a), id) ==> Succeeded(w, id) || (a.Dispatch? && BeforeCall(w, a.c, id) && a.ok)
  {
    var w' := Apply(w, a);
    if Succeeded(w, id) {
      var i :| IsCall(w, i, id) && w.history[i].ok;
      OldCalls(w, a, i, id);
    }
    if Succeeded(w', id) {
      var i :| IsCall(w', i, id) && w'.history[i].ok;
      NewCalls(w, a, i, id);
    }
  }

  lemma HeldRowsStayPending(w: World, a: Action, c: nat, id: Uuid)
    requires Inv(w) && Enabled(w, a) && Holds(Apply(w, a), c, id) && id in Apply(w, a).table
    ensures Apply(w, a).table[id].status == Pending
  {
    NewHolds(w, a, c, id);
    RowChange(w, a, id);
  }

  lemma RecordingStaysTruthful(w: World, a: Action, c: nat, id: Uuid)
    requires Inv(w) && Enabled(w, a)
    ensures TruthfulRecording(Apply(w, a), c, id)
  {
    if Holds(Apply(w, a), c, id) {
      NewHolds(w, a, c, id);
      SucceededKept(w, a, id);
      assert TruthfulRecording(w, c, id);
      if BeforeCall(w, c, id) {
        assert Uncalled(w, id);
      }
      if a.Dispatch? && a.c == c && Apply(w, a).history != w.history {
        assert IsCall(Apply(w, a), |w.history|, id);
      }
    }
  }

  /** How one step can treat a row that is in the table afterwards. */
  lemma RowChange(w: World, a: Action, id: Uuid)
    requires TableInv(w) && Enabled(w, a) && id in Apply(w, a).table
    ensures
      var row := Apply(w, a).table[id];
      || (id in w.table && row == w.table[id])
      || (id !in w.table && (a.Insert? || a.InsertError?) && id == a.id && row.status == Pending && row.attempts == 0)
      || (id in w.table && (a.Record? || a.RecordError?) && Holds(w, a.c, id) && w.clients[a.c].phase.Recording?
          && row.status == w.clients[a.c].phase.status && row.attempts == w.table[id].attempts + 1
          && row.key == w.table[id].key && row.createdAt == w.table[id].createdAt)
  {
  }

  lemma RowsStayGood(w: World, a: Action, id: Uuid)
    requires Inv(w) && Enabled(w, a) && id in Apply(w, a).table
    ensures GoodRow(Apply(w, a), id)
  {
    RowChange(w, a, id);
    SucceededKept(w, a, id);
    if id in w.table {
      assert GoodRow(w, id);
      if a.Record? || a.RecordError? {
        assert TruthfulRecording(w, a.c, id);
      }
    }
  }

  lemma RowInvKept(w: World, a: Action)
    requires Inv(w) && Enabled(w, a)
    ensures RowInv(Apply(w, a))
  {
    var w' := Apply(w, a);
    forall id | id in w'.table ensures GoodRow(w', id) { RowsStayGood(w, a, id); }
    forall c, id | Holds(w', c, id) && id in w'.table ensures w'.table[id].status == Pending {
      HeldRowsStayPending(w, a, c, id);
    }
    forall c, id ensures TruthfulRecording(w', c, id) { RecordingStaysTruthful(w, a, c, id); }
  }

  lemma InvKept(w: World, a: Action)
    requires Inv(w) && Enabled(w, a)
    ensures Inv(Apply(w, a))
  {
    TableInvKept(w, a);
    OwnerInvKept(w, a);
    CallInvKept(w, a);
    RowInvKept(w, a);
  }

  lemma {:induction false} RunKeepsInv(ws: seq<World>, acts: seq<Action>, i: nat)
    requires IsRun(ws, acts) && i < |ws|
    ensures Inv(ws[i])
  {
    if i == 0 {
    } else {
      RunKeepsInv(ws, acts, i - 1);
      InvKept(ws[i - 1], acts[i - 1]);
    }
  }
}
