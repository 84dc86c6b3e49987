/** What every run of the send protocol guarantees about rows, provider calls and results. */
module SendTheorems {
  import opened Options
  import opened Uuids
  import opened SendLog
  import opened SendProtocol

  // ----- at most one provider call per row, by the row's owner

  lemma AtMostOneCallPerRow(ws: seq<World>, acts: seq<Action>, n: nat, i: nat, j: nat)
    requires IsRun(ws, acts) && n < |ws|
    requires i < |ws[n].history| && j < |ws[n].history|
    requires ws[n].history[i].Called? && ws[n].history[j].Called? && ws[n].history[i].id == ws[n].history[j].id
    ensures i == j
    ensures ws[n].history[i].id in ws[n].births
    ensures ws[n].births[ws[n].history[i].id].owner == ws[n].history[i].caller
    ensures ws[n].births[ws[n].history[i].id].key == ws[n].history[i].key
  {
    RunKeepsInv(ws, acts, n);
    assert IsCall(ws[n], i, ws[n].history[i].id) && IsCall(ws[n], j, ws[n].history[i].id);
  }

  // ----- every call goes to the sender of its channel

  /** The i-th record, if it is a call, was made for an email with an email sender or for an SMS with an
      SMS sender. */
  predicate CallHasItsSender(w: World, i: int) {
    0 <= i < |w.history| && w.history[i].Called? ==>
      var c := w.history[i].caller;
      && c in w.clients
      && ((w.clients[c].req.channel == Some(Email) && w.cfg.hasEmail)
          || (w.clients[c].req.channel == Some(Sms) && w.cfg.hasSms))
  }

  lemma RequestsStay(w: World, a: Action, c: nat)
    requires Enabled(w, a) && c in w.clients
    ensures c in Apply(w, a).clients && Apply(w, a).clients[c].req == w.clients[c].req && Apply(w, a).cfg == w.cfg
  {
  }

  lemma NewCallHasItsSender(w: World, a: Action)
    requires Enabled(w, a) && |Apply(w, a).history| > |w.history| && Apply(w, a).history[|w.history|].Called?
    ensures CallHasItsSender(Apply(w, a), |w.history|)
  {
  }

  lemma HistoryStays(w: World, a: Action, i: nat)
    requires Enabled(w, a) && i < |Apply(w, a).history|
    ensures i < |w.history| ==> Apply(w, a).history[i] == w.history[i]
    ensures i <= |w.history|
  {
  }

  lemma CallsKeepTheirSender(w: World, a: Action, i: nat)
    requires Enabled(w, a) && i < |Apply(w, a).history| && (i < |w.history| ==> CallHasItsSender(w, i))
    ensures CallHasItsSender(Apply(w, a), i)
  {
    HistoryStays(w, a, i);
    if i < |w.history| {
      if w.history[i].Called? {
        RequestsStay(w, a, w.history[i].caller);
      }
    } else if Apply(w, a).history[i].Called? {
      NewCallHasItsSender(w, a);
    }
  }

  /** In every run: emails only go out when an email sender is injected, SMS only with an SMS sender, and
      the other channels never reach a provider. */
  lemma {:induction false} CallsGoToTheirSender(ws: seq<World>, acts: seq<Action>, n: nat, i: nat)
    requires IsRun(ws, acts) && n < |ws| && i < |ws[n].history|
    ensures CallHasItsSender(ws[n], i)
    decreases n
  {
    if n == 0 {
    } else {
      if i < |ws[n - 1].history| {
        CallsGoToTheirSender(ws, acts, n - 1, i);
      }
      CallsKeepTheirSender(ws[n - 1], acts[n - 1], i);
    }
  }

  lemma {:induction false} ConfigStays(ws: seq<World>, acts: seq<Action>, n: nat)
    requires IsRun(ws, acts) && n < |ws|
    ensures ws[n].cfg == ws[0].cfg
  {
    if n == 0 {
    } else {
      ConfigStays(ws, acts, n - 1);
    }
  }

  // ----- row lifecycle over whole runs

  /** A row keeps its key and birth time; once finished it never changes; once purged it never returns. */
  ghost predicate RowEvolves(w: World, w': World, id: Uuid) {
    && (id in w.births ==> id in w'.births && w'.births[id] == w.births[id])
    && (id in w.births && id !in w.table ==> id !in w'.table)
    && (id in w.table && id in w'.table ==>
          && w'.table[id].key == w.table[id].key && w'.table[id].createdAt == w.table[id].createdAt
          && (w.table[id].status != Pending ==> w'.table[id] == w.table[id]))
  }

  lemma StepRowEvolves(w: World, a: Action, id: Uuid)
    requires Inv(w) && Enabled(w, a)
    ensures RowEvolves(w, Apply(w, a), id)
  {
    if id in Apply(w, a).table {
      RowChange(w, a, id);
    }
  }

  lemma RowEvolvesOn(w: World, w': World, w'': World, id: Uuid)
    requires TableInv(w) && RowEvolves(w, w', id) && RowEvolves(w', w'', id)
    ensures RowEvolves(w, w'', id)
  {
  }

  lemma {:induction false} RowLifecycle(ws: seq<World>, acts: seq<Action>, i: nat, j: nat, id: Uuid)
    requires IsRun(ws, acts) && i <= j < |ws|
    ensures RowEvolves(ws[i], ws[j], id)
    ensures id in ws[j].table ==> GoodRow(ws[j], id)
    decreases j
  {
    RunKeepsInv(ws, acts, i);
    RunKeepsInv(ws, acts, j);
    if i == j {
    } else {
      RowLifecycle(ws, acts, i, j - 1, id);
      RunKeepsInv(ws, acts, j - 1);
      StepRowEvolves(ws[j - 1], acts[j - 1], id);
      RowEvolvesOn(ws[i], ws[j - 1], ws[j], id);
    }
  }

  /** A row changes only when the client that inserted it records its result; a client whose row
      was purged leaves every other row, in particular a newer one with its key, alone. */
  lemma OnlyTheOwnerTouchesARow(ws: seq<World>, acts: seq<Action>, i: nat, id: Uuid)
    requires IsRun(ws, acts) && i < |acts|
    requires id in ws[i].table && id in ws[i + 1].table && ws[i + 1].table[id] != ws[i].table[id]
    ensures acts[i].Record? || acts[i].RecordError?
    ensures id in ws[i].births && acts[i].c == ws[i].births[id].owner
    ensures ws[i].table[id].status == Pending && ws[i].table[id].attempts == 0
    ensures ws[i + 1].table[id].status in {Sent, Failed} && ws[i + 1].table[id].attempts == 1
  {
    RunKeepsInv(ws, acts, i);
    RowChange(ws[i], acts[i], id);
    assert Holds(ws[i], acts[i].c, id);
    assert GoodRow(ws[i], id) && TruthfulRecording(ws[i], acts[i].c, id);
  }

  // ----- results are honest

  /** No client is working on the row. */
  ghost predicate Unheld(w: World, id: Uuid) {
    forall c :: !Holds(w, c, id)
  }

  /** The client has made no provider call. */
  ghost predicate NoCallBy(w: World, c: nat) {
    forall i :: 0 <= i < |w.history| && w.history[i].Called? ==> w.history[i].caller != c
  }

  /** The client is recording its outcome or done. */
  predicate Late(w: World, c: nat) {
    c in w.clients && (w.clients[c].phase.Recording? || w.clients[c].phase.Done?)
  }

  ghost predicate CallersAreLate(w: World) {
    forall i :: 0 <= i < |w.history| && w.history[i].Called? ==> Late(w, w.history[i].caller)
  }

  /** What a reported status says of the provider, now and for good. */
  ghost predicate HonestStatus(w: World, id: Uuid, status: Status) {
    match status
    case Pending => true
    case Sent => Succeeded(w, id)
    case Failed => !Succeeded(w, id) && Unheld(w, id)
    case Dead => false
  }

  ghost predicate HonestResult(w: World, c: nat) {
    c in w.clients && w.clients[c].phase.Done? ==>
      match w.clients[c].phase.result
      case Invalid => !ValidRequest(w.clients[c].req) && NoCallBy(w, c)
      case Delivered(id) => Succeeded(w, id) && id in w.births && w.births[id].owner == c
      case SendFailed(id) => !Succeeded(w, id) && id in w.births && w.births[id].owner == c
      case Deduped(id, status) =>
        id in w.births && w.births[id].key == w.clients[c].req.key && HonestStatus(w, id, status) && NoCallBy(w, c)
      case _ => NoCallBy(w, c)
  }

  /** What a recording client will return agrees with what it records. */
  ghost predicate HonestRecording(w: World, c: nat) {
    c in w.clients && w.clients[c].phase.Recording? ==>
      var p := w.clients[c].phase;
      || (p.status == Sent && p.result == Delivered(p.id))
      || (p.status == Failed && p.result == SendFailed(p.id))
      || (p.status == Failed && p.result == TemplateError && NoCallBy(w, c))
  }

  ghost predicate ResultInv(w: World) {
    && CallersAreLate(w)
    && (forall c :: HonestRecording(w, c))
    && (forall c :: HonestResult(w, c))
  }

  /** What a step adds to the history, as far as provider calls go. */
  lemma OnlyDispatchCalls(w: World, a: Action, i: nat)
    requires Enabled(w, a) && i < |Apply(w, a).history| && Apply(w, a).history[i].Called?
    ensures
      || (i < |w.history| && w.history[i] == Apply(w, a).history[i])
      || (a.Dispatch? && Apply(w, a).history[i].caller == a.c && Apply(w, a).clients[a.c].phase.Recording?)
  {
  }

  lemma LateStaysLate(w: World, a: Action, c: nat)
    requires Enabled(w, a) && Late(w, c)
    ensures Late(Apply(w, a), c)
  {
  }

  lemma CallersAreLateKept(w: World, a: Action)
    requires CallersAreLate(w) && Enabled(w, a)
    ensures CallersAreLate(Apply(w, a))
  {
    var w' := Apply(w, a);
    forall i | 0 <= i < |w'.history| && w'.history[i].Called? ensures Late(w', w'.history[i].caller) {
      OnlyDispatchCalls(w, a, i);
      if i < |w.history| && w.history[i] == w'.history[i] {
        LateStaysLate(w, a, w.history[i].caller);
      }
    }
  }

  lemma NoCallByKept(w: World, a: Action, c: nat)
    requires Enabled(w, a) && (NoCallBy(w, c) || (CallersAreLate(w) && !Late(w, c))) && !(a.Dispatch? && a.c == c)
    ensures NoCallBy(Apply(w, a), c)
  {
    var h' := Apply(w, a).history;
    forall i | 0 <= i < |h'| && h'[i].Called? ensures h'[i].caller != c {
      OnlyDispatchCalls(w, a, i);
    }
  }

  /** Where a recording client comes from. */
  lemma RecordingComesFrom(w: World, a: Action, c: nat)
    requires Enabled(w, a) && c in Apply(w, a).clients && Apply(w, a).clients[c].phase.Recording?
    ensures c in w.clients
    ensures
      var before, p := w.clients[c].phase, Apply(w, a).clients[c].phase;
      || before == p
      || (before.Rendering? && p.status == Failed && p.result == TemplateError)
      || (before.Dispatching? && p.status == Sent && p.result == Delivered(p.id))
      || (before.Dispatching? && p.status == Failed && p.result == SendFailed(p.id))
  {
  }

  lemma HonestRecordingKept(w: World, a: Action, c: nat)
    requires CallersAreLate(w) && Enabled(w, a) && HonestRecording(w, c)
    ensures HonestRecording(Apply(w, a), c)
  {
    var w' := Apply(w, a);
    if c in w'.clients && w'.clients[c].phase.Recording? {
      RecordingComesFrom(w, a, c);
      if w'.clients[c].phase.result == TemplateError {
        NoCallByKept(w, a, c);
      }
    }
  }

  lemma DoneIsFinal(w: World, a: Action, c: nat)
    requires Enabled(w, a) && c in w.clients && w.clients[c].phase.Done?
    ensures c in Apply(w, a).clients && Apply(w, a).clients[c] == w.clients[c]
  {
  }

  lemma BirthsStay(w: World, a: Action, id: Uuid)
    requires Enabled(w, a) && id in w.births
    ensures id in Apply(w, a).births && Apply(w, a).births[id] == w.births[id]
  {
  }

  lemma FinishedRowsStayAsTheyAre(w: World, a: Action, c: nat, id: Uuid)
    requires Inv(w) && Enabled(w, a) && c in w.clients && w.clients[c].phase.Done?
    requires id in w.births && w.births[id].owner == c
    ensures Succeeded(w, id) <==> Succeeded(Apply(w, a), id)
  {
    SucceededKept(w, a, id);
  }

  lemma UnheldStaysUnheld(w: World, a: Action, id: Uuid)
    requires Enabled(w, a) && id in w.births && Unheld(w, id)
    ensures Unheld(Apply(w, a), id)
  {
    forall c ensures !Holds(Apply(w, a), c, id) {
      if Holds(Apply(w, a), c, id) {
        NewHolds(w, a, c, id);
      }
    }
  }

  lemma HonestStatusKept(w: World, a: Action, id: Uuid, status: Status)
    requires Enabled(w, a) && id in w.births && HonestStatus(w, id, status)
    ensures HonestStatus(Apply(w, a), id, status)
  {
    SucceededKept(w, a, id);
    if status.Failed? {
      UnheldStaysUnheld(w, a, id);
    }
  }

  lemma DoneStaysHonest(w: World, a: Action, c: nat)
    requires Inv(w) && Enabled(w, a) && HonestResult(w, c) && c in w.clients && w.clients[c].phase.Done?
    ensures HonestResult(Apply(w, a), c)
  {
    DoneIsFinal(w, a, c);
    match w.clients[c].phase.result
    case Delivered(id) => FinishedRowsStayAsTheyAre(w, a, c, id); BirthsStay(w, a, id);
    case SendFailed(id) => FinishedRowsStayAsTheyAre(w, a, c, id); BirthsStay(w, a, id);
    case Deduped(id, status) => BirthsStay(w, a, id); HonestStatusKept(w, a, id, status); NoCallByKept(w, a, c);
    case _ => NoCallByKept(w, a, c);
  }

  lemma RecordingEnds(w: World, a: Action, c: nat)
    requires Enabled(w, a) && c in w.clients && w.clients[c].phase.Recording? && Apply(w, a).clients[c].phase.Done?
    ensures (a.Record? || a.RecordError?) && a.c == c
    ensures Apply(w, a).clients[c] == w.clients[c].(phase := Done(w.clients[c].phase.result))
  {
  }

  lemma RecordedResultIsHonest(w: World, w': World, c: nat, p: Phase)
    requires c in w.clients && w.clients[c].phase == p && p.Recording?
    requires HonestRecording(w, c) && TruthfulRecording(w, c, p.id)
    requires c in w'.clients && w'.clients[c] == w.clients[c].(phase := Done(p.result))
    requires p.id in w'.births && w'.births[p.id].owner == c && (Succeeded(w, p.id) <==> Succeeded(w', p.id))
    requires p.result == TemplateError ==> NoCallBy(w', c)
    ensures HonestResult(w', c)
  {
  }

  lemma RecordedIsHonest(w: World, a: Action, c: nat)
    requires Inv(w) && Enabled(w, a) && HonestRecording(w, c) && c in w.clients && w.clients[c].phase.Recording?
    requires Apply(w, a).clients[c].phase.Done?
    ensures HonestResult(Apply(w, a), c)
  {
    var p := w.clients[c].phase;
    assert Holds(w, c, p.id);
    RecordingEnds(w, a, c);
    BirthsStay(w, a, p.id);
    SucceededKept(w, a, p.id);
    if p.result == TemplateError {
      NoCallByKept(w, a, c);
    }
    RecordedResultIsHonest(w, Apply(w, a), c, p);
  }

  /** How a client can be done after a step without having recorded anything. */
  lemma DoneComesFrom(w: World, a: Action, c: nat)
    requires Enabled(w, a) && c in Apply(w, a).clients && Apply(w, a).clients[c].phase.Done? && !Late(w, c)
    ensures !(a.Dispatch? && a.c == c)
    ensures
      var client := Apply(w, a).clients[c];
      match client.phase.result
      case Invalid => !ValidRequest(client.req)
      case ReserveError => true
      case RowVanished => true
      case Deduped(id, status) => id in w.table && w.table[id].key == client.req.key && w.table[id].status == status
      case _ => false
  {
  }

  lemma TableStatusIsHonest(w: World, id: Uuid)
    requires Inv(w) && id in w.table
    ensures HonestStatus(w, id, w.table[id].status)
  {
    assert GoodRow(w, id);
    if w.table[id].status.Failed? {
      forall c ensures !Holds(w, c, id) {
      }
    }
  }

  lemma EarlyResultIsHonest(w: World, a: Action, c: nat)
    requires Inv(w) && CallersAreLate(w) && Enabled(w, a)
    requires c in Apply(w, a).clients && Apply(w, a).clients[c].phase.Done? && !Late(w, c)
    ensures HonestResult(Apply(w, a), c)
  {
    DoneComesFrom(w, a, c);
    NoCallByKept(w, a, c);
    match Apply(w, a).clients[c].phase.result
    case Deduped(id, status) =>
      TableStatusIsHonest(w, id);
      BirthsStay(w, a, id);
      HonestStatusKept(w, a, id, status);
    case _ =>
  }

  lemma HonestResultKept(w: World, a: Action, c: nat)
    requires Inv(w) && ResultInv(w) && Enabled(w, a)
    ensures HonestResult(Apply(w, a), c)
  {
    var w' := Apply(w, a);
    if c in w'.clients && w'.clients[c].phase.Done? {
      assert HonestResult(w, c) && HonestRecording(w, c);
      if !Late(w, c) {
        EarlyResultIsHonest(w, a, c);
      } else if w.clients[c].phase.Done? {
        DoneStaysHonest(w, a, c);
      } else {
        RecordedIsHonest(w, a, c);
      }
    }
  }

  /** Over every run, what clients are told is true of the provider and stays so: a delivery succeeded, a
      failure never does, a duplicate's reported status is its provider's verdict, and all other
      answers come without any call. */
  lemma {:induction false} ResultsAreHonest(ws: seq<World>, acts: seq<Action>, n: nat)
    requires IsRun(ws, acts) && n < |ws|
    ensures ResultInv(ws[n])
  {
    if n == 0 {
    } else {
      var w, a := ws[n - 1], acts[n - 1];
      ResultsAreHonest(ws, acts, n - 1);
      RunKeepsInv(ws, acts, n - 1);
      CallersAreLateKept(w, a);
      forall c ensures HonestResult(ws[n], c) { HonestResultKept(w, a, c); }
      forall c ensures HonestRecording(ws[n], c) { HonestRecordingKept(w, a, c); }
    }
  }

  // ----- lost reservations

  /** A row that nobody works on and no provider was called for; in the table it is PENDING. */
  ghost predicate Orphan(w: World, id: Uuid) {
    && id in w.births && Uncalled(w, id) && Unheld(w, id)
    && (id in w.table ==> w.table[id].status == Pending && w.table[id].attempts == 0)
  }

  /** A reservation that takes effect while its answer is lost leaves an orphan. */
  lemma LostAnswerOrphans(w: World, a: Action)
    requires Inv(w) && Enabled(w, a) && a.InsertError? && a.applied && !KeyTaken(w.table, w.clients[a.c].req.key)
    ensures Orphan(Apply(w, a), a.id) && a.id in Apply(w, a).table
  {
    var w' := Apply(w, a);
    forall i ensures !IsCall(w', i, a.id) {
      if IsCall(w', i, a.id) {
        NewCalls(w, a, i, a.id);
      }
    }
    forall c ensures !Holds(w', c, a.id) {
      if Holds(w', c, a.id) {
        NewHolds(w, a, c, a.id);
      }
    }
  }

  lemma OrphanKept(w: World, a: Action, id: Uuid)
    requires Inv(w) && Enabled(w, a) && Orphan(w, id)
    ensures Orphan(Apply(w, a), id)
  {
    var w' := Apply(w, a);
    BirthsStay(w, a, id);
    UnheldStaysUnheld(w, a, id);
    forall i ensures !IsCall(w', i, id) {
      if IsCall(w', i, id) {
        NewCalls(w, a, i, id);
      }
    }
    if id in w'.table {
      RowChange(w, a, id);
    }
  }

  /** For the rest of every run no provider is called for an orphan and it stays PENDING; a Send of its
      key that finds it in the table is told so and sends nothing either. */
  lemma {:induction false} OrphansAreNeverSent(ws: seq<World>, acts: seq<Action>, i: nat, n: nat, id: Uuid)
    requires IsRun(ws, acts) && i <= n < |ws| && Orphan(ws[i], id)
    ensures Orphan(ws[n], id)
  {
    if n == i {
    } else {
      OrphansAreNeverSent(ws, acts, i, n - 1, id);
      RunKeepsInv(ws, acts, n - 1);
      OrphanKept(ws[n - 1], acts[n - 1], id);
    }
  }

  lemma OrphansAnswerLookups(w: World, a: Action, id: Uuid)
    requires Inv(w) && Enabled(w, a) && Orphan(w, id) && id in w.table
    requires a.Lookup? && w.clients[a.c].req.key == w.births[id].key
    ensures Apply(w, a).clients[a.c].phase == Done(Deduped(id, Pending))
  {
    assert KeyTaken(w.table, w.table[id].key);
  }

  /** And while it is there nobody reserves its key. */
  lemma OrphansBlockTheirKey(w: World, a: Action, id: Uuid, c: nat, id': Uuid)
    requires Inv(w) && Enabled(w, a) && Orphan(w, id) && id in w.table
    requires Holds(Apply(w, a), c, id') && Apply(w, a).clients[c].req.key == w.births[id].key
    ensures Holds(w, c, id')
  {
    NewHolds(w, a, c, id');
    assert KeyTaken(w.table, w.table[id].key);
    if !Holds(w, c, id') {
      assert a.Insert? && a.c == c && a.id == id';
      TakenKeysAreNotHeld(w, a.c, id');
    }
  }

  lemma TakenKeysAreNotHeld(w: World, c: nat, id: Uuid)
    requires Enabled(w, Insert(c, id)) && KeyTaken(w.table, w.clients[c].req.key)
    ensures !Holds(Apply(w, Insert(c, id)), c, id)
  {
  }
}
