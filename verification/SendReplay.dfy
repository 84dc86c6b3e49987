/**
 Retention against redelivery: how the 30-day purge interacts with slow owners and with
 replayed events, as exact bounds over all runs.
 */
module SendReplay {
  import opened Options
  import opened Uuids
  import opened SendLog
  import opened SendProtocol

  // ----- purges between calls

  predicate IsLiveCall(w: World, i: int) {
    0 <= i < |w.history| && w.history[i].Called? && w.history[i].live
  }

  predicate PurgedAt(h: seq<Record>, k: int, id: Uuid) {
    0 <= k < |h| && h[k].Purged? && id in h[k].ids
  }

  ghost predicate PurgedBetween(h: seq<Record>, i: int, j: int, id: Uuid) {
    exists k :: i < k < j && PurgedAt(h, k, id)
  }

  /** A row that was in the table at its call is still there or was purged since. */
  ghost predicate LiveInv(w: World) {
    forall i :: IsLiveCall(w, i) ==>
      w.history[i].id in w.table || PurgedBetween(w.history, i, |w.history|, w.history[i].id)
  }

  ghost predicate Separated(w: World) {
    forall i, j :: 0 <= i < j && IsLiveCall(w, i) && IsLiveCall(w, j) && w.history[i].key == w.history[j].key ==>
      PurgedBetween(w.history, i, j, w.history[i].id)
  }

  lemma HistoryGrows(w: World, a: Action)
    requires Enabled(w, a)
    ensures w.history <= Apply(w, a).history
    ensures |w.history| <= |Apply(w, a).history| <= |w.history| + 1
  {
  }

  lemma PurgedBetweenKept(h: seq<Record>, h': seq<Record>, i: int, j: int, id: Uuid)
    requires h <= h' && PurgedBetween(h, i, j, id)
    ensures PurgedBetween(h', i, j, id)
  {
    var k :| i < k < j && PurgedAt(h, k, id);
    assert PurgedAt(h', k, id);
  }

  lemma RowsLeaveByPurge(w: World, a: Action, id: Uuid)
    requires Enabled(w, a) && id in w.table && id !in Apply(w, a).table
    ensures a.Purge? && PurgedAt(Apply(w, a).history, |w.history|, id)
  {
  }

  lemma LiveInvKept(w: World, a: Action)
    requires Inv(w) && LiveInv(w) && Enabled(w, a)
    ensures LiveInv(Apply(w, a))
  {
    var w' := Apply(w, a);
    HistoryGrows(w, a);
    forall i | IsLiveCall(w', i) && w'.history[i].id !in w'.table
      ensures PurgedBetween(w'.history, i, |w'.history|, w'.history[i].id)
    {
      var id := w'.history[i].id;
      if i < |w.history| {
        assert IsLiveCall(w, i) && w.history[i].id == id;
        if id in w.table {
          RowsLeaveByPurge(w, a, id);
        } else {
          PurgedBetweenKept(w.history, w'.history, i, |w.history|, id);
          var k :| i < k < |w.history| && PurgedAt(w'.history, k, id);
        }
      }
    }
  }

  lemma SeparatedKept(w: World, a: Action)
    requires Inv(w) && LiveInv(w) && Separated(w) && Enabled(w, a)
    ensures Separated(Apply(w, a))
  {
    var w' := Apply(w, a);
    HistoryGrows(w, a);
    forall i, j | 0 <= i < j && IsLiveCall(w', i) && IsLiveCall(w', j) && w'.history[i].key == w'.history[j].key
      ensures PurgedBetween(w'.history, i, j, w'.history[i].id)
    {
      var id := w'.history[i].id;
      assert IsLiveCall(w, i) && w.history[i] == w'.history[i];
      assert IsCall(w, i, id);
      if j < |w.history| {
        assert IsLiveCall(w, j) && w.history[j] == w'.history[j];
        PurgedBetweenKept(w.history, w'.history, i, j, id);
      } else {
        var id' := w'.history[j].id;
        NewCalls(w, a, j, id');
        assert id' in w.table && id' != id;
        assert w.births[id].key == w.births[id'].key;
        PurgedBetweenKept(w.history, w'.history, i, |w.history|, id);
      }
    }
  }

  /** Two provider calls for one key, each made while its row was in the table, have a purge of the
      earlier row between them. */
  lemma {:induction false} LiveCallsAreSeparated(ws: seq<World>, acts: seq<Action>, n: nat)
    requires IsRun(ws, acts) && n < |ws|
    ensures LiveInv(ws[n]) && Separated(ws[n])
  {
    if n == 0 {
    } else {
      LiveCallsAreSeparated(ws, acts, n - 1);
      RunKeepsInv(ws, acts, n - 1);
      LiveInvKept(ws[n - 1], acts[n - 1]);
      SeparatedKept(ws[n - 1], acts[n - 1]);
    }
  }

  // ----- retention

  /** PurgeExpired with the default cutoff; the cutoff may have been computed some time ago. */
  predicate DefaultPurge(w: World, a: Action) {
    a.Purge? ==> a.cutoff <= w.now - RETENTION
  }

  ghost predicate RetentionInv(w: World) {
    forall id :: id in w.births ==>
      w.births[id].at <= w.now && (id in w.table || w.births[id].at + RETENTION < w.now)
  }

  lemma RetentionInvKept(w: World, a: Action)
    requires TableInv(w) && RetentionInv(w) && Enabled(w, a) && DefaultPurge(w, a)
    ensures RetentionInv(Apply(w, a))
  {
  }

  /** Longest delays of a run: from an event's freshness check to its reservation, and from a
      reservation to its dispatch. None is no bound. */
  datatype Bounds = Bounds(reserve: Option<int>, dispatch: Option<int>)

  predicate Within(w: World, a: Action, b: Bounds) {
    && DefaultPurge(w, a)
    && (b.reserve.Some? && (a.Insert? || a.InsertError?) && a.c in w.clients && w.clients[a.c].origin.FromEvent? ==>
          w.now <= w.clients[a.c].origin.checkedAt + b.reserve.value)
    && (b.dispatch.Some? && a.Dispatch? && a.c in w.clients ==>
          var p := w.clients[a.c].phase;
          p.Dispatching? && p.id in w.births ==> w.now <= w.births[p.id].at + b.dispatch.value)
  }

  /** A run whose purges all use the default cutoff and whose delays stay within `b`. */
  ghost predicate IsBoundedRun(ws: seq<World>, acts: seq<Action>, b: Bounds) {
    IsRun(ws, acts) && forall i :: 0 <= i < |acts| ==> Within(ws[i], acts[i], b)
  }

  // ----- slow owners

  /** Between any two provider calls for one key the earlier call's row was purged. */
  ghost predicate CallsSeparated(w: World) {
    forall i, j :: 0 <= i < j < |w.history| && w.history[i].Called? && w.history[j].Called?
                   && w.history[i].key == w.history[j].key ==>
      PurgedBetween(w.history, i, j, w.history[i].id)
  }

  ghost predicate AllLive(w: World) {
    forall i :: 0 <= i < |w.history| && w.history[i].Called? ==> w.history[i].live
  }

  lemma AllLiveKept(w: World, a: Action, d: int)
    requires Inv(w) && RetentionInv(w) && AllLive(w) && Enabled(w, a) && Within(w, a, Bounds(None, Some(d)))
      && d <= RETENTION
    ensures AllLive(Apply(w, a))
  {
    if a.Dispatch? {
      assert Holds(w, a.c, w.clients[a.c].phase.id);
    }
  }

  lemma {:induction false} TimelyCallsAreLive(ws: seq<World>, acts: seq<Action>, d: int, n: nat)
    requires IsBoundedRun(ws, acts, Bounds(None, Some(d))) && d <= RETENTION && n < |ws|
    ensures RetentionInv(ws[n]) && AllLive(ws[n])
  {
    if n == 0 {
    } else {
      TimelyCallsAreLive(ws, acts, d, n - 1);
      RunKeepsInv(ws, acts, n - 1);
      RetentionInvKept(ws[n - 1], acts[n - 1]);
      AllLiveKept(ws[n - 1], acts[n - 1], d);
    }
  }

  lemma TimelyCallsAreSeparated(ws: seq<World>, acts: seq<Action>, d: int, n: nat)
    requires IsBoundedRun(ws, acts, Bounds(None, Some(d))) && d <= RETENTION && n < |ws|
    ensures CallsSeparated(ws[n])
  {
    TimelyCallsAreLive(ws, acts, d, n);
    LiveCallsAreSeparated(ws, acts, n);
    var w := ws[n];
    forall i, j | 0 <= i < j < |w.history| && w.history[i].Called? && w.history[j].Called?
                  && w.history[i].key == w.history[j].key
      ensures PurgedBetween(w.history, i, j, w.history[i].id)
    {
      assert IsLiveCall(w, i) && IsLiveCall(w, j);
    }
  }

  function Last<T>(s: seq<T>): T
    requires s != []
  {
    s[|s| - 1]
  }

  const MAIL := Request(Some(Email), "to", "tpl", "key", 0, None)
  const SERVICE := Config(true, true, "smtp", "aws-sns", s => "hash", s => "error")
  const MAIL_ROW := PendingRow("key", Email, "smtp", "tpl", None, "hash", 0)

  lemma ExtendRun(ws: seq<World>, acts: seq<Action>, b: Bounds, a: Action) returns (ws': seq<World>, acts': seq<Action>)
    requires IsBoundedRun(ws, acts, b) && Enabled(Last(ws), a) && Within(Last(ws), a, b)
    ensures IsBoundedRun(ws', acts', b) && Last(ws') == Apply(Last(ws), a)
  {
    ws', acts' := ws + [Apply(Last(ws), a)], acts + [a];
  }

  /** The world after client `c` has reserved row `id` and rendered its message. */
  function Claimed(w: World, c: nat, id: Uuid): World
    requires c in w.clients
  {
    w.(table := w.table[id := MAIL_ROW.(createdAt := w.now, updatedAt := w.now)],
       clients := w.clients[c := w.clients[c].(phase := Dispatching(id))],
       births := w.births[id := Birth(c, "key", w.now)],
       history := w.history + [Inserted(id, c, true)])
  }

  lemma ClaimRow(ws: seq<World>, acts: seq<Action>, b: Bounds, c: nat, id: Uuid)
      returns (ws': seq<World>, acts': seq<Action>)
    requires IsBoundedRun(ws, acts, b) && Last(ws).cfg == SERVICE
    requires c in Last(ws).clients && Last(ws).clients[c].req == MAIL && Last(ws).clients[c].phase == Reserving
    requires id !in Last(ws).births && Last(ws).table == map[] && Within(Last(ws), Insert(c, id), b)
    ensures IsBoundedRun(ws', acts', b) && Last(ws') == Claimed(Last(ws), c, id)
  {
    var w := Last(ws);
    ws', acts' := ExtendRun(ws, acts, b, Insert(c, id));
    ws', acts' := ExtendRun(ws', acts', b, RenderOk(c));
    assert Last(ws').clients == w.clients[c := w.clients[c].(phase := Dispatching(id))];
  }

  /** The world after the purge that follows `dt` of waiting, when row `id` is alone and expired. */
  lemma WaitAndPurge(ws: seq<World>, acts: seq<Action>, b: Bounds, dt: nat, id: Uuid)
      returns (ws': seq<World>, acts': seq<Action>)
    requires IsBoundedRun(ws, acts, b)
    requires Last(ws).table.Keys == {id} && Last(ws).table[id].createdAt == 0 && Last(ws).now + dt == RETENTION + 1
    ensures IsBoundedRun(ws', acts', b)
    ensures Last(ws') == Last(ws).(now := RETENTION + 1, table := map[], history := Last(ws).history + [Purged({id})])
  {
    ws', acts' := ExtendRun(ws, acts, b, Tick(dt));
    assert Expired(Last(ws').table, 1) == {id};
    ws', acts' := ExtendRun(ws', acts', b, Purge(1));
    assert Last(ws').table == map[];
  }

  const START := World(SERVICE, 0, map[], map[], map[], [])

  /** Client 0 holds row 1, which has been purged. */
  const STALLED := World(SERVICE, RETENTION + 1, map[], map[0 := Client(MAIL, Direct, Dispatching(1))],
                         map[1 := Birth(0, "key", 0)], [Inserted(1, 0, true), Purged({1})])

  lemma StallRun(b: Bounds) returns (ws: seq<World>, acts: seq<Action>)
    ensures IsBoundedRun(ws, acts, b) && Last(ws) == STALLED
  {
    ws, acts := [START], [];
    ws, acts := ExtendRun(ws, acts, b, Start(0, MAIL));
    ws, acts := ClaimRow(ws, acts, b, 0, 1);
    ws, acts := WaitAndPurge(ws, acts, b, RETENTION + 1, 1);
    assert Last(ws).clients == STALLED.clients;
  }

  /** A client that stalls past the retention window calls after its successor, with no purge between. */
  lemma SlowOwnerRun(d: int) returns (ws: seq<World>, acts: seq<Action>)
    requires d > RETENTION
    ensures IsBoundedRun(ws, acts, Bounds(None, Some(d))) && !CallsSeparated(Last(ws))
  {
    var b := Bounds(None, Some(d));
    ws, acts := StallRun(b);
    ws, acts := ExtendRun(ws, acts, b, Start(1, MAIL));
    ws, acts := ClaimRow(ws, acts, b, 1, 2);
    ws, acts := ExtendRun(ws, acts, b, Dispatch(1, true, ""));
    ws, acts := ExtendRun(ws, acts, b, Dispatch(0, true, ""));
    var h := Last(ws).history;
    assert h[2].Inserted? && h[3].Called? && h[4].Called? && h[3].key == h[4].key;
    assert !PurgedBetween(h, 3, 4, h[3].id);
  }

  /** A purge separates the provider calls of one key in every run exactly when owners dispatch
      within the retention window. */
  lemma CallsSeparatedExactlyWithinRetention(d: int)
    ensures (forall ws, acts :: IsBoundedRun(ws, acts, Bounds(None, Some(d))) ==> CallsSeparated(Last(ws))) <==>
      d <= 2_592_000_000_000_000
  {
    assert RETENTION == 2_592_000_000_000_000;
    if d <= RETENTION {
      forall ws, acts | IsBoundedRun(ws, acts, Bounds(None, Some(d))) ensures CallsSeparated(Last(ws)) {
        TimelyCallsAreSeparated(ws, acts, d, |ws| - 1);
      }
    } else {
      var ws, acts := SlowOwnerRun(d);
    }
  }

  // ----- replayed events

  ghost predicate CameFrom(w: World, c: nat, e: Event) {
    c in w.clients && w.clients[c].origin.FromEvent? && w.clients[c].origin.event == e
  }

  /** At most one provider call was made on behalf of `e`. */
  ghost predicate SentAtMostOnce(w: World, e: Event) {
    forall i, j ::
      (&& 0 <= i < |w.history| && 0 <= j < |w.history| && w.history[i].Called? && w.history[j].Called?
       && CameFrom(w, w.history[i].caller, e) && CameFrom(w, w.history[j].caller, e)) ==> i == j
  }

  /** A client that came from an event passed the freshness check and carries the event's request. */
  ghost predicate OriginInv(w: World) {
    forall c, e :: CameFrom(w, c, e) ==>
      && w.clients[c].req == ToSendRequest(e)
      && w.clients[c].origin.checkedAt <= w.now
      && e.occurredAt - EVENT_SKEW <= w.clients[c].origin.checkedAt <= e.occurredAt + MAX_EVENT_AGE
  }

  lemma NewOrigins(w: World, a: Action, c: nat, e: Event)
    requires Enabled(w, a) && CameFrom(Apply(w, a), c, e) && !CameFrom(w, c, e)
    ensures
      var client := Apply(w, a).clients[c];
      && client.req == ToSendRequest(e) && client.origin.checkedAt == w.now
      && e.occurredAt - EVENT_SKEW <= w.now <= e.occurredAt + MAX_EVENT_AGE
  {
  }

  lemma OldOrigins(w: World, a: Action, c: nat)
    requires Enabled(w, a) && c in w.clients
    ensures
      var client := Apply(w, a).clients[c];
      client.req == w.clients[c].req && client.origin == w.clients[c].origin && w.now <= Apply(w, a).now
  {
    if a.Start? || a.Deliver? || a.Tick? || a.Purge? {
      NewcomersSpareOrigins(w, a, c);
    } else {
      MovesKeepOrigins(w, a, c);
    }
  }

  lemma NewcomersSpareOrigins(w: World, a: Action, c: nat)
    requires Enabled(w, a) && c in w.clients && (a.Start? || a.Deliver? || a.Tick? || a.Purge?)
    ensures
      var client := Apply(w, a).clients[c];
      client.req == w.clients[c].req && client.origin == w.clients[c].origin && w.now <= Apply(w, a).now
  {
  }

  lemma MovesKeepOrigins(w: World, a: Action, c: nat)
    requires Enabled(w, a) && c in w.clients && !a.Start? && !a.Deliver? && !a.Tick? && !a.Purge?
    ensures
      var client := Apply(w, a).clients[c];
      client.req == w.clients[c].req && client.origin == w.clients[c].origin && w.now <= Apply(w, a).now
  {
  }

  lemma OriginInvKept(w: World, a: Action)
    requires OriginInv(w) && Enabled(w, a)
    ensures OriginInv(Apply(w, a))
  {
    var w' := Apply(w, a);
    forall c, e | CameFrom(w', c, e)
      ensures w'.clients[c].req == ToSendRequest(e) && w'.clients[c].origin.checkedAt <= w'.now
      ensures e.occurredAt - EVENT_SKEW <= w'.clients[c].origin.checkedAt <= e.occurredAt + MAX_EVENT_AGE
    {
      if CameFrom(w, c, e) {
        OldOrigins(w, a, c);
      } else {
        NewOrigins(w, a, c, e);
      }
    }
  }

  ghost predicate BornOf(w: World, id: Uuid, e: Event) {
    id in w.births && CameFrom(w, w.births[id].owner, e)
  }

  /** An event inserts at most one row, after its freshness check and under its own key. */
  ghost predicate EventBirthInv(w: World) {
    && (forall id :: id in w.births ==> w.births[id].owner in w.clients)
    && (forall id, e :: BornOf(w, id, e) ==>
          w.births[id].at >= e.occurredAt - EVENT_SKEW && w.births[id].key == ToSendRequest(e).key)
    && (forall id, id', e :: BornOf(w, id, e) && BornOf(w, id', e) ==> id == id')
  }

  lemma NewBirths(w: World, a: Action, id: Uuid)
    requires Enabled(w, a) && id in Apply(w, a).births
    ensures id in w.births ==> Apply(w, a).births[id] == w.births[id]
    ensures id !in w.births ==>
      && (a.Insert? || a.InsertError?) && a.id == id
      && Apply(w, a).births[id] == Birth(a.c, w.clients[a.c].req.key, w.now)
      && !KeyTaken(w.table, w.clients[a.c].req.key)
  {
  }

  lemma NewlyBornOf(w: World, a: Action, id: Uuid, e: Event)
    requires Enabled(w, a) && EventBirthInv(w) && BornOf(Apply(w, a), id, e)
    ensures BornOf(w, id, e) || (id !in w.births && CameFrom(w, a.c, e) && (a.Insert? || a.InsertError?))
  {
    NewBirths(w, a, id);
  }

  /** A prompt reservation of an already claimed event finds the claim still in the table. */
  lemma ClaimIsStillThere(w: World, id: Uuid, c: nat, e: Event, d: int)
    requires TableInv(w) && RetentionInv(w) && OriginInv(w) && EventBirthInv(w)
    requires BornOf(w, id, e) && CameFrom(w, c, e) && w.now <= w.clients[c].origin.checkedAt + d
    requires d <= RETENTION - MAX_EVENT_AGE - EVENT_SKEW
    ensures KeyTaken(w.table, w.clients[c].req.key)
  {
    assert id in w.table && w.table[id].key == w.clients[c].req.key;
  }

  lemma EventBirthKept(w: World, a: Action, id: Uuid, e: Event)
    requires Inv(w) && OriginInv(w) && EventBirthInv(w) && Enabled(w, a) && BornOf(Apply(w, a), id, e)
    ensures Apply(w, a).births[id].at >= e.occurredAt - EVENT_SKEW
    ensures Apply(w, a).births[id].key == ToSendRequest(e).key
  {
    NewBirths(w, a, id);
    NewlyBornOf(w, a, id, e);
  }

  lemma SecondBirthIsRefused(w: World, a: Action, d: int, id: Uuid, id': Uuid, e: Event)
    requires Inv(w) && RetentionInv(w) && OriginInv(w) && EventBirthInv(w)
    requires Enabled(w, a) && Within(w, a, Bounds(Some(d), None)) && d <= RETENTION - MAX_EVENT_AGE - EVENT_SKEW
    requires BornOf(Apply(w, a), id, e) && BornOf(Apply(w, a), id', e) && BornOf(w, id, e)
    ensures id == id'
  {
    NewBirths(w, a, id');
    NewlyBornOf(w, a, id', e);
    if id' !in w.births {
      ClaimIsStillThere(w, id, a.c, e, d);
    }
  }

  lemma OneBirthPerEventKept(w: World, a: Action, d: int, id: Uuid, id': Uuid, e: Event)
    requires Inv(w) && RetentionInv(w) && OriginInv(w) && EventBirthInv(w)
    requires Enabled(w, a) && Within(w, a, Bounds(Some(d), None)) && d <= RETENTION - MAX_EVENT_AGE - EVENT_SKEW
    requires BornOf(Apply(w, a), id, e) && BornOf(Apply(w, a), id', e)
    ensures id == id'
  {
    if BornOf(w, id, e) {
      SecondBirthIsRefused(w, a, d, id, id', e);
    } else if BornOf(w, id', e) {
      SecondBirthIsRefused(w, a, d, id', id, e);
    } else {
      NewlyBornOf(w, a, id, e);
      NewlyBornOf(w, a, id', e);
      NewBirths(w, a, id);
      NewBirths(w, a, id');
    }
  }

  lemma BirthOwnersKept(w: World, a: Action)
    requires EventBirthInv(w) && Enabled(w, a)
    ensures forall id :: id in Apply(w, a).births ==> Apply(w, a).births[id].owner in Apply(w, a).clients
  {
    forall id | id in Apply(w, a).births ensures Apply(w, a).births[id].owner in Apply(w, a).clients {
      NewBirths(w, a, id);
    }
  }

  lemma EventBirthInvKept(w: World, a: Action, w': World, d: int)
    requires Inv(w) && RetentionInv(w) && OriginInv(w) && EventBirthInv(w)
    requires Enabled(w, a) && Within(w, a, Bounds(Some(d), None)) && d <= RETENTION - MAX_EVENT_AGE - EVENT_SKEW
    requires w' == Apply(w, a)
    ensures EventBirthInv(w')
  {
    BirthOwnersKept(w, a);
    forall id, e | BornOf(w', id, e)
      ensures w'.births[id].at >= e.occurredAt - EVENT_SKEW && w'.births[id].key == ToSendRequest(e).key
    {
      EventBirthKept(w, a, id, e);
    }
    forall id, id', e | BornOf(w', id, e) && BornOf(w', id', e) ensures id == id' {
      OneBirthPerEventKept(w, a, d, id, id', e);
    }
  }

  lemma {:induction false} PromptRunsKeepBirths(ws: seq<World>, acts: seq<Action>, d: int, n: nat)
    requires IsBoundedRun(ws, acts, Bounds(Some(d), None)) && d <= RETENTION - MAX_EVENT_AGE - EVENT_SKEW && n < |ws|
    ensures RetentionInv(ws[n]) && OriginInv(ws[n]) && EventBirthInv(ws[n])
  {
    if n == 0 {
    } else {
      PromptRunsKeepBirths(ws, acts, d, n - 1);
      RunKeepsInv(ws, acts, n - 1);
      RetentionInvKept(ws[n - 1], acts[n - 1]);
      OriginInvKept(ws[n - 1], acts[n - 1]);
      EventBirthInvKept(ws[n - 1], acts[n - 1], ws[n], d);
    }
  }

  lemma PromptEventsSendAtMostOnce(ws: seq<World>, acts: seq<Action>, d: int, n: nat, e: Event)
    requires IsBoundedRun(ws, acts, Bounds(Some(d), None)) && d <= RETENTION - MAX_EVENT_AGE - EVENT_SKEW && n < |ws|
    ensures SentAtMostOnce(ws[n], e)
  {
    PromptRunsKeepBirths(ws, acts, d, n);
    RunKeepsInv(ws, acts, n);
    var w := ws[n];
    forall i, j | 0 <= i < |w.history| && 0 <= j < |w.history| && w.history[i].Called? && w.history[j].Called?
                  && CameFrom(w, w.history[i].caller, e) && CameFrom(w, w.history[j].caller, e)
      ensures i == j
    {
      assert IsCall(w, i, w.history[i].id) && IsCall(w, j, w.history[j].id);
      assert BornOf(w, w.history[i].id, e) && BornOf(w, w.history[j].id, e);
    }
  }

  const EARLY := Event(7, EVENT_SKEW, 1, MAIL)
  const SECOND_CHECK: int := EVENT_SKEW + MAX_EVENT_AGE

  /** EARLY has just been sent by client 0. */
  const SENT_ONCE := World(SERVICE, 0, map[1 := MAIL_ROW],
    map[0 := Client(MAIL, FromEvent(EARLY, 0), Recording(1, Sent, None, Delivered(1)))],
    map[1 := Birth(0, "key", 0)],
    [Inserted(1, 0, true), Called(1, 0, "key", true, true)])

  lemma FirstDeliveryRun(b: Bounds) returns (ws: seq<World>, acts: seq<Action>)
    requires b.dispatch.None? && (b.reserve.Some? ==> b.reserve.value >= 0)
    ensures IsBoundedRun(ws, acts, b) && Last(ws) == SENT_ONCE
  {
    ws, acts := [START], [];
    ws, acts := ExtendRun(ws, acts, b, Deliver(0, Envelope(EARLY, true)));
    ws, acts := ClaimRow(ws, acts, b, 0, 1);
    ws, acts := ExtendRun(ws, acts, b, Dispatch(0, true, ""));
    assert Last(ws).clients == SENT_ONCE.clients;
  }

  /** EARLY was sent by client 0 and its row purged; client 1 passed the check again before that. */
  const REDELIVERED := World(SERVICE, RETENTION + 1, map[],
    map[0 := Client(MAIL, FromEvent(EARLY, 0), Recording(1, Sent, None, Delivered(1))),
        1 := Client(MAIL, FromEvent(EARLY, SECOND_CHECK), Reserving)],
    map[1 := Birth(0, "key", 0)],
    [Inserted(1, 0, true), Called(1, 0, "key", true, true), Purged({1})])

  lemma RedeliveryRun(b: Bounds) returns (ws: seq<World>, acts: seq<Action>)
    requires b.dispatch.None? && (b.reserve.Some? ==> b.reserve.value >= 0)
    ensures IsBoundedRun(ws, acts, b) && Last(ws) == REDELIVERED
  {
    ws, acts := FirstDeliveryRun(b);
    ws, acts := ExtendRun(ws, acts, b, Tick(SECOND_CHECK));
    ws, acts := ExtendRun(ws, acts, b, Deliver(1, Envelope(EARLY, true)));
    ws, acts := WaitAndPurge(ws, acts, b, RETENTION + 1 - SECOND_CHECK, 1);
    assert Last(ws).clients == REDELIVERED.clients;
  }

  /** An event dated one skew ahead, checked again at its greatest age and reserved one tick too late. */
  lemma ReplayRun(d: int) returns (ws: seq<World>, acts: seq<Action>)
    requires d > RETENTION - MAX_EVENT_AGE - EVENT_SKEW
    ensures IsBoundedRun(ws, acts, Bounds(Some(d), None)) && !SentAtMostOnce(Last(ws), EARLY)
  {
    var b := Bounds(Some(d), None);
    ws, acts := RedeliveryRun(b);
    ws, acts := ClaimRow(ws, acts, b, 1, 2);
    ws, acts := ExtendRun(ws, acts, b, Dispatch(1, true, ""));
    var w := Last(ws);
    assert w.history[1].Called? && w.history[4].Called?;
    assert CameFrom(w, w.history[1].caller, EARLY) && CameFrom(w, w.history[4].caller, EARLY);
  }

  /** However often a signed event is redelivered, it reaches a provider at most once in every run
      exactly when reservations follow freshness checks by at most 30 days less 6 minutes (in nanoseconds). */
  lemma ReplaySafeExactlyWhenPrompt(d: int)
    ensures (forall ws, acts, e :: IsBoundedRun(ws, acts, Bounds(Some(d), None)) ==> SentAtMostOnce(Last(ws), e))
            <==> d <= 2_591_640_000_000_000
  {
    assert RETENTION - MAX_EVENT_AGE - EVENT_SKEW == 2_591_640_000_000_000;
    if d <= RETENTION - MAX_EVENT_AGE - EVENT_SKEW {
      forall ws, acts, e | IsBoundedRun(ws, acts, Bounds(Some(d), None)) ensures SentAtMostOnce(Last(ws), e) {
        PromptEventsSendAtMostOnce(ws, acts, d, |ws| - 1, e);
      }
    } else {
      var ws, acts := ReplayRun(d);
    }
  }
}
