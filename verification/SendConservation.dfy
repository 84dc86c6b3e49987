/** Conservation in the send protocol: every row, claim and provider success is accounted for. */
module SendConservation {
  import opened Options
  import opened Uuids
  import opened SendLog
  import opened SendProtocol

  /** How many records of `h` satisfy `p`. */
  function Count(h: seq<Record>, p: Record -> bool): nat {
    if h == [] then 0 else Count(h[..|h| - 1], p) + (if p(h[|h| - 1]) then 1 else 0)
  }

  lemma CountAppend(h: seq<Record>, r: Record, p: Record -> bool)
    ensures Count(h + [r], p) == Count(h, p) + (if p(r) then 1 else 0)
  {
    assert (h + [r])[..|h|] == h;
  }

  predicate IsInsert(r: Record) { r.Inserted? }
  predicate IsClaim(r: Record) { r.Inserted? && r.acknowledged }
  predicate IsProviderCall(r: Record) { r.Called? }
  predicate IsSuccess(r: Record) { r.Called? && r.ok }
  predicate IsSettled(r: Record) { r.Marked? || r.Unrecorded? }
  predicate IsMarkedSent(r: Record) { r.Marked? && r.status == Sent }
  predicate IsLostSent(r: Record) { r.Unrecorded? && r.status == Sent }

  /** The clients whose phase satisfies `p`. */
  function Phased(clients: map<nat, Client>, p: Phase -> bool): set<nat> {
    set c | c in clients && p(clients[c].phase)
  }

  predicate Working(p: Phase) { p.Rendering? || p.Dispatching? || p.Recording? }
  predicate NotYetCalled(p: Phase) { p.Rendering? || p.Dispatching? }
  predicate RecordingSent(p: Phase) { p.Recording? && p.status == Sent }

  lemma PhasedUpdate(clients: map<nat, Client>, c: nat, x: Client, p: Phase -> bool)
    ensures |Phased(clients[c := x], p)| == |Phased(clients, p)|
              - (if c in clients && p(clients[c].phase) then 1 else 0) + (if p(x.phase) then 1 else 0)
  {
    var s, s' := Phased(clients, p), Phased(clients[c := x], p);
    if p(x.phase) {
      assert s' == (s - {c}) + {c};
    } else {
      assert s' == s - {c};
    }
  }

  /** The observable steps: what is recorded when a client goes from one phase to the next. */
  predicate Legal(r: Option<Record>, before: Option<Phase>, after: Option<Phase>) {
    match r
    case Some(Inserted(_, _, acknowledged)) =>
      before == Some(Reserving) && after.Some? && (if acknowledged then after.value.Rendering? else after.value.Done?)
    case Some(Called(_, _, _, ok, _)) =>
      before.Some? && before.value.Dispatching?
      && after.Some? && after.value.Recording? && after.value.status == (if ok then Sent else Failed)
    case Some(Marked(_, status)) => Settles(before, after, status)
    case Some(Unrecorded(_, status)) => Settles(before, after, status)
    case Some(Purged(_)) => before.None? && after.None?
    case None =>
      || (before.None? && (after.Some? ==> after.value.Reserving? || after.value.Done?))
      || (before.Some? && after.Some? && !Working(before.value) && !Working(after.value))
      || (before.Some? && after.Some? && before.value.Rendering? && after.value.Dispatching?)
      || (before.Some? && after.Some? && NotYetCalled(before.value) && after.value.Recording?
        && after.value.status == Failed)
  }

  predicate Settles(before: Option<Phase>, after: Option<Phase>, status: Status) {
    before.Some? && before.value.Recording? && before.value.status == status && after.Some? && after.value.Done?
  }

  /** The record a step appends. */
  function Appended(w: World, a: Action): Option<Record>
    requires Enabled(w, a)
  {
    var h := Apply(w, a).history;
    if |h| > |w.history| then Some(h[|w.history|]) else None
  }

  function PhaseOf(clients: Clients, a: Action): Option<Phase> {
    if !a.Tick? && !a.Purge? && a.c in clients then Some(clients[a.c].phase) else None
  }

  lemma StepIsLegal(w: World, a: Action)
    requires Enabled(w, a)
    ensures Legal(Appended(w, a), PhaseOf(w.clients, a), PhaseOf(Apply(w, a).clients, a))
  {
    if WritesTheLog(a) {
      LogWritesAreLegal(w, a);
    } else {
      OtherStepsAreLegal(w, a);
    }
  }

  predicate WritesTheLog(a: Action) { a.Insert? || a.InsertError? || a.Record? || a.RecordError? }

  lemma LogWritesAreLegal(w: World, a: Action)
    requires Enabled(w, a) && WritesTheLog(a)
    ensures Legal(Appended(w, a), PhaseOf(w.clients, a), PhaseOf(Apply(w, a).clients, a))
  {
  }

  lemma OtherStepsAreLegal(w: World, a: Action)
    requires Enabled(w, a) && !WritesTheLog(a)
    ensures Legal(Appended(w, a), PhaseOf(w.clients, a), PhaseOf(Apply(w, a).clients, a))
  {
  }

  lemma HistoryDelta(w: World, a: Action)
    requires Enabled(w, a)
    ensures Apply(w, a).history == w.history + (if Appended(w, a).Some? then [Appended(w, a).value] else [])
  {
  }

  lemma ClientsDelta(w: World, a: Action)
    requires Enabled(w, a)
    ensures
      var clients' := Apply(w, a).clients;
      if PhaseOf(clients', a).None? then clients' == w.clients else clients' == w.clients[a.c := clients'[a.c]]
  {
    if WritesTheLog(a) {
      LogWritesMoveOneClient(w, a);
    } else {
      OtherStepsMoveOneClient(w, a);
    }
  }

  lemma LogWritesMoveOneClient(w: World, a: Action)
    requires Enabled(w, a) && WritesTheLog(a)
    ensures a.c in Apply(w, a).clients && Apply(w, a).clients == w.clients[a.c := Apply(w, a).clients[a.c]]
  {
  }

  lemma OtherStepsMoveOneClient(w: World, a: Action)
    requires Enabled(w, a) && !WritesTheLog(a)
    ensures
      var clients' := Apply(w, a).clients;
      if PhaseOf(clients', a).None? then clients' == w.clients else clients' == w.clients[a.c := clients'[a.c]]
  {
  }

  function One(b: bool): nat { if b then 1 else 0 }

  lemma StepCount(w: World, a: Action, p: Record -> bool)
    requires Enabled(w, a)
    ensures Count(Apply(w, a).history, p) == Count(w.history, p) + One(Appended(w, a).Some? && p(Appended(w, a).value))
  {
    HistoryDelta(w, a);
    if Appended(w, a).Some? {
      CountAppend(w.history, Appended(w, a).value, p);
    } else {
      assert w.history + [] == w.history;
    }
  }

  lemma StepPhased(w: World, a: Action, p: Phase -> bool)
    requires Enabled(w, a)
    ensures
      var before, after := PhaseOf(w.clients, a), PhaseOf(Apply(w, a).clients, a);
      after.None? ==> |Phased(Apply(w, a).clients, p)| == |Phased(w.clients, p)|
    ensures
      var before, after := PhaseOf(w.clients, a), PhaseOf(Apply(w, a).clients, a);
      after.Some? ==>
        |Phased(Apply(w, a).clients, p)| + One(before.Some? && p(before.value))
          == |Phased(w.clients, p)| + One(p(after.value))
  {
    ClientsDelta(w, a);
    if PhaseOf(Apply(w, a).clients, a).Some? {
      PhasedUpdate(w.clients, a.c, Apply(w, a).clients[a.c], p);
    }
  }

  /** Rows ever inserted are the inserts seen. */
  ghost predicate BirthsBalance(w: World) {
    |w.births| == Count(w.history, IsInsert)
  }

  /** Every claim is being worked on or was settled by exactly one recording attempt. */
  ghost predicate ClaimsBalance(w: World) {
    Count(w.history, IsClaim) == |Phased(w.clients, Working)| + Count(w.history, IsSettled)
  }

  /** Provider calls never exceed claims, even counting the calls still to come. */
  ghost predicate CallsWithinClaims(w: World) {
    Count(w.history, IsProviderCall) + |Phased(w.clients, NotYetCalled)| <= Count(w.history, IsClaim)
  }

  /** Every provider success is marked SENT, about to be recorded, or lost to a failed recording. */
  ghost predicate SuccessesBalance(w: World) {
    Count(w.history, IsSuccess) ==
      Count(w.history, IsMarkedSent) + |Phased(w.clients, RecordingSent)| + Count(w.history, IsLostSent)
  }

  ghost predicate Balanced(w: World) {
    BirthsBalance(w) && ClaimsBalance(w) && CallsWithinClaims(w) && SuccessesBalance(w)
  }

  lemma BirthsDelta(w: World, a: Action)
    requires Enabled(w, a)
    ensures
      if Appended(w, a).Some? && Appended(w, a).value.Inserted?
      then (a.Insert? || a.InsertError?) && a.id !in w.births && Apply(w, a).births.Keys == w.births.Keys + {a.id}
      else Apply(w, a).births == w.births
  {
  }

  lemma BirthsBalanceKept(w: World, a: Action)
    requires BirthsBalance(w) && Enabled(w, a)
    ensures BirthsBalance(Apply(w, a))
  {
    StepCount(w, a, IsInsert);
    BirthsDelta(w, a);
    SameSize(w.births);
    SameSize(Apply(w, a).births);
  }

  lemma SameSize(m: map<Uuid, Birth>)
    ensures |m| == |m.Keys|
  {
  }

  lemma ClaimsBalanceKept(w: World, a: Action)
    requires ClaimsBalance(w) && Enabled(w, a)
    ensures ClaimsBalance(Apply(w, a))
  {
    StepIsLegal(w, a);
    StepCount(w, a, IsClaim);
    StepCount(w, a, IsSettled);
    StepPhased(w, a, Working);
  }

  lemma CallsWithinClaimsKept(w: World, a: Action)
    requires CallsWithinClaims(w) && Enabled(w, a)
    ensures CallsWithinClaims(Apply(w, a))
  {
    StepIsLegal(w, a);
    StepCount(w, a, IsClaim);
    StepCount(w, a, IsProviderCall);
    StepPhased(w, a, NotYetCalled);
  }

  lemma SuccessesBalanceKept(w: World, a: Action)
    requires SuccessesBalance(w) && Enabled(w, a)
    ensures SuccessesBalance(Apply(w, a))
  {
    StepIsLegal(w, a);
    StepCount(w, a, IsSuccess);
    StepCount(w, a, IsMarkedSent);
    StepCount(w, a, IsLostSent);
    StepPhased(w, a, RecordingSent);
  }

  lemma {:induction false} EveryRunIsBalanced(ws: seq<World>, acts: seq<Action>, n: nat)
    requires IsRun(ws, acts) && n < |ws|
    ensures Balanced(ws[n])
  {
    if n == 0 {
      assert Phased(ws[0].clients, Working) == {} && Phased(ws[0].clients, NotYetCalled) == {}
          && Phased(ws[0].clients, RecordingSent) == {};
    } else {
      EveryRunIsBalanced(ws, acts, n - 1);
      BirthsBalanceKept(ws[n - 1], acts[n - 1]);
      ClaimsBalanceKept(ws[n - 1], acts[n - 1]);
      CallsWithinClaimsKept(ws[n - 1], acts[n - 1]);
      SuccessesBalanceKept(ws[n - 1], acts[n - 1]);
    }
  }
}
