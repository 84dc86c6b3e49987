/** Event messages mapped into the inbox, over any schedule of deliveries. */
module Consumer {
  import opened Options
  import opened Uuids
  import opened Inbox
  import opened InboxService
  import opened InboxRuns
  import opened InboxRetention

  const MAX_PAYLOAD := 64 * 1024

  /** What the envelope's data decodes to, as far as mapping looks at it. `status` and the tiers
      matter for the two KYC channels only. */
  datatype Data = Data(user: Uuid, status: string, oldTier: string, newTier: string, raw: string)

  /** A payload is malformed, or an envelope whose data may be malformed, with the outcome of the
      signature check that only kyc.status_changed makes. */
  datatype Payload = Malformed | Envelope(event: Uuid, data: Option<Data>, genuine: bool)

  datatype Message = Message(channel: string, size: nat, payload: Payload)

  /** One delivery: the message, the id and time the mapper draws, and how the insert ends. */
  datatype Delivery = Delivery(message: Message, id: Uuid, now: int, fault: Fault)

  /** The texts of a mapped channel: kind, title, body; None for a channel without a mapper. */
  function Texts(channel: string, data: Data): Option<(string, string, string)> {
    match channel
    case "kyc.tier_changed" => Some(("KYC_TIER_CHANGED", "KYC Level Updated",
      "Your KYC level has been updated from " + data.oldTier + " to " + data.newTier + "."))
    case "user.suspended" => Some(("ACCOUNT_SUSPENDED", "Account Suspended",
      "Your account has been suspended. Please contact support."))
    case "marketplace.bid_received" => Some(("BID_RECEIVED", "New Bid Received",
      "You have received a new bid on your listing."))
    case "marketplace.bid_accepted" => Some(("BID_ACCEPTED", "Bid Accepted", "Your bid has been accepted."))
    case "workspace.milestone_reached" => Some(("MILESTONE_REACHED", "Milestone Reached",
      "A milestone in your contract has been reached."))
    case "workspace.contract_signed" => Some(("CONTRACT_SIGNED", "Contract Signed", "Your contract has been signed."))
    case _ => None
  }

  function StatusTexts(data: Data): (string, string) {
    match data.status
    case "APPROVED" => ("KYC Approved", "Your identity has been verified. You are now KYC tier " + data.newTier + ".")
    case "REJECTED" => ("KYC Not Approved",
      "Your KYC submission was not approved. Please review the requirements and resubmit.")
    case _ => ("KYC Status Updated", "Your KYC status has changed to " + data.status + ".")
  }

  const STATUS_CHANNEL := "kyc.status_changed"
  const SEND_CHANNEL := "comms.send_requested"

  /** The notification a delivery maps to, if it is accepted. */
  function Mapped(d: Delivery): Option<Notification> {
    var m := d.message;
    if m.size > MAX_PAYLOAD || m.channel == SEND_CHANNEL || m.payload.Malformed? || m.payload.data.None? then None
    else
      var data, event := m.payload.data.value, m.payload.event;
      if m.channel == STATUS_CHANNEL then
        if !m.payload.genuine || data.user == NIL || event == NIL then None
        else
          var (title, body) := StatusTexts(data);
          Some(Notification(d.id, data.user, "KYC_STATUS_CHANGED", title, body, None, Some(event), None, d.now))
      else
        var texts := Texts(m.channel, data);
        if texts.None? || data.user == NIL || event == NIL then None
        else
          var (kind, title, body) := texts.value;
          var kept := if |data.raw| > MAX_PAYLOAD then None else Some(data.raw);
          Some(Notification(d.id, data.user, kind, title, body, kept, Some(event), None, d.now))
  }

  /** The kind of notification each channel makes. */
  const KINDS: map<string, string> := map[
    "kyc.tier_changed" := "KYC_TIER_CHANGED",
    "user.suspended" := "ACCOUNT_SUSPENDED",
    "marketplace.bid_received" := "BID_RECEIVED",
    "marketplace.bid_accepted" := "BID_ACCEPTED",
    "workspace.milestone_reached" := "MILESTONE_REACHED",
    "workspace.contract_signed" := "CONTRACT_SIGNED",
    "kyc.status_changed" := "KYC_STATUS_CHANGED"]

  /** Which messages are accepted: at most 64 KiB, on a channel with a kind, parsed, with user and event
      ids that are not nil, and on the status channel only with a verified signature. */
  lemma AcceptedExactly(d: Delivery)
    ensures Mapped(d).Some? <==>
      && d.message.size <= 65536 && d.message.channel in KINDS
      && d.message.payload.Envelope? && d.message.payload.event != 0
      && d.message.payload.data.Some? && d.message.payload.data.value.user != 0
      && (d.message.channel == "kyc.status_changed" ==> d.message.payload.genuine)
  {
  }

  /** Every accepted message makes an unread row for its own user and event, of its channel's kind, and so
      one that falls under the partial unique index; only a status event's data, and data over the
      limit, are not kept. */
  lemma MappedRowsAreIndexed(d: Delivery)
    requires Mapped(d).Some?
    ensures
      var n, m := Mapped(d).value, d.message;
      && n.user == m.payload.data.value.user && n.sourceEvent == Some(m.payload.event)
      && n.user != 0 && m.payload.event != 0
      && n.readAt.None? && n.id == d.id && n.createdAt == d.now
      && m.channel in KINDS && n.kind == KINDS[m.channel]
      && n.data == (if m.channel == "kyc.status_changed" || |m.payload.data.value.raw| > 65536 then None
                    else Some(m.payload.data.value.raw))
  {
    AcceptedExactly(d);
  }

  /** The title of each channel's notifications, but for the status channel. */
  const TITLES: map<string, string> := map[
    "kyc.tier_changed" := "KYC Level Updated",
    "user.suspended" := "Account Suspended",
    "marketplace.bid_received" := "New Bid Received",
    "marketplace.bid_accepted" := "Bid Accepted",
    "workspace.milestone_reached" := "Milestone Reached",
    "workspace.contract_signed" := "Contract Signed"]

  lemma MappedTitles(d: Delivery)
    requires Mapped(d).Some? && d.message.channel != "kyc.status_changed"
    ensures d.message.channel in TITLES && Mapped(d).value.title == TITLES[d.message.channel]
  {
    AcceptedExactly(d);
  }

  /** The tier text names both tiers, the old one first. */
  lemma TierText(d: Delivery)
    requires Mapped(d).Some? && d.message.channel == "kyc.tier_changed"
    ensures
      var data := d.message.payload.data.value;
      Mapped(d).value.body == "Your KYC level has been updated from " + data.oldTier + " to " + data.newTier + "."
  {
  }

  /** The status texts name the outcome, and the tier reached or the status when it is another. */
  lemma StatusText(d: Delivery)
    requires Mapped(d).Some? && d.message.channel == "kyc.status_changed"
    ensures
      var n, data := Mapped(d).value, d.message.payload.data.value;
      if data.status == "APPROVED" then
        && n.title == "KYC Approved"
        && n.body == "Your identity has been verified. You are now KYC tier " + data.newTier + "."
      else if data.status == "REJECTED" then
        n.title == "KYC Not Approved"
      else
        n.title == "KYC Status Updated" && n.body == "Your KYC status has changed to " + data.status + "."
  {
  }

  function Deliver(rows: Rows, d: Delivery): Rows {
    if Mapped(d).Some? && !d.fault.FailsBefore? then InsertRow(rows, Mapped(d).value) else rows
  }

  function DeliverAll(rows: Rows, ds: seq<Delivery>): Rows {
    if ds == [] then rows else Deliver(DeliverAll(rows, ds[..|ds| - 1]), ds[|ds| - 1])
  }

  // ----- schedules of deliveries mixed with reading and deletion

  datatype Step = Arrive(d: Delivery) | Mark(op: Op) | Prune(cutoff: int)

  function StepRows(rows: Rows, s: Step): Rows {
    match s
    case Arrive(d) => Deliver(rows, d)
    case Mark(op) => if op.Insert? then rows else ApplyOp(rows, op)
    case Prune(cutoff) => Pruned(rows, cutoff)
  }

  /** The inbox after a schedule, from an empty table. */
  function After(steps: seq<Step>): Rows {
    if steps == [] then [] else StepRows(After(steps[..|steps| - 1]), steps[|steps| - 1])
  }

  predicate IsFor(n: Notification, user: Uuid, event: Uuid) {
    n.user == user && n.sourceEvent == Some(event)
  }

  /** An accepted delivery for (user, event) whose insert is executed. */
  predicate Reaches(s: Step, user: Uuid, event: Uuid) {
    s.Arrive? && !s.d.fault.FailsBefore? && Mapped(s.d).Some? && IsFor(Mapped(s.d).value, user, event)
  }

  /** The notification of the first delivery that reaches the inbox. */
  function First(steps: seq<Step>, user: Uuid, event: Uuid): Option<Notification> {
    if steps == [] then None
    else
      var earlier, s := First(steps[..|steps| - 1], user, event), steps[|steps| - 1];
      if earlier.Some? then earlier else if Reaches(s, user, event) then Mapped(s.d) else None
  }

  /** The notification that a step leaves for (user, event). */
  function Next(current: Option<Notification>, s: Step, user: Uuid, event: Uuid): Option<Notification> {
    if current.None? then (if Reaches(s, user, event) then Mapped(s.d) else None)
    else if s.Prune? && current.value.createdAt < s.cutoff then None
    else current
  }

  /** The notification of the first delivery that reaches the inbox when it holds none for (user, event). */
  function Current(steps: seq<Step>, user: Uuid, event: Uuid): Option<Notification> {
    if steps == [] then None else Next(Current(steps[..|steps| - 1], user, event), steps[|steps| - 1], user, event)
  }

  /** No delivery draws an id that is already stored. */
  ghost predicate FreshSchedule(steps: seq<Step>) {
    forall k :: 0 <= k < |steps| && steps[k].Arrive? && Mapped(steps[k].d).Some? ==>
      IdIsNew(After(steps[..k]), Mapped(steps[k].d).value)
  }

  /** While its row is there, redelivery changes nothing, whatever the row's read state. */
  lemma RedeliveryChangesNothing(rows: Rows, d: Delivery, k: nat)
    requires Mapped(d).Some? && k < |rows| && IsFor(rows[k], Mapped(d).value.user, Mapped(d).value.sourceEvent.value)
    ensures Deliver(rows, d) == rows
  {
    assert SameEvent(Mapped(d).value, rows[k]);
  }

  /** The rows of one (user, event) pair: at most one, and none or `current` up to its read time. */
  ghost predicate HoldsExactly(rows: Rows, current: Option<Notification>, user: Uuid, event: Uuid) {
    && (forall i, j :: 0 <= i < j < |rows| ==> !IsFor(rows[i], user, event) || !IsFor(rows[j], user, event))
    && match current
       case None => forall k :: 0 <= k < |rows| ==> !IsFor(rows[k], user, event)
       case Some(n) => exists k :: 0 <= k < |rows| && IsFor(rows[k], user, event) && rows[k].(readAt := None) == n
  }

  lemma StepHolds(rows: Rows, s: Step, current: Option<Notification>, user: Uuid, event: Uuid)
    requires Valid(rows) && HoldsExactly(rows, current, user, event) && !s.Prune?
    requires s.Arrive? && Mapped(s.d).Some? ==> IdIsNew(rows, Mapped(s.d).value)
    ensures Valid(StepRows(rows, s))
    ensures HoldsExactly(StepRows(rows, s), Next(current, s, user, event), user, event)
  {
    var rows' := StepRows(rows, s);
    if current.Some? {
      var k :| 0 <= k < |rows| && IsFor(rows[k], user, event) && rows[k].(readAt := None) == current.value;
      assert IsFor(rows'[k], user, event) && rows'[k].(readAt := None) == current.value;
    } else if Reaches(s, user, event) {
      assert IsFor(rows'[|rows|], user, event) && rows'[|rows|].(readAt := None) == Mapped(s.d).value;
    }
  }

  lemma PruneHolds(rows: Rows, cutoff: int, current: Option<Notification>, user: Uuid, event: Uuid)
    requires Valid(rows) && HoldsExactly(rows, current, user, event)
    ensures Valid(Pruned(rows, cutoff))
    ensures HoldsExactly(Pruned(rows, cutoff), Next(current, Step.Prune(cutoff), user, event), user, event)
  {
    var rows' := Pruned(rows, cutoff);
    PrunedIsValid(rows, cutoff);
    forall i, j | 0 <= i < j < |rows'| ensures !IsFor(rows'[i], user, event) || !IsFor(rows'[j], user, event) {
      assert !SameEvent(rows'[i], rows'[j]);
    }
    if current.Some? {
      var k :| 0 <= k < |rows| && IsFor(rows[k], user, event) && rows[k].(readAt := None) == current.value;
      KeptOrGone(rows, rows', cutoff, k, user, event);
    } else {
      forall j | 0 <= j < |rows'| ensures !IsFor(rows'[j], user, event) {
        assert rows'[j] in rows' && rows'[j] in rows;
      }
    }
  }

  lemma KeptOrGone(rows: Rows, kept: Rows, cutoff: int, k: nat, user: Uuid, event: Uuid)
    requires k < |rows| && IsFor(rows[k], user, event) && kept == Pruned(rows, cutoff)
    requires forall j :: 0 <= j < |rows| && IsFor(rows[j], user, event) ==> j == k
    ensures rows[k].createdAt >= cutoff ==> exists j :: 0 <= j < |kept| && kept[j] == rows[k]
    ensures rows[k].createdAt < cutoff ==> forall j :: 0 <= j < |kept| ==> !IsFor(kept[j], user, event)
  {
    assert rows[k] in rows;
    forall j | 0 <= j < |kept| && IsFor(kept[j], user, event)
      ensures kept[j] == rows[k] && rows[k].createdAt >= cutoff
    {
      assert kept[j] in kept;
      var m :| 0 <= m < |rows| && rows[m] == kept[j];
    }
  }

  lemma {:induction false} CurrentIsStored(steps: seq<Step>, user: Uuid, event: Uuid)
    requires FreshSchedule(steps)
    ensures Valid(After(steps))
    ensures HoldsExactly(After(steps), Current(steps, user, event), user, event)
  {
    if steps == [] {
    } else {
      var init, s := steps[..|steps| - 1], steps[|steps| - 1];
      assert forall k :: 0 <= k < |init| ==> init[..k] == steps[..k];
      CurrentIsStored(init, user, event);
      match s
      case Prune(cutoff) => PruneHolds(After(init), cutoff, Current(init, user, event), user, event);
      case _ => StepHolds(After(init), s, Current(init, user, event), user, event);
    }
  }

  ghost predicate NothingPruned(steps: seq<Step>) { forall k :: 0 <= k < |steps| ==> !steps[k].Prune? }

  lemma {:induction false} WithoutPruningFirstStays(steps: seq<Step>, user: Uuid, event: Uuid)
    requires NothingPruned(steps)
    ensures Current(steps, user, event) == First(steps, user, event)
  {
    if steps == [] {
    } else {
      WithoutPruningFirstStays(steps[..|steps| - 1], user, event);
    }
  }

  /** After any schedule with duplicates, reordering, reads and deletions there is exactly one row per
      accepted (user, event) pair whose row was not deleted, with the content of the delivery that
      stored it, and none for any other pair. Without deletions that is its first stored delivery. */
  lemma OneRowPerAcceptedEvent(steps: seq<Step>, user: Uuid, event: Uuid)
    requires FreshSchedule(steps)
    ensures Valid(After(steps))
    ensures HoldsExactly(After(steps), Current(steps, user, event), user, event)
    ensures NothingPruned(steps) ==> HoldsExactly(After(steps), First(steps, user, event), user, event)
  {
    CurrentIsStored(steps, user, event);
    if NothingPruned(steps) {
      WithoutPruningFirstStays(steps, user, event);
    }
  }

  /** Step k deleted the pair's row, and none has been stored since. */
  ghost predicate GoneSince(steps: seq<Step>, k: int, user: Uuid, event: Uuid) {
    && 0 <= k < |steps| && steps[k].Prune?
    && Current(steps[..k], user, event).Some? && Current(steps[..k], user, event).value.createdAt < steps[k].cutoff
    && forall m :: k < m <= |steps| ==> Current(steps[..m], user, event).None?
  }

  lemma PrefixOf(init: seq<Step>, s: Step, steps: seq<Step>, m: nat)
    requires steps == init + [s] && m <= |init|
    ensures steps[..m] == init[..m]
  {
  }

  lemma GoneStays(init: seq<Step>, s: Step, steps: seq<Step>, k: int, user: Uuid, event: Uuid)
    requires steps == init + [s] && GoneSince(init, k, user, event) && Current(steps, user, event).None?
    ensures GoneSince(steps, k, user, event)
  {
    PrefixOf(init, s, steps, k);
    forall m | k < m <= |steps| ensures Current(steps[..m], user, event).None? {
      if m <= |init| {
        PrefixOf(init, s, steps, m);
      } else {
        assert steps[..m] == steps;
      }
    }
  }

  lemma CurrentStep(init: seq<Step>, s: Step, steps: seq<Step>, user: Uuid, event: Uuid)
    requires steps == init + [s]
    ensures Current(steps, user, event) == Next(Current(init, user, event), s, user, event)
  {
    assert steps[..|steps| - 1] == init;
  }

  lemma JustGone(init: seq<Step>, s: Step, steps: seq<Step>, user: Uuid, event: Uuid)
    requires steps == init + [s] && Current(init, user, event).Some? && Current(steps, user, event).None?
    ensures GoneSince(steps, |init|, user, event)
  {
    CurrentStep(init, s, steps, user, event);
    PrefixOf(init, s, steps, |init|);
    WholeIs(init, init);
    forall m | |init| < m <= |steps| ensures Current(steps[..m], user, event).None? {
      WholeIs(steps, steps[..m]);
    }
  }

  lemma WholeIs(steps: seq<Step>, prefix: seq<Step>)
    requires prefix <= steps && |prefix| == |steps|
    ensures prefix == steps && steps[..|steps|] == steps
  {
  }

  lemma GoneIsAbsent(steps: seq<Step>, k: int, user: Uuid, event: Uuid)
    requires GoneSince(steps, k, user, event)
    ensures Current(steps, user, event).None?
  {
    assert steps[..|steps|] == steps;
  }

  /** The row is gone, or there never was one. */
  ghost predicate NeverOrGone(steps: seq<Step>, user: Uuid, event: Uuid) {
    First(steps, user, event).None? || exists k :: GoneSince(steps, k, user, event)
  }

  lemma AbsentStep(init: seq<Step>, s: Step, steps: seq<Step>, user: Uuid, event: Uuid)
    requires steps == init + [s] && Current(steps, user, event).None?
    requires Current(init, user, event).None? ==> NeverOrGone(init, user, event)
    ensures NeverOrGone(steps, user, event)
  {
    assert steps[..|steps| - 1] == init;
    if Current(init, user, event).Some? {
      JustGone(init, s, steps, user, event);
    } else if k :| GoneSince(init, k, user, event) {
      GoneStays(init, s, steps, k, user, event);
    }
  }

  lemma NeverIsAbsent(steps: seq<Step>, user: Uuid, event: Uuid)
    ensures First(steps, user, event).None? ==> Current(steps, user, event).None?
  {
    if steps == [] {
    } else {
      NeverIsAbsent(steps[..|steps| - 1], user, event);
    }
  }

  /** A pair has no row exactly when it never had one or its last one was deleted. */
  lemma {:induction false} AbsentExactly(steps: seq<Step>, user: Uuid, event: Uuid)
    ensures Current(steps, user, event).None? <==> NeverOrGone(steps, user, event)
  {
    NeverIsAbsent(steps, user, event);
    if k :| GoneSince(steps, k, user, event) {
      GoneIsAbsent(steps, k, user, event);
    }
    if steps == [] {
    } else {
      var init, s := steps[..|steps| - 1], steps[|steps| - 1];
      AbsentExactly(init, user, event);
      assert steps == init + [s];
      if Current(steps, user, event).None? {
        AbsentStep(init, s, steps, user, event);
      }
    }
  }

  /** An accepted delivery stores its notification again exactly when the pair never had a row or its
      row was deleted before; then it comes back unread. */
  lemma StoredAgainExactly(steps: seq<Step>, s: Step, user: Uuid, event: Uuid)
    requires FreshSchedule(steps) && Reaches(s, user, event)
    requires IdIsNew(After(steps), Mapped(s.d).value)
    ensures StepRows(After(steps), s) ==
      if NeverOrGone(steps, user, event) then After(steps) + [Mapped(s.d).value] else After(steps)
  {
    CurrentIsStored(steps, user, event);
    AbsentExactly(steps, user, event);
    var rows, n := After(steps), Mapped(s.d).value;
    forall k | 0 <= k < |rows| ensures SameEvent(n, rows[k]) <==> IsFor(rows[k], user, event) {
    }
  }

  /** Delivered, read, deleted, delivered again: the inbox then holds the notification afresh, unread. */
  lemma ReadThenDeletedComesBack(d: Delivery, d': Delivery, now: int, cutoff: int)
    requires Mapped(d).Some? && d'.message == d.message && Mapped(d').Some?
    requires !d.fault.FailsBefore? && !d'.fault.FailsBefore? && d.now < cutoff
    ensures
      var steps := [Arrive(d), Mark(MarkAllRead(Mapped(d).value.user, now)), Step.Prune(cutoff), Arrive(d')];
      && After(steps[..2]) == [Mapped(d).value.(readAt := Some(now))]
      && After(steps) == [Mapped(d').value] && Mapped(d').value.readAt.None?
  {
    var n := Mapped(d).value;
    var a, b, c, e := Arrive(d), Mark(MarkAllRead(n.user, now)), Step.Prune(cutoff), Arrive(d');
    FourSteps(a, b, c, e);
    FirstArrives(d);
    ReadStep(n, now);
    PruneStep(n.(readAt := Some(now)), cutoff);
    FirstArrives(d');
  }

  lemma FirstArrives(d: Delivery)
    requires Mapped(d).Some? && !d.fault.FailsBefore?
    ensures StepRows([], Arrive(d)) == [Mapped(d).value]
  {
  }

  lemma ReadStep(n: Notification, now: int)
    requires n.readAt.None?
    ensures StepRows([n], Mark(MarkAllRead(n.user, now))) == [n.(readAt := Some(now))]
  {
  }

  lemma PruneStep(n: Notification, cutoff: int)
    requires n.createdAt < cutoff
    ensures StepRows([n], Step.Prune(cutoff)) == []
  {
    assert [n][..0] == [] && Pruned([], cutoff) == [];
    assert Pruned([n], cutoff) == [];
  }

  lemma FourSteps(a: Step, b: Step, c: Step, e: Step)
    ensures After([a, b, c, e][..2]) == StepRows(StepRows([], a), b)
    ensures After([a, b, c, e]) == StepRows(StepRows(StepRows(StepRows([], a), b), c), e)
  {
    var two := [a, b, c, e][..2];
    OneStep([], a, [a]);
    OneStep([a], b, two);
    OneStep(two, c, two + [c]);
    OneStep(two + [c], e, [a, b, c, e]);
  }

  lemma OneStep(init: seq<Step>, s: Step, steps: seq<Step>)
    requires steps == init + [s]
    ensures After(steps) == StepRows(After(init), s)
  {
    assert steps[..|steps| - 1] == init;
  }

  /** A stretch of the message loop is a schedule without reads and deletions, so what holds of schedules
      holds of the loop. */
  lemma {:induction false} LoopIsSchedule(ds: seq<Delivery>)
    ensures DeliverAll([], ds) == After(Arrivals(ds))
  {
    if ds == [] {
    } else {
      var init, d := ds[..|ds| - 1], ds[|ds| - 1];
      LoopIsSchedule(init);
      assert Arrivals(ds) == Arrivals(init) + [Arrive(d)];
      OneStep(Arrivals(init), Arrive(d), Arrivals(ds));
    }
  }

  function Arrivals(ds: seq<Delivery>): seq<Step> { seq(|ds|, k requires 0 <= k < |ds| => Arrive(ds[k])) }

  lemma OneMoreDelivery(rows: Rows, ds: seq<Delivery>, d: Delivery)
    ensures DeliverAll(rows, ds + [d]) == Deliver(DeliverAll(rows, ds), d)
  {
    assert (ds + [d])[..|ds|] == ds;
  }

  lemma OneMoreReceived(picks: seq<Pick>, k: nat, done: seq<Delivery>)
    requires k < |picks| && picks[k].Got?
    ensures done + Received(picks[k..]) == done + [picks[k].d] + Received(picks[k + 1..])
  {
    assert picks[k..][1..] == picks[k + 1..];
  }

  /** They are what was picked up to the first pick that is no message. */
  lemma {:induction false} ReceivedExactly(picks: seq<Pick>)
    ensures
      var r := Received(picks);
      && |r| <= |picks| && (forall k :: 0 <= k < |r| ==> picks[k] == Got(r[k]))
      && (|r| < |picks| ==> !picks[|r|].Got?)
  {
    if picks == [] || !picks[0].Got? {
    } else {
      ReceivedExactly(picks[1..]);
    }
  }

  // ----- forged status events

  /** The row is the work of a status event whose signature was verified. */
  predicate MadeBy(d: Delivery, x: Notification) {
    && d.message.channel == "kyc.status_changed" && d.message.payload.Envelope? && d.message.payload.genuine
    && d.message.payload.data.Some? && x.user == d.message.payload.data.value.user
    && x.sourceEvent == Some(d.message.payload.event)
  }

  lemma NewRowsAreMapped(rows: Rows, d: Delivery, x: Notification)
    requires x in Deliver(rows, d) && x !in rows
    ensures Mapped(d) == Some(x)
  {
  }

  lemma StatusRowIsGenuine(rows: Rows, d: Delivery, x: Notification)
    requires x in Deliver(rows, d) && x !in rows && x.kind == "KYC_STATUS_CHANGED"
    ensures MadeBy(d, x)
  {
    NewRowsAreMapped(rows, d, x);
    AcceptedExactly(d);
    MappedRowsAreIndexed(d);
  }

  lemma {:induction false} DeliveredStatusIsGenuine(rows: Rows, ds: seq<Delivery>, x: Notification)
    requires x in DeliverAll(rows, ds) && x !in rows && x.kind == "KYC_STATUS_CHANGED"
    ensures exists k :: 0 <= k < |ds| && MadeBy(ds[k], x)
  {
    if ds == [] {
    } else {
      var init, d := ds[..|ds| - 1], ds[|ds| - 1];
      if x in DeliverAll(rows, init) {
        DeliveredStatusIsGenuine(rows, init, x);
        var k :| 0 <= k < |init| && MadeBy(init[k], x);
        assert MadeBy(ds[k], x);
      } else {
        StatusRowIsGenuine(DeliverAll(rows, init), d, x);
      }
    }
  }

  /** A row after reading or deleting was there before, but for its read time. */
  lemma OldRow(rows: Rows, s: Step, x: Notification)
    requires !s.Arrive? && x in StepRows(rows, s)
    ensures exists k :: 0 <= k < |rows| && rows[k].(readAt := x.readAt) == x
  {
    var k :| 0 <= k < |StepRows(rows, s)| && StepRows(rows, s)[k] == x;
    if s.Prune? {
      assert x in rows;
      var j :| 0 <= j < |rows| && rows[j] == x;
      assert rows[j].(readAt := x.readAt) == x;
    } else {
      assert rows[k].(readAt := x.readAt) == x;
    }
  }

  /** After any schedule, every status notification comes from an event whose signature was verified. */
  lemma {:induction false} StatusRowsAreGenuine(steps: seq<Step>, x: Notification)
    requires x in After(steps) && x.kind == "KYC_STATUS_CHANGED"
    ensures exists k :: 0 <= k < |steps| && steps[k].Arrive? && MadeBy(steps[k].d, x)
  {
    if steps == [] {
    } else {
      var init, s := steps[..|steps| - 1], steps[|steps| - 1];
      if s.Arrive? && x !in After(init) {
        StatusRowIsGenuine(After(init), s.d, x);
      } else {
        var y := x;
        if !s.Arrive? {
          OldRow(After(init), s, x);
          var k :| 0 <= k < |After(init)| && After(init)[k].(readAt := x.readAt) == x;
          y := After(init)[k];
        }
        StatusRowsAreGenuine(init, y);
        var k :| 0 <= k < |init| && init[k].Arrive? && MadeBy(init[k].d, y);
        assert MadeBy(steps[k].d, x);
      }
    }
  }

  /** What the loop's select picks: a message, the end of its context, or the end of its channel. */
  datatype Pick = Got(d: Delivery) | Cancelled | Closed

  /** The messages before the first pick that is none. */
  function Received(picks: seq<Pick>): seq<Delivery> {
    if picks == [] || !picks[0].Got? then [] else [picks[0].d] + Received(picks[1..])
  }

  /** The table has a row for the pair, or one with the id. */
  predicate Holds(rows: Rows, user: Uuid, event: Uuid, id: Uuid) {
    exists k :: 0 <= k < |rows| && (rows[k].id == id || (rows[k].user == user && rows[k].sourceEvent == Some(event)))
  }

  class EventConsumer {
    const store: NotificationStore

    constructor (store: NotificationStore)
      ensures this.store == store
    {
      this.store := store;
    }

    /** handle: every failure is swallowed and leaves the inbox unchanged. */
    method Handle(d: Delivery)
      requires Valid(store.rows)
      modifies store
      ensures Valid(store.rows) && store.rows == Deliver(old(store.rows), d)
      ensures store.rows != old(store.rows) ==>
        var m, p := d.message, d.message.payload;
        && m.size <= 65536 && m.channel in KINDS && p.Envelope? && p.data.Some?
        && p.event != 0 && p.data.value.user != 0
        && (m.channel == "kyc.status_changed" ==> p.genuine) && !d.fault.FailsBefore?
      ensures
        var m, p := d.message, d.message.payload;
        m.size <= 65536 && m.channel in KINDS && p.Envelope? && p.data.Some? && p.event != 0 && p.data.value.user != 0
        && (m.channel == "kyc.status_changed" ==> p.genuine) && !d.fault.FailsBefore?
        && !Holds(old(store.rows), p.data.value.user, p.event, d.id) ==>
          && |store.rows| == |old(store.rows)| + 1 && old(store.rows) <= store.rows
          && var x := store.rows[|old(store.rows)|];
          && x.user == p.data.value.user && x.sourceEvent == Some(p.event) && x.kind == KINDS[m.channel]
          && x.id == d.id && x.createdAt == d.now && x.readAt.None?
    {
      AcceptedExactly(d);
      if Mapped(d).Some? {
        MappedRowsAreIndexed(d);
      }
      var m := d.message;
      if m.size > MAX_PAYLOAD || m.channel == SEND_CHANNEL {
        return;
      }
      if m.channel == STATUS_CHANNEL {
        HandleStatusChanged(d);
        return;
      }
      if m.payload.Malformed? || m.payload.data.None? {
        return;
      }
      var data := m.payload.data.value;
      var texts := Texts(m.channel, data);
      if texts.None? || data.user == NIL || m.payload.event == NIL {
        return;
      }
      var (kind, title, body) := texts.value;
      var n := Notification(d.id, data.user, kind, title, body, Some(data.raw), Some(m.payload.event), None, d.now);
      if |data.raw| > MAX_PAYLOAD {
        n := n.(data := None);
      }
      var _ := store.Insert(n, d.fault);
    }

    /** handleKYCStatusChanged: verified before it is mapped; the event's data is not kept. */
    method HandleStatusChanged(d: Delivery)
      requires Valid(store.rows) && d.message.channel == STATUS_CHANNEL && d.message.size <= MAX_PAYLOAD
      modifies store
      ensures Valid(store.rows) && store.rows == Deliver(old(store.rows), d)
      ensures d.message.payload.Malformed? || d.message.payload.data.None? || !d.message.payload.genuine ==>
        store.rows == old(store.rows)
    {
      var m := d.message;
      if m.payload.Malformed? || m.payload.data.None? || !m.payload.genuine {
        return;
      }
      var data := m.payload.data.value;
      if data.user == NIL || m.payload.event == NIL {
        return;
      }
      var (title, body) := StatusTexts(data);
      var n := Notification(d.id, data.user, "KYC_STATUS_CHANGED", title, body, None, Some(m.payload.event), None,
        d.now);
      var _ := store.Insert(n, d.fault);
    }

    /** Run: the message loop, until it is cancelled or its channel closes; without Redis it waits for
        cancellation and handles nothing. */
    method Run(connected: bool, picks: seq<Pick>)
      requires Valid(store.rows)
      modifies store
      ensures Valid(store.rows)
      ensures store.rows == if connected then DeliverAll(old(store.rows), Received(picks)) else old(store.rows)
      ensures forall x :: x in store.rows && x !in old(store.rows) && x.kind == "KYC_STATUS_CHANGED" ==>
        exists k :: 0 <= k < |Received(picks)| && MadeBy(Received(picks)[k], x)
    {
      if !connected {
        return;
      }
      Loop(picks);
      forall x | x in store.rows && x !in old(store.rows) && x.kind == "KYC_STATUS_CHANGED"
        ensures exists k :: 0 <= k < |Received(picks)| && MadeBy(Received(picks)[k], x)
      {
        DeliveredStatusIsGenuine(old(store.rows), Received(picks), x);
      }
    }

    method Loop(picks: seq<Pick>)
      requires Valid(store.rows)
      modifies store
      ensures Valid(store.rows) && store.rows == DeliverAll(old(store.rows), Received(picks))
    {
      var k := 0;
      ghost var done: seq<Delivery> := [];
      while k < |picks| && picks[k].Got?
        invariant k <= |picks| && Valid(store.rows) && store.rows == DeliverAll(old(store.rows), done)
        invariant done + Received(picks[k..]) == Received(picks)
      {
        HandleOne(picks[k].d);
        OneMoreDelivery(old(store.rows), done, picks[k].d);
        OneMoreReceived(picks, k, done);
        done := done + [picks[k].d];
        k := k + 1;
      }
      assert Received(picks[k..]) == [] && done + [] == done;
    }

    /** Handle, for what the loop needs of it. */
    method HandleOne(d: Delivery)
      requires Valid(store.rows)
      modifies store
      ensures Valid(store.rows) && store.rows == Deliver(old(store.rows), d)
    {
      Handle(d);
    }
  }
}
