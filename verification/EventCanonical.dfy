/** The signing texts of events: fields joined with bars. */
module EventCanonical {
  import opened Options
  import opened Text
  import opened Numerals
  import opened Uuids
  import TimeText

  // ----- kyc.status_changed

  /** What VerifyStatusChangedSignature signs; `newStatus` is arbitrary text. */
  datatype StatusChanged = StatusChanged(event: Uuid, occurredAt: int, version: int, user: Uuid, newStatus: string,
      newTier: int)

  function StatusCanonical(e: StatusChanged): string
    requires TimeText.InRange(e.occurredAt)
  {
    Join([Render(e.event), TimeText.Format(e.occurredAt), Itoa(e.version), Render(e.user), e.newStatus,
      Itoa(e.newTier)], '|')
  }

  /** Reads a canonical text back: four fields from the left, one from the right, the status between. */
  function DecodeStatus(s: string): Option<StatusChanged> {
    var parts := Split(s, '|');
    var n := |parts|;
    if n < 6 then None else
      var event, at, version, user := Parse(parts[0]), TimeText.Parse(parts[1]), ParseInt(parts[2]), Parse(parts[3]);
      var tier := ParseInt(parts[n - 1]);
      if event.Some? && at.Some? && version.Some? && user.Some? && tier.Some? then
        Some(StatusChanged(event.value, at.value, version.value, user.value, Join(parts[4..n - 1], '|'), tier.value))
      else None
  }

  lemma SplitTail(middle: string, last: string)
    requires '|' !in last
    ensures Split(Join([middle, last], '|'), '|') == Split(middle, '|') + [last]
  {
    assert [middle, last][1..] == [last];
    SplitConcat(middle, '|', last);
  }

  /** However many bars the status holds, splitting puts them between the fourth field and the last. */
  lemma SplitAround(a: string, b: string, c: string, d: string, middle: string, last: string)
    requires '|' !in a && '|' !in b && '|' !in c && '|' !in d && '|' !in last
    ensures Split(Join([a, b, c, d, middle, last], '|'), '|') == [a, b, c, d] + Split(middle, '|') + [last]
  {
    var prefix := [a, b, c, d];
    assert [a, b, c, d, middle, last] == prefix + [middle, last];
    SplitPrefix(prefix, [middle, last], '|');
    SplitTail(middle, last);
    assert prefix + (Split(middle, '|') + [last]) == prefix + Split(middle, '|') + [last];
  }

  lemma FieldsAreClean(e: StatusChanged)
    requires TimeText.InRange(e.occurredAt)
    ensures '|' !in Render(e.event) && '|' !in TimeText.Format(e.occurredAt) && '|' !in Itoa(e.version)
    ensures '|' !in Render(e.user) && '|' !in Itoa(e.newTier)
  {
    TimeText.FormatIsClean(e.occurredAt);
  }

  /** All six fields are recovered, even when the status itself holds bars. */
  lemma DecodeStatusCanonical(e: StatusChanged)
    requires TimeText.InRange(e.occurredAt)
    ensures DecodeStatus(StatusCanonical(e)) == Some(e)
  {
    FieldsAreClean(e);
    SplitAround(Render(e.event), TimeText.Format(e.occurredAt), Itoa(e.version), Render(e.user), e.newStatus,
      Itoa(e.newTier));
    var parts := Split(StatusCanonical(e), '|');
    assert parts[4..|parts| - 1] == Split(e.newStatus, '|');
    JoinSplit(e.newStatus, '|');
    ParseRender(e.event);
    ParseRender(e.user);
    TimeText.ParseFormat(e.occurredAt);
    ParseItoa(e.version);
    ParseItoa(e.newTier);
  }

  /** The signed fields, in their order, when the status holds no bar. */
  lemma StatusFieldsInOrder(e: StatusChanged)
    requires TimeText.InRange(e.occurredAt) && '|' !in e.newStatus
    ensures
      var parts := Split(StatusCanonical(e), '|');
      && |parts| == 6
      && Parse(parts[0]) == Some(e.event) && TimeText.Parse(parts[1]) == Some(e.occurredAt)
      && ParseInt(parts[2]) == Some(e.version) && Parse(parts[3]) == Some(e.user)
      && parts[4] == e.newStatus && ParseInt(parts[5]) == Some(e.newTier)
  {
    FieldsAreClean(e);
    SplitJoin([Render(e.event), TimeText.Format(e.occurredAt), Itoa(e.version), Render(e.user), e.newStatus,
               Itoa(e.newTier)], '|');
    ParseRender(e.event);
    TimeText.ParseFormat(e.occurredAt);
    ParseItoa(e.version);
    ParseRender(e.user);
    ParseItoa(e.newTier);
  }

  lemma StatusCanonicalIsInjective(e: StatusChanged, e': StatusChanged)
    requires TimeText.InRange(e.occurredAt) && TimeText.InRange(e'.occurredAt)
    requires StatusCanonical(e) == StatusCanonical(e')
    ensures e == e'
  {
    DecodeStatusCanonical(e);
    DecodeStatusCanonical(e');
  }

  /** VerifyStatusChangedSignature, fail-closed on an empty secret or signature. */
  predicate VerifyStatus(e: StatusChanged, signature: string, secret: string, mac: (string, string) -> string)
    requires TimeText.InRange(e.occurredAt)
  {
    secret != "" && signature != "" && signature == mac(secret, StatusCanonical(e))
  }

  /** Two different texts that a MAC does not tell apart. */
  predicate Collides(mac: (string, string) -> string, secret: string, a: string, b: string) {
    a != b && mac(secret, a) == mac(secret, b)
  }

  /** One signature that verifies for two events is a collision of the MAC itself: the text does not help. */
  lemma SignatureNamesOneEvent(e: StatusChanged, e': StatusChanged, signature: string, secret: string,
      mac: (string, string) -> string)
    requires TimeText.InRange(e.occurredAt) && TimeText.InRange(e'.occurredAt)
    requires VerifyStatus(e, signature, secret, mac) && VerifyStatus(e', signature, secret, mac)
    ensures secret != "" && signature != ""
    ensures e == e' || Collides(mac, secret, StatusCanonical(e), StatusCanonical(e'))
  {
    if StatusCanonical(e) == StatusCanonical(e') {
      StatusCanonicalIsInjective(e, e');
    }
  }

  // ----- comms.send_requested

  /** What sendRequestedCanonical signs: the envelope and the hexadecimal hash of its data. */
  datatype SendRequested = SendRequested(event: Uuid, occurredAt: int, version: int, dataHash: string)

  function SendCanonical(e: SendRequested): string
    requires TimeText.InRange(e.occurredAt)
  {
    Join([Render(e.event), TimeText.Format(e.occurredAt), Itoa(e.version), e.dataHash], '|')
  }

  lemma SendCanonicalIsInjective(e: SendRequested, e': SendRequested)
    requires TimeText.InRange(e.occurredAt) && TimeText.InRange(e'.occurredAt)
    requires AllHex(e.dataHash) && AllHex(e'.dataHash) && SendCanonical(e) == SendCanonical(e')
    ensures e == e'
  {
    SendFields(e);
    SendFields(e');
  }

  lemma SendFields(e: SendRequested)
    requires TimeText.InRange(e.occurredAt) && AllHex(e.dataHash)
    ensures
      var parts := Split(SendCanonical(e), '|');
      && |parts| == 4 && parts[3] == e.dataHash
      && Parse(parts[0]) == Some(e.event) && TimeText.Parse(parts[1]) == Some(e.occurredAt)
        && ParseInt(parts[2]) == Some(e.version)
  {
    TimeText.FormatIsClean(e.occurredAt);
    SplitJoin([Render(e.event), TimeText.Format(e.occurredAt), Itoa(e.version), e.dataHash], '|');
    ParseRender(e.event);
    TimeText.ParseFormat(e.occurredAt);
    ParseItoa(e.version);
  }
}
