/** Timestamps, in nanoseconds since 1970-01-01T00:00:00Z, as section 5.6 of RFC 3339 writes them. */
module TimeText {
  import opened Options
  import opened Numerals
  import opened GoTime
  import opened Calendar

  const DAY_SECONDS := 86400

  function DateOf(t: int): Date { FromDays(t / SECOND / DAY_SECONDS) }

  /** 0000-01-01T00:00:00Z and 10000-01-01T00:00:00Z. */
  const YEAR_ZERO := -62_167_219_200_000_000_000
  const YEAR_10000 := 253_402_300_800_000_000_000

  predicate InRange(t: int) { YEAR_ZERO <= t < YEAR_10000 }

  /** Those are the times whose year has four digits: all that the format can write and read back. */
  lemma InRangeYears(t: int)
    ensures InRange(t) <==> 0 <= DateOf(t).year <= 9999
  {
    DaysOfYears(DateOf(t));
    assert InRange(t) <==> -719528 <= t / SECOND / DAY_SECONDS < 2932897;
  }

  /** The text without its trailing zeros. */
  function TrimZeros(s: string): (r: string)
    ensures r <= s && (r == "" || r[|r| - 1] != '0')
    ensures forall k :: |r| <= k < |s| ==> s[k] == '0'
  {
    if s == "" || s[|s| - 1] != '0' then s else TrimZeros(s[..|s| - 1])
  }

  /** The layout's ".999999999": at most nine digits, no trailing zeros, nothing for a whole second. */
  function Fraction(nanos: nat): (s: string)
    requires nanos < SECOND
  {
    if nanos == 0 then "" else "." + TrimZeros(Fixed(nanos, 9))
  }

  /** The first nine digits of a fraction, padded to nine. */
  function Nanos(digits: string): nat
    requires AllDigits(digits)
  {
    Value((digits + "000000000")[..9])
  }

  lemma NanosOfFraction(nanos: nat)
    requires 0 < nanos < SECOND
    ensures
      var digits := TrimZeros(Fixed(nanos, 9));
      digits != "" && AllDigits(digits) && Nanos(digits) == nanos
  {
    var all := Fixed(nanos, 9);
    var digits := TrimZeros(all);
    assert (digits + "000000000")[..9] == all;
    NineDigits();
    FixedValue(nanos, 9);
    if digits == "" {
      assert all == "000000000";
      ZerosValue(all);
    }
  }

  lemma {:induction false} ZerosValue(s: string)
    requires AllDigits(s) && forall k :: 0 <= k < |s| ==> s[k] == '0'
    ensures Value(s) == 0
  {
    if s == "" {
    } else {
      ZerosValue(s[..|s| - 1]);
    }
  }

  lemma NineDigits()
    ensures Pow10(2) == 100 && Pow10(4) == 10000 && Pow10(9) == SECOND
  {
    assert Pow10(1) == 10 && Pow10(2) == 100 && Pow10(3) == 1000 && Pow10(4) == 10000;
    assert Pow10(6) == 100 * Pow10(4) && Pow10(8) == 100 * Pow10(6) && Pow10(9) == 10 * Pow10(8);
  }

  function DateText(date: Date): (s: string)
    requires 0 <= date.year && 0 <= date.month && 0 <= date.day
    ensures |s| == 10
  {
    Fixed(date.year, 4) + ("-" + Fixed(date.month, 2)) + ("-" + Fixed(date.day, 2))
  }

  function ClockText(hour: nat, minute: nat, second: nat): (s: string)
    ensures |s| == 8
  {
    Fixed(hour, 2) + (":" + Fixed(minute, 2)) + (":" + Fixed(second, 2))
  }

  /** The nineteen columns before the fraction. */
  function Columns(date: Date, hour: nat, minute: nat, second: nat): (s: string)
    requires 0 <= date.year && 0 <= date.month && 0 <= date.day
    ensures |s| == 19
  {
    DateText(date) + ("T" + ClockText(hour, minute, second))
  }

  predicate HasDate(s: string, date: Date) {
    && 0 <= date.year && 0 <= date.month && 0 <= date.day && |s| == 10
    && s[0..4] == Fixed(date.year, 4) && s[5..7] == Fixed(date.month, 2) && s[8..10] == Fixed(date.day, 2)
    && s[4] == '-' && s[7] == '-'
  }

  predicate HasClock(s: string, hour: nat, minute: nat, second: nat) {
    && |s| == 8 && s[0..2] == Fixed(hour, 2) && s[3..5] == Fixed(minute, 2) && s[6..8] == Fixed(second, 2)
    && s[2] == ':' && s[5] == ':'
  }

  lemma DateTextHas(date: Date)
    requires 0 <= date.year && 0 <= date.month && 0 <= date.day
    ensures HasDate(DateText(date), date)
  {
  }

  lemma ClockTextHas(hour: nat, minute: nat, second: nat)
    ensures HasClock(ClockText(hour, minute, second), hour, minute, second)
  {
  }

  /** Format with the layout 2006-01-02T15:04:05.999999999Z, for a UTC time. */
  function Format(t: int): (s: string)
    requires InRange(t)
    ensures |s| >= 20
  {
    var seconds := t / SECOND;
    InRangeYears(t);
    Columns(DateOf(t), Hour(seconds), Minute(seconds), Second(seconds)) + (Fraction(t % SECOND) + "Z")
  }

  /** How many of the leading characters are digits. */
  function DigitRun(s: string): (n: nat)
    ensures n <= |s| && AllDigits(s[..n])
    ensures n < |s| ==> !IsDigit(s[n])
  {
    if s == "" || !IsDigit(s[0]) then 0
    else
      var rest := DigitRun(s[1..]);
      assert forall k :: 0 < k <= rest ==> s[k] == s[1..][..rest][k - 1];
      1 + rest
  }

  /** A number in fixed columns, if those columns are digits and it lies in lo..hi. */
  function Field(s: string, from: nat, to: nat, lo: int, hi: int): Option<int>
    requires from <= to <= |s|
  {
    if AllDigits(s[from..to]) && lo <= Value(s[from..to]) <= hi then Some(Value(s[from..to]) as int) else None
  }

  /** Zone: Z, or a signed hh:mm offset in seconds east of UTC; 24 hours and 60 minutes are let through. */
  function Zone(s: string): Option<int> {
    if s == "Z" then Some(0)
    else if |s| == 6 && (s[0] == '+' || s[0] == '-') && s[3] == ':' then
      var hours, minutes := Field(s, 1, 3, 0, 24), Field(s, 4, 6, 0, 60);
      if hours.Some? && minutes.Some? then
        var offset := 60 * (60 * hours.value + minutes.value);
        Some(if s[0] == '-' then -offset else offset)
      else None
    else None
  }

  /** The day number of "yyyy-mm-dd". */
  function ParseDate(s: string): Option<int>
    requires |s| == 10
  {
    var year, month := Field(s, 0, 4, 0, 9999), Field(s, 5, 7, 1, 12);
    if year.None? || month.None? || s[4] != '-' || s[7] != '-' then None else
      var day := Field(s, 8, 10, 1, DaysIn(month.value, year.value));
      if day.None? then None else Some(ToDays(Date(year.value, month.value, day.value)))
  }

  /** The second of the day of "hh:mm:ss". */
  function ParseClock(s: string): Option<int>
    requires |s| == 8
  {
    var hour, minute, second := Field(s, 0, 2, 0, 23), Field(s, 3, 5, 0, 59), Field(s, 6, 8, 0, 59);
    if hour.None? || minute.None? || second.None? || s[2] != ':' || s[5] != ':' then None
    else Some(3600 * hour.value + 60 * minute.value + second.value)
  }

  /** Seconds since the epoch of the nineteen leading columns, read as UTC. */
  function ParseSeconds(s: string): Option<int>
    requires |s| >= 19
  {
    var day, clock := ParseDate(s[..10]), ParseClock(s[11..19]);
    if day.None? || clock.None? || s[10] != 'T' then None else Some(DAY_SECONDS * day.value + clock.value)
  }

  /** What follows the seconds: an optional fraction in nanoseconds, after a period or a comma, and the zone. */
  function ParseRest(rest: string): Option<(nat, int)>
    requires rest != ""
  {
    if rest[0] == '.' || rest[0] == ',' then
      var digits := DigitRun(rest[1..]);
      var zone := Zone(rest[1..][digits..]);
      if digits == 0 || zone.None? then None else Some((Nanos(rest[1..][..digits]), zone.value))
    else
      var zone := Zone(rest);
      if zone.None? then None else Some((0, zone.value))
  }

  /** An hour of one digit is read as if it had two. */
  function Padded(s: string): string {
    if |s| > 11 && IsDigit(s[11]) && (|s| == 12 || !IsDigit(s[12])) then s[..11] + "0" + s[11..] else s
  }

  /** time.Parse with the RFC3339Nano layout, its leniency included. */
  function Parse(s: string): Option<int> { ParsePadded(Padded(s)) }

  function ParsePadded(s: string): Option<int> {
    if |s| < 20 then None else
      var seconds, rest := ParseSeconds(s), ParseRest(s[19..]);
      if seconds.None? || rest.None? then None
      else Some(SECOND * (seconds.value - rest.value.1) + rest.value.0)
  }

  lemma FieldOf(s: string, from: nat, to: nat, n: nat, hi: int)
    requires from <= to <= |s| && s[from..to] == Fixed(n, to - from) && n < Pow10(to - from)
    ensures forall lo :: lo <= n <= hi ==> Field(s, from, to, lo, hi) == Some(n as int)
  {
    FixedValue(n, to - from);
  }

  lemma ParseDateOf(date: Date)
    requires IsDate(date) && 0 <= date.year <= 9999
    ensures ParseDate(DateText(date)) == Some(ToDays(date))
  {
    var s := DateText(date);
    NineDigits();
    DateTextHas(date);
    FieldOf(s, 0, 4, date.year, 9999);
    FieldOf(s, 5, 7, date.month, 12);
    FieldOf(s, 8, 10, date.day, DaysIn(date.month, date.year));
  }

  lemma ParseClockOf(hour: nat, minute: nat, second: nat)
    requires hour < 24 && minute < 60 && second < 60
    ensures ParseClock(ClockText(hour, minute, second)) == Some(3600 * hour + 60 * minute + second)
  {
    var s := ClockText(hour, minute, second);
    NineDigits();
    ClockTextHas(hour, minute, second);
    FieldOf(s, 0, 2, hour, 23);
    FieldOf(s, 3, 5, minute, 59);
    FieldOf(s, 6, 8, second, 59);
  }

  function Hour(seconds: int): nat { seconds % DAY_SECONDS / 3600 }
  function Minute(seconds: int): nat { seconds % DAY_SECONDS / 60 % 60 }
  function Second(seconds: int): nat { seconds % DAY_SECONDS % 60 }

  lemma ClockParts(seconds: int)
    ensures Hour(seconds) < 24 && Minute(seconds) < 60 && Second(seconds) < 60
    ensures DAY_SECONDS * (seconds / DAY_SECONDS) + 3600 * Hour(seconds) + 60 * Minute(seconds) + Second(seconds) ==
      seconds
  {
  }

  lemma ParseRestOf(nanos: nat)
    requires nanos < SECOND
    ensures ParseRest(Fraction(nanos) + "Z") == Some((nanos, 0))
  {
    if nanos != 0 {
      NanosOfFraction(nanos);
      var digits := TrimZeros(Fixed(nanos, 9));
      var rest := "." + digits + "Z";
      assert rest[1..] == digits + "Z";
      DigitRunOf(digits, "Z");
      assert (digits + "Z")[..|digits|] == digits && (digits + "Z")[|digits|..] == "Z";
    }
  }

  lemma FormatParts(t: int, date: Date, seconds: int)
    requires InRange(t) && seconds == t / SECOND && date == DateOf(t) && 0 <= date.year
    ensures
      var s := Format(t);
      && s[..10] == DateText(date) && s[10] == 'T'
        && s[11..19] == ClockText(Hour(seconds), Minute(seconds), Second(seconds))
      && s[19..] == Fraction(t % SECOND) + "Z"
  {
  }

  lemma JoinSeconds(s: string, day: int, clock: int)
    requires |s| >= 20 && ParseDate(s[..10]) == Some(day) && ParseClock(s[11..19]) == Some(clock) && s[10] == 'T'
    ensures ParseSeconds(s) == Some(DAY_SECONDS * day + clock)
  {
  }

  lemma DateOfTime(t: int)
    requires InRange(t)
    ensures DateOf(t).year >= 0 && ParseDate(DateText(DateOf(t))) == Some(t / SECOND / DAY_SECONDS)
  {
    InRangeYears(t);
    ParseDateOf(DateOf(t));
  }

  lemma ClockOfTime(seconds: int)
    ensures ParseClock(ClockText(Hour(seconds), Minute(seconds), Second(seconds))) == Some(seconds % DAY_SECONDS)
  {
    ClockParts(seconds);
    ParseClockOf(Hour(seconds), Minute(seconds), Second(seconds));
  }

  lemma FormatSeconds(t: int, seconds: int)
    requires InRange(t) && seconds == t / SECOND
    ensures ParseSeconds(Format(t)) == Some(seconds) && Format(t)[19..] == Fraction(t % SECOND) + "Z"
  {
    DateOfTime(t);
    ClockOfTime(seconds);
    FormatParts(t, DateOf(t), seconds);
    JoinSeconds(Format(t), seconds / DAY_SECONDS, seconds % DAY_SECONDS);
  }

  lemma JoinParts(s: string, t: int, seconds: int, rest: string)
    requires |s| >= 20 && ParseSeconds(s) == Some(seconds) && s[19..] == rest && rest != ""
    requires t == SECOND * seconds + t % SECOND && ParseRest(rest) == Some((t % SECOND, 0))
    ensures ParsePadded(s) == Some(t)
  {
  }

  lemma HourHasTwoDigits(s: string, hour: nat, minute: nat, second: nat)
    requires |s| >= 19 && s[11..19] == ClockText(hour, minute, second)
    ensures Padded(s) == s
  {
    ClockTextHas(hour, minute, second);
    assert s[11..19][0..2] == Fixed(hour, 2);
    assert s[12] == s[11..19][1] == Fixed(hour, 2)[1];
  }

  lemma FormatIsPadded(t: int)
    requires InRange(t)
    ensures Padded(Format(t)) == Format(t)
  {
    InRangeYears(t);
    FormatParts(t, DateOf(t), t / SECOND);
    HourHasTwoDigits(Format(t), Hour(t / SECOND), Minute(t / SECOND), Second(t / SECOND));
  }

  /** Every time of a four-digit year is read back to the nanosecond. */
  lemma ParseFormat(t: int)
    requires InRange(t)
    ensures Parse(Format(t)) == Some(t)
  {
    FormatSeconds(t, t / SECOND);
    FormatIsPadded(t);
    ParseRestOf(t % SECOND);
    JoinParts(Format(t), t, t / SECOND, Fraction(t % SECOND) + "Z");
  }

  lemma DigitRunOf(digits: string, rest: string)
    requires AllDigits(digits) && rest != "" && !IsDigit(rest[0])
    ensures DigitRun(digits + rest) == |digits|
  {
    var s := digits + rest;
    assert s[|digits|] == rest[0];
    assert forall k :: 0 <= k < |digits| ==> s[k] == digits[k];
  }

  lemma ColumnsAreClean(date: Date, hour: nat, minute: nat, second: nat)
    requires 0 <= date.year && 0 <= date.month && 0 <= date.day
    ensures '|' !in DateText(date) && '|' !in ClockText(hour, minute, second)
  {
  }

  /** The text of a time holds neither separator of the encodings that embed it. */
  lemma FormatIsClean(t: int)
    requires InRange(t)
    ensures '|' !in Format(t)
  {
    InRangeYears(t);
    var seconds := t / SECOND;
    ColumnsAreClean(DateOf(t), Hour(seconds), Minute(seconds), Second(seconds));
    assert '|' !in Fraction(t % SECOND);
  }

  /** `s` from `i` to `j` is the number `n` in decimal. */
  predicate Column(s: string, i: nat, j: nat, n: int) {
    i <= j <= |s| && AllDigits(s[i..j]) && Value(s[i..j]) == n
  }

  lemma ColumnOf(s: string, i: nat, j: nat, n: nat)
    requires i <= j <= |s| && s[i..j] == Fixed(n, j - i) && n < Pow10(j - i)
    ensures Column(s, i, j, n)
  {
    FixedValue(n, j - i);
  }

  lemma DateColumns(date: Date)
    requires IsDate(date) && 0 <= date.year <= 9999
    ensures
      var s := DateText(date);
      && Column(s, 0, 4, date.year) && s[4] == '-' && Column(s, 5, 7, date.month) && s[7] == '-'
      && Column(s, 8, 10, date.day)
  {
    NineDigits();
    DateTextHas(date);
    ColumnOf(DateText(date), 0, 4, date.year);
    ColumnOf(DateText(date), 5, 7, date.month);
    ColumnOf(DateText(date), 8, 10, date.day);
  }

  lemma ClockColumns(hour: nat, minute: nat, second: nat)
    requires hour < 24 && minute < 60 && second < 60
    ensures
      var s := ClockText(hour, minute, second);
      Column(s, 0, 2, hour) && s[2] == ':' && Column(s, 3, 5, minute) && s[5] == ':' && Column(s, 6, 8, second)
  {
    NineDigits();
    ClockTextHas(hour, minute, second);
    ColumnOf(ClockText(hour, minute, second), 0, 2, hour);
    ColumnOf(ClockText(hour, minute, second), 3, 5, minute);
    ColumnOf(ClockText(hour, minute, second), 6, 8, second);
  }

  /** The layout: year-month-day, T, hour:minute:second of the day, then a period and the nanoseconds
      without trailing zeros unless there are none, then Z. */
  lemma FormatLayout(t: int)
    requires InRange(t)
    ensures
      var s, date := Format(t)[..10], DateOf(t);
      && Column(s, 0, 4, date.year) && s[4] == '-' && Column(s, 5, 7, date.month) && s[7] == '-'
      && Column(s, 8, 10, date.day)
    ensures
      var s, second := Format(t)[11..19], t / SECOND % 86400;
      && Column(s, 0, 2, second / 3600) && s[2] == ':' && Column(s, 3, 5, second / 60 % 60) && s[5] == ':'
      && Column(s, 6, 8, second % 60)
    ensures Format(t)[10] == 'T' && Format(t)[|Format(t)| - 1] == 'Z'
    ensures if t % SECOND == 0 then |Format(t)| == 20 else Format(t)[19] == '.' && Format(t)[|Format(t)| - 2] != '0'
  {
    var seconds := t / SECOND;
    InRangeYears(t);
    FormatParts(t, DateOf(t), seconds);
    DateColumns(DateOf(t));
    ClockParts(seconds);
    ClockColumns(Hour(seconds), Minute(seconds), Second(seconds));
    TailShape(Format(t), t % SECOND);
  }

  lemma TailShape(s: string, nanos: nat)
    requires |s| >= 20 && nanos < SECOND && s[19..] == Fraction(nanos) + "Z"
    ensures s[|s| - 1] == 'Z'
    ensures if nanos == 0 then |s| == 20 else s[19] == '.' && s[|s| - 2] != '0'
  {
    var tail := s[19..];
    assert tail[|tail| - 1] == s[|s| - 1];
    if nanos != 0 {
      NanosOfFraction(nanos);
      assert tail[0] == s[19] && tail[|tail| - 2] == s[|s| - 2];
    }
  }
}
