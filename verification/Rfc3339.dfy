/** `crates/hekma-engine/src/time.rs`, `format_rfc3339`: whole seconds since the epoch as the text
    `YYYY-MM-DDTHH:MM:SSZ` of section 5.6 of RFC 3339. */
module Rfc3339 {
  import opened Common
  import opened Calendar
  import opened Decimals

  // ---------- Zero-padded decimal ----------

  /** `{n:0width}`: at least `width` digits. */
  function Padded(n: nat, width: nat): (s: string)
    ensures width <= |s|
  {
    var d := Decimal(n);
    if |d| < width then Zeros(width - |d|) + d else d
  }

  /** `-MM-DDTHH:MM:SSZ` from its five fields. */
  function JoinRest(month: string, day: string, hour: string, minute: string, second: string): string {
    "-" + (month + ("-" + (day + ("T" + (hour + (":" + (minute + (":" + (second + "Z")))))))))
  }

  function FormatRest(month: nat, day: nat, hour: nat, minute: nat, second: nat): string {
    JoinRest(Padded(month, 2), Padded(day, 2), Padded(hour, 2), Padded(minute, 2), Padded(second, 2))
  }

  function Format(unixSecs: u64): string {
    var days := unixSecs / 86_400;
    var secsOfDay := unixSecs % 86_400;
    var hour := secsOfDay / 3_600;
    var minute := secsOfDay % 3_600 / 60;
    var second := secsOfDay % 60;
    var date := CivilFromDays(days);
    Padded(date.year as nat, 4)
    + FormatRest(date.month as nat, date.day as nat, hour as nat, minute as nat, second as nat)
  }

  /** Two instants as text. */
  lemma Samples()
    ensures Format(0) == "1970-01-01T00:00:00Z"
    ensures Format(1_709_210_096) == "2024-02-29T12:34:56Z"
  {
    EpochDate();
    LeapDate();
    SampleFields();
    hide Padded, CivilFromDays;
    SampleRests();
    assert Format(0) == "1970" + "-01-01T00:00:00Z";
    assert Format(1_709_210_096) == "2024" + "-02-29T12:34:56Z";
  }

  lemma EpochDate()
    ensures CivilFromDays(0) == Date(1970, 1, 1)
  {
    assert DaysFromCivil(CivilDate(1970, 1, 1)) == 0;
    CivilInvertsDays(CivilDate(1970, 1, 1));
    hide CivilFromDays;
  }

  lemma LeapDate()
    ensures CivilFromDays(19_782) == Date(2024, 2, 29)
  {
    assert DaysFromCivil(CivilDate(2024, 2, 29)) == 19_782;
    CivilInvertsDays(CivilDate(2024, 2, 29));
    hide CivilFromDays;
  }

  lemma SampleFields()
    ensures Padded(0, 2) == "00" && Padded(1, 2) == "01" && Padded(2, 2) == "02" && Padded(12, 2) == "12"
    ensures Padded(29, 2) == "29" && Padded(34, 2) == "34" && Padded(56, 2) == "56"
    ensures Padded(1970, 4) == "1970" && Padded(2024, 4) == "2024"
  {
    DigitsAre();
    assert Zeros(1) == "0";
    assert Decimal(1) == "1" && Decimal(2) == "2" && Decimal(3) == "3" && Decimal(5) == "5";
    assert Decimal(12) == "12" && Decimal(29) == "29" && Decimal(34) == "34" && Decimal(56) == "56";
    assert Decimal(20) == "20";
    assert Decimal(202) == "202";
    assert Decimal(2024) == "2024";
  }

  lemma SampleRests()
    requires Padded(0, 2) == "00" && Padded(1, 2) == "01" && Padded(2, 2) == "02" && Padded(12, 2) == "12"
    requires Padded(29, 2) == "29" && Padded(34, 2) == "34" && Padded(56, 2) == "56"
    ensures FormatRest(1, 1, 0, 0, 0) == "-01-01T00:00:00Z"
    ensures FormatRest(2, 29, 12, 34, 56) == "-02-29T12:34:56Z"
  {
    hide Padded;
  }

  // ---------- An independent strict reader ----------

  /** The length of the leading run of digits. */
  function LeadingDigits(s: string): (n: nat)
    ensures n <= |s| && AllDigits(s[..n])
  {
    if s != [] && IsDigit(s[0]) then
      var n := 1 + LeadingDigits(s[1..]);
      assert forall i :: 1 <= i < n ==> s[..n][i] == s[1..][..n - 1][i - 1];
      n
    else
      0
  }

  predicate TwoDigits(s: string) { |s| == 2 && AllDigits(s) }

  /** `-MM-DDTHH:MM:SSZ` with five two-digit fields. */
  predicate RestShape(r: string) {
    && |r| == 16
    && r[0] == '-' && r[3] == '-' && r[6] == 'T' && r[9] == ':' && r[12] == ':' && r[15] == 'Z'
    && TwoDigits(r[1..3]) && TwoDigits(r[4..6]) && TwoDigits(r[7..9]) && TwoDigits(r[10..12]) && TwoDigits(r[13..15])
  }

  function Instant(date: CivilDate, hour: nat, minute: nat, second: nat): Option<nat> {
    if FromEpoch(date) && hour < 24 && minute < 60 && second < 60 then
      DaysFromCivilNonNegative(date);
      Some(DaysFromCivil(date) * 86_400 + hour * 3_600 + minute * 60 + second)
    else
      None
  }

  function ParseRest(year: nat, r: string): Option<nat> {
    if RestShape(r) then
      Instant(CivilDate(year, Value(r[1..3]), Value(r[4..6])), Value(r[7..9]), Value(r[10..12]), Value(r[13..15]))
    else
      None
  }

  /** Seconds since the epoch of an RFC 3339 text in UTC; the year has four digits or more. */
  function Parse(s: string): Option<nat> {
    var n := LeadingDigits(s);
    if n < 4 then None else ParseRest(Value(s[..n]), s[n..])
  }

  // ---------- Decimal text and its value ----------

  lemma PaddedValue(n: nat, width: nat)
    ensures AllDigits(Padded(n, width)) && Value(Padded(n, width)) == n
  {
    DecimalValue(n);
    if |Decimal(n)| < width {
      LeadingZeros(width - |Decimal(n)|, Decimal(n));
    }
  }

  /** A number is padded to exactly `width` characters if and only if it fits. */
  lemma PaddedLength(n: nat, width: nat)
    requires width > 0
    ensures |Padded(n, width)| == width <==> n < Power10(width)
  {
    DecimalLength(n, width);
  }

  lemma PaddedTwo(n: nat)
    requires n < 100
    ensures TwoDigits(Padded(n, 2)) && Value(Padded(n, 2)) == n
  {
    PaddedValue(n, 2);
    assert Power10(2) == 100;
    PaddedLength(n, 2);
  }

  // ---------- The round trip ----------

  lemma {:induction false} LeadingDigitsOf(d: string, r: string)
    requires AllDigits(d) && r != [] && !IsDigit(r[0])
    ensures LeadingDigits(d + r) == |d|
  {
    if d != [] {
      assert (d + r)[1..] == d[1..] + r;
      LeadingDigitsOf(d[1..], r);
    } else {
      assert d + r == r;
    }
  }

  lemma RestFields(month: string, day: string, hour: string, minute: string, second: string)
    requires TwoDigits(month) && TwoDigits(day) && TwoDigits(hour) && TwoDigits(minute) && TwoDigits(second)
    ensures
      var r := JoinRest(month, day, hour, minute, second);
      && RestShape(r)
      && r[1..3] == month && r[4..6] == day && r[7..9] == hour && r[10..12] == minute && r[13..15] == second
  {
    hide AllDigits;
    var r := JoinRest(month, day, hour, minute, second);
    assert r == ['-', month[0], month[1], '-', day[0], day[1], 'T', hour[0], hour[1], ':', minute[0], minute[1],
                 ':', second[0], second[1], 'Z'];
    assert r[1..3] == month && r[4..6] == day && r[7..9] == hour && r[10..12] == minute && r[13..15] == second;
  }

  lemma RestParses(date: CivilDate, hour: nat, minute: nat, second: nat)
    requires FromEpoch(date) && hour < 24 && minute < 60 && second < 60
    ensures ParseRest(date.year, FormatRest(date.month, date.day, hour, minute, second))
         == Instant(date, hour, minute, second)
  {
    PaddedTwo(date.month);
    PaddedTwo(date.day);
    PaddedTwo(hour);
    PaddedTwo(minute);
    PaddedTwo(second);
    hide Padded, Value, DaysFromCivil, TwoDigits, JoinRest, RestShape, Instant;
    RestFields(Padded(date.month, 2), Padded(date.day, 2), Padded(hour, 2), Padded(minute, 2), Padded(second, 2));
  }

  /** Reading back what `format_rfc3339` printed recovers the instant, for every instant. */
  lemma RoundTrip(unixSecs: u64)
    ensures Parse(Format(unixSecs)) == Some(unixSecs as nat)
  {
    var sod := (unixSecs % 86_400) as nat;
    var date := Civil(CivilFromDays(unixSecs / 86_400));
    var hour, minute, second := sod / 3_600, sod % 3_600 / 60, sod % 60;
    InstantOf(unixSecs, date);
    FormatParts(unixSecs, date, hour, minute, second);
    hide *;
    YearParses(date, hour, minute, second);
    RestParses(date, hour, minute, second);
  }

  lemma InstantOf(unixSecs: u64, date: CivilDate)
    requires date == Civil(CivilFromDays(unixSecs / 86_400))
    ensures
      var sod := (unixSecs % 86_400) as nat;
      && FromEpoch(date) && sod / 3_600 < 24
      && Instant(date, sod / 3_600, sod % 3_600 / 60, sod % 60) == Some(unixSecs as nat)
  {
    DaysInvertCivil(unixSecs / 86_400);
    SplitSeconds((unixSecs % 86_400) as nat);
    hide CivilFromDays, DaysFromCivil, FromEpoch;
    assert unixSecs == unixSecs / 86_400 * 86_400 + unixSecs % 86_400;
  }

  lemma SplitSeconds(sod: nat)
    requires sod < 86_400
    ensures sod / 3_600 < 24 && sod % 3_600 / 60 < 60
    ensures sod / 3_600 * 3_600 + sod % 3_600 / 60 * 60 + sod % 60 == sod
  {
    assert sod % 60 == sod % 3_600 % 60 by { assert sod == 60 * (60 * (sod / 3_600)) + sod % 3_600; }
  }

  lemma FormatParts(unixSecs: u64, date: CivilDate, hour: nat, minute: nat, second: nat)
    requires
      var sod := (unixSecs % 86_400) as nat;
      && date == Civil(CivilFromDays(unixSecs / 86_400))
      && hour == sod / 3_600 && minute == sod % 3_600 / 60 && second == sod % 60
    ensures Format(unixSecs) == Padded(date.year, 4) + FormatRest(date.month, date.day, hour, minute, second)
  {
    hide CivilFromDays, Padded, FormatRest;
  }

  lemma YearParses(date: CivilDate, hour: nat, minute: nat, second: nat)
    requires FromEpoch(date) && hour < 24 && minute < 60 && second < 60
    ensures
      var r := FormatRest(date.month, date.day, hour, minute, second);
      Parse(Padded(date.year, 4) + r) == ParseRest(date.year, r)
  {
    var r := FormatRest(date.month, date.day, hour, minute, second);
    var y := Padded(date.year, 4);
    RestStarts(date.month, date.day, hour, minute, second);
    PaddedValue(date.year, 4);
    hide ParseRest, Padded, FormatRest, Value, LeadingDigits;
    LeadingDigitsOf(y, r);
    assert (y + r)[..|y|] == y && (y + r)[|y|..] == r;
  }

  lemma RestStarts(month: nat, day: nat, hour: nat, minute: nat, second: nat)
    ensures FormatRest(month, day, hour, minute, second) != []
    ensures FormatRest(month, day, hour, minute, second)[0] == '-'
  {
  }
}
