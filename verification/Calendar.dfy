/** `crates/hekma-engine/src/time.rs`, `civil_from_days`, against the Gregorian calendar stepped
    one day at a time. */
module Calendar {

  newtype u64 = x: int | 0 <= x < 0x1_0000_0000_0000_0000

  /** The last day a `u64` count of seconds reaches. */
  const LAST_DAY: u64 := 213_503_982_334_601

  datatype Date = Date(year: u64, month: u64, day: u64)

  /** The division tricks of the source, in its 64-bit unsigned arithmetic: every intermediate
      value is checked to stay in range, so nothing overflows or underflows. */
  function CivilFromDays(daysSinceEpoch: u64): Date
    requires daysSinceEpoch <= LAST_DAY
  {
    var z := daysSinceEpoch + 719_468;
    var era := z / 146_097;
    var doe := z - era * 146_097;
    YearOfEraInRange(doe as int);
    var yoe := (doe - doe / 1_460 + doe / 36_524 - doe / 146_096) / 365;
    var y := yoe + era * 400;
    var doy := doe - (365 * yoe + yoe / 4 - yoe / 100);
    MonthAndDay(y, doy)
  }

  /** The last steps: the month counted from March, its day, and the civil year. */
  function MonthAndDay(y: u64, doy: u64): Date
    requires doy < 366 && y < 0x1_0000_0000_0000
  {
    var mp := (5 * doy + 2) / 153;
    var day := doy - (153 * mp + 2) / 5 + 1;
    var month := if mp < 10 then mp + 3 else mp - 9;
    var year := if month <= 2 then y + 1 else y;
    Date(year, month, day)
  }

  // ---------- The Gregorian calendar ----------

  predicate IsLeap(year: nat) { year % 4 == 0 && (year % 100 != 0 || year % 400 == 0) }

  function DaysInMonth(year: nat, month: nat): nat
    requires 1 <= month <= 12
  {
    if month == 2 then (if IsLeap(year) then 29 else 28)
    else if month == 4 || month == 6 || month == 9 || month == 11 then 30
    else 31
  }

  datatype CivilDate = CivilDate(year: nat, month: nat, day: nat)

  predicate IsValid(d: CivilDate) {
    1 <= d.month <= 12 && 1 <= d.day <= DaysInMonth(d.year, d.month)
  }

  function NextDay(d: CivilDate): (n: CivilDate)
    requires IsValid(d)
    ensures IsValid(n)
  {
    if d.day < DaysInMonth(d.year, d.month) then CivilDate(d.year, d.month, d.day + 1)
    else if d.month < 12 then CivilDate(d.year, d.month + 1, 1)
    else CivilDate(d.year + 1, 1, 1)
  }

  /** The date `n` days after 1970-01-01. */
  function NthDay(n: nat): (d: CivilDate)
    ensures IsValid(d)
  {
    if n == 0 then CivilDate(1970, 1, 1) else NextDay(NthDay(n - 1))
  }

  function Civil(d: Date): CivilDate { CivilDate(d.year as nat, d.month as nat, d.day as nat) }

  // ---------- The arithmetic of a 400-year era ----------

  function YearOfEra(doe: nat): int { (doe - doe / 1_460 + doe / 36_524 - doe / 146_096) / 365 }

  /** Days from March 1st of year 0 of the era to March 1st of year `n`. */
  function YearStart(n: nat): nat { 365 * n + n / 4 - n / 100 }

  /** The year that starts on March 1st of year `n` of an era ends with February of year `n + 1`. */
  function YearLength(n: nat): nat { if IsLeap(n + 1) then 366 else 365 }

  /** The trick inverts the year starts. */
  lemma YearOfEraInverts(n: nat, doy: nat)
    requires n < 400 && doy < YearLength(n)
    ensures YearOfEra(YearStart(n) + doy) == n
  {
    var c, q, r := n / 100, n % 100 / 4, n % 4;
    SplitYear(n);
    var doe := YearStart(n) + doy;
    hide *;
    assert doe == 36_524 * c + 1_461 * q + 365 * r + doy;
    var e := if 24 * c + q + 365 * r + doy >= 1_460 then 1 else 0;
    Quotients(c, q, r, doy, e);
    assert YearOfEra(doe) == (365 * n + doy - e) / 365 by { Unfold(doe); }
  }

  lemma Unfold(doe: nat)
    ensures YearOfEra(doe) == (doe - doe / 1_460 + doe / 36_524 - doe / 146_096) / 365
  {
  }

  /** A year of the era by century, leap cycle and year of the cycle; a leap year ends a cycle. */
  lemma SplitYear(n: nat)
    requires n < 400
    ensures
      var c, q, r := n / 100, n % 100 / 4, n % 4;
      && c < 4 && q < 25 && n == 100 * c + 4 * q + r
      && YearStart(n) == 36_524 * c + 1_461 * q + 365 * r
      && (YearLength(n) == 366 ==> r == 3 && (q < 24 || c == 3))
  {
    var c, q, r := n / 100, n % 100 / 4, n % 4;
    assert n / 4 == 25 * c + q;
  }

  lemma Quotients(c: nat, q: nat, r: nat, doy: nat, e: nat)
    requires c < 4 && q < 25 && r < 4 && doy < 366 && (doy == 365 ==> r == 3 && (q < 24 || c == 3))
    requires e == if 24 * c + q + 365 * r + doy >= 1_460 then 1 else 0
    ensures
      var doe := 36_524 * c + 1_461 * q + 365 * r + doy;
      && doe - doe / 1_460 + doe / 36_524 - doe / 146_096 == 365 * (100 * c + 4 * q + r) + doy - e
      && 0 <= doy - e < 365
  {
    var doe := 36_524 * c + 1_461 * q + 365 * r + doy;
    assert doe / 1_460 == 25 * c + q + e;
    var last := if doe == 146_096 then 1 else 0;
    assert doe / 36_524 == c + last && doe / 146_096 == last;
  }

  /** Every day of the era is some day of some year. */
  lemma YearExists(doe: nat) returns (n: nat, doy: nat)
    requires doe < 146_097
    ensures n < 400 && doy < YearLength(n) && doe == YearStart(n) + doy
  {
    var c := if doe == 146_096 then 3 else doe / 36_524;
    var rest := doe - 36_524 * c;
    var q := rest / 1_461;
    var rest' := rest - 1_461 * q;
    var r := if rest' == 1_460 then 3 else rest' / 365;
    n, doy := 100 * c + 4 * q + r, rest' - 365 * r;
    assert n / 4 == 25 * c + q && n / 100 == c;
  }

  lemma YearOfEraInRange(doe: nat)
    requires doe < 146_097
    ensures 0 <= YearOfEra(doe) < 400
    ensures 0 <= doe - YearStart(YearOfEra(doe)) < YearLength(YearOfEra(doe))
  {
    var n, doy := YearExists(doe);
    YearOfEraInverts(n, doy);
  }

  // ---------- The inverse: days from a civil date ----------

  function MonthStart(mp: nat): nat { (153 * mp + 2) / 5 }

  /** Months counted from March. */
  function MarchMonth(month: nat): nat
    requires 1 <= month <= 12
  {
    if month <= 2 then month + 9 else month - 3
  }

  /** Years counted from March. */
  function MarchYear(d: CivilDate): int { if d.month <= 2 then d.year - 1 else d.year }

  function DayOfYear(d: CivilDate): nat
    requires IsValid(d)
  {
    MonthStart(MarchMonth(d.month)) + d.day - 1
  }

  predicate FromEpoch(d: CivilDate) { IsValid(d) && 1970 <= d.year }

  /** Days from 1970-01-01 to `d`: 719468 days lie between 0000-03-01 and the epoch. */
  function DaysFromCivil(d: CivilDate): int
    requires FromEpoch(d)
  {
    MarchYear(d) / 400 * 146_097 + YearStart(MarchYear(d) % 400) + DayOfYear(d) - 719_468
  }

  lemma DayOfYearInRange(d: CivilDate)
    requires FromEpoch(d)
    ensures DayOfYear(d) < YearLength(MarchYear(d) % 400)
    ensures (5 * DayOfYear(d) + 2) / 153 == MarchMonth(d.month)
  {
    LeapNextYear(MarchYear(d));
  }

  lemma LeapByEra(year: nat)
    ensures IsLeap(year) == IsLeap(year % 400)
  {
    hide *;
    RemainderOfRemainder(year);
    LeapByRemainders(year, year % 400);
  }

  lemma RemainderOfRemainder(x: nat)
    ensures x % 4 == x % 400 % 4 && x % 100 == x % 400 % 100
  {
    DropMultiple4(100 * (x / 400), x % 400, x);
    DropMultiple100(4 * (x / 400), x % 400, x);
  }

  lemma DropMultiple4(k: nat, r: nat, x: nat)
    requires x == 4 * k + r
    ensures x % 4 == r % 4
  {
  }

  lemma DropMultiple100(k: nat, r: nat, x: nat)
    requires x == 100 * k + r
    ensures x % 100 == r % 100
  {
  }

  lemma DropMultiple400(k: nat, r: nat, x: nat)
    requires x == 400 * k + r
    ensures x % 400 == r % 400
  {
  }

  lemma LeapByRemainders(x: nat, y: nat)
    requires x % 4 == y % 4 && x % 100 == y % 100 && x % 400 == y % 400
    ensures IsLeap(x) == IsLeap(y)
  {
  }

  lemma LeapNextYear(y: nat)
    ensures IsLeap(y + 1) == IsLeap(y % 400 + 1)
  {
    LeapByEra(y + 1);
    LeapByEra(y % 400 + 1);
    hide *;
    DropMultiple400(y / 400, y % 400 + 1, y + 1);
  }

  lemma EpochIsDayZero()
    ensures DaysFromCivil(CivilDate(1970, 1, 1)) == 0
  {
  }

  lemma NextDayCountsOne(d: CivilDate)
    requires FromEpoch(d)
    ensures DaysFromCivil(NextDay(d)) == DaysFromCivil(d) + 1
  {
    var y := MarchYear(d);
    if d.day < DaysInMonth(d.year, d.month) {
      hide YearStart, MonthStart, IsLeap, YearLength;
      assert DayOfYear(NextDay(d)) == DayOfYear(d) + 1;
    } else if d.month != 2 {
      MonthsAbut(d.month, d.year);
      hide YearStart, MonthStart, IsLeap, YearLength, DaysInMonth;
      assert DayOfYear(NextDay(d)) == DayOfYear(d) + 1;
    } else {
      LeapNextYear(y);
      assert DayOfYear(d) == YearLength(y % 400) - 1;
      NextYearStarts(y);
      hide YearStart, MonthStart, IsLeap, YearLength, DaysInMonth;
    }
  }

  lemma MonthsAbut(month: nat, year: nat)
    requires 1 <= month <= 12 && month != 2
    ensures MonthStart(MarchMonth(if month < 12 then month + 1 else 1))
         == MonthStart(MarchMonth(month)) + DaysInMonth(year, month)
  {
  }

  /** Consecutive years abut, across an era boundary too. */
  lemma NextYearStarts(y: nat)
    ensures (y + 1) / 400 * 146_097 + YearStart((y + 1) % 400)
         == y / 400 * 146_097 + YearStart(y % 400) + YearLength(y % 400)
  {
    var n := y % 400;
    YearsAbut(n);
    hide *;
    if n == 399 {
      assert (y + 1) / 400 == y / 400 + 1 && (y + 1) % 400 == 0;
    } else {
      assert (y + 1) / 400 == y / 400 && (y + 1) % 400 == n + 1;
    }
  }

  lemma YearsAbut(n: nat)
    requires n < 400
    ensures n < 399 ==> YearStart(n + 1) == YearStart(n) + YearLength(n)
    ensures n == 399 ==> YearStart(0) + 146_097 == YearStart(n) + YearLength(n)
  {
    var q, r := (n + 1) / 4, (n + 1) % 4;
    assert n / 4 == if r == 0 then q - 1 else q;
    var c, s := (n + 1) / 100, (n + 1) % 100;
    assert n / 100 == if s == 0 then c - 1 else c;
  }

  lemma DaysFromCivilNonNegative(d: CivilDate)
    requires FromEpoch(d)
    ensures 0 <= DaysFromCivil(d)
  {
    var y := MarchYear(d);
    if y >= 1970 {
      assert y / 400 * 146_097 + YearStart(y % 400) >= 719_468;
    }
  }

  lemma {:induction false} NthDayCounts(n: nat)
    ensures FromEpoch(NthDay(n)) && DaysFromCivil(NthDay(n)) == n
  {
    if n == 0 {
      EpochIsDayZero();
    } else {
      NthDayCounts(n - 1);
      NextDayCountsOne(NthDay(n - 1));
    }
  }

  // ---------- Main results ----------

  /** `civil_from_days` inverts the day count on every date a `u64` second count reaches. */
  lemma CivilInvertsDays(d: CivilDate)
    requires FromEpoch(d) && 0 <= DaysFromCivil(d) <= LAST_DAY as int
    ensures Civil(CivilFromDays(DaysFromCivil(d) as u64)) == d
  {
    var y, doy := MarchYear(d), DayOfYear(d);
    var n := y % 400;
    DayOfYearInRange(d);
    YearOfEraInverts(n, doy);
    var z := DaysFromCivil(d) + 719_468;
    YearEnds(n, doy);
    EraOf(y / 400, YearStart(n) + doy, z);
    DayWithinMonth(d);
    assert doy < 366;
    CivilOfParts(DaysFromCivil(d) as u64, y / 400, n, doy);
    hide YearStart, YearOfEra, YearLength, DayOfYear, DaysFromCivil, CivilFromDays, IsLeap, DaysInMonth;
    assert y == n + y / 400 * 400;
  }

  lemma YearEnds(n: nat, doy: nat)
    requires n < 400 && doy < YearLength(n)
    ensures YearStart(n) + doy < 146_097
  {
    SplitYear(n);
  }

  /** What the tricks compute once the era, the year and the day of the year are known. */
  lemma CivilOfParts(days: u64, era: nat, n: nat, doy: nat)
    requires days <= LAST_DAY && n < 400 && doy < 366
    requires
      var z := days as int + 719_468;
      && z / 146_097 == era && z - era * 146_097 == YearStart(n) + doy
      && YearOfEra(YearStart(n) + doy) == n
    ensures CivilFromDays(days) == MonthAndDay((n + era * 400) as u64, doy as u64)
  {
    hide MonthAndDay, YearLength, IsLeap, YearOfEra, YearStart;
    var z := days + 719_468;
    var doe := z - z / 146_097 * 146_097;
    assert doe as int == YearStart(n) + doy;
    YearOfDay(doe, n);
    DayOfMarchYear(doe, n as u64, doy);
  }

  /** The year of the era, in 64 bits. */
  lemma YearOfDay(doe: u64, n: nat)
    requires doe < 146_097 && YearOfEra(doe as int) == n < 400
    ensures (doe - doe / 1_460 + doe / 36_524 - doe / 146_096) / 365 == n as u64
  {
  }

  /** The day of that year, in 64 bits. */
  lemma DayOfMarchYear(doe: u64, n: u64, doy: nat)
    requires doe < 146_097 && n < 400 && doe as int == YearStart(n as int) + doy
    ensures 365 * n + n / 4 - n / 100 <= doe
    ensures (doe - (365 * n + n / 4 - n / 100)) as int == doy
  {
  }

  lemma DayWithinMonth(d: CivilDate)
    requires IsValid(d)
    ensures DayOfYear(d) - MonthStart(MarchMonth(d.month)) + 1 == d.day
  {
  }

  lemma EraOf(era: nat, doe: nat, z: nat)
    requires doe < 146_097 && z == era * 146_097 + doe
    ensures z / 146_097 == era && z - z / 146_097 * 146_097 == doe
  {
  }

  /** `civil_from_days` is the calendar stepped day by day from 1970-01-01. */
  lemma CivilIsNthDay(n: u64)
    requires n <= LAST_DAY
    ensures Civil(CivilFromDays(n)) == NthDay(n as nat)
  {
    NthDayCounts(n as nat);
    CivilInvertsDays(NthDay(n as nat));
  }

  /** The other half of the bijection. */
  lemma DaysInvertCivil(n: u64)
    requires n <= LAST_DAY
    ensures FromEpoch(Civil(CivilFromDays(n))) && DaysFromCivil(Civil(CivilFromDays(n))) == n as int
  {
    CivilIsNthDay(n);
    NthDayCounts(n as nat);
  }

  // ---------- Dates are ordered as their day counts ----------

  predicate Earlier(a: CivilDate, b: CivilDate) {
    a.year < b.year || (a.year == b.year && (a.month < b.month || (a.month == b.month && a.day < b.day)))
  }

  lemma {:induction false} NthDayIncreases(m: nat, n: nat)
    requires m < n
    ensures Earlier(NthDay(m), NthDay(n))
  {
    assert Earlier(NthDay(n - 1), NthDay(n));
    if m < n - 1 {
      NthDayIncreases(m, n - 1);
    }
  }
}
