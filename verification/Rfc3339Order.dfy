/** Timestamps sort as text: `crates/hekma-engine/src/time.rs` before and after year 10000. */
module Rfc3339Order {
  import opened Calendar
  import opened Decimals
  import opened Rfc3339

  /** The first instant of year 10000. */
  const YEAR_10000: u64 := 253_402_300_800

  /** Lexicographic order on text. */
  predicate Before(a: string, b: string) {
    b != [] && (a == [] || a[0] < b[0] || (a[0] == b[0] && Before(a[1..], b[1..])))
  }

  lemma {:induction false} BeforeByParts(x: string, y: string, r: string, t: string)
    requires |x| == |y|
    ensures Before(x + r, y + t) <==> Before(x, y) || (x == y && Before(r, t))
  {
    if x == [] {
      assert x + r == r && y + t == t;
    } else {
      assert (x + r)[1..] == x[1..] + r && (y + t)[1..] == y[1..] + t;
      BeforeByParts(x[1..], y[1..], r, t);
      assert x == [x[0]] + x[1..] && y == [y[0]] + y[1..];
    }
  }

  /** Digit strings of one length sort as their values. */
  lemma {:induction false} DigitsOrder(x: string, y: string)
    requires |x| == |y| && AllDigits(x) && AllDigits(y)
    ensures Before(x, y) <==> Value(x) < Value(y)
    ensures x == y <==> Value(x) == Value(y)
  {
    if x != [] {
      var n := |x| - 1;
      var x', y' := x[..n], y[..n];
      DigitsOrder(x', y');
      assert x == x' + [x[n]] && y == y' + [y[n]];
      BeforeByParts(x', y', [x[n]], [y[n]]);
      assert Before([x[n]], [y[n]]) <==> x[n] < y[n];
    }
  }

  /** One fixed-width field, then the rest. */
  lemma FieldOrder(m: nat, n: nat, width: nat, r: string, t: string)
    requires |Padded(m, width)| == |Padded(n, width)|
    ensures Before(Padded(m, width) + r, Padded(n, width) + t) <==> m < n || (m == n && Before(r, t))
  {
    PaddedValue(m, width);
    PaddedValue(n, width);
    hide Padded;
    DigitsOrder(Padded(m, width), Padded(n, width));
    BeforeByParts(Padded(m, width), Padded(n, width), r, t);
  }

  lemma SeparatorOrder(c: string, r: string, t: string)
    requires |c| == 1
    ensures Before(c + r, c + t) <==> Before(r, t)
  {
    BeforeByParts(c, c, r, t);
    assert !Before(c, c);
  }

  datatype Clock = Clock(hour: nat, minute: nat, second: nat)

  predicate EarlierInDay(a: Clock, b: Clock) {
    a.hour < b.hour || (a.hour == b.hour && (a.minute < b.minute || (a.minute == b.minute && a.second < b.second)))
  }

  function ClockOf(unixSecs: u64): Clock {
    var sod := (unixSecs % 86_400) as nat;
    Clock(sod / 3_600, sod % 3_600 / 60, sod % 60)
  }

  function DateOf(unixSecs: u64): CivilDate { Civil(CivilFromDays(unixSecs / 86_400)) }

  lemma TwoDigitOrder(m: nat, n: nat, r: string, t: string)
    requires m < 100 && n < 100
    ensures Before(Padded(m, 2) + r, Padded(n, 2) + t) <==> m < n || (m == n && Before(r, t))
  {
    PaddedTwo(m);
    PaddedTwo(n);
    FieldOrder(m, n, 2, r, t);
  }

  function ClockText(c: Clock): string {
    Padded(c.hour, 2) + (":" + (Padded(c.minute, 2) + (":" + (Padded(c.second, 2) + "Z"))))
  }

  lemma ClockOrder(a: Clock, b: Clock)
    requires a.hour < 100 && b.hour < 100 && a.minute < 100 && b.minute < 100 && a.second < 100 && b.second < 100
    ensures Before(ClockText(a), ClockText(b)) <==> EarlierInDay(a, b)
  {
    hide Padded, Before;
    var sa, sb := Padded(a.second, 2) + "Z", Padded(b.second, 2) + "Z";
    var ma, mb := Padded(a.minute, 2) + (":" + sa), Padded(b.minute, 2) + (":" + sb);
    TwoDigitOrder(a.hour, b.hour, ":" + ma, ":" + mb);
    SeparatorOrder(":", ma, mb);
    TwoDigitOrder(a.minute, b.minute, ":" + sa, ":" + sb);
    SeparatorOrder(":", sa, sb);
    TwoDigitOrder(a.second, b.second, "Z", "Z");
    SeparatorOrder("Z", "", "");
    assert "Z" + "" == "Z";
    assert !Before("", "") by { NothingBefore(); }
  }

  lemma NothingBefore()
    ensures !Before("", "")
  {
  }

  lemma RestOrder(a: CivilDate, b: CivilDate, c: Clock, d: Clock)
    requires IsValid(a) && IsValid(b)
    requires InRange(c) && InRange(d)
    ensures Before(FormatRest(a.month, a.day, c.hour, c.minute, c.second),
                   FormatRest(b.month, b.day, d.hour, d.minute, d.second))
       <==> a.month < b.month || (a.month == b.month && (a.day < b.day || (a.day == b.day && EarlierInDay(c, d))))
  {
    hide Padded, Before, EarlierInDay;
    var ct, dt := ClockText(c), ClockText(d);
    var ad, bd := Padded(a.day, 2) + ("T" + ct), Padded(b.day, 2) + ("T" + dt);
    SeparatorOrder("-", Padded(a.month, 2) + ("-" + ad), Padded(b.month, 2) + ("-" + bd));
    TwoDigitOrder(a.month, b.month, "-" + ad, "-" + bd);
    SeparatorOrder("-", ad, bd);
    TwoDigitOrder(a.day, b.day, "T" + ct, "T" + dt);
    SeparatorOrder("T", ct, dt);
    ClockOrder(c, d);
  }

  predicate InRange(c: Clock) { c.hour < 24 && c.minute < 60 && c.second < 60 }

  function SecondOfDay(c: Clock): nat { c.hour * 3_600 + c.minute * 60 + c.second }

  lemma ClockInRange(s: u64)
    ensures InRange(ClockOf(s)) && SecondOfDay(ClockOf(s)) == (s % 86_400) as int
  {
  }

  lemma ClockIsSecondOfDay(c: Clock, d: Clock)
    requires InRange(c) && InRange(d)
    ensures EarlierInDay(c, d) <==> SecondOfDay(c) < SecondOfDay(d)
    ensures c == d <==> SecondOfDay(c) == SecondOfDay(d)
  {
  }

  lemma DateOrder(m: u64, n: u64)
    requires m <= LAST_DAY && n <= LAST_DAY
    ensures Earlier(Civil(CivilFromDays(m)), Civil(CivilFromDays(n))) <==> m < n
    ensures Civil(CivilFromDays(m)) == Civil(CivilFromDays(n)) <==> m == n
  {
    CivilIsNthDay(m);
    CivilIsNthDay(n);
    hide CivilFromDays, NthDay;
    if m < n {
      NthDayIncreases(m as nat, n as nat);
    } else if n < m {
      NthDayIncreases(n as nat, m as nat);
    }
  }

  /** Instants are ordered as their dates, then as their clocks. */
  lemma InstantOrder(s: u64, t: u64)
    ensures s < t <==> Earlier(DateOf(s), DateOf(t)) || (DateOf(s) == DateOf(t) && EarlierInDay(ClockOf(s), ClockOf(t)))
  {
    ClockInRange(s);
    ClockInRange(t);
    ClockIsSecondOfDay(ClockOf(s), ClockOf(t));
    DateOrder(s / 86_400, t / 86_400);
    hide CivilFromDays, Earlier, EarlierInDay, ClockOf, InRange, SecondOfDay;
  }

  lemma YearOf10000(s: u64)
    ensures DateOf(s).year < 10_000 <==> s < YEAR_10000
  {
    EdgeOfYear9999();
    DateOrder(s / 86_400, 2_932_897);
    DateOrder(s / 86_400, 2_932_896);
    hide CivilFromDays;
  }

  lemma EdgeOfYear9999()
    ensures Civil(CivilFromDays(2_932_897)) == CivilDate(10_000, 1, 1)
    ensures Civil(CivilFromDays(2_932_896)) == CivilDate(9_999, 12, 31)
  {
    var a, b := CivilDate(10_000, 1, 1), CivilDate(9_999, 12, 31);
    assert DaysFromCivil(a) == 2_932_897 && DaysFromCivil(b) == 2_932_896;
    CivilInvertsDays(a);
    CivilInvertsDays(b);
    hide CivilFromDays;
  }

  /** The text has exactly 20 characters if and only if the instant is before year 10000. */
  lemma TwentyCharacters(s: u64)
    ensures |Format(s)| == 20 <==> s < YEAR_10000
  {
    YearOf10000(s);
    ClockInRange(s);
    var d, c := DateOf(s), ClockOf(s);
    DaysInvertCivil(s / 86_400);
    FormatParts(s, d, c.hour, c.minute, c.second);
    assert Power10(4) == 10_000;
    PaddedLength(d.year, 4);
    hide Padded, CivilFromDays, DaysFromCivil;
    PaddedTwo(d.month);
    PaddedTwo(d.day);
    PaddedTwo(c.hour);
    PaddedTwo(c.minute);
    PaddedTwo(c.second);
  }

  /** Texts of one length, so years of one digit count, sort as their instants. */
  lemma SameLengthOrder(s: u64, t: u64)
    requires |Format(s)| == |Format(t)|
    ensures Before(Format(s), Format(t)) <==> s < t
  {
    var a, b, c, d := DateOf(s), DateOf(t), ClockOf(s), ClockOf(t);
    ClockInRange(s);
    ClockInRange(t);
    DaysInvertCivil(s / 86_400);
    DaysInvertCivil(t / 86_400);
    FormatParts(s, a, c.hour, c.minute, c.second);
    FormatParts(t, b, d.hour, d.minute, d.second);
    hide *;
    RestLength(a, c);
    RestLength(b, d);
    RestOrder(a, b, c, d);
    FieldOrder(a.year, b.year, 4, FormatRest(a.month, a.day, c.hour, c.minute, c.second),
               FormatRest(b.month, b.day, d.hour, d.minute, d.second));
    InstantOrder(s, t);
    assert s < t <==> Before(Format(s), Format(t)) by { OrderShapes(a, b, c, d); }
  }

  lemma RestLength(a: CivilDate, c: Clock)
    requires IsValid(a) && InRange(c)
    ensures |FormatRest(a.month, a.day, c.hour, c.minute, c.second)| == 16
  {
    PaddedTwo(a.month);
    PaddedTwo(a.day);
    PaddedTwo(c.hour);
    PaddedTwo(c.minute);
    PaddedTwo(c.second);
    hide Padded;
  }

  /** Before year 10000, text order is time order. */
  lemma TextOrderIsTimeOrder(s: u64, t: u64)
    requires s < YEAR_10000 && t < YEAR_10000
    ensures Before(Format(s), Format(t)) <==> s < t
  {
    hide *;
    TwentyCharacters(s);
    TwentyCharacters(t);
    SameLengthOrder(s, t);
  }

  /** Text order is time order on all instants below a bound exactly when the bound is no later than
      year 10000. */
  lemma TextOrderExactly(bound: nat)
    ensures
      (forall s: u64, t: u64 :: s as nat < bound && t as nat < bound ==> (Before(Format(s), Format(t)) <==> s < t))
      <==> bound <= YEAR_10000 as nat
  {
    hide Format, Before;
    if bound <= YEAR_10000 as nat {
      forall s: u64, t: u64 | s as nat < bound && t as nat < bound
        ensures Before(Format(s), Format(t)) <==> s < t
      {
        TextOrderIsTimeOrder(s, t);
      }
    } else {
      TextOrderBreaks();
      var s, t := YEAR_10000, YEAR_10000 - 1;
      assert s as nat < bound && t as nat < bound && Before(Format(s), Format(t)) && !(s < t);
    }
  }

  lemma OrderShapes(a: CivilDate, b: CivilDate, c: Clock, d: Clock)
    ensures Earlier(a, b) || (a == b && EarlierInDay(c, d))
       <==> a.year < b.year
            || (a.year == b.year
                && (a.month < b.month
                    || (a.month == b.month && (a.day < b.day || (a.day == b.day && EarlierInDay(c, d))))))
  {
  }

  /** The bound is sharp: the first instant of year 10000 sorts before the one that precedes it. */
  lemma TextOrderBreaks()
    ensures Before(Format(YEAR_10000), Format(YEAR_10000 - 1))
  {
    var s, t := YEAR_10000, YEAR_10000 - 1;
    hide CivilFromDays, FormatRest, Padded, Format, Before;
    EdgeOfYear9999();
    FirstDigits();
    assert s / 86_400 == 2_932_897 && t / 86_400 == 2_932_896;
    FormatParts(s, DateOf(s), 0, 0, 0);
    FormatParts(t, DateOf(t), 23, 59, 59);
    FirstCharacterDecides(Padded(10_000, 4), Padded(9_999, 4), FormatRest(1, 1, 0, 0, 0),
        FormatRest(12, 31, 23, 59, 59));
    hide *;
  }

  lemma FirstCharacterDecides(x: string, y: string, r: string, t: string)
    requires x != [] && y != [] && x[0] < y[0]
    ensures Before(x + r, y + t)
  {
  }

  lemma FirstDigits()
    ensures Padded(10_000, 4)[0] == '1' && Padded(9_999, 4)[0] == '9'
  {
    assert Decimal(10_000) == Decimal(1_000) + ['0'] == Decimal(100) + "00" == Decimal(10) + "000";
    assert Decimal(9_999) == Decimal(999) + ['9'] == Decimal(99) + "99";
  }
}
