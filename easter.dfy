/**
 * The date of Easter by Knuth's Algorithm E (The Art of Computer
 * Programming, Vol. 1, section 1.3.2, exercise 14), with Zeller's
 * congruence as an independent day-of-the-week check.
 *
 * Dates are encoded as the source encodes them: a negative number -d is
 * March d, a positive number d is April d, and 0 is the range error.
 */
module Easter {

  const RANGE_ERROR := 0
  const MAX_YEAR := 39999
  const MIN_YEAR := 1582
  const SUNDAY := 1
  const MARCH_NUM := 3
  const APRIL_NUM := 4

  /* C's integer division and remainder truncate toward zero. */

  function Abs(x: int): (r: nat)
    ensures r == x || r == -x
  {
    if x < 0 then -x else x
  }

  function CDiv(a: int, b: int): (q: int)
    requires b > 0
  {
    if a >= 0 then a / b else -((-a) / b)
  }

  function CMod(a: int, b: int): (r: int)
    requires b > 0
    ensures a == b * CDiv(a, b) + r
    ensures a >= 0 ==> r == a % b
    ensures a < 0 ==> -b < r <= 0
  {
    if a >= 0 then a % b else -((-a) % b)
  }

  /* The steps of Algorithm E, each over the quantities named in it. */

  /** E1: the golden number, the year's place in the 19-year Metonic cycle. */
  function GoldenYear(year: int): int { CMod(year, 19) + 1 }

  /** E2: the century. */
  function Century(year: int): int { CDiv(year, 100) + 1 }

  /** E3: leap years skipped since 1582, and the moon's orbit correction. */
  function SkippedLeapYears(century: int): int { CDiv(3 * century, 4) - 12 }
  function MoonFactor(century: int): int { CDiv(8 * century + 5, 25) - 5 }

  /** E4: March ((-D) mod 7 + 7) is a Sunday. */
  function SundayDeterminant(year: int): int
  {
    CDiv(5 * year, 4) - SkippedLeapYears(Century(year)) - 10
  }

  /** The sum whose residue modulo 30 is the epact. */
  function EpactSum(year: int): int
  {
    var c := Century(year);
    11 * GoldenYear(year) + 20 + MoonFactor(c) - SkippedLeapYears(c)
  }

  /** E5, second half: the epact correction. */
  function CorrectEpact(epact: int, golden: int): int
  {
    if (epact == 25 && golden > 11) || epact == 24 then epact + 1 else epact
  }

  /** E6: the calendar full moon, as a day of March. */
  function CalendarFullMoon(epact: int): int
  {
    if 44 - epact < 21 then 44 - epact + 30 else 44 - epact
  }

  /** E7: the Sunday after the full moon, as a day of March. */
  function SundayAfter(determinant: int, fullMoon: int): int
  {
    fullMoon + 7 - CMod(determinant + fullMoon, 7)
  }

  /** E8: a day of March (32 and beyond run into April) in the signed encoding. */
  function EncodeMarchDay(n: int): int
  {
    if n > 31 then n - 31 else -n
  }

  predicate InRange(year: int)
  {
    MIN_YEAR <= year <= MAX_YEAR
  }

  /** The epact as written: C's remainder, negative when the sum is, then corrected. */
  function EpactAsWritten(year: int): int
  {
    CorrectEpact(CMod(EpactSum(year), 30), GoldenYear(year))
  }

  /** The day of March that calculate_Easter_date reaches as written. */
  function EasterMarchDayAsWritten(year: int): int
  {
    SundayAfter(SundayDeterminant(year), CalendarFullMoon(EpactAsWritten(year)))
  }

  /**
   * calculate_Easter_date exactly as written: RANGE_ERROR outside the
   * range, otherwise a Sunday from March 22 up to the 49th of "April",
   * since a negative epact moves the full moon as late as March 73.
   */
  function EasterDateAsWritten(year: int): (r: int)
    ensures r == RANGE_ERROR <==> !InRange(year)
    ensures InRange(year) ==> -31 <= r <= -22 || 1 <= r <= 49
  {
    if year > MAX_YEAR || year < MIN_YEAR then RANGE_ERROR
    else
      SundayAfterFullMoonAsWritten(year);
      EncodeMarchDay(EasterMarchDayAsWritten(year))
  }

  /** The epact as Algorithm E defines it: a residue modulo 30 in 0..29, corrected. */
  function Epact(year: int): int
  {
    CorrectEpact(EpactSum(year) % 30, GoldenYear(year))
  }

  /** The day of March (22..56) on which Easter falls. */
  function EasterMarchDay(year: int): int
  {
    SundayAfter(SundayDeterminant(year), CalendarFullMoon(Epact(year)))
  }

  /**
   * calculate_Easter_date with the epact taken as a true residue modulo 30,
   * as Algorithm E states it.
   */
  function EasterDate(year: int): (r: int)
    ensures r == RANGE_ERROR <==> !InRange(year)
    ensures InRange(year) ==> -31 <= r <= -22 || 1 <= r <= 25
  {
    if year > MAX_YEAR || year < MIN_YEAR then RANGE_ERROR
    else
      SundayAfterFullMoon(year);
      EncodeMarchDay(EasterMarchDay(year))
  }

  lemma GoldenYearRange(year: int)
    requires InRange(year)
    ensures 1 <= GoldenYear(year) <= 19
  {
  }

  lemma CenturyRange(year: int)
    requires InRange(year)
    ensures 16 <= Century(year) <= 400
  {
  }

  /** For years of the range the determinant of E4 is positive. */
  lemma {:induction false} DeterminantPositive(year: int)
    requires InRange(year)
    ensures SundayDeterminant(year) > 0
  {
    var c := Century(year);
    CenturyRange(year);
    assert SkippedLeapYears(c) <= 3 * c / 4;
    assert 3 * c / 4 <= c;
    assert CDiv(5 * year, 4) == 5 * year / 4 >= year;
    assert c <= year / 100 + 1 <= year;
  }

  /** After the correction of E5 the epact lies in 0..29 and is never 24. */
  lemma EpactRange(year: int)
    ensures 0 <= Epact(year) <= 29 && Epact(year) != 24
  {
  }

  /** After E6 the calendar full moon is a day of March from the 21st to the 49th. */
  lemma FullMoonRange(year: int)
    ensures 21 <= CalendarFullMoon(Epact(year)) <= 49
  {
    EpactRange(year);
  }

  /**
   * E7 moves forward by one to seven days and lands on a day N with
   * (D + N) mod 7 = 0, a Sunday by E4.
   */
  lemma {:induction false} SundayStep(determinant: int, fullMoon: int)
    requires determinant + fullMoon >= 0
    ensures 1 <= SundayAfter(determinant, fullMoon) - fullMoon <= 7
    ensures (determinant + SundayAfter(determinant, fullMoon)) % 7 == 0
  {
    var s := determinant + fullMoon;
    assert CMod(s, 7) == s % 7;
    assert determinant + SundayAfter(determinant, fullMoon) == s - s % 7 + 7;
  }

  lemma {:induction false} SundayAfterFullMoon(year: int)
    requires InRange(year)
    ensures 22 <= EasterMarchDay(year) <= 56
    ensures (SundayDeterminant(year) + EasterMarchDay(year)) % 7 == 0
  {
    DeterminantPositive(year);
    FullMoonRange(year);
    SundayStep(SundayDeterminant(year), CalendarFullMoon(Epact(year)));
  }

  /** As written the epact lies in -29..29, so the full moon falls on March 21..73. */
  lemma FullMoonRangeAsWritten(year: int)
    ensures -29 <= EpactAsWritten(year) <= 29
    ensures 21 <= CalendarFullMoon(EpactAsWritten(year)) <= 73
  {
  }

  /** As written, Easter falls on March day 22..80, still a Sunday by the determinant of E4. */
  lemma {:induction false} SundayAfterFullMoonAsWritten(year: int)
    requires InRange(year)
    ensures 22 <= EasterMarchDayAsWritten(year) <= 80
    ensures (SundayDeterminant(year) + EasterMarchDayAsWritten(year)) % 7 == 0
  {
    DeterminantPositive(year);
    FullMoonRangeAsWritten(year);
    SundayStep(SundayDeterminant(year), CalendarFullMoon(EpactAsWritten(year)));
  }

  /** The month and the day that printDate prints for an encoded date. */
  datatype Month = March | April
  datatype Date = Date(month: Month, day: nat)

  function PrintedDate(date: int): (d: Date)
    ensures d.month == April <==> date > 0
    ensures d.day == Abs(date)
  {
    if date > 0 then Date(April, date) else Date(March, Abs(date))
  }

  function EncodeDate(d: Date): int
  {
    if d.month == April then d.day else -(d.day as int)
  }

  /** printDate reads back any date except the error value exactly as it was encoded. */
  lemma PrintedDateRoundTrip(date: int)
    requires date != RANGE_ERROR
    ensures EncodeDate(PrintedDate(date)) == date
    ensures PrintedDate(date).month == April <==> date > 0
    ensures PrintedDate(date).day == Abs(date)
  {
  }

  /** For a year of the range printDate names the month and day that E8 describes. */
  lemma {:induction false} PrintedEasterIsMarchOrApril(year: int)
    requires InRange(year)
    ensures var n := EasterMarchDay(year);
      PrintedDate(EasterDate(year)) ==
        if n > 31 then Date(April, n - 31) else Date(March, n)
    ensures var d := PrintedDate(EasterDate(year));
      (d.month == March && 22 <= d.day <= 31) || (d.month == April && 1 <= d.day <= 25)
  {
    SundayAfterFullMoon(year);
  }

  /**
   * zellerCongruence: the day of the week (Saturday = 0, Sunday = 1, ...)
   * of an encoded March or April date.
   */
  function ZellerCongruence(year: int, date: int): (r: int)
    ensures year > 0 ==> 0 <= r <= 6
  {
    var dayOfMonth := Abs(date);
    var monthNum := if date < -1 then MARCH_NUM else APRIL_NUM;
    var yearOfCentury := CMod(year, 100);
    var century := CDiv(year, 100) + 1;
    CMod(dayOfMonth + CDiv(13 * (monthNum + 1), 5) + yearOfCentury + CDiv(yearOfCentury, 4)
         + CDiv(century - 1, 4) + 5 * (century - 1), 7)
  }

  /** The sum Zeller's congruence reduces modulo 7, less the day and the month terms. */
  function ZellerYearTerms(year: int): int
  {
    var j := year / 100;
    var k := year % 100;
    k + k / 4 + j / 4 + 5 * j
  }

  lemma {:induction false} ZellerForm(year: int, n: int)
    requires InRange(year)
    requires 22 <= n <= 80
    ensures ZellerCongruence(year, EncodeMarchDay(n)) == (n + 10 + ZellerYearTerms(year)) % 7
  {
    var t := ZellerYearTerms(year);
    var j := year / 100;
    assert CMod(year, 100) == year % 100 && CDiv(year, 100) + 1 - 1 == j;
    assert CDiv(j, 4) == j / 4;
    if n > 31 {
      assert CDiv(13 * (APRIL_NUM + 1), 5) == 13;
      var x := n - 31 + 13 + t;
      assert x >= 0;
      assert ZellerCongruence(year, n - 31) == x % 7;
      assert x + 7 * 4 == n + 10 + t;
      ModShift(x, 4);
    } else {
      assert CDiv(13 * (MARCH_NUM + 1), 5) == 10;
      assert ZellerCongruence(year, -n) == (n + 10 + t) % 7;
    }
  }

  lemma ModShift(x: int, k: int)
    ensures (x + 7 * k) % 7 == x % 7
  {
  }

  lemma {:induction false} DeterminantForm(year: int)
    requires InRange(year)
    ensures var j := year / 100; var k := year % 100;
      SundayDeterminant(year) == 125 * j + k + k / 4 - 3 * (j / 4) - 3 * (j % 4 + 1) / 4 + 2
  {
    var j := year / 100;
    var k := year % 100;
    var q := j / 4;
    var m := j % 4;
    assert 5 * year == 4 * (125 * j + k) + k;
    assert CDiv(5 * year, 4) == 125 * j + k + k / 4;
    assert 3 * (j + 1) == 4 * (3 * q) + 3 * (m + 1);
    assert CDiv(3 * (j + 1), 4) == 3 * q + 3 * (m + 1) / 4;
  }

  /**
   * Zeller's congruence names a Sunday for every March day N (22..80) with
   * (D + N) mod 7 = 0: the determinant of E4 and Zeller's formula agree.
   */
  lemma {:induction false} ZellerAgreesWithDeterminant(year: int, n: int)
    requires InRange(year)
    requires 22 <= n <= 80
    requires (SundayDeterminant(year) + n) % 7 == 0
    ensures ZellerCongruence(year, EncodeMarchDay(n)) == SUNDAY
  {
    ZellerForm(year, n);
    DeterminantForm(year);
    var j := year / 100;
    var k := year % 100;
    SundayResidue(n, j, k + k / 4, j / 4, j % 4, SundayDeterminant(year), n + 10 + ZellerYearTerms(year));
  }

  /**
   * The arithmetic behind ZellerAgreesWithDeterminant, with j the century
   * number (j = 4q + m) and kk the terms of the year of the century:
   * t - 1 - (d + n) is a multiple of seven, case by case on m.
   */
  lemma SundayResidue(n: int, j: int, kk: int, q: int, m: int, d: int, t: int)
    requires j == 4 * q + m && 0 <= m < 4
    requires d == 125 * j + kk - 3 * q - 3 * (m + 1) / 4 + 2
    requires t == n + 10 + kk + q + 5 * j
    requires (d + n) % 7 == 0
    ensures t % 7 == 1
  {
    var w := if m == 0 then 0 else if m == 1 then 17 else if m == 2 then 34 else 51;
    assert 3 * (m + 1) / 4 - 120 * m == -7 * w;
    var x := d + n + 1;
    assert t == x + 7 * (1 - 68 * q - w);
    ModShift(x, 1 - 68 * q - w);
  }

  /** Every corrected Easter date is a Sunday. */
  lemma {:induction false} EasterIsSunday(year: int)
    requires InRange(year)
    ensures ZellerCongruence(year, EasterDate(year)) == SUNDAY
  {
    SundayAfterFullMoon(year);
    ZellerAgreesWithDeterminant(year, EasterMarchDay(year));
  }

  /**
   * The assertion in main: every date calculate_Easter_date returns as
   * written is a Sunday, the late dates of a negative epact included.
   */
  lemma {:induction false} EasterAsWrittenIsSunday(year: int)
    requires InRange(year)
    ensures ZellerCongruence(year, EasterDateAsWritten(year)) == SUNDAY
  {
    SundayAfterFullMoonAsWritten(year);
    ZellerAgreesWithDeterminant(year, EasterMarchDayAsWritten(year));
  }

  /** Below year 9006 the sum of E5 is never negative, so C's remainder is harmless. */
  lemma {:induction false} AsWrittenAgreesBefore9006(year: int)
    requires year < 9006
    ensures EasterDateAsWritten(year) == EasterDate(year)
  {
    if InRange(year) {
      var c := Century(year);
      CenturyRange(year);
      assert c <= 91;
      assert CDiv(3 * c, 4) <= 68;
      assert EpactSum(year) >= 0;
    }
  }

  /**
   * As written, year 10336 gets epact -7 and a "Sunday after the full
   * moon" of March 57, which prints as April 26: later than any Easter.
   */
  lemma AsWrittenYear10336()
    ensures EasterDateAsWritten(10336) == 26
    ensures EasterDate(10336) == -22
  {
    assert GoldenYear(10336) == 0 + 1;
    assert Century(10336) == 104;
    assert SkippedLeapYears(104) == 66;
    assert MoonFactor(104) == 28;
    assert EpactSum(10336) == -7;
    assert CMod(-7, 30) == -7;
    assert SundayDeterminant(10336) == 12844;
    assert CalendarFullMoon(-7) == 51;
    assert SundayAfter(12844, 51) == 57;
    assert Epact(10336) == 23;
    assert CalendarFullMoon(23) == 21;
    assert SundayAfter(12844, 21) == 22;
  }
}
