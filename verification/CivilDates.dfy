/**
 Civil dates of the proleptic Gregorian calendar, and the day count that places them relative to
 1970-01-01.
 */
module CivilDates {

  datatype Civil = Civil(year: int, month: int, day: int)

  /** Division that rounds toward zero, and its remainder. */
  function TruncDiv(a: int, b: int): int
    requires b > 0
  {
    if a >= 0 then a / b else -(-a / b)
  }

  function TruncRem(a: int, b: int): int
    requires b > 0
  {
    a - TruncDiv(a, b) * b
  }

  predicate Leap(year: int) {
    (TruncRem(year, 4) == 0 && TruncRem(year, 100) != 0) || TruncRem(year, 400) == 0
  }

  function LastDay(year: int, month: int): int {
    if month == 2 then (if Leap(year) then 29 else 28)
    else if month == 4 || month == 6 || month == 9 || month == 11 then 30
    else 31
  }

  predicate ValidYmd(c: Civil) {
    1 <= c.month <= 12 && 1 <= c.day <= LastDay(c.year, c.month)
  }

  /** Day number by 400-year eras of years that begin in March. */
  function DaysFromCivil(c: Civil): int {
    var year := if c.month <= 2 then c.year - 1 else c.year;
    var era := TruncDiv(if year >= 0 then year else year - 399, 400);
    var yearOfEra := year - era * 400;
    var shiftedMonth := if c.month > 2 then c.month - 3 else c.month + 9;
    var dayOfYear := (153 * shiftedMonth + 2) / 5 + c.day - 1;
    var dayOfEra := yearOfEra * 365 + yearOfEra / 4 - yearOfEra / 100 + dayOfYear;
    era * 146097 + dayOfEra - 719468
  }

  // ----- The calendar, one day at a time -----

  function NextDay(c: Civil): Civil {
    if c.day < LastDay(c.year, c.month) then c.(day := c.day + 1)
    else if c.month < 12 then Civil(c.year, c.month + 1, 1)
    else Civil(c.year + 1, 1, 1)
  }

  function PreviousDay(c: Civil): Civil {
    if c.day > 1 then c.(day := c.day - 1)
    else if c.month > 1 then Civil(c.year, c.month - 1, LastDay(c.year, c.month - 1))
    else Civil(c.year - 1, 12, 31)
  }

  const EPOCH := Civil(1970, 1, 1)

  /** The date `n` days after (before, when negative) 1970-01-01. */
  function Calendar(n: int): (c: Civil)
    ensures ValidYmd(c)
    decreases if n < 0 then -n else n
  {
    if n == 0 then EPOCH else if n > 0 then NextDay(Calendar(n - 1)) else PreviousDay(Calendar(n + 1))
  }

  // ----- Years that begin in March -----

  /** Days before the March year `y`. */
  function YearStart(y: int): int {
    365 * y + y / 4 - y / 100 + y / 400
  }

  function MarchYear(c: Civil): int {
    if c.month <= 2 then c.year - 1 else c.year
  }

  function DayOfYear(c: Civil): int {
    (153 * (if c.month > 2 then c.month - 3 else c.month + 9) + 2) / 5 + c.day - 1
  }

  /** The day number without eras. */
  function Ordinal(c: Civil): int {
    YearStart(MarchYear(c)) + DayOfYear(c)
  }

  lemma LeapMeans(year: int)
    ensures Leap(year) <==> (year % 4 == 0 && year % 100 != 0) || year % 400 == 0
  {
  }

  lemma EraIsFloor(year: int)
    ensures TruncDiv(if year >= 0 then year else year - 399, 400) == year / 400
  {
  }

  lemma YearOfEra(year: int)
    ensures var era, yoe := year / 400, year % 400;
            era * 146097 + yoe * 365 + yoe / 4 - yoe / 100 == YearStart(year)
  {
    var era, yoe := year / 400, year % 400;
    assert year == 400 * era + yoe;
    assert year / 4 == 100 * era + yoe / 4 && year / 100 == 4 * era + yoe / 100;
  }

  lemma DaysByYear(c: Civil)
    ensures DaysFromCivil(c) == Ordinal(c) - 719468
  {
    EraIsFloor(MarchYear(c));
    YearOfEra(MarchYear(c));
  }

  lemma NextQuotient4(y: int)
    ensures (y + 1) / 4 == y / 4 + if (y + 1) % 4 == 0 then 1 else 0
  {
  }

  lemma NextQuotient100(y: int)
    ensures (y + 1) / 100 == y / 100 + if (y + 1) % 100 == 0 then 1 else 0
  {
  }

  lemma NextQuotient400(y: int)
    ensures (y + 1) / 400 == y / 400 + if (y + 1) % 400 == 0 then 1 else 0
  {
  }

  lemma NextYearStart(y: int)
    ensures YearStart(y + 1) == YearStart(y) + if Leap(y + 1) then 366 else 365
  {
    LeapMeans(y + 1);
    NextQuotient4(y);
    NextQuotient100(y);
    NextQuotient400(y);
  }

  lemma NextInYear(c: Civil)
    requires ValidYmd(c) && (c.month != 2 || c.day < LastDay(c.year, 2))
    ensures MarchYear(NextDay(c)) == MarchYear(c) && DayOfYear(NextDay(c)) == DayOfYear(c) + 1
  {
  }

  lemma FebruaryEnds(c: Civil)
    requires c.month == 2 && c.day == LastDay(c.year, 2)
    ensures NextDay(c) == Civil(c.year, 3, 1) && MarchYear(c) == c.year - 1 && MarchYear(NextDay(c)) == c.year
    ensures DayOfYear(c) == (if Leap(c.year) then 365 else 364) && DayOfYear(NextDay(c)) == 0
  {
  }

  lemma OrdinalSuccessor(c: Civil)
    requires ValidYmd(c)
    ensures ValidYmd(NextDay(c)) && Ordinal(NextDay(c)) == Ordinal(c) + 1
  {
    if c.month == 2 && c.day == LastDay(c.year, 2) {
      FebruaryEnds(c);
      NextYearStart(c.year - 1);
    } else {
      NextInYear(c);
    }
  }

  /** The day number grows by exactly one from each valid date to the next. */
  lemma Successor(c: Civil)
    requires ValidYmd(c)
    ensures ValidYmd(NextDay(c)) && DaysFromCivil(NextDay(c)) == DaysFromCivil(c) + 1
  {
    DaysByYear(c);
    DaysByYear(NextDay(c));
    OrdinalSuccessor(c);
  }

  lemma NextOfPrevious(c: Civil)
    requires ValidYmd(c)
    ensures ValidYmd(PreviousDay(c)) && NextDay(PreviousDay(c)) == c
  {
  }

  lemma Predecessor(c: Civil)
    requires ValidYmd(c)
    ensures DaysFromCivil(PreviousDay(c)) == DaysFromCivil(c) - 1
  {
    NextOfPrevious(c);
    Successor(PreviousDay(c));
  }

  lemma EpochIsZero()
    ensures DaysFromCivil(EPOCH) == 0
  {
  }

  lemma {:induction false} CountsUp(n: nat)
    ensures DaysFromCivil(Calendar(n)) == n
  {
    if n == 0 {
      EpochIsZero();
    } else {
      CountsUp(n - 1);
      Successor(Calendar(n - 1));
    }
  }

  lemma {:induction false} CountsDown(n: nat)
    ensures DaysFromCivil(Calendar(0 - n)) == 0 - n
  {
    if n == 0 {
      EpochIsZero();
    } else {
      CountsDown(n - 1);
      Predecessor(Calendar(1 - n));
    }
  }

  /** The day number counts the days of the calendar, in both directions. */
  lemma CalendarCounts(n: int)
    ensures DaysFromCivil(Calendar(n)) == n
  {
    if n >= 0 {
      CountsUp(n);
    } else {
      CountsDown(-n);
    }
  }

  // ----- The day number determines the date -----

  lemma DayOfYearFits(c: Civil)
    requires ValidYmd(c)
    ensures 0 <= DayOfYear(c) < YearStart(MarchYear(c) + 1) - YearStart(MarchYear(c))
  {
    NextYearStart(MarchYear(c));
  }

  lemma {:induction false} YearStartGrows(y: int, z: int)
    requires y <= z
    ensures YearStart(y) <= YearStart(z)
    decreases z - y
  {
    if y < z {
      NextYearStart(y);
      YearStartGrows(y + 1, z);
    }
  }

  lemma SameYear(a: Civil, b: Civil)
    requires ValidYmd(a) && ValidYmd(b) && Ordinal(a) == Ordinal(b)
    ensures MarchYear(a) == MarchYear(b)
  {
    DayOfYearFits(a);
    DayOfYearFits(b);
    if MarchYear(a) < MarchYear(b) {
      YearStartGrows(MarchYear(a) + 1, MarchYear(b));
    } else if MarchYear(b) < MarchYear(a) {
      YearStartGrows(MarchYear(b) + 1, MarchYear(a));
    }
  }

  lemma SameDay(a: Civil, b: Civil)
    requires ValidYmd(a) && ValidYmd(b) && MarchYear(a) == MarchYear(b) && DayOfYear(a) == DayOfYear(b)
    ensures a == b
  {
  }

  lemma DaysDetermineDate(a: Civil, b: Civil)
    requires ValidYmd(a) && ValidYmd(b) && DaysFromCivil(a) == DaysFromCivil(b)
    ensures a == b
  {
    DaysByYear(a);
    DaysByYear(b);
    SameYear(a, b);
    SameDay(a, b);
  }

  /** The calendar inverts the day number. */
  lemma CalendarInverts(c: Civil)
    requires ValidYmd(c)
    ensures Calendar(DaysFromCivil(c)) == c
  {
    CalendarCounts(DaysFromCivil(c));
    DaysDetermineDate(Calendar(DaysFromCivil(c)), c);
  }

  // ----- Ranges of years -----

  lemma {:induction false} YearsGrow(n: int, m: int)
    requires n <= m
    ensures Calendar(n).year <= Calendar(m).year
    decreases m - n
  {
    if n < m {
      YearsGrow(n, m - 1);
      if m <= 0 {
        NextOfPrevious(Calendar(m));
        assert Calendar(m - 1) == PreviousDay(Calendar(m));
      }
    }
  }

  lemma YearAtLeast(n: int, year: int)
    ensures year <= Calendar(n).year <==> DaysFromCivil(Civil(year, 1, 1)) <= n
  {
    var first, before := Civil(year, 1, 1), Civil(year - 1, 12, 31);
    Successor(before);
    if DaysFromCivil(first) <= n {
      CalendarInverts(first);
      YearsGrow(DaysFromCivil(first), n);
    } else {
      CalendarInverts(before);
      YearsGrow(n, DaysFromCivil(before));
    }
  }

  /** A day number lies within whole years exactly when its date does. */
  lemma YearRange(n: int, first: int, last: int)
    ensures first <= Calendar(n).year <= last
       <==> DaysFromCivil(Civil(first, 1, 1)) <= n <= DaysFromCivil(Civil(last, 12, 31))
  {
    YearAtLeast(n, first);
    YearAtLeast(n, last + 1);
    Successor(Civil(last, 12, 31));
  }
}
