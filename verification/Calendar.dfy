/** The proleptic Gregorian calendar and instants of UTC time in microseconds. */
module Calendar {
  const MICROS_PER_MINUTE: int := 60_000_000
  const MICROS_PER_DAY: int := 86_400_000_000

  predicate LeapYear(year: int) {
    year % 4 == 0 && (year % 100 != 0 || year % 400 == 0)
  }

  function DaysInMonth(year: int, month: int): (d: int)
    ensures 28 <= d <= 31
  {
    if month == 2 then if LeapYear(year) then 29 else 28
    else if month == 4 || month == 6 || month == 9 || month == 11 then 30
    else 31
  }

  datatype Date = Date(year: int, month: int, day: int)

  predicate ValidDate(d: Date) {
    1 <= d.month <= 12 && 1 <= d.day <= DaysInMonth(d.year, d.month)
  }

  function DaysBeforeYear(year: int): int {
    365 * (year - 1) + (year - 1) / 4 - (year - 1) / 100 + (year - 1) / 400
  }

  function DaysBeforeMonth(year: int, month: int): int
    decreases month
  {
    if month <= 1 then 0 else DaysBeforeMonth(year, month - 1) + DaysInMonth(year, month - 1)
  }

  // Day number with 1 January of year 1 as day 1.
  function Ordinal(d: Date): int {
    DaysBeforeYear(d.year) + DaysBeforeMonth(d.year, d.month) + d.day
  }

  // Monday is 0.
  function Weekday(d: Date): (w: int)
    ensures 0 <= w < 7
  {
    (Ordinal(d) + 6) % 7
  }

  function NextDay(d: Date): Date {
    if d.day < DaysInMonth(d.year, d.month) then d.(day := d.day + 1)
    else if d.month < 12 then Date(d.year, d.month + 1, 1)
    else Date(d.year + 1, 1, 1)
  }

  function AddDays(d: Date, n: nat): Date {
    if n == 0 then d else NextDay(AddDays(d, n - 1))
  }

  // ------------------------------------------------------------- ordinals

  lemma {:induction false} YearLength(year: int)
    ensures DaysBeforeYear(year + 1) == DaysBeforeYear(year) + 365 + if LeapYear(year) then 1 else 0
  {
    assert year / 4 == (year - 1) / 4 + if year % 4 == 0 then 1 else 0;
    assert year / 100 == (year - 1) / 100 + if year % 100 == 0 then 1 else 0;
    assert year / 400 == (year - 1) / 400 + if year % 400 == 0 then 1 else 0;
  }

  lemma MonthsOfYear(year: int)
    ensures DaysBeforeMonth(year, 12) + 31 == 365 + if LeapYear(year) then 1 else 0
  {
    assert DaysBeforeMonth(year, 2) == 31;
    assert DaysBeforeMonth(year, 3) == 31 + DaysInMonth(year, 2);
    assert DaysBeforeMonth(year, 4) == DaysBeforeMonth(year, 3) + 31;
    assert DaysBeforeMonth(year, 5) == DaysBeforeMonth(year, 4) + 30;
    assert DaysBeforeMonth(year, 6) == DaysBeforeMonth(year, 5) + 31;
    assert DaysBeforeMonth(year, 7) == DaysBeforeMonth(year, 6) + 30;
    assert DaysBeforeMonth(year, 8) == DaysBeforeMonth(year, 7) + 31;
    assert DaysBeforeMonth(year, 9) == DaysBeforeMonth(year, 8) + 31;
    assert DaysBeforeMonth(year, 10) == DaysBeforeMonth(year, 9) + 30;
    assert DaysBeforeMonth(year, 11) == DaysBeforeMonth(year, 10) + 31;
    assert DaysBeforeMonth(year, 12) == DaysBeforeMonth(year, 11) + 30;
  }

  lemma {:induction false} NextDayIsNext(d: Date)
    requires ValidDate(d)
    ensures ValidDate(NextDay(d)) && Ordinal(NextDay(d)) == Ordinal(d) + 1
  {
    if d.day == DaysInMonth(d.year, d.month) && d.month == 12 {
      hide DaysBeforeYear;
      YearLength(d.year);
      MonthsOfYear(d.year);
    }
  }

  lemma {:induction false} AddDaysIsSum(d: Date, n: nat)
    requires ValidDate(d)
    ensures ValidDate(AddDays(d, n)) && Ordinal(AddDays(d, n)) == Ordinal(d) + n
  {
    if n > 0 {
      AddDaysIsSum(d, n - 1);
      NextDayIsNext(AddDays(d, n - 1));
    }
  }

  // 1 January 2024 is a Monday, and each day is followed by the next day of the week.
  lemma WeekdaysFollow(d: Date)
    requires ValidDate(d)
    ensures Weekday(Date(2024, 1, 1)) == 0
    ensures Weekday(NextDay(d)) == (Weekday(d) + 1) % 7
  {
    hide Ordinal, NextDay, ValidDate;
    NextDayIsNext(d);
    NewYear2024();
  }

  lemma NewYear2024()
    ensures Ordinal(Date(2024, 1, 1)) == 738_886
  {
    assert DaysBeforeMonth(2024, 1) == 0;
  }

  // The lengths of the months, and the leap years among the turns of centuries.
  lemma MonthLengths(year: int, month: int)
    requires 1 <= month <= 12
    ensures DaysInMonth(year, month) == 31 <==> month in {1, 3, 5, 7, 8, 10, 12}
    ensures DaysInMonth(year, month) == 30 <==> month in {4, 6, 9, 11}
    ensures DaysInMonth(2024, 2) == 29 && DaysInMonth(2023, 2) == 28 && DaysInMonth(2000, 2) == 29 && DaysInMonth(1900, 2) == 28
    ensures LeapYear(year) <==> LeapYear(year + 400)
    ensures year % 100 != 0 && (year + 4) % 100 != 0 ==> (LeapYear(year) <==> LeapYear(year + 4))
  {
  }

  // ------------------------------------------------------------ date order

  predicate Earlier(a: Date, b: Date) {
    a.year < b.year || (a.year == b.year && (a.month < b.month || (a.month == b.month && a.day < b.day)))
  }

  // Months counted from year 0.
  function MonthIndex(d: Date): int { 12 * d.year + d.month - 1 }

  function FirstOfMonth(index: int): Date { Date(index / 12, index % 12 + 1, 1) }

  lemma {:induction false} MonthStarts(index: int)
    ensures ValidDate(FirstOfMonth(index))
    ensures Ordinal(FirstOfMonth(index + 1)) ==
            Ordinal(FirstOfMonth(index)) + DaysInMonth(FirstOfMonth(index).year, FirstOfMonth(index).month)
  {
    var first := FirstOfMonth(index);
    var last := first.(day := DaysInMonth(first.year, first.month));
    NextDayIsNext(last);
    assert NextDay(last) == FirstOfMonth(index + 1);
  }

  lemma {:induction false} LaterMonthStartsLater(index: int, more: nat)
    ensures Ordinal(FirstOfMonth(index)) <= Ordinal(FirstOfMonth(index + more))
  {
    if more > 0 {
      LaterMonthStartsLater(index, more - 1);
      MonthStarts(index + more - 1);
    }
  }

  lemma FirstOfItsMonth(d: Date)
    requires ValidDate(d)
    ensures FirstOfMonth(MonthIndex(d)) == d.(day := 1)
    ensures Ordinal(d) == Ordinal(d.(day := 1)) + d.day - 1
  {
    assert MonthIndex(d) / 12 == d.year && MonthIndex(d) % 12 == d.month - 1;
  }

  // Day numbers order valid dates as year, month and day do.
  lemma OrdinalIsMonotone(a: Date, b: Date)
    requires ValidDate(a) && ValidDate(b)
    ensures Earlier(a, b) <==> Ordinal(a) < Ordinal(b)
  {
    if Earlier(a, b) {
      EarlierHasSmallerOrdinal(a, b);
    } else if Earlier(b, a) {
      EarlierHasSmallerOrdinal(b, a);
    } else {
      assert a == b;
    }
  }

  lemma EarlierHasSmallerOrdinal(a: Date, b: Date)
    requires ValidDate(a) && ValidDate(b) && Earlier(a, b)
    ensures Ordinal(a) < Ordinal(b)
  {
    hide Ordinal;
    FirstOfItsMonth(a);
    FirstOfItsMonth(b);
    var i, j := MonthIndex(a), MonthIndex(b);
    if i != j {
      assert i < j;
      MonthStarts(i);
      LaterMonthStartsLater(i + 1, j - (i + 1));
    }
  }

  // -------------------------------------------------------------- instants

  datatype DateTime = DateTime(date: Date, micro: int)

  predicate ValidTime(t: DateTime) {
    ValidDate(t.date) && 0 <= t.micro < MICROS_PER_DAY
  }

  function Instant(t: DateTime): int {
    Ordinal(t.date) * MICROS_PER_DAY + t.micro
  }

  lemma InstantOrder(a: DateTime, b: DateTime)
    requires ValidTime(a) && ValidTime(b)
    ensures Instant(a) < Instant(b) <==>
            Ordinal(a.date) < Ordinal(b.date) || (Ordinal(a.date) == Ordinal(b.date) && a.micro < b.micro)
  {
  }
}
