/** When a scheduled report runs next. */
module Scheduling {
  import opened Prelude
  import opened Calendar

  // A schedule entry as stored: absent, usable as a number, or not.
  datatype Field = Missing | Number(n: int) | Unusable

  datatype Frequency = Daily | Weekly | Monthly | Unsupported

  datatype Schedule = Schedule(frequency: Frequency, hour: Field, minute: Field, dayOfWeek: Field, dayOfMonth: Field)

  function Clamp(f: Field, low: int, high: int, default: int): (v: int)
    requires low <= default <= high
    ensures low <= v <= high
    ensures f.Number? && low <= f.n <= high ==> v == f.n
  {
    match f
    case Number(n) => if n < low then low else if n > high then high else n
    case _ => default
  }

  function TimeOfDay(s: Schedule): (micro: int)
    ensures 0 <= micro < MICROS_PER_DAY
  {
    (Clamp(s.hour, 0, 23, 6) * 60 + Clamp(s.minute, 0, 59, 0)) * MICROS_PER_MINUTE
  }

  // Comparison of datetimes field by field.
  predicate AtOrBefore(a: DateTime, b: DateTime) {
    Earlier(a.date, b.date) || (a.date == b.date && a.micro <= b.micro)
  }

  function NextMonth(d: Date): Date {
    if d.month == 12 then Date(d.year + 1, 1, d.day) else d.(month := d.month + 1)
  }

  // The next run after `base`, or none when there is no usable schedule.
  function ComputeNextRun(schedule: Option<Schedule>, base: DateTime): Option<DateTime> {
    if schedule.None? || schedule.value.frequency.Unsupported? then None
    else
      var s := schedule.value;
      match s.frequency
      case Daily =>
        var candidate := base.(micro := TimeOfDay(s));
        Some(if AtOrBefore(candidate, base) then candidate.(date := AddDays(candidate.date, 1)) else candidate)
      case Weekly =>
        var day := Clamp(s.dayOfWeek, 0, 6, 0);
        var candidate := DateTime(AddDays(base.date, (day - Weekday(base.date)) % 7), TimeOfDay(s));
        Some(if AtOrBefore(candidate, base) then candidate.(date := AddDays(candidate.date, 7)) else candidate)
      case Monthly =>
        var candidate := DateTime(base.date.(day := Clamp(s.dayOfMonth, 1, 28, 1)), TimeOfDay(s));
        Some(if AtOrBefore(candidate, base) then candidate.(date := NextMonth(candidate.date)) else candidate)
  }

  // ------------------------------------------------------ what a slot is

  // The instants a schedule names.
  ghost predicate Slot(s: Schedule, t: DateTime) {
    && ValidTime(t)
    && !s.frequency.Unsupported?
    && t.micro == TimeOfDay(s)
    && (s.frequency.Weekly? ==> Weekday(t.date) == Clamp(s.dayOfWeek, 0, 6, 0))
    && (s.frequency.Monthly? ==> t.date.day == Clamp(s.dayOfMonth, 1, 28, 1))
  }

  ghost predicate FirstSlotAfter(s: Schedule, base: DateTime, r: DateTime) {
    && Slot(s, r) && Instant(base) < Instant(r)
    && forall t :: Slot(s, t) && Instant(base) < Instant(t) ==> Instant(r) <= Instant(t)
  }

  lemma FieldOrderIsInstantOrder(a: DateTime, b: DateTime)
    requires ValidTime(a) && ValidTime(b)
    ensures AtOrBefore(a, b) <==> Instant(a) <= Instant(b)
  {
    hide Ordinal;
    OrdinalIsMonotone(a.date, b.date);
    OrdinalIsMonotone(b.date, a.date);
    InstantOrder(a, b);
    InstantOrder(b, a);
    if !Earlier(a.date, b.date) && !Earlier(b.date, a.date) {
      assert a.date == b.date;
    }
  }

  lemma InstantIsInjective(a: DateTime, b: DateTime)
    requires ValidTime(a) && ValidTime(b) && Instant(a) == Instant(b)
    ensures a == b
  {
    FieldOrderIsInstantOrder(a, b);
    FieldOrderIsInstantOrder(b, a);
  }

  lemma {:induction false} DailyIsFirst(s: Schedule, base: DateTime)
    requires ValidTime(base) && s.frequency.Daily?
    ensures FirstSlotAfter(s, base, ComputeNextRun(Some(s), base).value)
  {
    hide Ordinal, TimeOfDay;
    var candidate := base.(micro := TimeOfDay(s));
    FieldOrderIsInstantOrder(candidate, base);
    AddDaysIsSum(base.date, 1);
    var r := ComputeNextRun(Some(s), base).value;
    forall t | Slot(s, t) && Instant(base) < Instant(t) ensures Instant(r) <= Instant(t) {
    }
  }

  lemma WeekdayReached(o: int, day: int)
    requires 0 <= day < 7
    ensures var delta := (day - (o + 6) % 7) % 7; 0 <= delta < 7 && (o + delta + 6) % 7 == day
  {
  }

  lemma SameWeekday(x: int, y: int)
    requires (x + 6) % 7 == (y + 6) % 7
    ensures x < y ==> x + 7 <= y
  {
  }

  lemma {:induction false} WeeklyIsFirst(s: Schedule, base: DateTime)
    requires ValidTime(base) && s.frequency.Weekly?
    ensures FirstSlotAfter(s, base, ComputeNextRun(Some(s), base).value)
  {
    hide Ordinal, TimeOfDay;
    var day := Clamp(s.dayOfWeek, 0, 6, 0);
    var delta := (day - Weekday(base.date)) % 7;
    WeekdayReached(Ordinal(base.date), day);
    AddDaysIsSum(base.date, delta);
    var candidate := DateTime(AddDays(base.date, delta), TimeOfDay(s));
    AddDaysIsSum(candidate.date, 7);
    FieldOrderIsInstantOrder(candidate, base);
    var r := ComputeNextRun(Some(s), base).value;
    assert Slot(s, candidate) && Slot(s, r);
    forall t | Slot(s, t) && Instant(base) < Instant(t) ensures Instant(r) <= Instant(t) {
      SameWeekday(Ordinal(t.date), Ordinal(candidate.date));
      SameWeekday(Ordinal(candidate.date), Ordinal(t.date));
    }
  }

  lemma NextMonthIsLater(d: Date)
    requires ValidDate(d) && d.day <= 28
    ensures ValidDate(NextMonth(d)) && Earlier(d, NextMonth(d)) && MonthIndex(NextMonth(d)) == MonthIndex(d) + 1
  {
  }

  // Of two dates with the same day of month the earlier one is in an earlier month.
  lemma MonthlyOrder(a: Date, b: Date)
    requires ValidDate(a) && ValidDate(b)
    ensures MonthIndex(a) < MonthIndex(b) ==> Earlier(a, b)
    ensures MonthIndex(a) == MonthIndex(b) && a.day == b.day ==> a == b
  {
  }

  lemma MonthlyIsFirst(s: Schedule, base: DateTime)
    requires ValidTime(base) && s.frequency.Monthly?
    ensures FirstSlotAfter(s, base, ComputeNextRun(Some(s), base).value)
  {
    hide Instant, TimeOfDay;
    var candidate := DateTime(base.date.(day := Clamp(s.dayOfMonth, 1, 28, 1)), TimeOfDay(s));
    FieldOrderIsInstantOrder(candidate, base);
    NextMonthIsLater(candidate.date);
    var r := ComputeNextRun(Some(s), base).value;
    assert Slot(s, r);
    FieldOrderIsInstantOrder(r, base);
    forall t | Slot(s, t) && Instant(base) < Instant(t) ensures Instant(r) <= Instant(t) {
      FieldOrderIsInstantOrder(t, base);
      FieldOrderIsInstantOrder(r, t);
      MonthlyOrder(t.date, base.date);
      MonthlyOrder(r.date, t.date);
      MonthlyOrder(t.date, candidate.date);
      MonthlyOrder(t.date, r.date);
    }
  }

  // ---------------------------------------------------------- main results

  // The next run is the first scheduled instant strictly after the given one;
  // there is none exactly when no supported frequency is set.
  lemma NextRunIsFirstSlot(schedule: Option<Schedule>, base: DateTime)
    requires ValidTime(base)
    ensures ComputeNextRun(schedule, base).None? <==> schedule.None? || schedule.value.frequency.Unsupported?
    ensures ComputeNextRun(schedule, base).Some? ==>
              FirstSlotAfter(schedule.value, base, ComputeNextRun(schedule, base).value)
  {
    if schedule.Some? {
      match schedule.value.frequency
      case Daily => DailyIsFirst(schedule.value, base);
      case Weekly => WeeklyIsFirst(schedule.value, base);
      case Monthly => MonthlyIsFirst(schedule.value, base);
      case Unsupported =>
    }
  }

  // Later queries never give earlier runs, and all queries between two slots agree.
  lemma NextRunIsMonotone(schedule: Option<Schedule>, a: DateTime, b: DateTime)
    requires ValidTime(a) && ValidTime(b) && Instant(a) <= Instant(b) && ComputeNextRun(schedule, a).Some?
    ensures ComputeNextRun(schedule, b).Some?
    ensures Instant(ComputeNextRun(schedule, a).value) <= Instant(ComputeNextRun(schedule, b).value)
    ensures Instant(b) < Instant(ComputeNextRun(schedule, a).value)
       <==> ComputeNextRun(schedule, b) == ComputeNextRun(schedule, a)
  {
    hide Instant, ComputeNextRun;
    NextRunIsFirstSlot(schedule, a);
    NextRunIsFirstSlot(schedule, b);
    var ra, rb := ComputeNextRun(schedule, a).value, ComputeNextRun(schedule, b).value;
    if Instant(b) < Instant(ra) {
      InstantIsInjective(ra, rb);
    }
  }

  // The hour and the minute of the next run are the ones stored, held within the day, or
  // 6:00 where they are missing or unusable; seconds are zero.
  lemma NextRunHour(s: Schedule, base: DateTime)
    requires ValidTime(base) && ComputeNextRun(Some(s), base).Some?
    ensures var micro := ComputeNextRun(Some(s), base).value.micro;
            && micro % 60_000_000 == 0
            && micro / 3_600_000_000
               == (if s.hour.Number? then if s.hour.n < 0 then 0 else if s.hour.n > 23 then 23 else s.hour.n else 6)
            && micro / 60_000_000 % 60
               == (if s.minute.Number? then if s.minute.n < 0 then 0 else if s.minute.n > 59 then 59 else s.minute.n else 0)
  {
    hide AddDays, Weekday, AtOrBefore, ValidTime;
    var h, m := Clamp(s.hour, 0, 23, 6), Clamp(s.minute, 0, 59, 0);
    TimeParts(h, m);
  }

  lemma TimeParts(h: int, m: int)
    requires 0 <= h < 24 && 0 <= m < 60
    ensures var t := (h * 60 + m) * 60_000_000;
            t % 60_000_000 == 0 && t / 3_600_000_000 == h && t / 60_000_000 % 60 == m
  {
  }

  // The day of the next run: the stored day of the week, Monday being 0 and the default,
  // or the stored day of the month, held within 1 to 28, the first being the default.
  lemma NextRunDay(s: Schedule, base: DateTime)
    requires ValidTime(base) && ComputeNextRun(Some(s), base).Some?
    ensures var date := ComputeNextRun(Some(s), base).value.date;
            var weekday := if s.dayOfWeek.Number? then if s.dayOfWeek.n < 0 then 0 else if s.dayOfWeek.n > 6 then 6 else s.dayOfWeek.n else 0;
            var day := if s.dayOfMonth.Number? then if s.dayOfMonth.n < 1 then 1 else if s.dayOfMonth.n > 28 then 28 else s.dayOfMonth.n else 1;
            (s.frequency.Weekly? ==> Weekday(date) == weekday) && (s.frequency.Monthly? ==> date.day == day)
  {
    hide ComputeNextRun, Instant, Weekday;
    NextRunIsFirstSlot(Some(s), base);
  }

  // A daily run is at most a day away, a weekly one at most seven days, a monthly one at
  // most in the month after.
  lemma NextRunIsNear(s: Schedule, base: DateTime)
    requires ValidTime(base) && ComputeNextRun(Some(s), base).Some?
    ensures var r := ComputeNextRun(Some(s), base).value;
            && (s.frequency.Daily? ==> Instant(r) <= Instant(base) + MICROS_PER_DAY)
            && (s.frequency.Weekly? ==> Instant(r) <= Instant(base) + 7 * MICROS_PER_DAY)
            && (s.frequency.Monthly? ==> MonthIndex(r.date) <= MonthIndex(base.date) + 1)
  {
    hide Ordinal, TimeOfDay, Weekday;
    var candidate := base.(micro := TimeOfDay(s));
    if s.frequency.Daily? {
      FieldOrderIsInstantOrder(candidate, base);
      AddDaysIsSum(base.date, 1);
    } else if s.frequency.Weekly? {
      var delta := (Clamp(s.dayOfWeek, 0, 6, 0) - Weekday(base.date)) % 7;
      AddDaysIsSum(base.date, delta);
      candidate := DateTime(AddDays(base.date, delta), TimeOfDay(s));
      AddDaysIsSum(candidate.date, 7);
      FieldOrderIsInstantOrder(candidate, base);
    }
  }
}
