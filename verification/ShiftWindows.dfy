/**
 Shift assignments: date windows given as ISO date strings, compared as strings,
 and the rule that one employee's active windows share no day.
 */
module ShiftWindows {
  import opened Prelude
  import opened Calendar
  import Lexicographic

  // -------------------------------------------------------- dates as strings

  predicate Digits(s: string) {
    forall i :: 0 <= i < |s| ==> '0' <= s[i] <= '9'
  }

  function Value(s: string): (v: int)
    requires Digits(s)
  {
    if s == "" then 0 else 10 * Value(s[..|s| - 1]) + (s[|s| - 1] as int - '0' as int)
  }

  // Four digits, two digits, two digits, and a day that exists.
  function ParseDate(s: string): Option<Date> {
    if |s| == 10 && s[4] == '-' && s[7] == '-' && Digits(s[..4]) && Digits(s[5..7]) && Digits(s[8..]) then
      var d := Date(Value(s[..4]), Value(s[5..7]), Value(s[8..]));
      if ValidDate(d) then Some(d) else None
    else None
  }

  // Strings of equal length are ordered by their first parts unless these agree.
  lemma {:induction false} OrderByParts(a: string, x: string, b: string, y: string)
    requires |a| == |b|
    ensures Lexicographic.Leq(a + x, b + y) <==> if a == b then Lexicographic.Leq(x, y) else Lexicographic.Leq(a, b)
  {
    if a == "" {
      assert a + x == x && b + y == y;
    } else {
      assert (a + x)[1..] == a[1..] + x && (b + y)[1..] == b[1..] + y;
      assert a == [a[0]] + a[1..] && b == [b[0]] + b[1..];
      if a[0] == b[0] {
        OrderByParts(a[1..], x, b[1..], y);
      }
    }
  }

  lemma {:induction false} DigitsOrder(a: string, b: string)
    requires |a| == |b| && Digits(a) && Digits(b)
    ensures Lexicographic.Leq(a, b) <==> Value(a) <= Value(b)
    ensures a == b <==> Value(a) == Value(b)
  {
    if a != "" {
      var n := |a| - 1;
      var x, y := a[..n], b[..n];
      DigitsOrder(x, y);
      assert a == x + [a[n]] && b == y + [b[n]];
      OrderByParts(x, [a[n]], y, [b[n]]);
    }
  }

  // Comparing valid date strings compares the dates.
  lemma DateStringsOrder(s: string, t: string)
    requires ParseDate(s).Some? && ParseDate(t).Some?
    ensures Lexicographic.Less(s, t) <==> Earlier(ParseDate(s).value, ParseDate(t).value)
  {
    hide ValidDate;
    DigitsOrder(s[..4], t[..4]);
    DigitsOrder(s[5..7], t[5..7]);
    DigitsOrder(s[8..], t[8..]);
    assert s == s[..4] + ("-" + (s[5..7] + ("-" + s[8..])));
    assert t == t[..4] + ("-" + (t[5..7] + ("-" + t[8..])));
    OrderByParts(s[..4], "-" + (s[5..7] + ("-" + s[8..])), t[..4], "-" + (t[5..7] + ("-" + t[8..])));
    OrderByParts("-", s[5..7] + ("-" + s[8..]), "-", t[5..7] + ("-" + t[8..]));
    OrderByParts(s[5..7], "-" + s[8..], t[5..7], "-" + t[8..]);
    OrderByParts("-", s[8..], "-", t[8..]);
  }

  // ---------------------------------------------------------------- windows

  // An empty end leaves the window open.
  predicate RangesOverlap(startA: string, endA: string, startB: string, endB: string) {
    if endA != "" && Lexicographic.Less(endA, startB) then false
    else if endB != "" && Lexicographic.Less(endB, startA) then false
    else true
  }

  predicate ValidWindow(start: string, end: string) {
    && ParseDate(start).Some?
    && (end != "" ==> ParseDate(end).Some? && !Lexicographic.Less(end, start))
  }

  // The days of a window, by day number.
  predicate Covers(start: string, end: string, day: int)
    requires ValidWindow(start, end)
  {
    Ordinal(ParseDate(start).value) <= day && (end != "" ==> day <= Ordinal(ParseDate(end).value))
  }

  lemma StringsAndDays(s: string, t: string)
    requires ParseDate(s).Some? && ParseDate(t).Some?
    ensures Lexicographic.Less(s, t) <==> Ordinal(ParseDate(s).value) < Ordinal(ParseDate(t).value)
  {
    DateStringsOrder(s, t);
    OrdinalIsMonotone(ParseDate(s).value, ParseDate(t).value);
  }

  ghost predicate ShareDay(startA: string, endA: string, startB: string, endB: string)
    requires ValidWindow(startA, endA) && ValidWindow(startB, endB)
  {
    exists day :: Covers(startA, endA, day) && Covers(startB, endB, day)
  }

  // The overlap test says exactly whether the windows share a day.
  lemma OverlapIsSharedDay(startA: string, endA: string, startB: string, endB: string)
    requires ValidWindow(startA, endA) && ValidWindow(startB, endB)
    ensures RangesOverlap(startA, endA, startB, endB) <==> ShareDay(startA, endA, startB, endB)
  {
    hide ParseDate, Ordinal, Lexicographic.Leq;
    StringsAndDays(startA, startB);
    if endA != "" {
      StringsAndDays(endA, startB);
      StringsAndDays(endA, startA);
    }
    if endB != "" {
      StringsAndDays(endB, startA);
      StringsAndDays(endB, startB);
    }
    var a, b := Ordinal(ParseDate(startA).value), Ordinal(ParseDate(startB).value);
    var later := if a < b then b else a;
    if RangesOverlap(startA, endA, startB, endB) {
      assert Covers(startA, endA, later) && Covers(startB, endB, later);
    }
  }

  // ------------------------------------------------------------ assignments

  datatype Assignment = Assignment(tenant: string, employee: string, shift: int, start: string, end: string, active: bool)

  datatype Response = Created | BadRequest | ShiftNotFound | Overlapping

  predicate SameActive(row: Assignment, tenant: string, employee: string) {
    row.tenant == tenant && row.employee == employee && row.active
  }

  ghost predicate Clashes(rows: seq<Assignment>, r: Assignment) {
    exists i :: 0 <= i < |rows| && SameActive(rows[i], r.tenant, r.employee)
                && RangesOverlap(rows[i].start, rows[i].end, r.start, r.end)
  }

  // `blank` says whether an employee id is empty after trimming; `shifts` are the tenant's shift ids.
  ghost function AfterAssign(blank: string -> bool, shifts: set<(string, int)>, rows: seq<Assignment>, r: Assignment)
    : (seq<Assignment>, Response)
  {
    if blank(r.employee) || !ValidWindow(r.start, r.end) then (rows, BadRequest)
    else if (r.tenant, r.shift) !in shifts then (rows, ShiftNotFound)
    else if Clashes(rows, r) then (rows, Overlapping)
    else (rows + [r], Created)
  }

  class AssignmentTable {
    const blank: string -> bool
    var shifts: set<(string, int)>
    var rows: seq<Assignment>

    constructor (blank: string -> bool, shifts: set<(string, int)>)
      ensures this.blank == blank && this.shifts == shifts && rows == []
    {
      this.blank, this.shifts, rows := blank, shifts, [];
    }

    method AssignEmployeeShift(r: Assignment) returns (response: Response)
      modifies this`rows
      ensures (rows, response) == AfterAssign(blank, shifts, old(rows), r)
    {
      if blank(r.employee) || ParseDate(r.start).None? {
        return BadRequest;
      }
      if r.end != "" {
        if ParseDate(r.end).None? || Lexicographic.Less(r.end, r.start) {
          return BadRequest;
        }
      }
      if (r.tenant, r.shift) !in shifts {
        return ShiftNotFound;
      }
      for i := 0 to |rows|
        invariant rows == old(rows)
        invariant forall j :: 0 <= j < i && SameActive(rows[j], r.tenant, r.employee)
                    ==> !RangesOverlap(rows[j].start, rows[j].end, r.start, r.end)
      {
        if SameActive(rows[i], r.tenant, r.employee) && RangesOverlap(rows[i].start, rows[i].end, r.start, r.end) {
          return Overlapping;
        }
      }
      rows := rows + [r];
      return Created;
    }
  }

  // One employee's active windows are pairwise without a common day.
  ghost predicate NoDoubleBooking(rows: seq<Assignment>) {
    && (forall i :: 0 <= i < |rows| ==> ValidWindow(rows[i].start, rows[i].end))
    && (forall i, j :: 0 <= i < j < |rows| && rows[i].active && SameActive(rows[j], rows[i].tenant, rows[i].employee)
          ==> !ShareDay(rows[i].start, rows[i].end, rows[j].start, rows[j].end))
  }

  ghost function Run(blank: string -> bool, shifts: set<(string, int)>, requests: seq<Assignment>): seq<Assignment> {
    if requests == [] then []
    else AfterAssign(blank, shifts, Run(blank, shifts, requests[..|requests| - 1]), requests[|requests| - 1]).0
  }

  lemma {:induction false} AssignKeepsNoDoubleBooking(blank: string -> bool, shifts: set<(string, int)>, rows: seq<Assignment>, r: Assignment)
    requires NoDoubleBooking(rows)
    ensures NoDoubleBooking(AfterAssign(blank, shifts, rows, r).0)
  {
    hide ValidWindow, RangesOverlap, ShareDay;
    if AfterAssign(blank, shifts, rows, r).1.Created? {
      forall i | 0 <= i < |rows| && SameActive(rows[i], r.tenant, r.employee)
        ensures !ShareDay(rows[i].start, rows[i].end, r.start, r.end)
      {
        OverlapIsSharedDay(rows[i].start, rows[i].end, r.start, r.end);
      }
    }
  }

  // No run of assignment requests double-books anybody.
  lemma {:induction false} RunsNeverDoubleBook(blank: string -> bool, shifts: set<(string, int)>, requests: seq<Assignment>)
    ensures NoDoubleBooking(Run(blank, shifts, requests))
  {
    if requests != [] {
      RunsNeverDoubleBook(blank, shifts, requests[..|requests| - 1]);
      AssignKeepsNoDoubleBooking(blank, shifts, Run(blank, shifts, requests[..|requests| - 1]), requests[|requests| - 1]);
    }
  }

  // The test turns away nothing else: a well-formed request for a known shift is
  // refused only if it shares a day with an active window of the same employee.
  lemma {:induction false} RefusedOnlyIfShared(blank: string -> bool, shifts: set<(string, int)>, rows: seq<Assignment>, r: Assignment)
    requires NoDoubleBooking(rows) && !blank(r.employee) && ValidWindow(r.start, r.end) && (r.tenant, r.shift) in shifts
    ensures AfterAssign(blank, shifts, rows, r).1 == Overlapping <==>
            exists i :: 0 <= i < |rows| && SameActive(rows[i], r.tenant, r.employee)
                        && ShareDay(rows[i].start, rows[i].end, r.start, r.end)
  {
    hide ValidWindow, RangesOverlap, ShareDay;
    forall i | 0 <= i < |rows|
      ensures RangesOverlap(rows[i].start, rows[i].end, r.start, r.end)
         <==> ShareDay(rows[i].start, rows[i].end, r.start, r.end)
    {
      OverlapIsSharedDay(rows[i].start, rows[i].end, r.start, r.end);
    }
  }

  // Which answer a request gets, and what it leaves.
  lemma AssignDecides(blank: string -> bool, shifts: set<(string, int)>, rows: seq<Assignment>, r: Assignment)
    ensures var (after, response) := AfterAssign(blank, shifts, rows, r);
            var wellFormed := !blank(r.employee) && ValidWindow(r.start, r.end);
            && (response == BadRequest <==> !wellFormed)
            && (response == ShiftNotFound <==> wellFormed && (r.tenant, r.shift) !in shifts)
            && (response != Created ==> after == rows)
            && (response == Created ==> |after| == |rows| + 1 && after[..|rows|] == rows && wellFormed && (r.tenant, r.shift) in shifts)
  {
    hide ValidWindow;
  }

  // After Created the employee has a window for that shift, active if the request said so,
  // that covers exactly the days requested.
  lemma {:induction false} CreatedCoversRequest(blank: string -> bool, shifts: set<(string, int)>, rows: seq<Assignment>, r: Assignment, day: int)
    requires AfterAssign(blank, shifts, rows, r).1 == Created
    ensures ValidWindow(r.start, r.end)
    ensures var after := AfterAssign(blank, shifts, rows, r).0;
            var last := after[|after| - 1];
            && last.tenant == r.tenant && last.employee == r.employee && last.shift == r.shift && last.active == r.active
            && ValidWindow(last.start, last.end)
            && (Covers(last.start, last.end, day) <==>
                  && Ordinal(ParseDate(r.start).value) <= day
                  && (r.end == "" || day <= Ordinal(ParseDate(r.end).value)))
  {
    hide ValidDate, Ordinal;
  }

  // Whether an assignment guards its days is up to the request: one stored as active has
  // every well-formed request that shares a day with it refused, one stored as inactive
  // is not looked at.
  lemma {:induction false} ActiveGuardsItsDays(blank: string -> bool, shifts: set<(string, int)>, rows: seq<Assignment>,
                                               r: Assignment, other: Assignment)
    requires NoDoubleBooking(rows) && AfterAssign(blank, shifts, rows, r).1 == Created
    requires !blank(other.employee) && ValidWindow(other.start, other.end) && (other.tenant, other.shift) in shifts
    requires other.tenant == r.tenant && other.employee == r.employee && ShareDay(r.start, r.end, other.start, other.end)
    ensures AfterAssign(blank, shifts, AfterAssign(blank, shifts, rows, r).0, other).1 == Overlapping
       <==> r.active || AfterAssign(blank, shifts, rows, other).1 == Overlapping
  {
    hide ValidWindow, RangesOverlap, ShareDay;
    var after := AfterAssign(blank, shifts, rows, r).0;
    AssignKeepsNoDoubleBooking(blank, shifts, rows, r);
    RefusedOnlyIfShared(blank, shifts, after, other);
    RefusedOnlyIfShared(blank, shifts, rows, other);
    assert after[|rows|] == r && forall i :: 0 <= i < |rows| ==> after[i] == rows[i];
  }

  // A request that does not ask for an active assignment can be booked twice over.
  lemma InactiveIsBookedTwice(blank: string -> bool, shifts: set<(string, int)>, r: Assignment)
    requires !blank(r.employee) && ValidWindow(r.start, r.end) && (r.tenant, r.shift) in shifts && !r.active
    ensures AfterAssign(blank, shifts, [], r) == ([r], Created)
    ensures AfterAssign(blank, shifts, [r], r) == ([r, r], Created)
  {
    hide ValidWindow;
    assert !Clashes([], r) && !Clashes([r], r);
    assert [] + [r] == [r] && [r] + [r] == [r, r];
  }
}
