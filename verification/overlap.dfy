/** The reservation overlap rule, written once. Every component of the
    application (the server-side model validation, the in-memory store and
    both booking forms) uses the same "three-clause" test: a candidate
    [start, end) conflicts with an existing [rs, re) when its start lies in
    the existing interval, or its end does, or it spans the existing one. */
module Overlap {

  import opened Common
  import opened TimeOfDay

  /** A stored reservation. `date` is the calendar day as an opaque
      "yyyy-MM-dd" key; `startTime` and `endTime` are "HH:MM" strings. */
  datatype Reservation = Reservation(
    id: int,
    date: string,
    startTime: string,
    endTime: string,
    userName: Option<string>,
    userEmail: Option<string>)

  /** The three-clause test as the source writes it, with `>=` and `<=` on
      strings meaning "not `<`" and "not `>`". */
  predicate ThreeClause(start: string, end: string, rs: string, re: string) {
    || (AtMost(rs, start) && Before(start, re))
    || (Before(rs, end) && AtMost(end, re))
    || (AtMost(start, rs) && AtMost(re, end))
  }

  /** The standard intersection test for half-open intervals. */
  predicate Intersects(start: string, end: string, rs: string, re: string) {
    Before(start, re) && Before(rs, end)
  }

  /** Half of the equivalence holds for any strings at all. */
  lemma IntersectionIsThreeClause(start: string, end: string, rs: string, re: string)
    requires Intersects(start, end, rs, re)
    ensures ThreeClause(start, end, rs, re)
  {
    BeforeAsymmetric(start, re);
    BeforeAsymmetric(rs, end);
    BeforeTotal(start, rs);
    BeforeTotal(end, re);
    if Before(start, rs) {
      BeforeAsymmetric(start, rs);
      if Before(re, end) {
        BeforeAsymmetric(re, end);
      }
    }
  }

  /** The central fact: for two well-ordered intervals the three-clause
      test is exactly the half-open intersection test. */
  lemma ThreeClauseIsIntersection(start: string, end: string, rs: string, re: string)
    requires Before(start, end) && Before(rs, re)
    ensures ThreeClause(start, end, rs, re) <==> Intersects(start, end, rs, re)
  {
    if Intersects(start, end, rs, re) {
      IntersectionIsThreeClause(start, end, rs, re);
    }
    if AtMost(rs, start) && Before(start, re) {
      AtMostIsBeforeOrEqual(rs, start);
      if rs != start {
        BeforeTransitive(rs, start, end);
      }
    } else if Before(rs, end) && AtMost(end, re) {
      AtMostIsBeforeOrEqual(end, re);
      if end != re {
        BeforeTransitive(start, end, re);
      }
    } else if AtMost(start, rs) && AtMost(re, end) {
      AtMostIsBeforeOrEqual(start, rs);
      AtMostIsBeforeOrEqual(re, end);
      if start != rs {
        BeforeTransitive(start, rs, re);
      }
      if re != end {
        BeforeTransitive(rs, re, end);
      }
    }
  }

  /** Conflict is symmetric between two well-ordered intervals. */
  lemma ThreeClauseSymmetric(start: string, end: string, rs: string, re: string)
    requires Before(start, end) && Before(rs, re)
    ensures ThreeClause(start, end, rs, re) <==> ThreeClause(rs, re, start, end)
  {
    ThreeClauseIsIntersection(start, end, rs, re);
    ThreeClauseIsIntersection(rs, re, start, end);
  }

  /** Intervals that only touch at an end point do not conflict. */
  lemma AdjacentDoNotConflict(start: string, end: string, rs: string, re: string)
    requires Before(start, end) && Before(rs, re)
    requires end == rs || re == start
    ensures !ThreeClause(start, end, rs, re)
  {
    ThreeClauseIsIntersection(start, end, rs, re);
    BeforeIrreflexive(end);
    BeforeIrreflexive(start);
    if end == rs {
      BeforeAsymmetric(start, end);
    } else {
      BeforeAsymmetric(rs, re);
    }
  }

  /** On well-formed "HH:MM" times the test compares minutes since
      midnight. */
  lemma ThreeClauseInMinutes(start: string, end: string, rs: string, re: string)
    requires WellFormedTime(start) && WellFormedTime(end) && WellFormedTime(rs) && WellFormedTime(re)
    requires Before(start, end) && Before(rs, re)
    ensures ThreeClause(start, end, rs, re) <==>
      ToMinutes(start) < ToMinutes(re) && ToMinutes(rs) < ToMinutes(end)
  {
    ThreeClauseIsIntersection(start, end, rs, re);
    BeforeIsEarlier(start, re);
    BeforeIsEarlier(rs, end);
  }

  /** Existing 09:00-12:00: 12:00-13:00 and 08:00-09:00 are free, and
      11:00-13:00 is taken. */
  lemma MorningBookingExamples()
    ensures !ThreeClause("12:00", "13:00", "09:00", "12:00")
    ensures !ThreeClause("08:00", "09:00", "09:00", "12:00")
    ensures ThreeClause("11:00", "13:00", "09:00", "12:00")
  {
    var nine, eleven, twelve := FormatTime24(9, 0), FormatTime24(11, 0), FormatTime24(12, 0);
    var eight, thirteen := FormatTime24(8, 0), FormatTime24(13, 0);
    assert nine == "09:00" && eleven == "11:00" && twelve == "12:00";
    assert eight == "08:00" && thirteen == "13:00";
    BeforeIsEarlier(nine, twelve);
    BeforeIsEarlier(twelve, thirteen);
    BeforeIsEarlier(eight, nine);
    BeforeIsEarlier(eleven, thirteen);
    AdjacentDoNotConflict(twelve, thirteen, nine, twelve);
    AdjacentDoNotConflict(eight, nine, nine, twelve);
    ThreeClauseInMinutes(eleven, thirteen, nine, twelve);
  }

  // ---------------------------------------------------------------------
  // Scanning a list of reservations

  /** A reservation takes part in a scan unless it carries the excluded id
      (the record being edited or re-saved). */
  predicate Considered(r: Reservation, skip: Option<int>) {
    skip.None? || r.id != skip.value
  }

  /** `rs.some(r => <not skipped> && <three-clause test>)`. */
  function AnyConflict(rs: seq<Reservation>, start: string, end: string, skip: Option<int>): (b: bool)
    ensures b <==> exists i :: 0 <= i < |rs| && Considered(rs[i], skip)
                      && ThreeClause(start, end, rs[i].startTime, rs[i].endTime)
  {
    if rs == [] then false
    else if Considered(rs[0], skip) && ThreeClause(start, end, rs[0].startTime, rs[0].endTime) then true
    else
      var rest := AnyConflict(rs[1..], start, end, skip);
      assert forall i :: 1 <= i < |rs| ==> rs[i] == rs[1..][i - 1];
      rest
  }

  /** `rs.filter(r => r.date === date)`: the reservations of one day, in
      stored order. */
  function OnDate(rs: seq<Reservation>, date: string): (r: seq<Reservation>)
    ensures |r| <= |rs|
    ensures forall x :: x in r <==> x in rs && x.date == date
  {
    if rs == [] then []
    else (if rs[0].date == date then [rs[0]] else []) + OnDate(rs[1..], date)
  }

  /** Filtering keeps the stored order: it distributes over concatenation. */
  lemma {:induction false} OnDateAppend(a: seq<Reservation>, b: seq<Reservation>, date: string)
    ensures OnDate(a + b, date) == OnDate(a, date) + OnDate(b, date)
  {
    if a != [] {
      assert (a + b)[1..] == a[1..] + b;
      OnDateAppend(a[1..], b, date);
    } else {
      assert a + b == b;
    }
  }

  /** Scanning the day's reservations is scanning the whole list with a
      date test in front, as the in-memory store writes it. */
  lemma ConflictOnDate(rs: seq<Reservation>, date: string, start: string, end: string, skip: Option<int>)
    ensures AnyConflict(OnDate(rs, date), start, end, skip) <==>
      exists i :: 0 <= i < |rs| && rs[i].date == date && Considered(rs[i], skip)
        && ThreeClause(start, end, rs[i].startTime, rs[i].endTime)
  {
    var day := OnDate(rs, date);
    if AnyConflict(day, start, end, skip) {
      var k :| 0 <= k < |day| && Considered(day[k], skip)
        && ThreeClause(start, end, day[k].startTime, day[k].endTime);
      assert day[k] in rs;
      var i :| 0 <= i < |rs| && rs[i] == day[k];
    }
    if exists i :: 0 <= i < |rs| && rs[i].date == date && Considered(rs[i], skip)
        && ThreeClause(start, end, rs[i].startTime, rs[i].endTime) {
      var i :| 0 <= i < |rs| && rs[i].date == date && Considered(rs[i], skip)
        && ThreeClause(start, end, rs[i].startTime, rs[i].endTime);
      assert rs[i] in day;
      var k :| 0 <= k < |day| && day[k] == rs[i];
    }
  }

  // ---------------------------------------------------------------------
  // The invariant a reservation list should keep

  ghost predicate UniqueIds(s: seq<Reservation>) {
    forall i, j :: 0 <= i < j < |s| ==> s[i].id != s[j].id
  }

  /** Every stored interval has its start before its end. */
  ghost predicate WellOrdered(s: seq<Reservation>) {
    forall i :: 0 <= i < |s| ==> Before(s[i].startTime, s[i].endTime)
  }

  /** No two reservations of the same day share any instant. */
  ghost predicate NoDoubleBooking(s: seq<Reservation>) {
    forall i, j :: 0 <= i < |s| && 0 <= j < |s| && i != j && s[i].date == s[j].date ==>
      !Intersects(s[i].startTime, s[i].endTime, s[j].startTime, s[j].endTime)
  }

  ghost predicate Consistent(s: seq<Reservation>) {
    WellOrdered(s) && NoDoubleBooking(s)
  }

  /** Over well-ordered reservations, a scan with the three-clause test
      finds a conflict exactly when some considered reservation intersects
      the candidate. */
  lemma AnyConflictIsIntersection(rs: seq<Reservation>, start: string, end: string, skip: Option<int>)
    requires Before(start, end) && WellOrdered(rs)
    ensures AnyConflict(rs, start, end, skip) <==>
      exists i :: 0 <= i < |rs| && Considered(rs[i], skip)
        && Intersects(start, end, rs[i].startTime, rs[i].endTime)
  {
    forall i | 0 <= i < |rs|
      ensures ThreeClause(start, end, rs[i].startTime, rs[i].endTime)
        <==> Intersects(start, end, rs[i].startTime, rs[i].endTime)
    {
      ThreeClauseIsIntersection(start, end, rs[i].startTime, rs[i].endTime);
    }
  }
}
