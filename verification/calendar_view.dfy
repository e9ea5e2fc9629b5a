/** The calendar: which days have reservations, and in the day view which
    hour rows (08:00 to 19:00) a reservation covers. Only the hour part of
    a reservation's times is read. */
module CalendarView {

  import opened Common
  import opened TimeOfDay
  import opened Overlap

  /** `Array.from({ length: 12 }, (_, i) => i + 8)`. */
  function Hours(): (hs: seq<nat>)
    ensures |hs| == 12
  {
    seq(12, i => i + 8)
  }

  /** The day view lists each hour from 8 to 19 once, in ascending order. */
  lemma HoursAreTheDayWindow()
    ensures forall h :: h in Hours() <==> 8 <= h < 20
    ensures forall i, j :: 0 <= i < j < |Hours()| ==> Hours()[i] < Hours()[j]
  {
    forall h | 8 <= h < 20
      ensures h in Hours()
    {
      assert Hours()[h - 8] == h;
    }
  }

  /** Length of the run of decimal digits a string starts with. */
  function DigitRun(s: string): (n: nat)
    ensures n <= |s| && forall i :: 0 <= i < n ==> IsDigit(s[i])
    ensures n < |s| ==> !IsDigit(s[n])
  {
    if s == [] || !IsDigit(s[0]) then 0 else 1 + DigitRun(s[1..])
  }

  /** `parseInt(t.split(':')[0])`: the number the string starts with, or
      `None` (NaN) when it does not start with a digit. */
  function ParseHour(t: string): (r: Option<nat>)
    ensures r.None? <==> t == [] || !IsDigit(t[0])
  {
    var n := DigitRun(t);
    if n == 0 then None else Some(DecimalValue(t[..n]))
  }

  /** Only the hour of a well-formed time is read; the minutes play no part. */
  lemma ParseHourOfTime(t: string)
    requires WellFormedTime(t)
    ensures ParseHour(t) == Some(Hour(t))
  {
    assert t[1..][1..] == t[2..];
    assert DigitRun(t[2..]) == 0;
    assert DigitRun(t[1..]) == 1;
    assert DigitRun(t) == 2;
    var two := t[..2];
    assert two[..1] == t[..1] && two[1] == t[1];
    assert t[..1][..0] == [];
    assert DecimalValue(t[..1]) == DigitValue(t[0]);
    assert DecimalValue(two) == 10 * DigitValue(t[0]) + DigitValue(t[1]);
  }

  /** A reservation covers hour row `hour` when `startHour <= hour < endHour`;
      a comparison with NaN is false. */
  predicate CoversHour(r: Reservation, hour: int) {
    var startHour, endHour := ParseHour(r.startTime), ParseHour(r.endTime);
    startHour.Some? && endHour.Some? && startHour.value <= hour < endHour.value
  }

  /** `hasReservationAtHour`: whether the hour row is highlighted. */
  function HasReservationAtHour(hour: int, dayReservations: seq<Reservation>): (b: bool)
    ensures b <==> exists i :: 0 <= i < |dayReservations| && CoversHour(dayReservations[i], hour)
  {
    if dayReservations == [] then false
    else if CoversHour(dayReservations[0], hour) then true
    else
      var rest := HasReservationAtHour(hour, dayReservations[1..]);
      assert forall i :: 1 <= i < |dayReservations| ==> dayReservations[i] == dayReservations[1..][i - 1];
      rest
  }

  /** The reservations drawn inside hour row `hour`, in order. */
  function ReservationsInRow(hour: int, dayReservations: seq<Reservation>): (r: seq<Reservation>)
    ensures forall x :: x in r <==> x in dayReservations && CoversHour(x, hour)
  {
    if dayReservations == [] then []
    else (if CoversHour(dayReservations[0], hour) then [dayReservations[0]] else [])
         + ReservationsInRow(hour, dayReservations[1..])
  }

  /** A row is highlighted exactly when some reservation is drawn in it. */
  lemma HighlightMatchesRowContents(hour: int, dayReservations: seq<Reservation>)
    ensures HasReservationAtHour(hour, dayReservations) <==> ReservationsInRow(hour, dayReservations) != []
  {
    var row := ReservationsInRow(hour, dayReservations);
    if row != [] {
      assert row[0] in dayReservations;
    }
    if HasReservationAtHour(hour, dayReservations) {
      var i :| 0 <= i < |dayReservations| && CoversHour(dayReservations[i], hour);
      assert dayReservations[i] in row;
    }
  }

  /** For well-formed times, a reservation covers exactly the hours from
      its start hour up to, not including, its end hour. */
  lemma CoversHourOfTimes(r: Reservation, hour: int)
    requires WellFormedTime(r.startTime) && WellFormedTime(r.endTime)
    ensures CoversHour(r, hour) <==> Hour(r.startTime) <= hour < Hour(r.endTime)
  {
    ParseHourOfTime(r.startTime);
    ParseHourOfTime(r.endTime);
  }

  /** A 09:00-12:00 reservation highlights rows 9, 10 and 11, not 8 or 12. */
  lemma MorningReservationRows(r: Reservation)
    requires r.startTime == "09:00" && r.endTime == "12:00"
    ensures forall h :: h in Hours() ==> (HasReservationAtHour(h, [r]) <==> 9 <= h < 12)
  {
    var nine, twelve := FormatTime24(9, 0), FormatTime24(12, 0);
    assert nine == r.startTime && twelve == r.endTime;
    forall h | h in Hours()
      ensures HasReservationAtHour(h, [r]) <==> 9 <= h < 12
    {
      CoversHourOfTimes(r, h);
    }
  }

  /** `hasReservation`: the month view marks a day when any reservation is
      on it. */
  function HasReservation(rs: seq<Reservation>, date: string): (b: bool)
    ensures b <==> exists i :: 0 <= i < |rs| && rs[i].date == date
  {
    if rs == [] then false
    else if rs[0].date == date then true
    else
      var rest := HasReservation(rs[1..], date);
      assert forall i :: 1 <= i < |rs| ==> rs[i] == rs[1..][i - 1];
      rest
  }

  /** A day is marked exactly when its list of reservations
      (`getReservationsForDate`) is not empty. */
  lemma HasReservationIffListed(rs: seq<Reservation>, date: string)
    ensures HasReservation(rs, date) <==> OnDate(rs, date) != []
  {
    var day := OnDate(rs, date);
    if day != [] {
      assert day[0] in rs;
    }
    if HasReservation(rs, date) {
      var i :| 0 <= i < |rs| && rs[i].date == date;
      assert rs[i] in day;
    }
  }
}
