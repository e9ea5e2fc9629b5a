/** What both booking forms share: the grid of one-hour candidate slots
    between 08:00 and 20:00, each marked available or not by the overlap
    rule, the checks run when the form is submitted, and the list of
    end-time options offered after a start time is chosen. */
module SlotGrid {

  import opened Common
  import opened TimeOfDay
  import opened Overlap

  datatype TimeSlot = TimeSlot(startTime: string, endTime: string, available: bool)

  /** The grid starts at 08:00, so slot `k` of a grid stepping `step`
      minutes starts `8 * 60 + step * k` minutes after midnight. */
  const FirstSlotMinutes := 8 * 60

  /** Slot `k` of the grid: it starts `step * k` minutes after 08:00, lasts
      one hour, and is available exactly when no considered reservation
      passes the three-clause test against it. */
  predicate IsGridSlot(slot: TimeSlot, k: nat, step: nat, rs: seq<Reservation>, skip: Option<int>) {
    && WellFormedTime(slot.startTime) && ToMinutes(slot.startTime) == FirstSlotMinutes + step * k
    && WellFormedTime(slot.endTime) && ToMinutes(slot.endTime) == FirstSlotMinutes + 60 + step * k
    && slot.available == !AnyConflict(rs, slot.startTime, slot.endTime, skip)
  }

  /** `generateAvailableTimeSlots`: hours 8 to 19, minutes 0 to 59 in steps
      of `step`; the slot ends at the same minute of the next hour. */
  method Generate(rs: seq<Reservation>, skip: Option<int>, step: nat) returns (slots: seq<TimeSlot>)
    requires 0 < step && 60 % step == 0
    ensures step * |slots| == 12 * 60
    ensures forall k :: 0 <= k < |slots| ==> IsGridSlot(slots[k], k, step, rs, skip)
  {
    ghost var perHour := ExactDivision(step);
    slots := [];
    var hour := 8;
    while hour < 20
      invariant 8 <= hour <= 20
      invariant FirstSlotMinutes + step * |slots| == 60 * hour
      invariant forall k :: 0 <= k < |slots| ==> IsGridSlot(slots[k], k, step, rs, skip)
    {
      var minute := 0;
      ghost var j := 0;
      while minute < 60
        invariant 0 <= minute <= 60 && minute == step * j
        invariant FirstSlotMinutes + step * |slots| == 60 * hour + minute
        invariant forall k :: 0 <= k < |slots| ==> IsGridSlot(slots[k], k, step, rs, skip)
      {
        var startTimeStr := FormatTime24(hour, minute);
        var endTimeStr := FormatTime24(hour + 1, minute);
        var isAvailable := !AnyConflict(rs, startTimeStr, endTimeStr, skip);
        StepFits(step, j, perHour);
        MulSucc(step, |slots|);
        slots := slots + [TimeSlot(startTimeStr, endTimeStr, isAvailable)];
        minute := minute + step;
        j := j + 1;
      }
      hour := hour + 1;
    }
  }

  /** The number of steps in an hour. */
  lemma ExactDivision(step: nat) returns (perHour: nat)
    requires 0 < step && 60 % step == 0
    ensures step * perHour == 60
  {
    perHour := 60 / step;
  }

  /** A step that divides the hour never overshoots it. */
  lemma StepFits(step: nat, j: nat, perHour: nat)
    requires 0 < step && step * perHour == 60 && step * j < 60
    ensures step * (j + 1) <= 60 && step * (j + 1) == step * j + step
  {
    if perHour <= j {
      MulMonotone(step, perHour, j);
    }
    MulMonotone(step, j + 1, perHour);
    MulSucc(step, j);
  }

  lemma MulSucc(c: nat, n: nat)
    ensures c * (n + 1) == c * n + c
  {
  }

  lemma MulMonotone(c: nat, i: nat, j: nat)
    requires i <= j
    ensures c * i <= c * j
  {
  }

  lemma MulStrict(c: nat, i: nat, j: nat)
    requires 0 < c && i < j
    ensures c * i < c * j
  {
  }

  /** Slot starts strictly increase along the grid. */
  predicate Ascending(slots: seq<TimeSlot>) {
    forall i, j :: 0 <= i < j < |slots| ==> Before(slots[i].startTime, slots[j].startTime)
  }

  lemma GridAscending(slots: seq<TimeSlot>, step: nat, rs: seq<Reservation>, skip: Option<int>)
    requires 0 < step
    requires forall k :: 0 <= k < |slots| ==> IsGridSlot(slots[k], k, step, rs, skip)
    ensures Ascending(slots)
  {
    forall i, j | 0 <= i < j < |slots|
      ensures Before(slots[i].startTime, slots[j].startTime)
    {
      assert IsGridSlot(slots[i], i, step, rs, skip) && IsGridSlot(slots[j], j, step, rs, skip);
      MulStrict(step, i, j);
      BeforeIsEarlier(slots[i].startTime, slots[j].startTime);
    }
  }

  /** Every reservation time is a well-formed "HH:MM". */
  ghost predicate WellFormedTimes(rs: seq<Reservation>) {
    forall i :: 0 <= i < |rs| ==> WellFormedTime(rs[i].startTime) && WellFormedTime(rs[i].endTime)
  }

  /** A grid slot is available exactly when every considered reservation
      ends by the slot's start or starts no earlier than its end, counting
      in minutes. */
  lemma GridSlotAvailability(slot: TimeSlot, k: nat, step: nat, rs: seq<Reservation>, skip: Option<int>)
    requires IsGridSlot(slot, k, step, rs, skip) && WellOrdered(rs) && WellFormedTimes(rs)
    ensures slot.available <==>
      forall i :: 0 <= i < |rs| && Considered(rs[i], skip) ==>
        ToMinutes(rs[i].endTime) <= FirstSlotMinutes + step * k
        || FirstSlotMinutes + 60 + step * k <= ToMinutes(rs[i].startTime)
  {
    BeforeIsEarlier(slot.startTime, slot.endTime);
    forall i | 0 <= i < |rs|
      ensures ThreeClause(slot.startTime, slot.endTime, rs[i].startTime, rs[i].endTime) <==>
        ToMinutes(slot.startTime) < ToMinutes(rs[i].endTime)
        && ToMinutes(rs[i].startTime) < ToMinutes(slot.endTime)
    {
      ThreeClauseInMinutes(slot.startTime, slot.endTime, rs[i].startTime, rs[i].endTime);
    }
  }

  // ---------------------------------------------------------------------
  // Submitting the form

  datatype FormError = MissingTimes | EndNotAfterStart | Overlapping

  /** The checks both forms run on submit, in order: both times chosen,
      start before end, no overlap with a considered reservation. */
  function CheckInterval(start: string, end: string, existing: seq<Reservation>, skip: Option<int>)
    : (r: Option<FormError>)
    ensures r == Some(MissingTimes) <==> start == "" || end == ""
    ensures r == Some(EndNotAfterStart) <==> start != "" && end != "" && AtMost(end, start)
    ensures r == None <==>
      start != "" && end != "" && Before(start, end) && !AnyConflict(existing, start, end, skip)
  {
    if start == "" || end == "" then Some(MissingTimes)
    else if !Before(start, end) then Some(EndNotAfterStart)
    else if AnyConflict(existing, start, end, skip) then Some(Overlapping)
    else None
  }

  /** Over well-ordered reservations, the submit checks accept exactly the
      chosen, well-ordered intervals that intersect no considered
      reservation. */
  lemma SubmitGate(start: string, end: string, existing: seq<Reservation>, skip: Option<int>)
    requires WellOrdered(existing)
    ensures CheckInterval(start, end, existing, skip) == None <==>
      && start != "" && end != "" && Before(start, end)
      && !exists i :: 0 <= i < |existing| && Considered(existing[i], skip)
           && Intersects(start, end, existing[i].startTime, existing[i].endTime)
  {
    if Before(start, end) {
      AnyConflictIsIntersection(existing, start, end, skip);
    }
  }

  // ---------------------------------------------------------------------
  // End-time options

  /** `slots.filter(slot => slot.startTime > startTime)`. */
  function EndTimeOptions(slots: seq<TimeSlot>, startTime: string): (r: seq<TimeSlot>)
    ensures |r| <= |slots|
    ensures forall x :: x in r <==> x in slots && Before(startTime, x.startTime)
  {
    if slots == [] then []
    else (if Before(startTime, slots[0].startTime) then [slots[0]] else [])
         + EndTimeOptions(slots[1..], startTime)
  }

  lemma {:induction false} EndTimeOptionsAllLater(slots: seq<TimeSlot>, startTime: string)
    requires forall i :: 0 <= i < |slots| ==> Before(startTime, slots[i].startTime)
    ensures EndTimeOptions(slots, startTime) == slots
  {
    if slots != [] {
      EndTimeOptionsAllLater(slots[1..], startTime);
    }
  }

  /** On an ascending grid, choosing the start of slot `k` offers exactly
      the slots after it as end times, in grid order. */
  lemma {:induction false} EndTimeOptionsAfterChosen(slots: seq<TimeSlot>, k: nat)
    requires Ascending(slots) && k < |slots|
    ensures EndTimeOptions(slots, slots[k].startTime) == slots[k + 1..]
  {
    var t := slots[k].startTime;
    if k == 0 {
      BeforeIrreflexive(t);
      EndTimeOptionsAllLater(slots[1..], t);
    } else {
      BeforeAsymmetric(slots[0].startTime, t);
      assert Ascending(slots[1..]);
      assert slots[1..][k - 1] == slots[k];
      EndTimeOptionsAfterChosen(slots[1..], k - 1);
      assert slots[1..][k - 1 + 1..] == slots[k + 1..];
    }
  }
}
