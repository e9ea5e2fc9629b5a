/** The older booking form: twelve whole-hour slots, no exclusion of the
    user's own reservation, and automatic choice of an end time one hour
    after the chosen start. */
module LegacyReservationForm {

  import opened Common
  import opened TimeOfDay
  import opened Overlap
  import opened SlotGrid

  /** Twelve slots, 08:00-09:00 up to 19:00-20:00, in order; every
      reservation of the day counts against them. */
  method GenerateAvailableTimeSlots(reservations: seq<Reservation>) returns (slots: seq<TimeSlot>)
    ensures |slots| == 12
    ensures forall k :: 0 <= k < 12 ==> IsGridSlot(slots[k], k, 60, reservations, None)
    ensures forall k :: 0 <= k < 12 ==>
      slots[k].startTime == FormatTime24(8 + k, 0) && slots[k].endTime == FormatTime24(9 + k, 0)
    ensures Ascending(slots)
  {
    slots := Generate(reservations, None, 60);
    GridAscending(slots, 60, reservations, None);
    forall k | 0 <= k < 12
      ensures slots[k].startTime == FormatTime24(8 + k, 0) && slots[k].endTime == FormatTime24(9 + k, 0)
    {
      assert IsGridSlot(slots[k], k, 60, reservations, None);
      ToMinutesInjective(slots[k].startTime, FormatTime24(8 + k, 0));
      ToMinutesInjective(slots[k].endTime, FormatTime24(9 + k, 0));
    }
  }

  /** With one reservation 09:00-12:00 the slots starting 09:00, 10:00 and
      11:00 are unavailable and every other slot is available. */
  lemma MorningReservationBlocksThreeSlots(slots: seq<TimeSlot>, r: Reservation)
    requires r.startTime == "09:00" && r.endTime == "12:00"
    requires |slots| == 12
    requires forall k :: 0 <= k < 12 ==> IsGridSlot(slots[k], k, 60, [r], None)
    ensures forall k :: 0 <= k < 12 ==> (slots[k].available <==> k < 1 || 3 < k)
  {
    var nine, twelve := FormatTime24(9, 0), FormatTime24(12, 0);
    assert nine == r.startTime && twelve == r.endTime;
    BeforeIsEarlier(nine, twelve);
    forall k | 0 <= k < 12
      ensures slots[k].available <==> k < 1 || 3 < k
    {
      GridSlotAvailability(slots[k], k, 60, [r], None);
    }
  }

  /** `availableTimeSlots.find(slot => slot.startTime === value)`. */
  function FindSlot(slots: seq<TimeSlot>, startTime: string): (k: Option<nat>)
    ensures k.Some? ==> k.value < |slots| && slots[k.value].startTime == startTime
    ensures k.Some? ==> forall j :: 0 <= j < k.value ==> slots[j].startTime != startTime
    ensures k.None? ==> forall j :: 0 <= j < |slots| ==> slots[j].startTime != startTime
  {
    if slots == [] then None
    else if slots[0].startTime == startTime then Some(0)
    else
      match FindSlot(slots[1..], startTime)
      case None =>
        assert forall j :: 1 <= j < |slots| ==> slots[j] == slots[1..][j - 1];
        None
      case Some(j) => Some(j + 1)
  }

  /** The end time after choosing start `chosen`: an end already chosen is
      kept; otherwise it becomes the end of the slot starting at `chosen`,
      if there is one. */
  function AutoSelectEnd(slots: seq<TimeSlot>, chosen: string, endTime: string): (r: string)
    ensures endTime != "" ==> r == endTime
    ensures endTime == "" && FindSlot(slots, chosen).None? ==> r == ""
    ensures endTime == "" && FindSlot(slots, chosen).Some? ==> r == slots[FindSlot(slots, chosen).value].endTime
    ensures endTime == "" && (forall k :: 0 <= k < |slots| ==> slots[k].startTime != chosen) ==> r == ""
    ensures endTime == "" && (exists k :: 0 <= k < |slots| && slots[k].startTime == chosen) ==>
      exists k :: 0 <= k < |slots| && slots[k].startTime == chosen && r == slots[k].endTime
        && forall j :: 0 <= j < k ==> slots[j].startTime != chosen
  {
    if endTime != "" then endTime
    else
      match FindSlot(slots, chosen)
      case None => endTime
      case Some(k) => slots[k].endTime
  }

  /** On the hourly grid, choosing a slot's start with no end yet selects
      the time one hour later. */
  lemma AutoSelectIsOneHourLater(slots: seq<TimeSlot>, k: nat, rs: seq<Reservation>)
    requires |slots| == 12 && k < 12
    requires forall j :: 0 <= j < 12 ==> IsGridSlot(slots[j], j, 60, rs, None)
    ensures var e := AutoSelectEnd(slots, slots[k].startTime, "");
      && e == slots[k].endTime
      && WellFormedTime(slots[k].startTime) && WellFormedTime(e)
      && ToMinutes(e) == ToMinutes(slots[k].startTime) + 60
  {
    GridAscending(slots, 60, rs, None);
    BeforeIrreflexive(slots[k].startTime);
    var found := FindSlot(slots, slots[k].startTime);
    assert found == Some(k);
    assert IsGridSlot(slots[k], k, 60, rs, None);
  }
}
