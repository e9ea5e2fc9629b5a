/** The current booking form: a grid of one-hour slots whose starts step
    by five minutes, the filter that removes the user's own reservation
    from the conflict set, and the checks run on submit. */
module ReservationForm {

  import opened Common
  import opened TimeOfDay
  import opened Overlap
  import opened SlotGrid

  /** The form's slot grid: 12 hours of 12 slots each. `editing` is the id
      of the reservation being edited, if any; that reservation never makes
      a slot unavailable. */
  method GenerateAvailableTimeSlots(reservations: seq<Reservation>, editing: Option<int>)
    returns (slots: seq<TimeSlot>)
    ensures |slots| == 144
    ensures forall k :: 0 <= k < 144 ==> IsGridSlot(slots[k], k, 5, reservations, editing)
    ensures Ascending(slots)
  {
    slots := Generate(reservations, editing, 5);
    GridAscending(slots, 5, reservations, editing);
  }

  /** Slot `k` starts at hour `8 + k / 12` and minute `5 * (k % 12)`, and
      ends at the same minute one hour later. */
  lemma GridSlotTimes(slot: TimeSlot, k: nat, rs: seq<Reservation>, editing: Option<int>)
    requires k < 144 && IsGridSlot(slot, k, 5, rs, editing)
    ensures slot.startTime == FormatTime24(8 + k / 12, 5 * (k % 12))
    ensures slot.endTime == FormatTime24(9 + k / 12, 5 * (k % 12))
  {
    ToMinutesInjective(slot.startTime, FormatTime24(8 + k / 12, 5 * (k % 12)));
    ToMinutesInjective(slot.endTime, FormatTime24(9 + k / 12, 5 * (k % 12)));
  }

  /** Skipping the edited reservation's id is the same as scanning the
      list without it. */
  lemma {:induction false} SkipIsRemoval(rs: seq<Reservation>, start: string, end: string, id: int)
    ensures AnyConflict(rs, start, end, Some(id)) == AnyConflict(WithoutId(rs, id), start, end, None)
  {
    var kept := WithoutId(rs, id);
    if AnyConflict(rs, start, end, Some(id)) {
      var i :| 0 <= i < |rs| && Considered(rs[i], Some(id))
        && ThreeClause(start, end, rs[i].startTime, rs[i].endTime);
      assert rs[i] in kept;
      var k :| 0 <= k < |kept| && kept[k] == rs[i];
    }
    if AnyConflict(kept, start, end, None) {
      var k :| 0 <= k < |kept| && ThreeClause(start, end, kept[k].startTime, kept[k].endTime);
      assert kept[k] in rs;
      var i :| 0 <= i < |rs| && rs[i] == kept[k];
    }
  }

  /** `rs.filter(r => r.id !== id)`. */
  function WithoutId(rs: seq<Reservation>, id: int): (r: seq<Reservation>)
    ensures |r| <= |rs|
    ensures forall x :: x in r <==> x in rs && x.id != id
  {
    if rs == [] then []
    else (if rs[0].id != id then [rs[0]] else []) + WithoutId(rs[1..], id)
  }

  /** `reservations.find(r => r.user_email === userEmail)`, where `userEmail`
      is the stored e-mail address (`None` when nothing is stored). */
  function FindUserReservation(rs: seq<Reservation>, userEmail: Option<string>): (r: Option<nat>)
    ensures r.Some? ==> r.value < |rs| && userEmail.Some? && rs[r.value].userEmail == userEmail
    ensures r.Some? ==> forall j :: 0 <= j < r.value ==> rs[j].userEmail != userEmail
    ensures r.None? ==> userEmail.None? || forall j :: 0 <= j < |rs| ==> rs[j].userEmail != userEmail
  {
    if userEmail.None? || rs == [] then None
    else if rs[0].userEmail == userEmail then Some(0)
    else
      match FindUserReservation(rs[1..], userEmail)
      case None =>
        assert forall j :: 1 <= j < |rs| ==> rs[j] == rs[1..][j - 1];
        None
      case Some(j) => Some(j + 1)
  }

  /** `rs[i]` is the first reservation made with the e-mail address. */
  predicate FirstOwnedBy(rs: seq<Reservation>, userEmail: Option<string>, i: int) {
    && 0 <= i < |rs| && userEmail.Some? && rs[i].userEmail == userEmail
    && forall j :: 0 <= j < i ==> rs[j].userEmail != userEmail
  }

  /** The conflict set: every reservation of the day except the user's own
      (found by e-mail address). */
  function OtherReservations(rs: seq<Reservation>, userEmail: Option<string>): (r: seq<Reservation>)
    ensures FindUserReservation(rs, userEmail).None? ==> r == rs
    ensures FindUserReservation(rs, userEmail).Some? ==>
      r == WithoutId(rs, rs[FindUserReservation(rs, userEmail).value].id)
    ensures forall x :: x in r <==>
      x in rs && forall i :: FirstOwnedBy(rs, userEmail, i) ==> x.id != rs[i].id
  {
    match FindUserReservation(rs, userEmail)
    case None => rs
    case Some(i) => WithoutId(rs, rs[i].id)
  }

  /** The user's own reservation never makes a slot of the grid
      unavailable: the grid sees exactly the reservations with another id. */
  lemma OwnReservationNeverBlocks(rs: seq<Reservation>, userEmail: Option<string>, i: nat,
                                  start: string, end: string, editing: Option<int>)
    requires FindUserReservation(rs, userEmail) == Some(i)
    ensures AnyConflict(OtherReservations(rs, userEmail), start, end, editing) <==>
      exists j :: 0 <= j < |rs| && rs[j].id != rs[i].id && Considered(rs[j], editing)
        && ThreeClause(start, end, rs[j].startTime, rs[j].endTime)
  {
    var others := OtherReservations(rs, userEmail);
    if AnyConflict(others, start, end, editing) {
      var k :| 0 <= k < |others| && Considered(others[k], editing)
        && ThreeClause(start, end, others[k].startTime, others[k].endTime);
      assert others[k] in rs;
      var j :| 0 <= j < |rs| && rs[j] == others[k];
    }
    if exists j :: 0 <= j < |rs| && rs[j].id != rs[i].id && Considered(rs[j], editing)
        && ThreeClause(start, end, rs[j].startTime, rs[j].endTime) {
      var j :| 0 <= j < |rs| && rs[j].id != rs[i].id && Considered(rs[j], editing)
        && ThreeClause(start, end, rs[j].startTime, rs[j].endTime);
      assert rs[j] in others;
      var k :| 0 <= k < |others| && others[k] == rs[j];
    }
  }

  /** Editing the only reservation of the day frees every slot, including
      the ones it covers. */
  lemma EditingOnlyReservationFreesAllSlots(slots: seq<TimeSlot>, r: Reservation)
    requires |slots| == 144
    requires forall k :: 0 <= k < 144 ==> IsGridSlot(slots[k], k, 5, [r], Some(r.id))
    ensures forall k :: 0 <= k < 144 ==> slots[k].available
  {
    forall k | 0 <= k < 144
      ensures slots[k].available
    {
      assert IsGridSlot(slots[k], k, 5, [r], Some(r.id));
      assert !Considered([r][0], Some(r.id));
    }
  }

  datatype SubmitError = InvalidDate | IntervalError(error: FormError)

  /** `handleSubmit`'s checks: a date must be selected, then the interval
      checks run against the day's other reservations, skipping the one
      being edited. */
  function HandleSubmit(dateSelected: bool, startTime: string, endTime: string,
                        existing: seq<Reservation>, editing: Option<int>): (r: Option<SubmitError>)
    ensures r == Some(InvalidDate) <==> !dateSelected
    ensures r == None <==>
      dateSelected && startTime != "" && endTime != "" && Before(startTime, endTime)
      && !exists i :: 0 <= i < |existing| && Considered(existing[i], editing)
           && ThreeClause(startTime, endTime, existing[i].startTime, existing[i].endTime)
    ensures dateSelected ==> (r == Some(IntervalError(MissingTimes)) <==> startTime == "" || endTime == "")
    ensures dateSelected ==>
      (r == Some(IntervalError(EndNotAfterStart)) <==> startTime != "" && endTime != "" && AtMost(endTime, startTime))
    ensures dateSelected ==> (r == Some(IntervalError(Overlapping)) <==>
      startTime != "" && endTime != "" && Before(startTime, endTime)
      && exists i :: 0 <= i < |existing| && Considered(existing[i], editing)
           && ThreeClause(startTime, endTime, existing[i].startTime, existing[i].endTime))
  {
    if !dateSelected then Some(InvalidDate)
    else
      match CheckInterval(startTime, endTime, existing, editing)
      case None => None
      case Some(e) => Some(IntervalError(e))
  }
}
