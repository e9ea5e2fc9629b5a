/** Server-side validation of a reservation record: three presence
    checks, the start-before-end check and the no-overlap check, each of
    which appends to the record's error list as an ActiveRecord validator
    does. */
module ReservationValidation {

  import opened Common
  import opened TimeOfDay
  import opened Overlap

  /** The attribute an error is attached to; `Base` is the record as a whole. */
  datatype Attribute = Base | Date | StartTime | EndTime

  datatype ValidationError = ValidationError(attribute: Attribute, message: string)

  const BlankMessage := "can't be blank"
  const OrderMessage := "must be after start time"
  const OverlapMessage := "Reservation overlaps with existing reservation"

  /** The characters Ruby's `blank?` treats as white space (ASCII subset). */
  predicate IsSpace(c: char) {
    c == ' ' || c == '\t' || c == '\n' || c == '\r' || c == '\U{000B}' || c == '\U{000C}'
  }

  /** `value.blank?`: nil, empty, or white space only. */
  predicate Blank(v: Option<string>) {
    v.None? || forall i :: 0 <= i < |v.value| ==> IsSpace(v.value[i])
  }

  /** The errors of the three `validates ..., presence: true` lines, in
      declaration order. */
  function PresenceErrors(date: Option<string>, startTime: Option<string>, endTime: Option<string>)
    : (errs: seq<ValidationError>)
    ensures errs == [] <==> !Blank(date) && !Blank(startTime) && !Blank(endTime)
    ensures forall e :: e in errs ==> e.message == BlankMessage
    ensures ValidationError(Date, BlankMessage) in errs <==> Blank(date)
    ensures ValidationError(StartTime, BlankMessage) in errs <==> Blank(startTime)
    ensures ValidationError(EndTime, BlankMessage) in errs <==> Blank(endTime)
    ensures |errs| == (if Blank(date) then 1 else 0) + (if Blank(startTime) then 1 else 0)
                      + (if Blank(endTime) then 1 else 0)
  {
    (if Blank(date) then [ValidationError(Date, BlankMessage)] else [])
    + (if Blank(startTime) then [ValidationError(StartTime, BlankMessage)] else [])
    + (if Blank(endTime) then [ValidationError(EndTime, BlankMessage)] else [])
  }

  /** The errors `end_time_after_start_time` adds: none when either time is
      blank, otherwise one on `end_time` when the start is not before the
      end. */
  function OrderingErrors(startTime: Option<string>, endTime: Option<string>): (errs: seq<ValidationError>)
    ensures |errs| <= 1
    ensures errs != [] <==>
      !Blank(startTime) && !Blank(endTime) && AtMost(endTime.value, startTime.value)
    ensures errs != [] ==> errs[0] == ValidationError(EndTime, OrderMessage)
  {
    if Blank(startTime) || Blank(endTime) then []
    else if !Before(startTime.value, endTime.value) then [ValidationError(EndTime, OrderMessage)]
    else []
  }

  /** The errors `no_overlapping_reservations` adds: at most one error on
      the record as a whole, present exactly when some stored row of the
      same date with a different id passes the three-clause test. A record
      not yet saved has no id and is compared with every row of its date. */
  function OverlapErrors(id: Option<int>, date: Option<string>, startTime: Option<string>,
                         endTime: Option<string>, table: seq<Reservation>): (errs: seq<ValidationError>)
    ensures |errs| <= 1
    ensures errs != [] <==>
      && !Blank(date) && !Blank(startTime) && !Blank(endTime)
      && exists i :: 0 <= i < |table| && table[i].date == date.value && Considered(table[i], id)
           && ThreeClause(startTime.value, endTime.value, table[i].startTime, table[i].endTime)
    ensures errs != [] ==> errs[0] == ValidationError(Base, OverlapMessage)
  {
    if Blank(date) || Blank(startTime) || Blank(endTime) then []
    else
      ConflictOnDate(table, date.value, startTime.value, endTime.value, id);
      if AnyConflict(OnDate(table, date.value), startTime.value, endTime.value, id)
      then [ValidationError(Base, OverlapMessage)]
      else []
  }

  /** Every validator's errors, in the order the validators run. */
  function AllErrors(id: Option<int>, date: Option<string>, startTime: Option<string>,
                     endTime: Option<string>, table: seq<Reservation>): (errs: seq<ValidationError>)
    ensures errs == [] <==>
      && !Blank(date) && !Blank(startTime) && !Blank(endTime)
      && Before(startTime.value, endTime.value)
      && !exists i :: 0 <= i < |table| && table[i].date == date.value && Considered(table[i], id)
           && ThreeClause(startTime.value, endTime.value, table[i].startTime, table[i].endTime)
  {
    PresenceErrors(date, startTime, endTime)
    + OrderingErrors(startTime, endTime)
    + OverlapErrors(id, date, startTime, endTime, table)
  }

  /** The validation gate: over well-ordered stored rows, a record is valid
      exactly when all three attributes are present, its start is before
      its end, and it intersects no other row of its date. */
  lemma ValidationGate(id: Option<int>, date: Option<string>, startTime: Option<string>,
                       endTime: Option<string>, table: seq<Reservation>)
    requires WellOrdered(table)
    ensures AllErrors(id, date, startTime, endTime, table) == [] <==>
      && !Blank(date) && !Blank(startTime) && !Blank(endTime)
      && Before(startTime.value, endTime.value)
      && !exists i :: 0 <= i < |table| && table[i].date == date.value && Considered(table[i], id)
           && Intersects(startTime.value, endTime.value, table[i].startTime, table[i].endTime)
  {
    if !Blank(date) && !Blank(startTime) && !Blank(endTime) && Before(startTime.value, endTime.value) {
      forall i | 0 <= i < |table|
        ensures ThreeClause(startTime.value, endTime.value, table[i].startTime, table[i].endTime)
          <==> Intersects(startTime.value, endTime.value, table[i].startTime, table[i].endTime)
      {
        ThreeClauseIsIntersection(startTime.value, endTime.value, table[i].startTime, table[i].endTime);
      }
    }
  }

  /** Re-saving a stored row unchanged adds no overlap error: the row's own
      id is excluded, and over a consistent table no other row of its date
      intersects it. */
  lemma ResaveAddsNoOverlap(table: seq<Reservation>, k: nat)
    requires k < |table| && Consistent(table) && UniqueIds(table)
    ensures OverlapErrors(Some(table[k].id), Some(table[k].date), Some(table[k].startTime),
                          Some(table[k].endTime), table) == []
  {
    var r := table[k];
    forall i | 0 <= i < |table| && table[i].date == r.date && Considered(table[i], Some(r.id))
      ensures !ThreeClause(r.startTime, r.endTime, table[i].startTime, table[i].endTime)
    {
      assert i != k;
      ThreeClauseIsIntersection(r.startTime, r.endTime, table[i].startTime, table[i].endTime);
    }
  }

  /** An ActiveRecord reservation: its attributes and its error list. */
  class ReservationRecord {
    var id: Option<int>
    var date: Option<string>
    var startTime: Option<string>
    var endTime: Option<string>
    var errors: seq<ValidationError>

    constructor (id: Option<int>, date: Option<string>, startTime: Option<string>, endTime: Option<string>)
      ensures this.id == id && this.date == date
      ensures this.startTime == startTime && this.endTime == endTime
      ensures errors == []
    {
      this.id := id;
      this.date := date;
      this.startTime := startTime;
      this.endTime := endTime;
      errors := [];
    }

    method ValidatePresence()
      modifies this`errors
      ensures errors == old(errors) + PresenceErrors(date, startTime, endTime)
    {
      if Blank(date) {
        errors := errors + [ValidationError(Date, BlankMessage)];
      }
      if Blank(startTime) {
        errors := errors + [ValidationError(StartTime, BlankMessage)];
      }
      if Blank(endTime) {
        errors := errors + [ValidationError(EndTime, BlankMessage)];
      }
    }

    method EndTimeAfterStartTime()
      modifies this`errors
      ensures errors == old(errors) + OrderingErrors(startTime, endTime)
    {
      if Blank(startTime) || Blank(endTime) {
        return;
      }
      if !Before(startTime.value, endTime.value) {
        errors := errors + [ValidationError(EndTime, OrderMessage)];
      }
    }

    /** `table` stands for the stored reservations the query reads. */
    method NoOverlappingReservations(table: seq<Reservation>)
      modifies this`errors
      ensures errors == old(errors) + OverlapErrors(id, date, startTime, endTime, table)
    {
      if Blank(date) || Blank(startTime) || Blank(endTime) {
        return;
      }
      var overlapping := AnyConflict(OnDate(table, date.value), startTime.value, endTime.value, id);
      if overlapping {
        errors := errors + [ValidationError(Base, OverlapMessage)];
      }
    }

    /** `valid?`: clear the errors, run every validator, report whether
        none added an error. */
    method IsValid(table: seq<Reservation>) returns (valid: bool)
      modifies this`errors
      ensures errors == AllErrors(id, date, startTime, endTime, table)
      ensures valid <==> errors == []
    {
      errors := [];
      ValidatePresence();
      EndTimeAfterStartTime();
      NoOverlappingReservations(table);
      valid := errors == [];
    }
  }
}
