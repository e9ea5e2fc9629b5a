/** The client-side reservation service: an in-memory reservation store
    (the development stand-in for the server) with the same overlap rule,
    and the date-keyed response cache that sits in front of the real
    server. */
module MockApi {

  import opened Common
  import opened TimeOfDay
  import opened Overlap

  datatype StoreError = NotFound | OverlapsExisting

  /** The fields a caller supplies to create a reservation. */
  datatype ReservationInput = ReservationInput(
    date: string,
    startTime: string,
    endTime: string,
    userName: Option<string>,
    userEmail: Option<string>)

  /** A partial update: `None` is a field the caller left out. */
  datatype Patch = Patch(
    date: Option<string>,
    startTime: Option<string>,
    endTime: Option<string>,
    userName: Option<string>,
    userEmail: Option<string>)

  function Override<T>(current: T, given: Option<T>): T {
    if given.Some? then given.value else current
  }

  /** `{ ...r, ...p }`: the fields present in the patch replace those of
      the reservation; its id is never touched. */
  function Merge(r: Reservation, p: Patch): (m: Reservation)
    ensures m.id == r.id
    ensures p.date.None? ==> m.date == r.date
    ensures p.startTime.None? ==> m.startTime == r.startTime
    ensures p.endTime.None? ==> m.endTime == r.endTime
    ensures p.date.Some? ==> m.date == p.date.value
    ensures p.startTime.Some? ==> m.startTime == p.startTime.value
    ensures p.endTime.Some? ==> m.endTime == p.endTime.value
    ensures m.userName == (if p.userName.Some? then p.userName else r.userName)
    ensures m.userEmail == (if p.userEmail.Some? then p.userEmail else r.userEmail)
  {
    Reservation(r.id, Override(r.date, p.date), Override(r.startTime, p.startTime),
                Override(r.endTime, p.endTime), if p.userName.Some? then p.userName else r.userName,
                if p.userEmail.Some? then p.userEmail else r.userEmail)
  }

  /** `Math.max(...s.map(r => r.id))`. */
  function MaxId(s: seq<Reservation>): (m: int)
    requires |s| > 0
    ensures forall i :: 0 <= i < |s| ==> s[i].id <= m
    ensures exists i :: 0 <= i < |s| && s[i].id == m
  {
    if |s| == 1 then s[0].id
    else
      var rest := MaxId(s[1..]);
      assert forall i :: 1 <= i < |s| ==> s[i] == s[1..][i - 1];
      if s[0].id >= rest then s[0].id else rest
  }

  /** The id `create` gives a new reservation: one more than the largest
      stored id, or 1 for an empty store. It is larger than every stored id. */
  function NextId(s: seq<Reservation>): (n: int)
    ensures forall i :: 0 <= i < |s| ==> s[i].id < n
    ensures s == [] ==> n == 1
  {
    if |s| > 0 then MaxId(s) + 1 else 1
  }

  /** `s.findIndex(r => r.id === id)`, with `None` for -1. */
  function FindIndex(s: seq<Reservation>, id: int): (k: Option<nat>)
    ensures k.Some? ==> k.value < |s| && s[k.value].id == id
    ensures k.Some? ==> forall j :: 0 <= j < k.value ==> s[j].id != id
    ensures k.None? ==> forall j :: 0 <= j < |s| ==> s[j].id != id
  {
    if s == [] then None
    else if s[0].id == id then Some(0)
    else
      match FindIndex(s[1..], id)
      case None =>
        assert forall j :: 1 <= j < |s| ==> s[j] == s[1..][j - 1];
        None
      case Some(j) => Some(j + 1)
  }

  /** The three reservations the store starts with. */
  function InitialReservations(): seq<Reservation> {
    [ Reservation(1, "2023-10-15", "09:00", "12:00", Some("John Doe"), Some("john@example.com")),
      Reservation(2, "2023-10-20", "14:00", "16:00", Some("Jane Smith"), Some("jane@example.com")),
      Reservation(3, "2023-11-05", "10:00", "13:00", Some("Bob Johnson"), Some("bob@example.com")) ]
  }

  /** The starting data keeps the store's invariant: distinct ids, one
      reservation per day, each starting before it ends. */
  lemma InitialReservationsConsistent()
    ensures var s := InitialReservations();
      UniqueIds(s) && NoDoubleBooking(s) && WellOrdered(s)
  {
    var s := InitialReservations();
    InitialDaysDistinct();
    InitialWellOrdered();
  }

  lemma InitialDaysDistinct()
    ensures var s := InitialReservations();
      forall i, j :: 0 <= i < j < |s| ==> s[i].id != s[j].id && s[i].date != s[j].date
  {
    var s := InitialReservations();
    assert s[0].date[9] != s[1].date[9] && s[0].date[6] != s[2].date[6] && s[1].date[6] != s[2].date[6];
  }

  lemma InitialWellOrdered()
    ensures WellOrdered(InitialReservations())
  {
    var s := InitialReservations();
    var nine, twelve := FormatTime24(9, 0), FormatTime24(12, 0);
    var two, four := FormatTime24(14, 0), FormatTime24(16, 0);
    var ten, one := FormatTime24(10, 0), FormatTime24(13, 0);
    assert nine == s[0].startTime && twelve == s[0].endTime;
    assert two == s[1].startTime && four == s[1].endTime;
    assert ten == s[2].startTime && one == s[2].endTime;
    BeforeIsEarlier(nine, twelve);
    BeforeIsEarlier(two, four);
    BeforeIsEarlier(ten, one);
  }

  /** A JavaScript value is truthy when present and, for a string, not empty. */
  predicate Truthy(v: Option<string>) {
    v.Some? && v.value != ""
  }

  /** The guard of the source's overlap check in `update`. */
  predicate TruthyScheduleChange(p: Patch) {
    Truthy(p.date) || Truthy(p.startTime) || Truthy(p.endTime)
  }

  /** The guard the check needs: any of date, start or end is supplied. */
  predicate SuppliesSchedule(p: Patch) {
    p.date.Some? || p.startTime.Some? || p.endTime.Some?
  }

  /** `update` exactly as the source writes it, on a list value: the
      overlap check is skipped unless one of the three fields is truthy. */
  function UpdateAsWritten(s: seq<Reservation>, id: int, p: Patch): (r: Result<seq<Reservation>, StoreError>)
    ensures r == Err(NotFound) <==> forall j :: 0 <= j < |s| ==> s[j].id != id
    ensures !TruthyScheduleChange(p) ==> r.Ok? || r == Err(NotFound)
    ensures r.Ok? ==> |r.value| == |s| && forall j :: 0 <= j < |s| && s[j].id != id ==> r.value[j] == s[j]
    ensures FindIndex(s, id).Some? ==>
      var i := FindIndex(s, id).value;
      var m := Merge(s[i], p);
      && (r.Ok? ==> r.value == s[i := m])
      && (r == Err(OverlapsExisting) <==>
            TruthyScheduleChange(p) && AnyConflict(OnDate(s, m.date), m.startTime, m.endTime, Some(id)))
  {
    match FindIndex(s, id)
    case None => Err(NotFound)
    case Some(i) =>
      var m := Merge(s[i], p);
      if TruthyScheduleChange(p) && AnyConflict(OnDate(s, m.date), m.startTime, m.endTime, Some(id))
      then Err(OverlapsExisting)
      else Ok(s[i := m])
  }

  /** A patch that sets the start time to the empty string is present but
      not truthy, so the as-written `update` stretches a reservation back
      over its neighbour on the same day without checking: the empty
      string sorts before every time. */
  lemma UpdateAsWrittenCanDoubleBook()
    ensures var s := [ Reservation(1, "2023-10-15", "09:00", "12:00", None, None),
                       Reservation(2, "2023-10-15", "12:00", "13:00", None, None) ];
            var r := UpdateAsWritten(s, 2, Patch(None, Some(""), None, None, None));
            UniqueIds(s) && Consistent(s) && r.Ok? && WellOrdered(r.value) && !NoDoubleBooking(r.value)
  {
    var a := Reservation(1, "2023-10-15", "09:00", "12:00", None, None);
    var b := Reservation(2, "2023-10-15", "12:00", "13:00", None, None);
    var m := b.(startTime := "");
    AdjacentNeighbours(a, b);
    StretchedNeighbours(a, m);
    var p := Patch(None, Some(""), None, None, None);
    assert !TruthyScheduleChange(p);
    assert FindIndex([a, b], 2) == Some(1);
    assert Merge(b, p) == m;
    assert [a, b][1 := m] == [a, m];
  }

  /** The store of the example: two back-to-back reservations. */
  lemma AdjacentNeighbours(a: Reservation, b: Reservation)
    requires a == Reservation(1, "2023-10-15", "09:00", "12:00", None, None)
    requires b == Reservation(2, "2023-10-15", "12:00", "13:00", None, None)
    ensures UniqueIds([a, b]) && Consistent([a, b])
  {
    var nine, twelve, one := FormatTime24(9, 0), FormatTime24(12, 0), FormatTime24(13, 0);
    assert nine == "09:00" && twelve == "12:00" && one == "13:00";
    BeforeIsEarlier(nine, twelve);
    BeforeIsEarlier(twelve, one);
    BeforeIrreflexive(twelve);
    assert !Intersects(a.startTime, a.endTime, b.startTime, b.endTime);
    assert !Intersects(b.startTime, b.endTime, a.startTime, a.endTime);
  }

  /** The store after the update: the second reservation now starts at "". */
  lemma StretchedNeighbours(a: Reservation, m: Reservation)
    requires a == Reservation(1, "2023-10-15", "09:00", "12:00", None, None)
    requires m == Reservation(2, "2023-10-15", "", "13:00", None, None)
    ensures WellOrdered([a, m]) && !NoDoubleBooking([a, m])
  {
    var nine, twelve, one := FormatTime24(9, 0), FormatTime24(12, 0), FormatTime24(13, 0);
    assert nine == "09:00" && twelve == "12:00" && one == "13:00";
    BeforeIsEarlier(nine, twelve);
    BeforeIsEarlier(nine, one);
    var after := [a, m];
    assert after[0].date == after[1].date
      && Intersects(after[0].startTime, after[0].endTime, after[1].startTime, after[1].endTime);
  }

  // ---------------------------------------------------------------------
  // The store

  class ReservationStore {
    /** The module-level `mockReservations` array. */
    var reservations: seq<Reservation>

    /** Ids are unique and no two reservations of one day intersect. */
    ghost predicate Valid()
      reads this
    {
      UniqueIds(reservations) && NoDoubleBooking(reservations)
    }

    constructor ()
      ensures Valid() && reservations == InitialReservations()
      ensures WellOrdered(reservations)
    {
      reservations := InitialReservations();
      InitialReservationsConsistent();
    }

    /** `getByDate`: the stored reservations of that day, in stored order. */
    method GetByDate(date: string) returns (r: seq<Reservation>)
      ensures r == OnDate(reservations, date)
      ensures forall x :: x in r <==> x in reservations && x.date == date
    {
      r := OnDate(reservations, date);
    }

    /** `getById`: the first reservation with that id, or "not found". */
    method GetById(id: int) returns (r: Result<Reservation, StoreError>)
      ensures r.Err? <==> forall j :: 0 <= j < |reservations| ==> reservations[j].id != id
      ensures r.Err? ==> r.error == NotFound
      ensures r.Ok? ==> r.value.id == id && r.value in reservations
      ensures FindIndex(reservations, id).Some? ==> r == Ok(reservations[FindIndex(reservations, id).value])
    {
      match FindIndex(reservations, id)
      case None => r := Err(NotFound);
      case Some(i) => r := Ok(reservations[i]);
    }

    /** `create`: refuse an input that meets any reservation of its day
        under the three-clause test; otherwise append it with a fresh id. */
    method Create(input: ReservationInput) returns (r: Result<Reservation, StoreError>)
      requires Valid()
      modifies this
      ensures Valid()
      ensures var clash := AnyConflict(OnDate(old(reservations), input.date),
                                       input.startTime, input.endTime, None);
        && (clash ==> r == Err(OverlapsExisting) && reservations == old(reservations))
        && (!clash ==> r == Ok(Reservation(NextId(old(reservations)), input.date, input.startTime,
                                           input.endTime, input.userName, input.userEmail))
                       && reservations == old(reservations) + [r.value])
      ensures WellOrdered(old(reservations)) && Before(input.startTime, input.endTime)
        ==> WellOrdered(reservations)
    {
      var s := reservations;
      var overlapping := AnyConflict(OnDate(s, input.date), input.startTime, input.endTime, None);
      if overlapping {
        return Err(OverlapsExisting);
      }
      var newId := if |s| > 0 then MaxId(s) + 1 else 1;
      var created := Reservation(newId, input.date, input.startTime, input.endTime,
                                 input.userName, input.userEmail);
      reservations := s + [created];
      r := Ok(created);
      ConflictOnDate(s, input.date, input.startTime, input.endTime, None);
      NoConflictKeepsNoDoubleBooking(s, |s|, reservations);
    }

    /** `update`: "not found" for an unknown id; otherwise the merged record
        is checked against every other reservation of its new day, and
        replaces the old entry in place. The check runs whenever the patch
        supplies the date, the start or the end. */
    method Update(id: int, p: Patch) returns (r: Result<Reservation, StoreError>)
      requires Valid()
      modifies this
      ensures Valid()
      ensures FindIndex(old(reservations), id).None? ==>
        r == Err(NotFound) && reservations == old(reservations)
      ensures FindIndex(old(reservations), id).Some? ==>
        var i := FindIndex(old(reservations), id).value;
        var m := Merge(old(reservations)[i], p);
        var clash := SuppliesSchedule(p)
          && AnyConflict(OnDate(old(reservations), m.date), m.startTime, m.endTime, Some(id));
        && (clash ==> r == Err(OverlapsExisting) && reservations == old(reservations))
        && (!clash ==> r == Ok(m) && reservations == old(reservations)[i := m])
      ensures WellOrdered(old(reservations)) && (r.Ok? ==> Before(r.value.startTime, r.value.endTime))
        ==> WellOrdered(reservations)
    {
      var s := reservations;
      var index := FindIndex(s, id);
      if index.None? {
        return Err(NotFound);
      }
      var i := index.value;
      var m := Merge(s[i], p);
      if SuppliesSchedule(p) {
        var overlapping := AnyConflict(OnDate(s, m.date), m.startTime, m.endTime, Some(id));
        if overlapping {
          return Err(OverlapsExisting);
        }
        ConflictOnDate(s, m.date, m.startTime, m.endTime, Some(id));
        NoConflictKeepsNoDoubleBooking(s, i, s[i := m]);
      } else {
        assert s[i := m] == s[i := m.(userName := s[i].userName, userEmail := s[i].userEmail)]
                            [i := m];
        SameScheduleKeepsNoDoubleBooking(s, i, m);
      }
      reservations := s[i := m];
      r := Ok(m);
    }

    /** `delete`: remove the entry with that id, or "not found". */
    method Delete(id: int) returns (r: Option<StoreError>)
      requires Valid()
      modifies this
      ensures Valid()
      ensures FindIndex(old(reservations), id).None? ==>
        r == Some(NotFound) && reservations == old(reservations)
      ensures FindIndex(old(reservations), id).Some? ==>
        var i := FindIndex(old(reservations), id).value;
        r == None && reservations == old(reservations)[..i] + old(reservations)[i + 1..]
      ensures r.None? ==> forall x :: x in reservations ==> x.id != id
      ensures forall x :: x in reservations ==> x in old(reservations)
      ensures WellOrdered(old(reservations)) ==> WellOrdered(reservations)
    {
      var s := reservations;
      var index := FindIndex(s, id);
      if index.None? {
        return Some(NotFound);
      }
      var i := index.value;
      reservations := s[..i] + s[i + 1..];
      r := None;
      RemoveKeepsInvariant(s, i);
    }
  }

  /** Writing a record at index `k` (an append when `k == |s|`) keeps the
      day's reservations disjoint when no other entry of its day, apart
      from those sharing its id, passes the three-clause test against it. */
  lemma NoConflictKeepsNoDoubleBooking(s: seq<Reservation>, k: nat, t: seq<Reservation>)
    requires k <= |s| && k < |t| && NoDoubleBooking(s) && UniqueIds(s)
    requires k < |s| ==> |t| == |s| && t == s[k := t[k]] && s[k].id == t[k].id
    requires k == |s| ==> |t| == |s| + 1 && t[..|s|] == s && forall j :: 0 <= j < |s| ==> s[j].id < t[k].id
    requires !exists j :: 0 <= j < |s| && s[j].date == t[k].date && Considered(s[j], Some(t[k].id))
               && ThreeClause(t[k].startTime, t[k].endTime, s[j].startTime, s[j].endTime)
    ensures NoDoubleBooking(t) && UniqueIds(t)
  {
    var n := t[k];
    forall j | 0 <= j < |t| && j != k && t[j].date == n.date
      ensures !Intersects(n.startTime, n.endTime, t[j].startTime, t[j].endTime)
    {
      assert t[j] == s[j] && Considered(s[j], Some(n.id));
      if Intersects(n.startTime, n.endTime, t[j].startTime, t[j].endTime) {
        IntersectionIsThreeClause(n.startTime, n.endTime, t[j].startTime, t[j].endTime);
      }
    }
  }

  /** A patch that supplies none of date, start and end leaves the
      schedule of the day as it was. */
  lemma SameScheduleKeepsNoDoubleBooking(s: seq<Reservation>, i: nat, m: Reservation)
    requires i < |s| && NoDoubleBooking(s) && UniqueIds(s)
    requires m.id == s[i].id && m.date == s[i].date
    requires m.startTime == s[i].startTime && m.endTime == s[i].endTime
    ensures NoDoubleBooking(s[i := m]) && UniqueIds(s[i := m])
  {
  }

  lemma RemoveKeepsInvariant(s: seq<Reservation>, i: nat)
    requires i < |s|
    ensures var t := s[..i] + s[i + 1..];
      && (UniqueIds(s) ==> UniqueIds(t) && forall x :: x in t ==> x.id != s[i].id)
      && (NoDoubleBooking(s) ==> NoDoubleBooking(t))
      && (WellOrdered(s) ==> WellOrdered(t))
      && (forall x :: x in t ==> x in s)
  {
    var t := s[..i] + s[i + 1..];
    assert forall j :: 0 <= j < |t| ==> t[j] == s[if j < i then j else j + 1];
    if UniqueIds(s) {
      forall x | x in t
        ensures x.id != s[i].id
      {
        var j :| 0 <= j < |t| && t[j] == x;
      }
    }
  }

  // ---------------------------------------------------------------------
  // The response cache in front of the real server

  datatype CacheEntry = CacheEntry(data: seq<Reservation>, timestamp: int)

  /** One minute, in milliseconds. */
  const CacheTtl := 60000

  function CacheKey(date: string): (key: string)
    ensures |key| == |date| + 13 && key[13..] == date
  {
    "reservations_" + date
  }

  /** Different dates have different keys, so invalidating one date's key
      never drops another date's entry. */
  lemma CacheKeyInjective(a: string, b: string)
    requires CacheKey(a) == CacheKey(b)
    ensures a == b
  {
    assert a == CacheKey(a)[13..];
  }

  class ApiCache {
    /** The module-level `apiCache` dictionary. */
    var entries: map<string, CacheEntry>

    constructor ()
      ensures entries == map[]
    {
      entries := map[];
    }

    /** A cached answer for `date` is served at time `now` only while it is
        younger than the time-to-live. */
    predicate Fresh(date: string, now: int)
      reads this
    {
      CacheKey(date) in entries && now - entries[CacheKey(date)].timestamp < CacheTtl
    }

    /** `invalidateCache`: drop the entry of that date and no other. */
    method Invalidate(date: string)
      modifies this
      ensures entries == old(entries) - {CacheKey(date)}
      ensures forall d :: d != date ==>
        (CacheKey(d) in entries <==> CacheKey(d) in old(entries))
    {
      var key := CacheKey(date);
      if key in entries {
        entries := entries - {key};
      }
      forall d | d != date
        ensures CacheKey(d) != key
      {
        if CacheKey(d) == key {
          CacheKeyInjective(d, date);
        }
      }
    }

    /** The cache logic of `getByDate` on the real server: a fresh entry is
        returned as it is; otherwise the answer `fetched` (`None` for a
        failed request) is returned and, on success, cached with time
        stamp `now`. A failed request yields an empty list and caches
        nothing. */
    method GetByDate(date: string, now: int, fetched: Option<seq<Reservation>>)
      returns (r: seq<Reservation>)
      modifies this
      ensures old(Fresh(date, now)) ==>
        r == old(entries)[CacheKey(date)].data && entries == old(entries)
      ensures !old(Fresh(date, now)) && fetched.Some? ==>
        r == fetched.value && entries == old(entries)[CacheKey(date) := CacheEntry(fetched.value, now)]
      ensures !old(Fresh(date, now)) && fetched.None? ==>
        r == [] && entries == old(entries)
      ensures fetched.Some? ==> Fresh(date, now)
    {
      var key := CacheKey(date);
      if key in entries && now - entries[key].timestamp < CacheTtl {
        return entries[key].data;
      }
      if fetched.None? {
        return [];
      }
      entries := entries[key := CacheEntry(fetched.value, now)];
      r := fetched.value;
    }
  }
}
