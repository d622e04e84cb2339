// The attendance ledger engine of internal/service/attendance_service.go:
// one record per user and calendar day, created by a geofenced check-in and
// completed once by a geofenced check-out, plus the read paths over it.
// The clock is the `now` parameter of each operation.

module AttendanceService {
  import opened Common
  import opened Clock
  import opened Geo
  import opened AttendanceModel
  import Users
  import Locations

  datatype CheckInRequest = CheckInRequest(
    locationId: nat, latitude: real, longitude: real, photoUrl: string, notes: string)

  datatype CheckOutRequest = CheckOutRequest(latitude: real, longitude: real, notes: string)

  /** Where a user stands on a given day. */
  datatype DayState = NoRecord | CheckedIn | CheckedOut

  /** The payload of GetAttendanceStatus. */
  datatype StatusReport =
    | NotCheckedIn(message: string)
    | CheckedInReport(hasCheckedOut: bool, checkInTime: Instant, checkOutTime: Option<Instant>,
                      location: string, status: Status)
  {
    predicate HasCheckedIn() { CheckedInReport? }
    predicate HasCheckedOut() { CheckedInReport? && hasCheckedOut }
  }

  /** One entry of the loosely typed filter bag the admin listing receives. */
  datatype FilterValue = UintValue(n: nat) | StringValue(s: string)

  /** The filters that survive the type assertions of GetAllAttendances;
      dates are already calendar days. */
  datatype Criteria = Criteria(
    userId: Option<nat>, locationId: Option<nat>, status: Option<string>,
    dayFrom: Option<int>, dayTo: Option<int>)

  /** determineAttendanceStatus: the hour of the check-in alone decides. */
  function DetermineAttendanceStatus(checkInTime: Instant): (s: Status)
    ensures s == Present <==> HourOf(checkInTime) <= 9
    ensures s == Late <==> 10 <= HourOf(checkInTime) <= 11
    ensures s == HalfDay <==> 12 <= HourOf(checkInTime)
  {
    var hour := HourOf(checkInTime);
    if hour < 9 then Present
    else if hour == 9 then Present
    else if hour < 12 then Late
    else HalfDay
  }

  /** 08:30 is present, 10:00 late and 13:00 a half day. */
  lemma StatusExamples(day: int)
    ensures DetermineAttendanceStatus(day * Day + 8 * Hour + 30 * Minute) == Present
    ensures DetermineAttendanceStatus(day * Day + 10 * Hour) == Late
    ensures DetermineAttendanceStatus(day * Day + 13 * Hour) == HalfDay
  {
    DivModUnique(day * Day + 8 * Hour + 30 * Minute, Day, day, 8 * Hour + 30 * Minute);
    DivModUnique(day * Day + 10 * Hour, Day, day, 10 * Hour);
    DivModUnique(day * Day + 13 * Hour, Day, day, 13 * Hour);
  }

  /** Present < Late < HalfDay. */
  function Severity(s: Status): nat
  {
    match s
    case Present => 0
    case Late => 1
    case HalfDay => 2
  }

  /** A later hour never yields a better status. */
  lemma StatusMonotoneInHour(t1: Instant, t2: Instant)
    requires HourOf(t1) <= HourOf(t2)
    ensures Severity(DetermineAttendanceStatus(t1)) <= Severity(DetermineAttendanceStatus(t2))
  {
  }

  /** The notes after check-out: an empty request note keeps the stored
      notes, empty stored notes are replaced, otherwise the two are joined by
      " | ". Notes only ever grow. */
  function MergeNotes(stored: string, requested: string): (r: string)
    ensures requested == "" ==> r == stored
    ensures stored == "" ==> r == requested
    ensures stored != "" && requested != "" ==> r == stored + " | " + requested
    ensures stored <= r
    ensures |requested| <= |r| && r[|r| - |requested|..] == requested
  {
    if requested != "" then
      if stored != "" then stored + " | " + requested else requested
    else stored
  }

  /** The real key of a record: the user and the calendar day of check-in. */
  function UserDay(a: Attendance): (nat, int)
  {
    (a.userId, DayOf(a.checkInTime))
  }

  /** The three check-out fields are set together. */
  predicate CheckOutConsistent(a: Attendance)
  {
    && a.checkOutTime.Some? == a.checkOutLatitude.Some?
    && a.checkOutTime.Some? == a.checkOutLongitude.Some?
  }

  /** The ledger invariant: ids positive, below the next one and increasing;
      at most one record per user per day; check-out fields all or nothing. */
  ghost predicate WellFormed(records: seq<Attendance>, nextId: nat)
  {
    && (forall i :: 0 <= i < |records| ==> 0 < records[i].id < nextId)
    && (forall i, j :: 0 <= i < j < |records| ==> records[i].id < records[j].id)
    && UniqueKeys(records, UserDay)
    && (forall i :: 0 <= i < |records| ==> CheckOutConsistent(records[i]))
  }

  /** Appending a record for a user and day not yet in the ledger, under the
      next id, keeps the ledger well formed. */
  lemma AppendWellFormed(records: seq<Attendance>, nextId: nat, a: Attendance)
    requires WellFormed(records, nextId)
    requires a.id == nextId > 0 && CheckOutConsistent(a)
    requires IndexOfKey(records, UserDay, UserDay(a)).None?
    ensures WellFormed(records + [a], nextId + 1)
    ensures IndexOfKey(records + [a], UserDay, UserDay(a)) == Some(|records|)
  {
    AppendUniqueKey(records, UserDay, a);
    UniqueKeyFound(records + [a], UserDay, UserDay(a), |records|);
  }

  /** Rewriting one record in place, keeping its id and its user and day,
      keeps the ledger well formed. */
  lemma ReplaceWellFormed(records: seq<Attendance>, nextId: nat, i: nat, a: Attendance)
    requires WellFormed(records, nextId)
    requires i < |records| && a.id == records[i].id && UserDay(a) == UserDay(records[i])
    requires CheckOutConsistent(a)
    ensures WellFormed(records[i := a], nextId)
    ensures IndexOfKey(records[i := a], UserDay, UserDay(a)) == Some(i)
  {
    ReplaceUniqueKey(records, UserDay, i, a);
  }

  ghost predicate SortedByCheckInDesc(s: seq<Attendance>)
  {
    forall i, j :: 0 <= i < j < |s| ==> s[i].checkInTime >= s[j].checkInTime
  }

  function InsertByCheckInDesc(a: Attendance, s: seq<Attendance>): (r: seq<Attendance>)
    requires SortedByCheckInDesc(s)
    ensures SortedByCheckInDesc(r)
    ensures multiset(r) == multiset(s) + multiset{a}
    ensures |r| == |s| + 1
    ensures r[0] == a || (s != [] && r[0] == s[0])
    ensures forall x :: x in r <==> x == a || x in s
  {
    if s == [] || a.checkInTime >= s[0].checkInTime then [a] + s
    else
      assert s == [s[0]] + s[1..];
      [s[0]] + InsertByCheckInDesc(a, s[1..])
  }

  /** `ORDER BY check_in_time DESC`; records with equal check-in times keep
      their table order. */
  function SortByCheckInDesc(s: seq<Attendance>): (r: seq<Attendance>)
    ensures SortedByCheckInDesc(r)
    ensures multiset(r) == multiset(s)
    ensures |r| == |s|
    ensures forall x :: x in r <==> x in s
  {
    if s == [] then []
    else
      assert s == [s[0]] + s[1..];
      InsertByCheckInDesc(s[0], SortByCheckInDesc(s[1..]))
  }

  /** How many of `total` rows `LIMIT limit OFFSET offset` leaves: none past
      the end, at most `limit`, a non-positive offset counting as none. */
  function PageLength(total: nat, limit: nat, offset: int): nat
  {
    var o := if offset > 0 then offset else 0;
    if o >= total then 0 else if limit < total - o then limit else total - o
  }

  /** `LIMIT limit OFFSET offset`; a non-positive offset is not emitted. */
  function Paginate<T>(s: seq<T>, limit: nat, offset: int): (r: seq<T>)
    ensures offset <= 0 ==> |r| == if limit < |s| then limit else |s|
    ensures offset > 0 ==> |r| == if offset >= |s| then 0 else if limit < |s| - offset then limit else |s| - offset
    ensures |r| == PageLength(|s|, limit, offset)
    ensures forall k :: 0 <= k < |r| ==> r[k] == s[(if offset > 0 then offset else 0) + k]
    ensures forall x :: x in r ==> x in s
  {
    var start := if offset <= 0 then 0 else if offset < |s| then offset else |s|;
    var end := if start + limit < |s| then start + limit else |s|;
    s[start..end]
  }

  /** A filter entry that is a positive unsigned integer. */
  function UintFilter(filters: map<string, FilterValue>, key: string): (r: Option<nat>)
    ensures r.Some? <==> key in filters && filters[key].UintValue? && filters[key].n > 0
    ensures r.Some? ==> r.value == filters[key].n
  {
    if key in filters && filters[key].UintValue? && filters[key].n > 0 then Some(filters[key].n) else None
  }

  /** A filter entry that is a non-empty string. */
  function StringFilter(filters: map<string, FilterValue>, key: string): (r: Option<string>)
    ensures r.Some? <==> key in filters && filters[key].StringValue? && filters[key].s != ""
    ensures r.Some? ==> r.value == filters[key].s
  {
    if key in filters && filters[key].StringValue? && filters[key].s != "" then Some(filters[key].s) else None
  }

  /** Every present criterion holds of the record (the filters are ANDed). */
  predicate Matches(c: Criteria, a: Attendance)
  {
    && (c.userId.None? || a.userId == c.userId.value)
    && (c.locationId.None? || a.locationId == c.locationId.value)
    && (c.status.None? || StatusName(a.status) == c.status.value)
    && (c.dayFrom.None? || DayOf(a.checkInTime) >= c.dayFrom.value)
    && (c.dayTo.None? || DayOf(a.checkInTime) <= c.dayTo.value)
  }

  class AttendanceService {
    var records: seq<Attendance>
    var nextId: nat
    const locationService: Locations.LocationService
    const userService: Users.UserService
    /** The database's cast of a 'YYYY-MM-DD' filter string to a day, None
        when the cast fails. */
    const parseDay: string -> Option<int>

    ghost predicate Valid()
      reads this
    {
      nextId > 0 && WellFormed(records, nextId)
    }

    constructor (locationService: Locations.LocationService, userService: Users.UserService,
                 parseDay: string -> Option<int>)
      ensures Valid() && records == []
      ensures this.locationService == locationService && this.userService == userService
      ensures this.parseDay == parseDay
    {
      records := [];
      nextId := 1;
      this.locationService := locationService;
      this.userService := userService;
      this.parseDay := parseDay;
    }

    /** The position of the user's record for the day of `now`, if any. */
    function TodayIndex(userId: nat, now: Instant): (r: Option<nat>)
      reads this
      ensures r.Some? ==> r.value < |records| && UserDay(records[r.value]) == (userId, DayOf(now))
      ensures r.None? <==> forall a :: a in records ==> UserDay(a) != (userId, DayOf(now))
    {
      IndexOfKey(records, UserDay, (userId, DayOf(now)))
    }

    /** The state of the per-day machine for this user today. */
    function StateToday(userId: nat, now: Instant): (st: DayState)
      reads this
      ensures st == NoRecord <==> TodayIndex(userId, now).None?
      ensures st == CheckedOut <==> TodayIndex(userId, now).Some? && records[TodayIndex(userId, now).value].checkOutTime.Some?
    {
      match TodayIndex(userId, now)
      case None => NoRecord
      case Some(i) => if records[i].checkOutTime.None? then CheckedIn else CheckedOut
    }

    /** HasCheckedInToday: some record of this user was checked in today. */
    function HasCheckedInToday(userId: nat, now: Instant): (b: bool)
      reads this
      ensures b <==> exists a :: a in records && a.userId == userId && DayOf(a.checkInTime) == DayOf(now)
      ensures b <==> StateToday(userId, now) != NoRecord
    {
      TodayIndex(userId, now).Some?
    }

    /** A record with the relations `Preload` fills: the location always, the
        user only when asked; a missing row leaves the zero value. */
    function Load(a: Attendance, withUser: bool): (l: Loaded)
      reads userService, locationService
      ensures l.record == a
      ensures !withUser ==> l.user == Users.ZeroUser
      ensures withUser && userService.GetUserByID(a.userId).Ok? ==> l.user == userService.GetUserByID(a.userId).value
      ensures withUser && userService.GetUserByID(a.userId).Err? ==> l.user == Users.ZeroUser
      ensures locationService.GetLocationByID(a.locationId).Ok? ==>
        l.location == locationService.GetLocationByID(a.locationId).value
      ensures locationService.GetLocationByID(a.locationId).Err? ==> l.location == Locations.ZeroLocation
    {
      var user := if !withUser then Users.ZeroUser else
        match userService.GetUserByID(a.userId)
        case Ok(u) => u
        case Err(_) => Users.ZeroUser;
      var location := match locationService.GetLocationByID(a.locationId)
        case Ok(loc) => loc
        case Err(_) => Locations.ZeroLocation;
      Loaded(a, user, location)
    }

    function LoadAll(s: seq<Attendance>, withUser: bool): (r: seq<Loaded>)
      reads userService, locationService
      ensures |r| == |s|
      ensures forall k :: 0 <= k < |s| ==> r[k] == Load(s[k], withUser)
      ensures forall l :: l in r ==> l.record in s && (!withUser ==> l.user == Users.ZeroUser)
    {
      if s == [] then [] else [Load(s[0], withUser)] + LoadAll(s[1..], withUser)
    }

    /** GetTodayAttendance: today's record with user and location, or
        "no attendance record found for today". */
    function GetTodayAttendance(userId: nat, now: Instant): (r: Result<Loaded>)
      reads this, userService, locationService
      ensures r.Err? <==> StateToday(userId, now) == NoRecord
      ensures r.Err? ==> r.error == NoRecordToday
      ensures r.Ok? ==> r.value.record in records && UserDay(r.value.record) == (userId, DayOf(now))
      ensures r.Ok? ==> r.value == Load(records[TodayIndex(userId, now).value], true)
    {
      match TodayIndex(userId, now)
      case None => Err(NoRecordToday)
      case Some(i) => Ok(Load(records[i], true))
    }

    /** GetAttendanceStatus: never fails. Without a record today both flags
        are false; otherwise the user has checked in, and has checked out
        exactly when the record carries a check-out time. */
    function GetAttendanceStatus(userId: nat, now: Instant): (s: StatusReport)
      reads this, userService, locationService
      ensures s.HasCheckedIn() <==> StateToday(userId, now) != NoRecord
      ensures s.HasCheckedOut() <==> StateToday(userId, now) == CheckedOut
      ensures s.NotCheckedIn? ==> s.message == "You haven't checked in today"
      ensures s.CheckedInReport? ==>
        var a := records[TodayIndex(userId, now).value];
        && s.checkInTime == a.checkInTime && s.checkOutTime == a.checkOutTime && s.status == a.status
        && (locationService.GetLocationByID(a.locationId).Ok? ==>
              s.location == locationService.GetLocationByID(a.locationId).value.name)
        && (locationService.GetLocationByID(a.locationId).Err? ==> s.location == "")
    {
      match GetTodayAttendance(userId, now)
      case Err(_) => NotCheckedIn("You haven't checked in today")
      case Ok(l) =>
        CheckedInReport(l.record.checkOutTime.Some?, l.record.checkInTime, l.record.checkOutTime,
                        l.location.name, l.record.status)
    }

    /** GetUserAttendanceHistory: one page of the user's records, newest
        check-in first, with the location loaded, and the user's total. */
    function GetUserAttendanceHistory(userId: nat, limit: nat, offset: int): (r: (seq<Loaded>, nat))
      requires limit >= 1
      reads this, userService, locationService
      ensures r.1 == |Filter(records, (a: Attendance) => a.userId == userId)|
      ensures |r.0| <= limit
      ensures forall l :: l in r.0 ==> l.record in records && l.record.userId == userId && l.user.id == 0
      ensures forall i, j :: 0 <= i < j < |r.0| ==> r.0[i].record.checkInTime >= r.0[j].record.checkInTime
      ensures offset <= 0 ==> |r.0| == if limit < r.1 then limit else r.1
      ensures |r.0| == PageLength(r.1, limit, offset)
    {
      var mine := Filter(records, (a: Attendance) => a.userId == userId);
      var page := Paginate(SortByCheckInDesc(mine), limit, offset);
      (LoadAll(page, false), |mine|)
    }

    /** The structured criteria the filter bag stands for; a date filter the
        database cannot read makes the query fail. */
    function CriteriaOf(filters: map<string, FilterValue>): (r: Result<Criteria>)
      reads this
      ensures r.Err? ==> r.error == QueryFailed
      ensures r.Err? <==>
        || (StringFilter(filters, "date_from").Some? && parseDay(StringFilter(filters, "date_from").value).None?)
        || (StringFilter(filters, "date_to").Some? && parseDay(StringFilter(filters, "date_to").value).None?)
      ensures r.Ok? ==>
        && r.value.userId == UintFilter(filters, "user_id")
        && r.value.locationId == UintFilter(filters, "location_id")
        && r.value.status == StringFilter(filters, "status")
        && (r.value.dayFrom.Some? <==> StringFilter(filters, "date_from").Some?)
        && (r.value.dayFrom.Some? ==> r.value.dayFrom == parseDay(StringFilter(filters, "date_from").value))
        && (r.value.dayTo.Some? <==> StringFilter(filters, "date_to").Some?)
        && (r.value.dayTo.Some? ==> r.value.dayTo == parseDay(StringFilter(filters, "date_to").value))
    {
      var from := StringFilter(filters, "date_from");
      var to := StringFilter(filters, "date_to");
      if from.Some? && parseDay(from.value).None? then Err(QueryFailed)
      else if to.Some? && parseDay(to.value).None? then Err(QueryFailed)
      else
        Ok(Criteria(
          UintFilter(filters, "user_id"),
          UintFilter(filters, "location_id"),
          StringFilter(filters, "status"),
          if from.Some? then parseDay(from.value) else None,
          if to.Some? then parseDay(to.value) else None))
    }

    /** The records satisfying every criterion, in table order. */
    function Matching(c: Criteria): (r: seq<Attendance>)
      reads this
      ensures forall a :: a in r <==> a in records && Matches(c, a)
    {
      Filter(records, (a: Attendance) => Matches(c, a))
    }

    /** GetAllAttendances: one page of the records matching all filters,
        newest check-in first, with user and location loaded, and the total
        number of matches. */
    function GetAllAttendances(filters: map<string, FilterValue>, limit: nat, offset: int): (r: Result<(seq<Loaded>, nat)>)
      requires limit >= 1
      reads this, userService, locationService
      ensures r.Err? <==> CriteriaOf(filters).Err?
      ensures r.Err? ==> r == Err(QueryFailed)
      ensures r.Ok? ==> r.value.1 == |Matching(CriteriaOf(filters).value)|
      ensures r.Ok? ==> |r.value.0| <= limit
      ensures r.Ok? ==> |r.value.0| == PageLength(r.value.1, limit, offset)
      ensures r.Ok? ==> forall l :: l in r.value.0 ==>
        l.record in records && Matches(CriteriaOf(filters).value, l.record)
      ensures r.Ok? ==> forall i, j :: 0 <= i < j < |r.value.0| ==>
        r.value.0[i].record.checkInTime >= r.value.0[j].record.checkInTime
    {
      match CriteriaOf(filters)
      case Err(e) => Err(e)
      case Ok(c) =>
        var matching := Matching(c);
        var page := Paginate(SortByCheckInDesc(matching), limit, offset);
        Ok((LoadAll(page, true), |matching|))
    }

    /** CheckIn: refuses a second check-in on the same day, propagates the
        location errors, refuses a position outside the geofence, and
        otherwise inserts exactly one record classified by the hour of `now`.
        Every failure leaves the ledger as it was. */
    method CheckIn(userId: nat, req: CheckInRequest, now: Instant) returns (r: Result<Loaded>)
      requires Valid()
      modifies this
      ensures Valid()
      ensures
        var v := locationService.ValidateLocationForAttendance(req.locationId, GeoPoint(req.latitude, req.longitude));
        if old(HasCheckedInToday(userId, now)) then r == Err(AlreadyCheckedIn)
        else if v.err.Some? then r == Err(v.err.value)
        else if !v.isValid then r == Err(OutsideRadius)
        else
          && r.Ok?
          && r.value.record == Attendance(old(nextId), userId, req.locationId, now, None,
                                           req.latitude, req.longitude, None, None, v.distance,
                                           DetermineAttendanceStatus(now), req.notes, req.photoUrl)
          && r.value == Load(r.value.record, true)
      ensures r.Err? ==> records == old(records) && nextId == old(nextId)
      ensures r.Ok? ==> records == old(records) + [r.value.record]
      ensures r.Ok? ==> old(StateToday(userId, now)) == NoRecord && StateToday(userId, now) == CheckedIn
    {
      if HasCheckedInToday(userId, now) {
        return Err(AlreadyCheckedIn);
      }
      var v := locationService.ValidateLocationForAttendance(req.locationId, GeoPoint(req.latitude, req.longitude));
      if v.err.Some? {
        return Err(v.err.value);
      }
      if !v.isValid {
        return Err(OutsideRadius);
      }
      var status := DetermineAttendanceStatus(now);
      var attendance := Attendance(nextId, userId, req.locationId, now, None,
                                   req.latitude, req.longitude, None, None, v.distance,
                                   status, req.notes, req.photoUrl);
      AppendWellFormed(records, nextId, attendance);
      records := records + [attendance];
      nextId := nextId + 1;
      r := Ok(Load(attendance, true));
    }

    /** CheckOut: needs today's record not yet checked out, re-validates the
        position against the record's own location, then sets the check-out
        time and position and appends the note; status, check-in fields and
        location are kept. Every failure leaves the ledger as it was. */
    method CheckOut(userId: nat, req: CheckOutRequest, now: Instant) returns (r: Result<Loaded>)
      requires Valid()
      modifies this
      ensures Valid() && nextId == old(nextId)
      ensures old(StateToday(userId, now)) == NoRecord ==> r == Err(NoRecordToday)
      ensures old(StateToday(userId, now)) == CheckedOut ==> r == Err(AlreadyCheckedOut)
      ensures old(StateToday(userId, now)) == CheckedIn ==>
        var i := old(TodayIndex(userId, now)).value;
        var a := old(records)[i];
        var v := locationService.ValidateLocationForAttendance(a.locationId, GeoPoint(req.latitude, req.longitude));
        if v.err.Some? then r == Err(v.err.value)
        else if !v.isValid then r == Err(OutsideRadiusForCheckOut)
        else
          && r.Ok?
          && r.value.record == a.(checkOutTime := Some(now),
                                  checkOutLatitude := Some(req.latitude),
                                  checkOutLongitude := Some(req.longitude),
                                  notes := MergeNotes(a.notes, req.notes))
          && r.value == Load(r.value.record, true)
          && records == old(records)[i := r.value.record]
      ensures r.Err? ==> records == old(records)
      ensures r.Ok? ==> old(StateToday(userId, now)) == CheckedIn && StateToday(userId, now) == CheckedOut
    {
      var idx := TodayIndex(userId, now);
      if idx.None? {
        return Err(NoRecordToday);
      }
      var i := idx.value;
      var attendance := records[i];
      if attendance.checkOutTime.Some? {
        return Err(AlreadyCheckedOut);
      }
      var v := locationService.ValidateLocationForAttendance(attendance.locationId, GeoPoint(req.latitude, req.longitude));
      if v.err.Some? {
        return Err(v.err.value);
      }
      if !v.isValid {
        return Err(OutsideRadiusForCheckOut);
      }
      attendance := attendance.(checkOutTime := Some(now));
      attendance := attendance.(checkOutLatitude := Some(req.latitude));
      attendance := attendance.(checkOutLongitude := Some(req.longitude));
      if req.notes != "" {
        if attendance.notes != "" {
          attendance := attendance.(notes := attendance.notes + " | " + req.notes);
        } else {
          attendance := attendance.(notes := req.notes);
        }
      }
      assert attendance.notes == MergeNotes(records[i].notes, req.notes);
      ReplaceWellFormed(records, nextId, i, attendance);
      records := records[i := attendance];
      r := Ok(Load(attendance, true));
    }
  }
}
