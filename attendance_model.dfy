// The attendance record and its response view (internal/model/attendance.go):
// which optional parts a response carries, and how the work duration is
// truncated to whole minutes.

module AttendanceModel {
  import opened Common
  import opened Clock
  import Users
  import Locations

  /** The status a check-in is classified with; stored as a string in the source. */
  datatype Status = Present | Late | HalfDay

  function StatusName(s: Status): string
  {
    match s
    case Present => "present"
    case Late => "late"
    case HalfDay => "half_day"
  }

  /** model.Attendance without the timestamps gorm maintains by itself. The
      three check-out fields are nil until check-out. */
  datatype Attendance = Attendance(
    id: nat,
    userId: nat,
    locationId: nat,
    checkInTime: Instant,
    checkOutTime: Option<Instant>,
    checkInLatitude: real,
    checkInLongitude: real,
    checkOutLatitude: Option<real>,
    checkOutLongitude: Option<real>,
    distanceFromLocation: real,
    status: Status,
    notes: string,
    photoUrl: string)

  /** An attendance row together with the relations `Preload` filled in; a
      relation that was not loaded (or not found) is the zero value, id 0. */
  datatype Loaded = Loaded(record: Attendance, user: Users.User, location: Locations.Location)

  /** model.AttendanceResponse; `workDuration` is the duration that the
      source turns into text with Duration.String(). */
  datatype AttendanceResponse = AttendanceResponse(
    id: nat,
    userId: nat,
    locationId: nat,
    checkInTime: Instant,
    checkOutTime: Option<Instant>,
    checkInLatitude: real,
    checkInLongitude: real,
    checkOutLatitude: Option<real>,
    checkOutLongitude: Option<real>,
    distanceFromLocation: real,
    status: Status,
    notes: string,
    photoUrl: string,
    workDuration: Option<Duration>,
    user: Option<Users.UserResponse>,
    location: Option<Locations.Location>)

  /** The quotient and remainder of a division are the unique ones. */
  lemma DivModUnique(a: int, m: int, q: int, r: int)
    requires m > 0 && 0 <= r < m && a == m * q + r
    ensures a / m == q && a % m == r
  {
    var q', r' := a / m, a % m;
    var k := q' - q;
    assert m * k == r - r' by {
      assert m * q' + r' == m * q + r;
      assert m * k == m * q' - m * q;
    }
  }

  /** Dividing by 60 minutes at once is dividing into minutes and then by 60. */
  lemma HoursFromMinutes(d: int)
    requires d >= 0
    ensures d / Hour == (d / Minute) / 60
    ensures (d / Minute) / 60 * 60 + (d / Minute) % 60 == d / Minute
  {
    var t := d / Minute;
    var q, r := t / 60, t % 60;
    assert t == 60 * q + r;
    assert d == Minute * t + d % Minute;
    assert d == Hour * q + (Minute * r + d % Minute);
    DivModUnique(d, Hour, q, Minute * r + d % Minute);
  }

  /** The whole hours and the minutes past them that formatDuration keeps:
      `int(d.Hours())` and `int(d.Minutes()) % 60`, read as exact truncation
      toward zero; the float64 rounding those calls add from 4096 hours on is
      not modelled. */
  function DurationParts(d: Duration): (hm: (int, int))
  {
    (TruncDiv(d, Hour), TruncRem(TruncDiv(d, Minute), 60))
  }

  /** For a non-negative duration the parts are whole hours plus 0 to 59
      minutes, and together they count the whole minutes of `d`. */
  lemma {:induction false} DurationPartsOfNonNegative(d: Duration)
    requires d >= 0
    ensures 0 <= DurationParts(d).1 < 60
    ensures DurationParts(d).0 * 60 + DurationParts(d).1 == d / Minute
  {
    HoursFromMinutes(d);
  }

  /** formatDuration, before Duration.String() renders it: `d` with its
      seconds and sub-seconds dropped, truncating toward zero (exact below
      4096 hours, where the float64 parts cannot round up). */
  function FormatDuration(d: Duration): (r: Duration)
    ensures r == TruncDiv(d, Minute) * Minute
    ensures d >= 0 ==> 0 <= d - r < Minute
    ensures d < 0 ==> -Minute < d - r <= 0
  {
    var (hours, minutes) := DurationParts(d);
    if d >= 0 then
      HoursFromMinutes(d);
      hours * Hour + minutes * Minute
    else
      HoursFromMinutes(-d);
      hours * Hour + minutes * Minute
  }

  /** Attendance.ToResponse: every scalar is copied; the work duration is
      present exactly for a checked-out record; the user and location views
      are attached exactly when those relations were loaded. */
  function ToResponse(l: Loaded): (r: AttendanceResponse)
    ensures r.id == l.record.id && r.userId == l.record.userId && r.locationId == l.record.locationId
    ensures r.checkInTime == l.record.checkInTime && r.checkOutTime == l.record.checkOutTime
    ensures r.checkInLatitude == l.record.checkInLatitude && r.checkInLongitude == l.record.checkInLongitude
    ensures r.checkOutLatitude == l.record.checkOutLatitude && r.checkOutLongitude == l.record.checkOutLongitude
    ensures r.distanceFromLocation == l.record.distanceFromLocation && r.status == l.record.status
    ensures r.notes == l.record.notes && r.photoUrl == l.record.photoUrl
    ensures r.workDuration.Some? <==> l.record.checkOutTime.Some?
    ensures r.workDuration.Some? ==>
      r.workDuration.value == TruncDiv(l.record.checkOutTime.value - l.record.checkInTime, Minute) * Minute
    ensures r.user.Some? <==> l.user.id != 0
    ensures r.user.Some? ==> r.user.value == Users.ToResponse(l.user)
    ensures r.location.Some? <==> l.location.id != 0
    ensures r.location.Some? ==> r.location.value == l.location
  {
    var a := l.record;
    AttendanceResponse(
      a.id, a.userId, a.locationId, a.checkInTime, a.checkOutTime,
      a.checkInLatitude, a.checkInLongitude, a.checkOutLatitude, a.checkOutLongitude,
      a.distanceFromLocation, a.status, a.notes, a.photoUrl,
      if a.checkOutTime.Some? then Some(FormatDuration(a.checkOutTime.value - a.checkInTime)) else None,
      if l.user.id != 0 then Some(Users.ToResponse(l.user)) else None,
      if l.location.id != 0 then Some(l.location) else None)
  }

  /** A reported work duration never exceeds the time actually worked and
      falls short of it by less than a minute. */
  lemma WorkDurationWithinAMinute(l: Loaded)
    requires l.record.checkOutTime.Some? && l.record.checkOutTime.value >= l.record.checkInTime
    ensures var w := ToResponse(l).workDuration.value;
      var worked := l.record.checkOutTime.value - l.record.checkInTime;
      0 <= w <= worked < w + Minute && w % Minute == 0
  {
  }
}
