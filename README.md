# Attendance backend: the ledger engine and its rules, in Dafny

This project models the core of an attendance backend written in Go. Employees
check in and check out once per calendar day. Both steps are accepted only when
the reported GPS position lies inside the geofence of an active work location.
Each record sits in a small per-user, per-day state machine:
NoRecord, then CheckedIn, then CheckedOut. The status of a check-in (present,
late, half day) comes from the hour of the check-in.

Around the engine the model covers:

- the location directory (geofences, partial updates, the "nearby" search);
- the user table (unique emails, partial updates, the last-admin guard, statistics);
- work schedules and their assignment to users;
- the authentication decision chain (register, login, refresh);
- the `Authorization: Bearer <token>` header parsing and the admin gate;
- the response view of a record, with its work duration truncated to whole minutes;
- the listing handlers' page, limit, offset and page-count arithmetic and their filter bag.

The listing handlers compute their offset as the code does, in 64-bit
arithmetic with wrap-around. The exact offset is kept beside it as the
corrected definition, and the two agree whenever the product fits (see
"## Findings").

Each database table is a `seq` field of a service class, kept in primary-key
order. Lookups return the first match, as `First` does. The clock is a `now`
parameter, in integer nanoseconds (UTC). The geodesic distance, bcrypt and JWT
are function values fixed when a service is built, so every proof holds
whatever those collaborators compute.

Files: `common.dfy` (results, errors, table helpers), `geo.dfy`, `clock.dfy`,
`users.dfy`, `locations.dfy`, `attendance_model.dfy`, `attendance_service.dfy`,
`attendance_controller.dfy`, `schedules.dfy`, `auth_service.dfy`,
`middleware.dfy`.

The design documentation describes a status computed from the user's assigned
work schedule, with the hour table only as a fallback. The code never consults
the assignments (internal/service/attendance_service.go:258-271). The model
follows the code. The documentation also asks that a duplicate insert be
reported as "already checked in". The code has no such path, and the model has
none either.

## Model

| member | source | states |
|---|---|---|
| Geo.ValidateLocation | internal/utils/gps.go:26-29 | the user is valid exactly when the distance is at most the radius; the distance is returned either way |
| Geo.IsWithinRadius | internal/utils/gps.go:37-40 | within exactly when the distance is at most radiusKm × 1000 metres, the same inclusive test |
| Geo.BoundaryIsInside | internal/utils/gps.go:28 | a user exactly on the boundary is inside |
| Geo.WiderRadiusAccepts | internal/utils/gps.go:26-29 | widening a geofence never rejects a user it accepted |
| Clock.HourOf | internal/service/attendance_service.go:260 | the hour of an instant lies in 0..23 |
| Clock.TruncDiv | internal/model/attendance.go:100-101 | Go's integer conversion truncates toward zero, for either sign |
| Clock.TruncRem | internal/model/attendance.go:101 | Go's `%` keeps the dividend's sign, and quotient × divisor + remainder is the dividend |
| Locations.Nearby | internal/service/location_service.go:104-110 | exactly the given locations inside the radius in kilometres, never more than were given |
| Locations.LocationService.CreateLocation | internal/service/location_service.go:46-55 | appends one location under the next id, always active and owned by its creator |
| Locations.LocationService.GetLocationByID | internal/service/location_service.go:68-76 | the row with that id, or "location not found" exactly when no row has it |
| Locations.LocationService.GetAllLocations | internal/service/location_service.go:80-93 | no filter returns the whole table; otherwise exactly the rows whose active flag equals the filter |
| Locations.NearbyIsFilter | internal/service/location_service.go:99-110 | the search equals the table filtered by the geofence test, same rows in the same order |
| Locations.LocationService.GetNearbyLocations | internal/service/location_service.go:96-113 | the loop yields exactly the active locations with distance ≤ radiusKm × 1000, in table order |
| Locations.LocationService.UpdateLocation | internal/service/location_service.go:116-147 | unknown id: "location not found" and no change; otherwise each field changes only for a non-empty, non-zero, positive or present value, the rest of the table untouched |
| Locations.LocationService.DeleteLocation | internal/service/location_service.go:150-162 | a missing id fails and removes nothing; otherwise exactly that row is removed |
| Locations.LocationService.ValidateLocationForAttendance | internal/service/location_service.go:165-182 | (false, 0, "location not found") for an unknown id; (false, 0, "location is not active") for an inactive one; otherwise valid iff distance ≤ radius, with the distance reported |
| Users.KeepOrReplace | internal/service/user_service.go:151-159 | an empty request value keeps the stored one, any other replaces it |
| Users.AppendWellFormed | internal/service/user_service.go:98-128 | inserting a fresh id with an unused email keeps ids increasing and emails unique |
| Users.ReplaceWellFormed | internal/service/user_service.go:138-148 | rewriting a row that keeps its email or takes an unused one keeps the table invariant |
| Users.RemoveWellFormed | internal/service/user_service.go:189-192 | deleting a row keeps the table invariant |
| Users.GetUserStats | internal/service/user_service.go:219-239 | total is the table size; active, admin and regular users are exactly the counts of active rows, role "admin" and role "user"; inactive = total − active and is exactly the count of inactive users; admins + regular users ≤ total |
| Users.UserService.GetUserByID | internal/service/user_service.go:68-80 | the row with that id, or "user not found" exactly when none |
| Users.UserService.GetUserByEmail | internal/service/user_service.go:83-95 | the row with that email, or "user not found" exactly when none |
| Users.UserService.CreateUser | internal/service/user_service.go:98-128 | an existing email fails with "email already exists" and inserts nothing; otherwise one active user with the requested role is appended |
| Users.UserService.UpdateUser | internal/service/user_service.go:131-170 | unknown id fails; a new email already used by another user fails with no change; otherwise email, name, phone and role change only when non-empty and the flag only when present |
| Users.UserService.DeleteUser | internal/service/user_service.go:173-195 | unknown id fails; an admin is refused while at most one admin exists; success removes exactly that row; a table with an admin keeps one |
| Users.UserService.ChangeUserPassword | internal/service/user_service.go:198-216 | unknown id fails; otherwise only that user's hash changes |
| Users.UserService.UpdateMyProfile | internal/service/user_service.go:242-275 | the email and field rules of UpdateUser for email, name and phone; role and active flag never change |
| Users.UserService.UpdateMyPassword | internal/service/user_service.go:278-301 | a wrong old password fails with "old password is incorrect" and keeps the hash; otherwise only the hash changes |
| AttendanceModel.DivModUnique | internal/model/attendance.go:100-101 | the quotient and remainder of a division are unique, which fixes the hours and minutes of a duration |
| AttendanceModel.HoursFromMinutes | internal/model/attendance.go:100-101 | whole hours are whole minutes divided by 60 |
| AttendanceModel.DurationPartsOfNonNegative | internal/model/attendance.go:99-103 | for a non-negative duration the minutes lie in 0..59 and hours × 60 + minutes is the number of whole minutes |
| AttendanceModel.FormatDuration | internal/model/attendance.go:99-103 | the duration truncated toward zero to whole minutes: less than a minute is dropped, never more (exact arithmetic; see "## Left out") |
| AttendanceModel.ToResponse | internal/model/attendance.go:57-96 | every scalar is copied; work duration present iff checked out, equal to the truncated span; user and location views attached iff the loaded relation's id is non-zero |
| AttendanceModel.WorkDurationWithinAMinute | internal/model/attendance.go:76-81 | a reported work duration is a whole number of minutes, at most the time worked and short of it by under a minute |
| AttendanceService.DetermineAttendanceStatus | internal/service/attendance_service.go:258-271 | present iff hour ≤ 9, late iff hour is 10 or 11, half day iff hour ≥ 12 |
| AttendanceService.StatusExamples | internal/service/attendance_service.go:258-271 | 08:30 is present, 10:00 late, 13:00 a half day |
| AttendanceService.StatusMonotoneInHour | internal/service/attendance_service.go:258-271 | a later hour never gives a better status |
| AttendanceService.MergeNotes | internal/service/attendance_service.go:122-128 | an empty request note keeps the notes; empty notes are replaced; otherwise old + " \| " + new; the old notes are a prefix and the new note a suffix |
| AttendanceService.AppendWellFormed | internal/service/attendance_service.go:67-82 | a record for a user and day not yet in the ledger, under the next id, keeps one record per user per day |
| AttendanceService.ReplaceWellFormed | internal/service/attendance_service.go:116-130 | rewriting a record in place with the same id, user and day keeps the invariant, and the record is still found there |
| AttendanceService.InsertByCheckInDesc | internal/service/attendance_service.go:203 | insertion keeps the order newest-first and adds exactly one element |
| AttendanceService.SortByCheckInDesc | internal/service/attendance_service.go:203 | the result is ordered newest-first and is a permutation of the input |
| AttendanceService.Paginate | internal/service/attendance_service.go:204-205 | the rows from the offset on, exactly min(limit, rows left) of them (none past the end); a non-positive offset starts at the first row |
| AttendanceService.UintFilter | internal/service/attendance_service.go:224-229 | an id filter applies iff it is an unsigned integer greater than 0 |
| AttendanceService.StringFilter | internal/service/attendance_service.go:230-238 | a string filter applies iff it is a non-empty string |
| AttendanceService.AttendanceService.TodayIndex | internal/service/attendance_service.go:153-160 | the position of the user's record for the day of `now`, none exactly when no record has that user and day |
| AttendanceService.AttendanceService.StateToday | internal/service/attendance_service.go:92-100 | NoRecord iff no record today; CheckedOut iff today's record has a check-out time |
| AttendanceService.AttendanceService.HasCheckedInToday | internal/service/attendance_service.go:141-150 | true iff some record of the user has today's date |
| AttendanceService.AttendanceService.Load | internal/service/attendance_service.go:85 | the record with its location, and its user when asked; a missing relation is the zero value |
| AttendanceService.AttendanceService.LoadAll | internal/service/attendance_service.go:204 | the page with relations loaded, element by element |
| AttendanceService.AttendanceService.GetTodayAttendance | internal/service/attendance_service.go:153-169 | "no attendance record found for today" iff no record today; otherwise today's record with its relations |
| AttendanceService.AttendanceService.GetAttendanceStatus | internal/service/attendance_service.go:172-191 | never fails; checked in iff a record exists today, checked out iff it has a check-out time, times and status copied, and the location is the stored location's name ("" when that row is gone) |
| AttendanceService.AttendanceService.GetUserAttendanceHistory | internal/service/attendance_service.go:194-214 | the total counts the user's records; the page holds exactly min(limit, total − offset) of the user's records (none past the end, a non-positive offset counting as 0), newest check-in first, without the user relation |
| AttendanceService.AttendanceService.CriteriaOf | internal/service/attendance_service.go:217-238 | the ANDed criteria the filter bag stands for: each id and the status copied, each date bound present iff given and then the day the given text denotes; an unreadable date makes the query fail |
| AttendanceService.AttendanceService.Matching | internal/service/attendance_service.go:223-238 | exactly the records meeting every criterion |
| AttendanceService.AttendanceService.GetAllAttendances | internal/service/attendance_service.go:217-255 | a failing query is an error; otherwise the total counts the matches and the page holds exactly min(limit, total − offset) matching records (none past the end, a non-positive offset counting as 0), newest check-in first |
| AttendanceService.AttendanceService.CheckIn | internal/service/attendance_service.go:40-88 | already checked in, location errors and outside the radius fail in that order with the ledger unchanged; success appends exactly one record (status from the hour, distance stored, no check-out, request notes and photo) and moves NoRecord to CheckedIn |
| AttendanceService.AttendanceService.CheckOut | internal/service/attendance_service.go:91-138 | no record and already checked out fail first; the position is validated against the record's own location; failures leave the ledger unchanged; success sets the check-out time and position, merges the notes, keeps everything else, and moves CheckedIn to CheckedOut |
| AttendanceController.QueryValue | internal/controller/attendance_controller.go:181-193 | a query parameter's value, or "" when absent |
| AttendanceController.DefaultQuery | internal/controller/attendance_controller.go:120-121 | the default applies only when the parameter is absent |
| AttendanceController.Sat64 | internal/controller/attendance_controller.go:120-121 | an out-of-range value becomes the nearest int64 bound, an in-range one is kept |
| AttendanceController.Atoi | internal/controller/attendance_controller.go:120-121 | an optional sign then digits is the signed digit value saturated to int64 ("-5" is −5, "+7" is 7); anything else is 0 |
| AttendanceController.SignedDecimal | internal/controller/attendance_controller.go:120-121 | the rendering of any integer is well formed and starts with '-' exactly for a negative one |
| AttendanceController.AtoiOfDecimal | internal/controller/attendance_controller.go:120 | the decimal text of any int64 value parses back to it |
| AttendanceController.AtoiOfSignedDecimal | internal/controller/attendance_controller.go:120-121 | the signed rendering of any integer, and an explicit plus in front of a non-negative one, parse back to it saturated to int64 |
| AttendanceController.DigitsValueOfDecimal | internal/controller/attendance_controller.go:120 | the decimal rendering and the digit value are inverse |
| AttendanceController.ParseUint32 | internal/controller/attendance_controller.go:181-186 | succeeds iff the text is unsigned decimal digits with a value below 2^32 |
| AttendanceController.PageParam | internal/controller/attendance_controller.go:120-125 | the page is the parsed parameter when it is at least 1, and 1 otherwise; it lies in [1, MaxInt64] |
| AttendanceController.LimitParam | internal/controller/attendance_controller.go:121-128 | the limit is the parsed parameter (the listing's default text when absent) when it lies in [1, 100], and the listing's default value otherwise |
| AttendanceController.ClampPaging | internal/controller/attendance_controller.go:120-130 | the clamped page and limit, and the offset as the handlers compute it in 64-bit arithmetic (exact whenever the product fits, by OffsetAsWrittenWhenFits) |
| AttendanceController.PageBelowOneIsFirst | internal/controller/attendance_controller.go:120-125 | a non-numeric or negative page parameter shows page 1 |
| AttendanceController.Offset | internal/controller/attendance_controller.go:130 | the offset is non-negative and a whole number of pages |
| AttendanceController.OffsetAsWritten | internal/controller/attendance_controller.go:130 | the 64-bit product always lies in the int64 range |
| AttendanceController.OffsetAsWrittenWhenFits | internal/controller/attendance_controller.go:130 | whenever (page − 1) × limit fits in int64, the 64-bit offset equals the exact one |
| AttendanceController.Wrap64 | internal/controller/attendance_controller.go:130 | int64 wrap-around: in range and congruent modulo 2^64 |
| AttendanceController.Wrap64InRange | internal/controller/attendance_controller.go:130 | a value already inside the int64 range is left unchanged by the wrap-around |
| AttendanceController.OffsetOverflowCounterexample | internal/controller/attendance_controller.go:130 | page 10^18 with limit 10 gives a negative written offset, so the first rows come back where the exact offset gives none |
| AttendanceController.PagesAreConsecutive | internal/controller/attendance_controller.go:130 | page p starts at row (p − 1) × limit, and consecutive pages abut |
| AttendanceController.TotalPages | internal/controller/attendance_controller.go:150 | total_page is the ceiling of total / limit, and 0 exactly for no rows |
| AttendanceController.TotalPagesExamples | internal/controller/attendance_controller.go:150 | 25 rows of 10 are 3 pages, 20 rows 2, no rows 0 |
| AttendanceController.QueryFilters | internal/controller/attendance_controller.go:180-195 | user_id and location_id present iff they parse as 32-bit unsigned integers, with that value; status and dates present iff non-empty, with that text; nothing else |
| AttendanceController.BuildFilters | internal/controller/attendance_controller.go:180-195 | the bag built entry by entry is exactly `QueryFilters` of the query |
| AttendanceController.Responses | internal/controller/attendance_controller.go:140-143 | one response per record, the i-th response converted from the i-th record |
| AttendanceController.ToResponses | internal/controller/attendance_controller.go:140-143 | the array filled in the loop holds one response per record, in order, and equals Responses of the page |
| AttendanceController.GetAttendanceHistory | internal/controller/attendance_controller.go:119-152 | page and limit are the clamped query values; data and total are the service's history at the 64-bit offset, each record converted in order; total_page is the ceiling |
| AttendanceController.GetAllAttendances | internal/controller/attendance_controller.go:168-217 | fails exactly when the service's listing for the query's filters, clamped limit and 64-bit offset fails, with its error; otherwise page and limit are the clamped values, data and total the service's page and count converted in order, and total_page the ceiling |
| Schedules.Updated | internal/service/schedule_service.go:98-117 | each string field replaced only by a non-empty value, the work days only by a non-empty list |
| Schedules.UpdatedIdempotent | internal/service/schedule_service.go:98-117 | applying an update twice is applying it once; an empty update changes nothing |
| Schedules.ScheduleService.CopyWorkDays | internal/service/schedule_service.go:50-53 | the array copy holds the same days, same length and order |
| Schedules.ScheduleService.CreateSchedule | internal/service/schedule_service.go:48-68 | appends one schedule with the request's fields and work days |
| Schedules.ScheduleService.GetScheduleByID | internal/service/schedule_service.go:71-80 | the row with that id, or "schedule not found" exactly when none |
| Schedules.ScheduleService.GetAllSchedules | internal/service/schedule_service.go:83-89 | exactly the schedules in the table |
| Schedules.ScheduleService.GetUserSchedules | internal/service/schedule_service.go:183-191 | exactly the assignments of that user |
| Schedules.ScheduleService.UpdateSchedule | internal/service/schedule_service.go:92-124 | unknown id fails with "schedule not found" and no change; otherwise that row becomes the updated schedule |
| Schedules.ScheduleService.DeleteSchedule | internal/service/schedule_service.go:127-137 | unknown id fails and removes nothing; otherwise exactly that row is removed |
| Schedules.ScheduleService.AssignScheduleToUser | internal/service/schedule_service.go:140-180 | unknown schedule, bad effective_from, then bad non-empty effective_to fail in that order and create nothing; an empty effective_to is none; success appends one assignment |
| Auth.TokensFor | internal/service/auth_service.go:80-87 | both tokens carry the user's own id, email and role |
| Auth.AuthService.Register | internal/service/auth_service.go:53-97 | an existing email fails with no change; otherwise one active user with role "user" is appended and tokens issued for it; that user can then log in with the password |
| Auth.AuthService.Login | internal/service/auth_service.go:100-138 | unknown email and wrong password both give "invalid email or password"; an inactive account is refused before the password check; success issues the user's tokens |
| Auth.AuthService.RefreshToken | internal/service/auth_service.go:153-179 | invalid token, unknown user, inactive user refused in that order; new tokens carry the stored user's identity |
| Auth.LoginHidesWhichCredentialFailed | internal/service/auth_service.go:103-118 | an unknown email and a wrong password give the same answer |
| Middleware.Split | internal/middleware/auth.go:25 | at least one piece, none containing the separator |
| Middleware.JoinSplit | internal/middleware/auth.go:25 | joining the pieces gives back the header |
| Middleware.SplitJoin | internal/middleware/auth.go:25 | splitting separator-free pieces joined together gives them back |
| Middleware.BearerToken | internal/middleware/auth.go:25-32 | a token is found only in a header "Bearer " + token with no space in the token |
| Middleware.BearerTokenIsSecondPiece | internal/middleware/auth.go:25-32 | the format check passes iff the header is "Bearer", one space and a space-free token, which is the second piece |
| Middleware.Authenticate | internal/middleware/auth.go:14-49 | empty header, bad format and failed validation are each a 401 with their own message; otherwise the token's claims identify the caller |
| Middleware.MalformedHeadersRefused | internal/middleware/auth.go:25-30 | "bearer x", "Bearer a b" and "Bearer  x" are refused as malformed |
| Middleware.AdminGate | internal/middleware/auth.go:52-69 | no role is a 401, any role but "admin" a 403, and only "admin" passes |
| Middleware.AdminRouteNeedsAdminToken | internal/middleware/auth.go:14-69 | behind both gates, only a valid bearer token with role "admin" reaches an admin handler |

## Left out

- Haversine distance (internal/utils/gps.go:11-34): floating-point trigonometry; the distance is an uninterpreted function to `real`, only the inclusive comparisons are modelled.
- Clock and time zones: one `now` replaces the two `time.Now()` calls of CheckIn; the day and hour are taken in UTC, where the source uses the server's local zone for the hour and the database's zone for `DATE(...)`.
- Timestamp precision: the database keeps microseconds and the reloaded record carries them; the model keeps the nanosecond instant.
- Storage failures: connectivity errors, failed inserts and saves, and the errors of `Count` are not modelled; only the business errors are.
- Concurrency: calls are sequential; the check-then-insert race on duplicate check-ins (no unique constraint in the schema) is outside the model.
- Relation loading after writes: CheckIn, CheckOut and AssignScheduleToUser reload the row with its relations; CheckIn and CheckOut return it with `Load`, AssignScheduleToUser returns the bare assignment.
- CreatedAt and UpdatedAt, and the location's Creator relation: maintained by the ORM, not modelled.
- Result order of `Find` without `ORDER BY` is taken to be primary-key order; equal check-in times keep table order in the sorted listings.
- Column defaults: a zero radius or an empty role would receive the database default (10, "user"); request binding rejects both before the services run, so the model stores the values as given.
- Foreign keys: deleting a user, location or schedule that other rows reference is allowed in the model; the database's constraints are not modelled.
- bcrypt and JWT (internal/model/user.go:27-40, pkg/jwt): foreign libraries; a new hash is a parameter, a password check and token validation are function values, and a token is the claims it carries. The error text of a failed refresh token comes from pkg/jwt and is not part of this model.
- Token generation errors and the token expiry configuration are not modelled.
- Duration.String(): the text rendering of the work duration is left out; the model stops at the truncated duration.
- Atoi: a string whose digits overflow before a non-digit character makes the real parser return the saturated value, not 0; the model returns 0 for every non-numeric string.
- AttendanceService.AttendanceService.GetUserAttendanceHistory: states the owner, the order and the exact size of the page (for every offset) but not which slice of the sorted list it is; `SortByCheckInDesc` and `Paginate` state that.
- AttendanceService.AttendanceService.GetAllAttendances: the same as for the history, for the matching records.
- AttendanceModel.FormatDuration: `d.Hours()` and `d.Minutes()` are float64 sums of the whole and fractional parts; from 4096 hours on (about 170 days) the hour sum can round up to the next whole hour (4097 h − 1 ns renders as 4097h59m), and the minute sum does the same a little later. The model truncates exactly. A check-out falls on its check-in's day, so no recorded duration comes near this.
- Decimal columns: the attendance coordinates are stored as `decimal(10,8)`/`decimal(11,8)` and the distance as `decimal(10,2)` (internal/model/attendance.go:13-17), and the location centre as `decimal(10,8)`/`decimal(11,8)` (internal/model/attendance_location.go:9-10). The model keeps exact reals: the geofence test uses the centre unrounded, and the record CheckIn and CheckOut return carries the exact distance and coordinates where the reloaded row carries them rounded.
- HTTP handlers other than the two listings, request binding and validation, the response envelope, routing and configuration loading are not part of this model; the self-delete guard of the user handler is left to the caller.
- GetAllUsers and the other plain table reads not named above are not modelled.

## Findings

| source | as written | input that shows it | evidently intended | confidence | as-written member | corrected member |
|---|---|---|---|---|---|---|
| internal/controller/attendance_controller.go:130 | `offset := (page - 1) * limit` (again at line 197) in 64-bit `int`, with `page` straight from Atoi and only clamped from below | `page=1000000000000000000&limit=10`: the product wraps to a negative offset, the query then carries no OFFSET and page 10^18 shows the first rows | a non-negative offset of exactly (page − 1) × limit, so a page past the end is empty | not executed | AttendanceController.OffsetAsWritten, AttendanceController.OffsetOverflowCounterexample | AttendanceController.Offset, AttendanceController.PagesAreConsecutive |
