// The work-schedule tables of internal/service/schedule_service.go: schedules
// with partial updates, and the assignment of a schedule to a user over a
// date range.

module Schedules {
  import opened Common

  /** model.WorkSchedule; the times are the "HH:MM:SS" strings the source
      stores, the work days an integer list (1 = Monday). */
  datatype WorkSchedule = WorkSchedule(
    id: nat,
    name: string,
    checkInStart: string,
    checkInEnd: string,
    checkOutStart: string,
    workDays: seq<int>)

  /** model.UserSchedule; dates are day numbers. */
  datatype UserSchedule = UserSchedule(
    id: nat,
    userId: nat,
    scheduleId: nat,
    locationId: nat,
    effectiveFrom: int,
    effectiveTo: Option<int>)

  datatype CreateScheduleRequest = CreateScheduleRequest(
    name: string, checkInStart: string, checkInEnd: string, checkOutStart: string, workDays: seq<int>)

  /** Empty strings and an empty list mean "keep the stored value". */
  datatype UpdateScheduleRequest = UpdateScheduleRequest(
    name: string, checkInStart: string, checkInEnd: string, checkOutStart: string, workDays: seq<int>)

  datatype AssignScheduleRequest = AssignScheduleRequest(
    userId: nat, scheduleId: nat, locationId: nat, effectiveFrom: string, effectiveTo: string)

  function ScheduleId(s: WorkSchedule): nat { s.id }

  /** The schedule an update request leaves behind. */
  function Updated(s: WorkSchedule, req: UpdateScheduleRequest): (u: WorkSchedule)
    ensures u.id == s.id
    ensures u.name == (if req.name != "" then req.name else s.name)
    ensures u.checkInStart == (if req.checkInStart != "" then req.checkInStart else s.checkInStart)
    ensures u.checkInEnd == (if req.checkInEnd != "" then req.checkInEnd else s.checkInEnd)
    ensures u.checkOutStart == (if req.checkOutStart != "" then req.checkOutStart else s.checkOutStart)
    ensures u.workDays == (if |req.workDays| > 0 then req.workDays else s.workDays)
  {
    WorkSchedule(
      s.id,
      if req.name != "" then req.name else s.name,
      if req.checkInStart != "" then req.checkInStart else s.checkInStart,
      if req.checkInEnd != "" then req.checkInEnd else s.checkInEnd,
      if req.checkOutStart != "" then req.checkOutStart else s.checkOutStart,
      if |req.workDays| > 0 then req.workDays else s.workDays)
  }

  /** An update with nothing in it changes nothing, and applying the same
      update twice is applying it once. */
  lemma UpdatedIdempotent(s: WorkSchedule, req: UpdateScheduleRequest)
    ensures Updated(Updated(s, req), req) == Updated(s, req)
    ensures req == UpdateScheduleRequest("", "", "", "", []) ==> Updated(s, req) == s
  {
  }

  /** Ids positive, below the next one and increasing in table order. */
  ghost predicate WellFormed(schedules: seq<WorkSchedule>, nextId: nat)
  {
    && (forall i :: 0 <= i < |schedules| ==> 0 < schedules[i].id < nextId)
    && (forall i, j :: 0 <= i < j < |schedules| ==> schedules[i].id < schedules[j].id)
  }

  /** Assignment ids positive, below the next one and increasing. */
  ghost predicate AssignmentsWellFormed(assignments: seq<UserSchedule>, nextId: nat)
  {
    && (forall i :: 0 <= i < |assignments| ==> 0 < assignments[i].id < nextId)
    && (forall i, j :: 0 <= i < j < |assignments| ==> assignments[i].id < assignments[j].id)
  }

  class ScheduleService {
    var schedules: seq<WorkSchedule>
    var nextScheduleId: nat
    var assignments: seq<UserSchedule>
    var nextAssignmentId: nat
    /** time.Parse with layout "2006-01-02": the day, or None on a format error. */
    const parseDate: string -> Option<int>

    ghost predicate Valid()
      reads this
    {
      && nextScheduleId > 0 && WellFormed(schedules, nextScheduleId)
      && nextAssignmentId > 0 && AssignmentsWellFormed(assignments, nextAssignmentId)
    }

    constructor (parseDate: string -> Option<int>)
      ensures Valid()
      ensures schedules == [] && assignments == [] && this.parseDate == parseDate
    {
      schedules := [];
      nextScheduleId := 1;
      assignments := [];
      nextAssignmentId := 1;
      this.parseDate := parseDate;
    }

    /** The request's work days, copied element by element into a fresh
        integer array. */
    static method CopyWorkDays(days: seq<int>) returns (copy: seq<int>)
      ensures copy == days
    {
      var workDays := new int[|days|];
      var i := 0;
      while i < |days|
        invariant 0 <= i <= |days|
        invariant workDays[..i] == days[..i]
      {
        workDays[i] := days[i];
        i := i + 1;
      }
      copy := workDays[..];
    }

    /** CreateSchedule: stores the request's fields, work days in the same
        length and order. */
    method CreateSchedule(req: CreateScheduleRequest) returns (s: WorkSchedule)
      requires Valid()
      modifies this
      ensures Valid() && assignments == old(assignments)
      ensures s == WorkSchedule(old(nextScheduleId), req.name, req.checkInStart, req.checkInEnd,
                                req.checkOutStart, req.workDays)
      ensures schedules == old(schedules) + [s]
    {
      var workDays := CopyWorkDays(req.workDays);
      s := WorkSchedule(nextScheduleId, req.name, req.checkInStart, req.checkInEnd,
                        req.checkOutStart, workDays);
      schedules := schedules + [s];
      nextScheduleId := nextScheduleId + 1;
    }

    /** GetScheduleByID: the schedule with that id, or "schedule not found". */
    function GetScheduleByID(id: nat): (r: Result<WorkSchedule>)
      reads this
      ensures r.Ok? ==> r.value in schedules && r.value.id == id
      ensures r.Err? <==> forall s :: s in schedules ==> s.id != id
      ensures r.Err? ==> r.error == ScheduleNotFound
    {
      match IndexOfKey(schedules, ScheduleId, id)
      case None => Err(ScheduleNotFound)
      case Some(i) => Ok(schedules[i])
    }

    /** GetAllSchedules: the whole table. */
    function GetAllSchedules(): (r: seq<WorkSchedule>)
      reads this
      ensures forall s :: s in r <==> s in schedules
    {
      schedules
    }

    /** GetUserSchedules: the assignments of one user, in table order. */
    function GetUserSchedules(userId: nat): (r: seq<UserSchedule>)
      reads this
      ensures forall a :: a in r <==> a in assignments && a.userId == userId
    {
      Filter(assignments, (a: UserSchedule) => a.userId == userId)
    }

    /** UpdateSchedule: an unknown id changes nothing; otherwise each string
        field is replaced only by a non-empty value and the work days only by
        a non-empty list. */
    method UpdateSchedule(id: nat, req: UpdateScheduleRequest) returns (r: Result<WorkSchedule>)
      requires Valid()
      modifies this
      ensures Valid() && nextScheduleId == old(nextScheduleId) && assignments == old(assignments)
      ensures old(GetScheduleByID(id)).Err? ==> r == Err(ScheduleNotFound) && schedules == old(schedules)
      ensures old(GetScheduleByID(id)).Ok? ==>
        && r == Ok(Updated(old(GetScheduleByID(id)).value, req))
        && exists i :: 0 <= i < |old(schedules)| && old(schedules)[i].id == id &&
             schedules == old(schedules)[i := r.value]
    {
      var idx := IndexOfKey(schedules, ScheduleId, id);
      if idx.None? {
        return Err(ScheduleNotFound);
      }
      var i := idx.value;
      var schedule := schedules[i];
      if req.name != "" {
        schedule := schedule.(name := req.name);
      }
      if req.checkInStart != "" {
        schedule := schedule.(checkInStart := req.checkInStart);
      }
      if req.checkInEnd != "" {
        schedule := schedule.(checkInEnd := req.checkInEnd);
      }
      if req.checkOutStart != "" {
        schedule := schedule.(checkOutStart := req.checkOutStart);
      }
      if |req.workDays| > 0 {
        var workDays := CopyWorkDays(req.workDays);
        schedule := schedule.(workDays := workDays);
      }
      schedules := schedules[i := schedule];
      r := Ok(schedule);
    }

    /** DeleteSchedule: an unknown id fails and removes nothing. */
    method DeleteSchedule(id: nat) returns (r: Result<()>)
      requires Valid()
      modifies this
      ensures Valid() && nextScheduleId == old(nextScheduleId) && assignments == old(assignments)
      ensures old(GetScheduleByID(id)).Err? ==> r == Err(ScheduleNotFound) && schedules == old(schedules)
      ensures old(GetScheduleByID(id)).Ok? ==>
        && r.Ok?
        && exists i :: 0 <= i < |old(schedules)| && old(schedules)[i].id == id &&
             schedules == RemoveAt(old(schedules), i)
    {
      var idx := IndexOfKey(schedules, ScheduleId, id);
      if idx.None? {
        return Err(ScheduleNotFound);
      }
      var i := idx.value;
      ghost var s := RemoveAt(schedules, i);
      forall a, b | 0 <= a < b < |s| ensures s[a].id < s[b].id {
        var a' := if a < i then a else a + 1;
        var b' := if b < i then b else b + 1;
        assert s[a] == schedules[a'] && s[b] == schedules[b'];
      }
      schedules := RemoveAt(schedules, i);
      r := Ok(());
    }

    /** AssignScheduleToUser: checks the schedule, then effective_from, then
        effective_to (only when given); the first failure wins and nothing is
        created. Otherwise exactly one assignment is added. */
    method AssignScheduleToUser(req: AssignScheduleRequest) returns (r: Result<UserSchedule>)
      requires Valid()
      modifies this
      ensures Valid() && schedules == old(schedules) && nextScheduleId == old(nextScheduleId)
      ensures
        if GetScheduleByID(req.scheduleId).Err? then r == Err(ScheduleNotFound)
        else if parseDate(req.effectiveFrom).None? then r == Err(InvalidEffectiveFrom)
        else if req.effectiveTo != "" && parseDate(req.effectiveTo).None? then r == Err(InvalidEffectiveTo)
        else r == Ok(UserSchedule(old(nextAssignmentId), req.userId, req.scheduleId, req.locationId,
                                  parseDate(req.effectiveFrom).value,
                                  if req.effectiveTo == "" then None else parseDate(req.effectiveTo)))
      ensures r.Err? ==> assignments == old(assignments) && nextAssignmentId == old(nextAssignmentId)
      ensures r.Ok? ==> assignments == old(assignments) + [r.value]
    {
      if GetScheduleByID(req.scheduleId).Err? {
        return Err(ScheduleNotFound);
      }
      var effectiveFrom := parseDate(req.effectiveFrom);
      if effectiveFrom.None? {
        return Err(InvalidEffectiveFrom);
      }
      var effectiveTo: Option<int> := None;
      if req.effectiveTo != "" {
        var parsed := parseDate(req.effectiveTo);
        if parsed.None? {
          return Err(InvalidEffectiveTo);
        }
        effectiveTo := parsed;
      }
      var assignment := UserSchedule(nextAssignmentId, req.userId, req.scheduleId, req.locationId,
                                     effectiveFrom.value, effectiveTo);
      assignments := assignments + [assignment];
      nextAssignmentId := nextAssignmentId + 1;
      r := Ok(assignment);
    }
  }
}
