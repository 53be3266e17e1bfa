/**
 * `localDb` of nurse-scheduler/src/lib/local-storage.ts: five collections,
 * each operation loading one, changing it in place and writing it back. The
 * browser's localStorage and its JSON encoding become the sequence fields of
 * a `LocalDb` object; fresh ids and the current time are parameters.
 */
module LocalStorage {
  import opened Wrappers
  import opened Calendar
  import opened Types
  import opened Seqs

  // ---------------------------------------------------------------------
  // Month windows: `date >= "YYYY-MM-01" && date <= "YYYY-MM-31"`.
  // ---------------------------------------------------------------------

  /** Fixed-width `YYYY-MM-DD` strings compare like (year, month, day) triples. */
  predicate InWindow(d: Date, year: int, month: int)
  {
    DateLe(Date(year, month, 1), d) && DateLe(d, Date(year, month, 31))
  }

  /** On a real date and a month 1..12 the string window is exactly that calendar month. */
  lemma WindowIsMonth(d: Date, year: int, month: int)
    requires ValidDate(d) && 1 <= month <= 12
    ensures InWindow(d, year, month) <==> d.year == year && d.month == month
  {
  }

  /** `startDate <= endOfMonth && endDate >= startOfMonth`: a range that reaches into the window. */
  predicate OverlapsWindow(startDate: Date, endDate: Date, year: int, month: int)
  {
    DateLe(startDate, Date(year, month, 31)) && DateLe(Date(year, month, 1), endDate)
  }

  /**
   * For an ordered range of real dates, reaching into the window is the same
   * as containing a date of the month.
   */
  lemma OverlapIsSharedDate(startDate: Date, endDate: Date, year: int, month: int)
    requires ValidDate(startDate) && ValidDate(endDate) && DateLe(startDate, endDate)
    requires 1 <= year && 1 <= month <= 12
    ensures OverlapsWindow(startDate, endDate, year, month) <==>
      exists d | ValidDate(d) && d.year == year && d.month == month :: DateLe(startDate, d) && DateLe(d, endDate)
  {
    if OverlapsWindow(startDate, endDate, year, month) {
      var first := Date(year, month, 1);
      var d := if DateLt(startDate, first) then first else startDate;
      assert ValidDate(d) && d.year == year && d.month == month;
      assert DateLe(startDate, d) && DateLe(d, endDate);
    }
  }

  // ---------------------------------------------------------------------
  // Queries.
  // ---------------------------------------------------------------------

  /** `nurses.filter(n => n.wardId === wardId && n.isActive)`. */
  function NursesOfWard(nurses: seq<Nurse>, wardId: Id): seq<Nurse>
  {
    Filter(nurses, (n: Nurse) => n.wardId == wardId && n.isActive)
  }

  /** `new Set(getByWard(wardId).map(n => n.id))`: the ids of the ward's active nurses. */
  function WardNurseIds(nurses: seq<Nurse>, wardId: Id): (ids: set<Id>)
    ensures forall x :: x in ids <==> exists n | n in nurses :: n.id == x && n.wardId == wardId && n.isActive
  {
    set n | n in NursesOfWard(nurses, wardId) :: n.id
  }

  /** `s => s.wardId === wardId && <date in the window>`. */
  function InWardWindow(wardId: Id, year: int, month: int): Schedule -> bool
  {
    (s: Schedule) => s.wardId == wardId && InWindow(s.date, year, month)
  }

  /** `schedules.filter(s => s.wardId === wardId && <date in the window>)`. */
  function SchedulesInMonth(schedules: seq<Schedule>, wardId: Id, year: int, month: int): seq<Schedule>
  {
    Filter(schedules, InWardWindow(wardId, year, month))
  }

  // ---------------------------------------------------------------------
  // Records built from their insert form, and partial updates.
  // ---------------------------------------------------------------------

  /** `{ ...data, id, createdAt: now, updatedAt: now }`. */
  function FromInsert(data: ScheduleInsert, id: Id, now: Timestamp): Schedule
  {
    Schedule(id, data.wardId, data.nurseId, data.date, data.shiftType, data.isLocked, data.note, now, now)
  }

  /** The insert part of a stored schedule. */
  function InsertOf(s: Schedule): ScheduleInsert
  {
    ScheduleInsert(s.wardId, s.nurseId, s.date, s.shiftType, s.isLocked, s.note)
  }

  /** Stamping an insert with an id and a time loses nothing of it. */
  lemma InsertRoundTrip(data: ScheduleInsert, id: Id, now: Timestamp)
    ensures var s := FromInsert(data, id, now);
      InsertOf(s) == data && s.id == id && s.createdAt == now && s.updatedAt == now
  {
  }

  /** `newSchedules` of `bulkCreate`: every insert stamped, in input order. */
  function Stamped(dataList: seq<ScheduleInsert>, idFor: nat -> Id, now: Timestamp): (r: seq<Schedule>)
    ensures |r| == |dataList|
  {
    seq(|dataList|, k requires 0 <= k < |dataList| => FromInsert(dataList[k], idFor(k), now))
  }

  /** The stamped records carry exactly the inserts, in order, each with its own id. */
  lemma StampedKeepsInserts(dataList: seq<ScheduleInsert>, idFor: nat -> Id, now: Timestamp)
    ensures var r := Stamped(dataList, idFor, now);
      && (forall k | 0 <= k < |r| :: InsertOf(r[k]) == dataList[k] && r[k].id == idFor(k))
      && (forall k | 0 <= k < |r| :: r[k].createdAt == now && r[k].updatedAt == now)
  {
    var r := Stamped(dataList, idFor, now);
    forall k | 0 <= k < |r| ensures InsertOf(r[k]) == dataList[k] {
      InsertRoundTrip(dataList[k], idFor(k), now);
    }
  }

  /** The key `upsert` looks a schedule up by. */
  predicate SameSlot(s: Schedule, data: ScheduleInsert)
  {
    s.wardId == data.wardId && s.nurseId == data.nurseId && s.date == data.date
  }

  /**
   * `{ ...existing, ...data, updatedAt: now }` of `upsert`: the insert's
   * fields win, a missing note keeps the stored one, id and creation time stay.
   */
  function Overlay(s: Schedule, data: ScheduleInsert, now: Timestamp): (r: Schedule)
    ensures r.id == s.id && r.createdAt == s.createdAt && r.updatedAt == now
    ensures InsertOf(r) == data.(note := if data.note.Some? then data.note else s.note)
  {
    s.(wardId := data.wardId, nurseId := data.nurseId, date := data.date, shiftType := data.shiftType,
       isLocked := data.isLocked, note := if data.note.Some? then data.note else s.note, updatedAt := now)
  }

  /** No two stored schedules share a (ward, nurse, date) slot. */
  predicate SlotsUnique(ss: seq<Schedule>)
  {
    forall i, j | 0 <= i < j < |ss| :: !SameSlot(ss[j], InsertOf(ss[i]))
  }

  /** `Partial<WardInsert>`: each field present or absent. */
  datatype WardPatch = WardPatch(
    name: Option<string>,
    minStaffDay: Option<int>,
    minStaffEvening: Option<int>,
    minStaffNight: Option<int>,
    maxConsecutiveNights: Option<int>,
    minRestHours: Option<int>,
    requireMixedExperience: Option<bool>)

  /** `Partial<NurseInsert>`. */
  datatype NursePatch = NursePatch(
    wardId: Option<Id>,
    name: Option<string>,
    employeeNumber: Option<string>,
    experienceLevel: Option<ExperienceLevel>,
    hireDate: Option<string>,
    annualLeaveTotal: Option<int>,
    annualLeaveUsed: Option<int>,
    isActive: Option<bool>,
    phoneNumber: Option<string>,
    email: Option<string>)

  /** `Partial<ScheduleInsert>`. */
  datatype SchedulePatch = SchedulePatch(
    wardId: Option<Id>,
    nurseId: Option<Id>,
    date: Option<Date>,
    shiftType: Option<ShiftType>,
    isLocked: Option<bool>,
    note: Option<string>)

  /** `Partial<ShiftRequestInsert>`. */
  datatype ShiftRequestPatch = ShiftRequestPatch(
    nurseId: Option<Id>,
    date: Option<Date>,
    requestedShift: Option<ShiftType>,
    reason: Option<string>,
    status: Option<RequestStatus>)

  /** `Partial<VacationRequestInsert>`. */
  datatype VacationRequestPatch = VacationRequestPatch(
    nurseId: Option<Id>,
    startDate: Option<Date>,
    endDate: Option<Date>,
    vacationType: Option<LeaveKind>,
    reason: Option<string>,
    status: Option<RequestStatus>)

  /** `{ ...ward, ...data, updatedAt: now }`. */
  function PatchWard(w: Ward, p: WardPatch, now: Timestamp): Ward
  {
    w.(name := GetOr(p.name, w.name),
       minStaffDay := GetOr(p.minStaffDay, w.minStaffDay),
       minStaffEvening := GetOr(p.minStaffEvening, w.minStaffEvening),
       minStaffNight := GetOr(p.minStaffNight, w.minStaffNight),
       maxConsecutiveNights := GetOr(p.maxConsecutiveNights, w.maxConsecutiveNights),
       minRestHours := GetOr(p.minRestHours, w.minRestHours),
       requireMixedExperience := GetOr(p.requireMixedExperience, w.requireMixedExperience),
       updatedAt := now)
  }

  /** `{ ...nurse, ...data, updatedAt: now }`; optional fields take a present value. */
  function PatchNurse(n: Nurse, p: NursePatch, now: Timestamp): Nurse
  {
    n.(wardId := GetOr(p.wardId, n.wardId),
       name := GetOr(p.name, n.name),
       employeeNumber := GetOr(p.employeeNumber, n.employeeNumber),
       experienceLevel := GetOr(p.experienceLevel, n.experienceLevel),
       hireDate := GetOr(p.hireDate, n.hireDate),
       annualLeaveTotal := GetOr(p.annualLeaveTotal, n.annualLeaveTotal),
       annualLeaveUsed := GetOr(p.annualLeaveUsed, n.annualLeaveUsed),
       isActive := GetOr(p.isActive, n.isActive),
       phoneNumber := if p.phoneNumber.Some? then p.phoneNumber else n.phoneNumber,
       email := if p.email.Some? then p.email else n.email,
       updatedAt := now)
  }

  /** `{ ...schedule, ...data, updatedAt: now }`. */
  function PatchSchedule(s: Schedule, p: SchedulePatch, now: Timestamp): Schedule
  {
    s.(wardId := GetOr(p.wardId, s.wardId),
       nurseId := GetOr(p.nurseId, s.nurseId),
       date := GetOr(p.date, s.date),
       shiftType := GetOr(p.shiftType, s.shiftType),
       isLocked := GetOr(p.isLocked, s.isLocked),
       note := if p.note.Some? then p.note else s.note,
       updatedAt := now)
  }

  /** `{ ...request, ...data, updatedAt: now }`. */
  function PatchShiftRequest(r: ShiftRequest, p: ShiftRequestPatch, now: Timestamp): ShiftRequest
  {
    r.(nurseId := GetOr(p.nurseId, r.nurseId),
       date := GetOr(p.date, r.date),
       requestedShift := GetOr(p.requestedShift, r.requestedShift),
       reason := if p.reason.Some? then p.reason else r.reason,
       status := GetOr(p.status, r.status),
       updatedAt := now)
  }

  /** `{ ...request, ...data, updatedAt: now }`. */
  function PatchVacationRequest(r: VacationRequest, p: VacationRequestPatch, now: Timestamp): VacationRequest
  {
    r.(nurseId := GetOr(p.nurseId, r.nurseId),
       startDate := GetOr(p.startDate, r.startDate),
       endDate := GetOr(p.endDate, r.endDate),
       vacationType := GetOr(p.vacationType, r.vacationType),
       reason := if p.reason.Some? then p.reason else r.reason,
       status := GetOr(p.status, r.status),
       updatedAt := now)
  }

  /**
   * A patch never moves a record: id and creation time survive, the update
   * time is `now`, and an empty patch changes nothing else.
   */
  lemma PatchesKeepIdentity(w: Ward, n: Nurse, s: Schedule, r: ShiftRequest, v: VacationRequest, now: Timestamp)
    ensures var w' := PatchWard(w, WardPatch(None, None, None, None, None, None, None), now);
      w'.id == w.id && w'.createdAt == w.createdAt && w' == w.(updatedAt := now)
    ensures var n' := PatchNurse(n, NursePatch(None, None, None, None, None, None, None, None, None, None), now);
      n'.id == n.id && n'.createdAt == n.createdAt && n' == n.(updatedAt := now)
    ensures var s' := PatchSchedule(s, SchedulePatch(None, None, None, None, None, None), now);
      s'.id == s.id && s'.createdAt == s.createdAt && s' == s.(updatedAt := now)
    ensures var r' := PatchShiftRequest(r, ShiftRequestPatch(None, None, None, None, None), now);
      r'.id == r.id && r'.createdAt == r.createdAt && r' == r.(updatedAt := now)
    ensures var v' := PatchVacationRequest(v, VacationRequestPatch(None, None, None, None, None, None), now);
      v'.id == v.id && v'.createdAt == v.createdAt && v' == v.(updatedAt := now)
  {
  }

  /** What `nurses.delete` writes: the record stays, inactive, with a new update time. */
  function Deactivated(n: Nurse, now: Timestamp): Nurse
  {
    n.(isActive := false, updatedAt := now)
  }

  // ---------------------------------------------------------------------
  // `schedules.upsert` and `schedules.deleteByWardAndMonth` as sequence functions.
  // ---------------------------------------------------------------------

  /**
   * The collection after `upsert`: the first stored schedule with the
   * insert's slot is overlaid in place, or, when there is none, one new
   * record is appended.
   */
  function Upserted(ss: seq<Schedule>, data: ScheduleInsert, newId: Id, now: Timestamp): (r: seq<Schedule>)
    ensures (exists k | 0 <= k < |ss| :: SameSlot(ss[k], data)) ==>
      && |r| == |ss|
      && exists i | 0 <= i < |ss| ::
           && SameSlot(ss[i], data) && (forall k | 0 <= k < i :: !SameSlot(ss[k], data))
           && r[i] == Overlay(ss[i], data, now)
           && (forall k | 0 <= k < |ss| && k != i :: r[k] == ss[k])
    ensures (forall k | 0 <= k < |ss| :: !SameSlot(ss[k], data)) ==> r == ss + [FromInsert(data, newId, now)]
  {
    match FindIndex(ss, (s: Schedule) => SameSlot(s, data))
    case Some(i) => ss[i := Overlay(ss[i], data, now)]
    case None => ss + [FromInsert(data, newId, now)]
  }

  /** Upserting keeps slots unique, and afterwards the insert's slot holds the insert. */
  lemma UpsertKeepsSlotsUnique(ss: seq<Schedule>, data: ScheduleInsert, newId: Id, now: Timestamp)
    requires SlotsUnique(ss)
    ensures var r := Upserted(ss, data, newId, now);
      && SlotsUnique(r)
      && exists k | 0 <= k < |r| :: SameSlot(r[k], data) && r[k].shiftType == data.shiftType && r[k].isLocked == data.isLocked
  {
    var r := Upserted(ss, data, newId, now);
    if exists k | 0 <= k < |ss| :: SameSlot(ss[k], data) {
      var i :| 0 <= i < |ss| && SameSlot(ss[i], data) && r[i] == Overlay(ss[i], data, now)
        && forall k | 0 <= k < |ss| && k != i :: r[k] == ss[k];
      forall a, b | 0 <= a < b < |r| ensures !SameSlot(r[b], InsertOf(r[a])) {
        if a == i {
          assert !SameSlot(ss[b], InsertOf(ss[i]));
        } else if b == i {
          assert !SameSlot(ss[i], InsertOf(ss[a]));
        } else {
          assert !SameSlot(ss[b], InsertOf(ss[a]));
        }
      }
      assert SameSlot(r[i], data);
    } else {
      var n := FromInsert(data, newId, now);
      forall a, b | 0 <= a < b < |r| ensures !SameSlot(r[b], InsertOf(r[a])) {
        if b == |ss| {
          assert !SameSlot(ss[a], data);
        } else {
          assert !SameSlot(ss[b], InsertOf(ss[a]));
        }
      }
      assert SameSlot(r[|ss|], data);
    }
  }

  /** The schedules `deleteByWardAndMonth` removes: unlocked, of the ward, in the window. */
  predicate Doomed(s: Schedule, wardId: Id, year: int, month: int)
  {
    s.wardId == wardId && InWindow(s.date, year, month) && !s.isLocked
  }

  function KeptAfterDelete(ss: seq<Schedule>, wardId: Id, year: int, month: int): (r: seq<Schedule>)
    ensures forall s :: s in r <==> s in ss && !Doomed(s, wardId, year, month)
  {
    Filter(ss, (s: Schedule) => !Doomed(s, wardId, year, month))
  }

  /**
   * The deleted count is the number of doomed schedules; locked schedules and
   * other wards' schedules all stay, and nothing doomed stays.
   */
  lemma DeleteCountsDoomed(ss: seq<Schedule>, wardId: Id, year: int, month: int)
    ensures |ss| - |KeptAfterDelete(ss, wardId, year, month)| == |Filter(ss, (s: Schedule) => Doomed(s, wardId, year, month))|
    ensures forall s | s in ss && (s.isLocked || s.wardId != wardId) :: s in KeptAfterDelete(ss, wardId, year, month)
  {
    FilterComplement(ss, (s: Schedule) => Doomed(s, wardId, year, month), (s: Schedule) => !Doomed(s, wardId, year, month));
  }

  // ---------------------------------------------------------------------
  // The store.
  // ---------------------------------------------------------------------

  class LocalDb {
    var wards: seq<Ward>
    var nurses: seq<Nurse>
    var schedules: seq<Schedule>
    var shiftRequests: seq<ShiftRequest>
    var vacationRequests: seq<VacationRequest>

    /** An empty store: `getFromStorage` of a missing key is `[]`. */
    constructor()
      ensures wards == [] && nurses == [] && schedules == [] && shiftRequests == [] && vacationRequests == []
    {
      wards := [];
      nurses := [];
      schedules := [];
      shiftRequests := [];
      vacationRequests := [];
    }

    // --- wards ---------------------------------------------------------

    /** `wards.update`. */
    method UpdateWard(id: Id, data: WardPatch, now: Timestamp) returns (updated: Option<Ward>)
      modifies this`wards
      ensures (wards, updated) == UpdateFirst(old(wards), (w: Ward) => w.id == id, (w: Ward) => PatchWard(w, data, now))
    {
      var index := FindIndex(wards, (w: Ward) => w.id == id);
      if index.None? {
        return None;
      }
      wards := wards[index.value := PatchWard(wards[index.value], data, now)];
      updated := Some(wards[index.value]);
    }

    /** `wards.delete`: true iff a ward had the id; with none, nothing is written. */
    method DeleteWard(id: Id) returns (deleted: bool)
      modifies this`wards
      ensures deleted <==> exists k | 0 <= k < |old(wards)| :: old(wards)[k].id == id
      ensures wards == if deleted then Filter(old(wards), (w: Ward) => w.id != id) else old(wards)
    {
      var filtered := Filter(wards, (w: Ward) => w.id != id);
      FilterFull(wards, (w: Ward) => w.id != id);
      assert (forall x | x in wards :: x.id != id) <==> forall k | 0 <= k < |wards| :: wards[k].id != id;
      if |filtered| == |wards| {
        return false;
      }
      wards := filtered;
      deleted := true;
    }

    // --- nurses --------------------------------------------------------

    /** `nurses.getByWard`: the active nurses of the ward, in store order. */
    function GetNursesByWard(wardId: Id): (r: seq<Nurse>)
      reads this
      ensures forall n :: n in r <==> n in nurses && n.wardId == wardId && n.isActive
    {
      NursesOfWard(nurses, wardId)
    }

    /** `nurses.update`. */
    method UpdateNurse(id: Id, data: NursePatch, now: Timestamp) returns (updated: Option<Nurse>)
      modifies this`nurses
      ensures (nurses, updated) == UpdateFirst(old(nurses), (n: Nurse) => n.id == id, (n: Nurse) => PatchNurse(n, data, now))
    {
      var index := FindIndex(nurses, (n: Nurse) => n.id == id);
      if index.None? {
        return None;
      }
      nurses := nurses[index.value := PatchNurse(nurses[index.value], data, now)];
      updated := Some(nurses[index.value]);
    }

    /** `nurses.delete`: a soft delete of the first nurse with the id. */
    method DeleteNurse(id: Id, now: Timestamp) returns (deleted: bool)
      modifies this`nurses
      ensures var (after, found) := UpdateFirst(old(nurses), (n: Nurse) => n.id == id, (n: Nurse) => Deactivated(n, now));
        nurses == after && (deleted <==> found.Some?)
    {
      var index := FindIndex(nurses, (n: Nurse) => n.id == id);
      if index.None? {
        return false;
      }
      nurses := nurses[index.value := Deactivated(nurses[index.value], now)];
      deleted := true;
    }

    // --- schedules -----------------------------------------------------

    /** `schedules.getByWardAndMonth`. */
    function GetSchedulesByWardAndMonth(wardId: Id, year: int, month: int): (r: seq<Schedule>)
      reads this
      ensures forall s :: s in r <==> s in schedules && s.wardId == wardId && InWindow(s.date, year, month)
    {
      SchedulesInMonth(schedules, wardId, year, month)
    }

    /** `schedules.create`. */
    method CreateSchedule(data: ScheduleInsert, newId: Id, now: Timestamp) returns (schedule: Schedule)
      modifies this`schedules
      ensures schedule == FromInsert(data, newId, now)
      ensures schedules == old(schedules) + [schedule]
    {
      schedule := FromInsert(data, newId, now);
      schedules := schedules + [schedule];
    }

    /** `schedules.upsert`: overlay the schedule of the insert's slot, or create one. */
    method UpsertSchedule(data: ScheduleInsert, newId: Id, now: Timestamp) returns (schedule: Schedule)
      modifies this`schedules
      ensures schedules == Upserted(old(schedules), data, newId, now)
      ensures schedule in schedules && SameSlot(schedule, data) && schedule.shiftType == data.shiftType
      ensures schedule == match FindIndex(old(schedules), (s: Schedule) => SameSlot(s, data))
        case Some(i) => Overlay(old(schedules)[i], data, now)
        case None => FromInsert(data, newId, now)
    {
      var existingIndex := FindIndex(schedules, (s: Schedule) => SameSlot(s, data));
      if existingIndex.Some? {
        schedules := schedules[existingIndex.value := Overlay(schedules[existingIndex.value], data, now)];
        return schedules[existingIndex.value];
      }
      schedule := CreateSchedule(data, newId, now);
    }

    /** `schedules.bulkCreate`: stamp every insert and append them all, in order. */
    method BulkCreate(dataList: seq<ScheduleInsert>, idFor: nat -> Id, now: Timestamp) returns (newSchedules: seq<Schedule>)
      modifies this`schedules
      ensures newSchedules == Stamped(dataList, idFor, now)
      ensures schedules == old(schedules) + newSchedules
    {
      newSchedules := Stamped(dataList, idFor, now);
      schedules := schedules + newSchedules;
    }

    /** `schedules.deleteByWardAndMonth`: drop the doomed schedules, report how many went. */
    method DeleteByWardAndMonth(wardId: Id, year: int, month: int) returns (deletedCount: int)
      modifies this`schedules
      ensures schedules == KeptAfterDelete(old(schedules), wardId, year, month)
      ensures deletedCount == |Filter(old(schedules), (s: Schedule) => Doomed(s, wardId, year, month))|
    {
      DeleteCountsDoomed(schedules, wardId, year, month);
      var filtered := KeptAfterDelete(schedules, wardId, year, month);
      deletedCount := |schedules| - |filtered|;
      schedules := filtered;
    }

    /** `schedules.update`. */
    method UpdateSchedule(id: Id, data: SchedulePatch, now: Timestamp) returns (updated: Option<Schedule>)
      modifies this`schedules
      ensures (schedules, updated) == UpdateFirst(old(schedules), (s: Schedule) => s.id == id, (s: Schedule) => PatchSchedule(s, data, now))
    {
      var index := FindIndex(schedules, (s: Schedule) => s.id == id);
      if index.None? {
        return None;
      }
      schedules := schedules[index.value := PatchSchedule(schedules[index.value], data, now)];
      updated := Some(schedules[index.value]);
    }

    // --- shift requests ------------------------------------------------

    /** `shiftRequests.getByWardAndMonth`: requests of the ward's active nurses dated in the window. */
    function GetShiftRequestsByWardAndMonth(wardId: Id, year: int, month: int): (r: seq<ShiftRequest>)
      reads this
      ensures forall q :: q in r <==>
        q in shiftRequests && q.nurseId in WardNurseIds(nurses, wardId) && InWindow(q.date, year, month)
    {
      var nurseIds := WardNurseIds(nurses, wardId);
      Filter(shiftRequests, (q: ShiftRequest) => q.nurseId in nurseIds && InWindow(q.date, year, month))
    }

    /** `shiftRequests.update`. */
    method UpdateShiftRequest(id: Id, data: ShiftRequestPatch, now: Timestamp) returns (updated: Option<ShiftRequest>)
      modifies this`shiftRequests
      ensures (shiftRequests, updated) ==
        UpdateFirst(old(shiftRequests), (q: ShiftRequest) => q.id == id, (q: ShiftRequest) => PatchShiftRequest(q, data, now))
    {
      var index := FindIndex(shiftRequests, (q: ShiftRequest) => q.id == id);
      if index.None? {
        return None;
      }
      shiftRequests := shiftRequests[index.value := PatchShiftRequest(shiftRequests[index.value], data, now)];
      updated := Some(shiftRequests[index.value]);
    }

    /** `shiftRequests.delete`: true iff a request had the id; with none, nothing is written. */
    method DeleteShiftRequest(id: Id) returns (deleted: bool)
      modifies this`shiftRequests
      ensures deleted <==> exists k | 0 <= k < |old(shiftRequests)| :: old(shiftRequests)[k].id == id
      ensures shiftRequests == if deleted then Filter(old(shiftRequests), (q: ShiftRequest) => q.id != id) else old(shiftRequests)
    {
      var filtered := Filter(shiftRequests, (q: ShiftRequest) => q.id != id);
      FilterFull(shiftRequests, (q: ShiftRequest) => q.id != id);
      assert (forall x | x in shiftRequests :: x.id != id) <==> forall k | 0 <= k < |shiftRequests| :: shiftRequests[k].id != id;
      if |filtered| == |shiftRequests| {
        return false;
      }
      shiftRequests := filtered;
      deleted := true;
    }

    // --- vacation requests ---------------------------------------------

    /** `vacationRequests.getByWardAndMonth`: requests of the ward's active nurses reaching into the window. */
    function GetVacationRequestsByWardAndMonth(wardId: Id, year: int, month: int): (r: seq<VacationRequest>)
      reads this
      ensures forall v :: v in r <==>
        v in vacationRequests && v.nurseId in WardNurseIds(nurses, wardId) && OverlapsWindow(v.startDate, v.endDate, year, month)
    {
      var nurseIds := WardNurseIds(nurses, wardId);
      Filter(vacationRequests, (v: VacationRequest) => v.nurseId in nurseIds && OverlapsWindow(v.startDate, v.endDate, year, month))
    }

    /** `vacationRequests.update`. */
    method UpdateVacationRequest(id: Id, data: VacationRequestPatch, now: Timestamp) returns (updated: Option<VacationRequest>)
      modifies this`vacationRequests
      ensures (vacationRequests, updated) ==
        UpdateFirst(old(vacationRequests), (v: VacationRequest) => v.id == id, (v: VacationRequest) => PatchVacationRequest(v, data, now))
    {
      var index := FindIndex(vacationRequests, (v: VacationRequest) => v.id == id);
      if index.None? {
        return None;
      }
      vacationRequests := vacationRequests[index.value := PatchVacationRequest(vacationRequests[index.value], data, now)];
      updated := Some(vacationRequests[index.value]);
    }

    /** `vacationRequests.delete`: true iff a request had the id; with none, nothing is written. */
    method DeleteVacationRequest(id: Id) returns (deleted: bool)
      modifies this`vacationRequests
      ensures deleted <==> exists k | 0 <= k < |old(vacationRequests)| :: old(vacationRequests)[k].id == id
      ensures vacationRequests == if deleted then Filter(old(vacationRequests), (v: VacationRequest) => v.id != id) else old(vacationRequests)
    {
      var filtered := Filter(vacationRequests, (v: VacationRequest) => v.id != id);
      FilterFull(vacationRequests, (v: VacationRequest) => v.id != id);
      assert (forall x | x in vacationRequests :: x.id != id) <==> forall k | 0 <= k < |vacationRequests| :: vacationRequests[k].id != id;
      if |filtered| == |vacationRequests| {
        return false;
      }
      vacationRequests := filtered;
      deleted := true;
    }
  }
}
