/**
 * The in-memory store of nurse-scheduler/src/store/app-store.ts: the state
 * the pages read, its setters (pure functions from state to state), the
 * monthly statistics fold, and `generateMonthlySchedule`, which ties the
 * record store, the generator and the in-memory state together.
 */
module AppStore {
  import opened Wrappers
  import opened Calendar
  import opened Types
  import opened Seqs
  import opened ShiftRules
  import opened Generator
  import opened LocalStorage

  /** The data of `AppState`; `isLoading` and the action closures are left out. */
  datatype AppState = AppState(
    wards: seq<Ward>,
    nurses: seq<Nurse>,
    schedules: seq<Schedule>,
    shiftRequests: seq<ShiftRequest>,
    vacationRequests: seq<VacationRequest>,
    selectedWardId: Option<Id>,
    selectedYear: int,
    selectedMonth: int)

  // ---------------------------------------------------------------------
  // Wards (`deleteWard`).
  // ---------------------------------------------------------------------

  /** The selected ward, when there is one, is a ward of the store. */
  predicate SelectionValid(st: AppState)
  {
    st.selectedWardId.Some? ==> exists w | w in st.wards :: w.id == st.selectedWardId.value
  }

  function WardIs(id: Id): Ward -> bool
  {
    (w: Ward) => w.id == id
  }

  function WardKept(id: Id): Ward -> bool
  {
    (w: Ward) => w.id != id
  }

  /**
   * The state `deleteWard` sets: the ward leaves the list, the others keep
   * their order, and the selection is cleared exactly when it was that ward.
   */
  function WithoutWard(st: AppState, id: Id): (r: AppState)
    ensures forall w :: w in r.wards <==> w in st.wards && w.id != id
    ensures r.selectedWardId.None? <==> st.selectedWardId.None? || st.selectedWardId == Some(id)
    ensures r.selectedWardId.Some? ==> r.selectedWardId == st.selectedWardId
    ensures SelectionValid(st) ==> SelectionValid(r)
    ensures r == st.(wards := r.wards, selectedWardId := r.selectedWardId)
  {
    st.(wards := Filter(st.wards, WardKept(id)),
        selectedWardId := if st.selectedWardId == Some(id) then None else st.selectedWardId)
  }

  /** Deleting a ward twice is deleting it once. */
  lemma WithoutWardIdempotent(st: AppState, id: Id)
    ensures WithoutWard(WithoutWard(st, id), id) == WithoutWard(st, id)
  {
    FilterSkip(st.wards, WardKept(id), WardKept(id));
  }

  /**
   * `deleteWard`: storage always loses the ward, whatever it held, and so
   * does the in-memory list, so a store whose ward list mirrors storage keeps
   * mirroring it.
   */
  method DeleteWard(db: LocalDb, st: AppState, id: Id) returns (st': AppState)
    modifies db`wards
    ensures st' == WithoutWard(st, id)
    ensures db.wards == Filter(old(db.wards), WardKept(id))
    ensures old(db.wards) == st.wards ==> db.wards == st'.wards
  {
    var deleted := db.DeleteWard(id);
    st' := WithoutWard(st, id);
    if !deleted {
      FilterAll(st'.wards, WardKept(id));
      FilterAll(db.wards, WardKept(id));
    } else {
      FilterSame(old(db.wards), (w: Ward) => w.id != id, WardKept(id));
    }
  }

  // ---------------------------------------------------------------------
  // Nurses (`deleteNurse`, `getNursesByWard`).
  // ---------------------------------------------------------------------

  /** `n.id === id ? { ...n, isActive: false } : n`. */
  function Deactivate(n: Nurse, id: Id): Nurse
  {
    if n.id == id then n.(isActive := false) else n
  }

  /**
   * The nurse list `deleteNurse` sets: no record is removed or moved; every
   * record with the id becomes inactive and nothing else about any record
   * changes.
   */
  function DeactivateNurse(nurses: seq<Nurse>, id: Id): (r: seq<Nurse>)
    ensures |r| == |nurses|
    ensures forall k | 0 <= k < |r| ::
      && r[k].id == nurses[k].id
      && (r[k].isActive <==> nurses[k].isActive && nurses[k].id != id)
      && r[k] == nurses[k].(isActive := r[k].isActive)
  {
    if nurses == [] then []
    else DeactivateNurse(nurses[..|nurses| - 1], id) + [Deactivate(nurses[|nurses| - 1], id)]
  }

  /** `getNursesByWard`: the active nurses of the ward, in list order. */
  function GetNursesByWard(st: AppState, wardId: Id): (r: seq<Nurse>)
    ensures forall n :: n in r <==> n in st.nurses && n.wardId == wardId && n.isActive
  {
    NursesOfWard(st.nurses, wardId)
  }

  function NurseKept(id: Id): Nurse -> bool
  {
    (n: Nurse) => n.id != id
  }

  /**
   * After `deleteNurse` the roster of every ward is the old roster without
   * the deleted nurse, in the same order.
   */
  lemma {:induction false} DeactivatedLeavesRoster(nurses: seq<Nurse>, id: Id, wardId: Id)
    ensures NursesOfWard(DeactivateNurse(nurses, id), wardId) == Filter(NursesOfWard(nurses, wardId), NurseKept(id))
  {
    if nurses != [] {
      var init, n := nurses[..|nurses| - 1], nurses[|nurses| - 1];
      DeactivatedLeavesRoster(init, id, wardId);
      var d := DeactivateNurse(nurses, id);
      assert d[..|d| - 1] == DeactivateNurse(init, id);
      var before := NursesOfWard(init, wardId);
      FilterConcat(before, if n.wardId == wardId && n.isActive then [n] else [], NurseKept(id));
      assert [n][..0] == [];
    }
  }

  /** `deleteNurse`: a soft delete, in storage and in memory. */
  method DeleteNurse(db: LocalDb, st: AppState, id: Id, now: Timestamp) returns (st': AppState)
    modifies db`nurses
    ensures db.nurses == UpdateFirst(old(db.nurses), (n: Nurse) => n.id == id, (n: Nurse) => Deactivated(n, now)).0
    ensures st' == st.(nurses := DeactivateNurse(st.nurses, id))
  {
    var deleted := db.DeleteNurse(id, now);
    st' := st.(nurses := DeactivateNurse(st.nurses, id));
  }

  // ---------------------------------------------------------------------
  // Schedules of a month (`getSchedulesByWardAndMonth`, the replacement
  // done by `generateMonthlySchedule`).
  // ---------------------------------------------------------------------

  /** `getSchedulesByWardAndMonth`: the ward's schedules dated in the month's string window. */
  function GetSchedulesByWardAndMonth(st: AppState, wardId: Id, year: int, month: int): (r: seq<Schedule>)
    ensures forall s :: s in r <==> s in st.schedules && s.wardId == wardId && InWindow(s.date, year, month)
  {
    SchedulesInMonth(st.schedules, wardId, year, month)
  }

  /** A schedule of the ward whose date parses to the given year and month. */
  predicate OfMonth(s: Schedule, wardId: Id, year: int, month: int)
  {
    s.wardId == wardId && s.date.year == year && s.date.month == month
  }

  function OutsideMonth(wardId: Id, year: int, month: int): Schedule -> bool
  {
    (s: Schedule) => !OfMonth(s, wardId, year, month)
  }

  /**
   * `[...otherSchedules, ...newSchedules]`: the schedules not of the ward's
   * month, unchanged and in order, followed by the new ones.
   */
  function ReplaceMonth(ss: seq<Schedule>, wardId: Id, year: int, month: int, generated: seq<Schedule>): (r: seq<Schedule>)
    ensures forall s :: s in r <==> (s in ss && !OfMonth(s, wardId, year, month)) || s in generated
    ensures |r| == |ss| - |Filter(ss, (s: Schedule) => OfMonth(s, wardId, year, month))| + |generated|
    ensures r[|r| - |generated|..] == generated
  {
    FilterComplement(ss, OutsideMonth(wardId, year, month), (s: Schedule) => OfMonth(s, wardId, year, month));
    Filter(ss, OutsideMonth(wardId, year, month)) + generated
  }

  /** Replacing a month twice with the same schedules is replacing it once. */
  lemma ReplaceMonthIdempotent(ss: seq<Schedule>, wardId: Id, year: int, month: int, generated: seq<Schedule>)
    requires forall s | s in generated :: OfMonth(s, wardId, year, month)
    ensures ReplaceMonth(ReplaceMonth(ss, wardId, year, month, generated), wardId, year, month, generated)
      == ReplaceMonth(ss, wardId, year, month, generated)
  {
    var p := OutsideMonth(wardId, year, month);
    var once := Filter(ss, p) + generated;
    assert ReplaceMonth(ss, wardId, year, month, generated) == once;
    assert ReplaceMonth(once, wardId, year, month, generated) == Filter(once, p) + generated;
    FilterConcat(Filter(ss, p), generated, p);
    FilterSkip(ss, p, p);
    FilterNone(generated, p);
    assert Filter(once, p) == Filter(ss, p);
  }

  /**
   * After the replacement, with well-formed dates, the month view of the ward
   * shows exactly the new schedules, and every other ward's views are as
   * before.
   */
  lemma ReplaceMonthViews(ss: seq<Schedule>, wardId: Id, year: int, month: int, generated: seq<Schedule>, otherWard: Id, y: int, m: int)
    requires 1 <= month <= 12 && forall s | s in ss :: ValidDate(s.date)
    requires forall s | s in generated :: OfMonth(s, wardId, year, month) && ValidDate(s.date)
    requires otherWard != wardId
    ensures SchedulesInMonth(ReplaceMonth(ss, wardId, year, month, generated), wardId, year, month) == generated
    ensures SchedulesInMonth(ReplaceMonth(ss, wardId, year, month, generated), otherWard, y, m) == SchedulesInMonth(ss, otherWard, y, m)
  {
    var p := OutsideMonth(wardId, year, month);
    var kept := Filter(ss, p);
    var view := InWardWindow(wardId, year, month);
    var other := InWardWindow(otherWard, y, m);
    FilterConcat(kept, generated, view);
    forall s | s in kept ensures !view(s) {
      WindowIsMonth(s.date, year, month);
    }
    FilterNone(kept, view);
    forall s | s in generated ensures view(s) {
      WindowIsMonth(s.date, year, month);
    }
    FilterAll(generated, view);
    FilterConcat(kept, generated, other);
    FilterSkip(ss, p, other);
    FilterNone(generated, other);
  }

  // ---------------------------------------------------------------------
  // Monthly statistics (`getMonthlyStats`).
  // ---------------------------------------------------------------------

  /** The per-nurse counters of `getMonthlyStats`. */
  datatype NurseStats = NurseStats(day: int, evening: int, night: int, off: int, split: int, vacation: int, weekendWork: int)

  const NoStats := NurseStats(0, 0, 0, 0, 0, 0, 0)

  /**
   * What one schedule adds: its shift type's counter (VACATION and
   * ANNUAL_LEAVE both under `vacation`), and `weekendWork` on a weekend date
   * unless the type is OFF or VACATION.
   */
  function Counted(t: NurseStats, s: Schedule): NurseStats
  {
    var t := match s.shiftType
      case Day => t.(day := t.day + 1)
      case Evening => t.(evening := t.evening + 1)
      case Night => t.(night := t.night + 1)
      case Off => t.(off := t.off + 1)
      case Split => t.(split := t.split + 1)
      case Vacation => t.(vacation := t.vacation + 1)
      case AnnualLeave => t.(vacation := t.vacation + 1);
    if OnWeekend(s.date) && s.shiftType != Off && s.shiftType != Vacation then t.(weekendWork := t.weekendWork + 1) else t
  }

  /** The statistics of nurse `id` after folding the schedules in order. */
  function StatsOf(ss: seq<Schedule>, id: Id): NurseStats
  {
    if ss == [] then NoStats
    else
      var t := StatsOf(ss[..|ss| - 1], id);
      if ss[|ss| - 1].nurseId == id then Counted(t, ss[|ss| - 1]) else t
  }

  function OwnedBy(id: Id): Schedule -> bool
  {
    (s: Schedule) => s.nurseId == id
  }

  function OfShift(id: Id, t: ShiftType): Schedule -> bool
  {
    (s: Schedule) => s.nurseId == id && s.shiftType == t
  }

  function OnLeaveOf(id: Id): Schedule -> bool
  {
    (s: Schedule) => s.nurseId == id && (s.shiftType == Vacation || s.shiftType == AnnualLeave)
  }

  function WeekendWorkOf(id: Id): Schedule -> bool
  {
    (s: Schedule) => s.nurseId == id && OnWeekend(s.date) && s.shiftType != Off && s.shiftType != Vacation
  }

  /**
   * One counter of the fold counts the schedules `p` picks, when `p` picks
   * only the nurse's schedules and `Counted` bumps that counter exactly for
   * them.
   */
  lemma {:induction false} CounterCounts(ss: seq<Schedule>, id: Id, get: NurseStats -> int, p: Schedule -> bool)
    requires get(NoStats) == 0
    requires forall s :: p(s) ==> s.nurseId == id
    requires forall t: NurseStats, s: Schedule | s.nurseId == id :: get(Counted(t, s)) == get(t) + if p(s) then 1 else 0
    ensures get(StatsOf(ss, id)) == |Filter(ss, p)|
  {
    if ss != [] {
      CounterCounts(ss[..|ss| - 1], id, get, p);
    }
  }

  /** How `Counted` moves each counter. */
  lemma CountedBumps()
    ensures forall t: NurseStats, s: Schedule :: var c := Counted(t, s);
      && c.day == t.day + (if s.shiftType == Day then 1 else 0)
      && c.evening == t.evening + (if s.shiftType == Evening then 1 else 0)
      && c.night == t.night + (if s.shiftType == Night then 1 else 0)
      && c.off == t.off + (if s.shiftType == Off then 1 else 0)
      && c.split == t.split + (if s.shiftType == Split then 1 else 0)
      && c.vacation == t.vacation + (if s.shiftType == Vacation || s.shiftType == AnnualLeave then 1 else 0)
      && c.weekendWork == t.weekendWork + (if OnWeekend(s.date) && s.shiftType != Off && s.shiftType != Vacation then 1 else 0)
  {
  }

  /**
   * Each counter counts the nurse's schedules of its kind: one counter per
   * shift type, VACATION and ANNUAL_LEAVE together under `vacation` (never
   * under `off`), and `weekendWork` the weekend schedules that are neither OFF
   * nor VACATION, so weekend ANNUAL_LEAVE is counted as weekend work.
   */
  lemma StatsCount(ss: seq<Schedule>, id: Id)
    ensures StatsOf(ss, id) == NurseStats(
      |Filter(ss, OfShift(id, Day))|, |Filter(ss, OfShift(id, Evening))|, |Filter(ss, OfShift(id, Night))|,
      |Filter(ss, OfShift(id, Off))|, |Filter(ss, OfShift(id, Split))|, |Filter(ss, OnLeaveOf(id))|,
      |Filter(ss, WeekendWorkOf(id))|)
  {
    CountedBumps();
    CounterCounts(ss, id, (t: NurseStats) => t.day, OfShift(id, Day));
    CounterCounts(ss, id, (t: NurseStats) => t.evening, OfShift(id, Evening));
    CounterCounts(ss, id, (t: NurseStats) => t.night, OfShift(id, Night));
    CounterCounts(ss, id, (t: NurseStats) => t.off, OfShift(id, Off));
    CounterCounts(ss, id, (t: NurseStats) => t.split, OfShift(id, Split));
    CounterCounts(ss, id, (t: NurseStats) => t.vacation, OnLeaveOf(id));
    CounterCounts(ss, id, (t: NurseStats) => t.weekendWork, WeekendWorkOf(id));
  }

  /** The six shift counters, without `weekendWork`. */
  function ShiftTotal(t: NurseStats): int
  {
    t.day + t.evening + t.night + t.off + t.split + t.vacation
  }

  /** The six shift counters of a nurse add up to that nurse's number of schedules. */
  lemma StatsTotal(ss: seq<Schedule>, id: Id)
    ensures ShiftTotal(StatsOf(ss, id)) == |Filter(ss, OwnedBy(id))|
  {
    CountedBumps();
    CounterCounts(ss, id, ShiftTotal, OwnedBy(id));
  }

  /** One more schedule moves only its own nurse's statistics. */
  lemma StatsStep(ss: seq<Schedule>, i: nat, id: Id)
    requires i < |ss|
    ensures StatsOf(ss[..i + 1], id) == if ss[i].nurseId == id then Counted(StatsOf(ss[..i], id), ss[i]) else StatsOf(ss[..i], id)
  {
    assert ss[..i + 1][..i] == ss[..i];
  }

  /** A nurse without schedules among the first `i` has no statistics from them. */
  lemma {:induction false} StatsOfAbsent(ss: seq<Schedule>, i: nat, id: Id)
    requires i <= |ss|
    requires forall k | 0 <= k < i :: ss[k].nurseId != id
    ensures StatsOf(ss[..i], id) == NoStats
  {
    if i > 0 {
      StatsOfAbsent(ss, i - 1, id);
      StatsStep(ss, i - 1, id);
    }
  }

  /** The body of the statistics loop: the `switch` on the shift type, then the weekend check. */
  method CountSchedule(nurseStats: NurseStats, schedule: Schedule) returns (t: NurseStats)
    ensures t == Counted(nurseStats, schedule)
  {
    t := nurseStats;
    var isWeekendDay := OnWeekend(schedule.date);
    match schedule.shiftType {
      case Day => t := t.(day := t.day + 1);
      case Evening => t := t.(evening := t.evening + 1);
      case Night => t := t.(night := t.night + 1);
      case Off => t := t.(off := t.off + 1);
      case Split => t := t.(split := t.split + 1);
      case Vacation => t := t.(vacation := t.vacation + 1);
      case AnnualLeave => t := t.(vacation := t.vacation + 1);
    }
    if isWeekendDay && schedule.shiftType != Off && schedule.shiftType != Vacation {
      t := t.(weekendWork := t.weekendWork + 1);
    }
  }

  /**
   * `getMonthlyStats`: one entry per nurse that has a schedule of the ward in
   * the month's window, holding the fold of that nurse's schedules.
   */
  method GetMonthlyStats(st: AppState, wardId: Id, year: int, month: int) returns (stats: map<Id, NurseStats>)
    ensures var ss := GetSchedulesByWardAndMonth(st, wardId, year, month);
      && (forall id :: id in stats <==> exists k | 0 <= k < |ss| :: ss[k].nurseId == id)
      && (forall id | id in stats :: stats[id] == StatsOf(ss, id))
  {
    var schedules := GetSchedulesByWardAndMonth(st, wardId, year, month);
    stats := map[];
    for i := 0 to |schedules|
      invariant forall id :: id in stats <==> exists k | 0 <= k < i :: schedules[k].nurseId == id
      invariant forall id | id in stats :: stats[id] == StatsOf(schedules[..i], id)
    {
      var schedule := schedules[i];
      if schedule.nurseId !in stats {
        StatsOfAbsent(schedules, i, schedule.nurseId);
        stats := stats[schedule.nurseId := NurseStats(0, 0, 0, 0, 0, 0, 0)];
      }
      var nurseStats := CountSchedule(stats[schedule.nurseId], schedule);
      stats := stats[schedule.nurseId := nurseStats];
      forall id | id in stats ensures stats[id] == StatsOf(schedules[..i + 1], id) {
        StatsStep(schedules, i, id);
      }
    }
    PrefixAll(schedules);
  }

  // ---------------------------------------------------------------------
  // Generation (`generateMonthlySchedule`).
  // ---------------------------------------------------------------------

  /** The insert part of every stored schedule, in order. */
  function InsertsOf(ss: seq<Schedule>): (r: seq<ScheduleInsert>)
    ensures |r| == |ss| && forall k | 0 <= k < |ss| :: r[k] == InsertOf(ss[k])
  {
    seq(|ss|, k requires 0 <= k < |ss| => InsertOf(ss[k]))
  }

  /**
   * What regeneration leaves in storage, as written: the month's locked
   * schedules survive `deleteByWardAndMonth` and the new ones follow them.
   */
  function StoredAfterRegeneration(ss: seq<Schedule>, wardId: Id, year: int, month: int, generated: seq<Schedule>): (r: seq<Schedule>)
    ensures forall s :: s in r <==> (s in ss && !Doomed(s, wardId, year, month)) || s in generated
    ensures forall s | s in ss && s.isLocked :: s in r
  {
    KeptAfterDelete(ss, wardId, year, month) + generated
  }

  /**
   * A locked schedule of a slot that the new schedules fill again stays
   * beside its replacement: storage then holds two schedules for one
   * (ward, nurse, date).
   */
  lemma RegenerationDuplicatesLockedSlot(ss: seq<Schedule>, wardId: Id, year: int, month: int, generated: seq<Schedule>, locked: Schedule, f: Schedule)
    requires locked in ss && locked.isLocked
    requires f in generated && SameSlot(f, InsertOf(locked))
    ensures !SlotsUnique(StoredAfterRegeneration(ss, wardId, year, month, generated))
  {
    var kept := KeptAfterDelete(ss, wardId, year, month);
    var r := StoredAfterRegeneration(ss, wardId, year, month, generated);
    assert locked in kept;
    var i :| 0 <= i < |kept| && kept[i] == locked;
    var j :| 0 <= j < |generated| && generated[j] == f;
    assert r[i] == locked && r[|kept| + j] == f;
  }

  /** The concrete case: a second run over a month in which the nurse's leave is still approved. */
  lemma SecondRunDuplicatesVacation()
    ensures var first := Schedule("s1", "w1", "n1", Date(2024, 6, 3), Vacation, true, None, "t1", "t1");
      var second := Schedule("s2", "w1", "n1", Date(2024, 6, 3), Vacation, true, None, "t2", "t2");
      var r := StoredAfterRegeneration([first], "w1", 2024, 6, [second]);
      r == [first, second] && !SlotsUnique(r)
  {
    var first := Schedule("s1", "w1", "n1", Date(2024, 6, 3), Vacation, true, None, "t1", "t1");
    var second := Schedule("s2", "w1", "n1", Date(2024, 6, 3), Vacation, true, None, "t2", "t2");
    assert [first][..0] == [];
    assert KeptAfterDelete([first], "w1", 2024, 6) == [first];
    RegenerationDuplicatesLockedSlot([first], "w1", 2024, 6, [second], first, second);
  }

  function OutsideWindow(wardId: Id, year: int, month: int): Schedule -> bool
  {
    (s: Schedule) => !(s.wardId == wardId && InWindow(s.date, year, month))
  }

  /**
   * Regeneration as intended: every schedule of the ward in the month's
   * window, locked or not, gives way to the new ones.
   */
  function StoredAfterCleanRegeneration(ss: seq<Schedule>, wardId: Id, year: int, month: int, generated: seq<Schedule>): (r: seq<Schedule>)
    ensures forall s :: s in r <==> (s in ss && !(s.wardId == wardId && InWindow(s.date, year, month))) || s in generated
  {
    Filter(ss, OutsideWindow(wardId, year, month)) + generated
  }

  /**
   * Clean regeneration keeps one schedule per (ward, nurse, date) and leaves
   * exactly the new schedules in the month's view of the ward.
   */
  lemma CleanRegenerationKeepsSlotsUnique(ss: seq<Schedule>, wardId: Id, year: int, month: int, generated: seq<Schedule>)
    requires SlotsUnique(ss) && SlotsUnique(generated)
    requires forall f | f in generated :: f.wardId == wardId && InWindow(f.date, year, month)
    ensures SlotsUnique(StoredAfterCleanRegeneration(ss, wardId, year, month, generated))
    ensures SchedulesInMonth(StoredAfterCleanRegeneration(ss, wardId, year, month, generated), wardId, year, month) == generated
  {
    var p := OutsideWindow(wardId, year, month);
    var kept := Filter(ss, p);
    FilterPairwise(ss, p, (a: Schedule, b: Schedule) => !SameSlot(b, InsertOf(a)));
    SlotsUniqueConcat(kept, generated);
    var view := InWardWindow(wardId, year, month);
    FilterConcat(kept, generated, view);
    FilterNone(kept, view);
    FilterAll(generated, view);
  }

  /**
   * The in-memory replacement of `generateMonthlySchedule`, which drops the
   * month by parsed year and month, is the clean regeneration whenever the
   * stored dates are real dates: only the persisted copy keeps stale locked
   * schedules.
   */
  lemma InMemoryReplacementIsClean(ss: seq<Schedule>, wardId: Id, year: int, month: int, generated: seq<Schedule>)
    requires 1 <= month <= 12 && forall s | s in ss :: ValidDate(s.date)
    ensures ReplaceMonth(ss, wardId, year, month, generated) == StoredAfterCleanRegeneration(ss, wardId, year, month, generated)
  {
    forall s | s in ss ensures OutsideMonth(wardId, year, month)(s) == OutsideWindow(wardId, year, month)(s) {
      WindowIsMonth(s.date, year, month);
    }
    FilterSame(ss, OutsideMonth(wardId, year, month), OutsideWindow(wardId, year, month));
  }

  /** Two slot-unique lists whose slots do not meet stay slot-unique when appended. */
  lemma SlotsUniqueConcat(a: seq<Schedule>, b: seq<Schedule>)
    requires SlotsUnique(a) && SlotsUnique(b)
    requires forall x, y | x in a && y in b :: !SameSlot(y, InsertOf(x))
    ensures SlotsUnique(a + b)
  {
    var r := a + b;
    forall i, j | 0 <= i < j < |r| ensures !SameSlot(r[j], InsertOf(r[i])) {
      if j < |a| {
        assert r[i] == a[i] && r[j] == a[j];
      } else if i >= |a| {
        assert r[i] == b[i - |a|] && r[j] == b[j - |a|];
      } else {
        assert r[i] == a[i] && a[i] in a && r[j] == b[j - |a|] && b[j - |a|] in b;
      }
    }
  }

  /** Stamping a generated month keeps its inserts, where they belong, and its unique slots, under the given ids and time. */
  lemma StampedMonth(inserts: seq<ScheduleInsert>, idFor: nat -> Id, now: Timestamp, wardId: Id, ids: seq<Id>, y: int, m: int)
    requires 1 <= m <= 12
    requires forall e | e in inserts ::
      e.wardId == wardId && e.nurseId in ids && e.date in MonthDates(y, m) && (e.isLocked <==> e.shiftType == Vacation)
    requires forall i, j | 0 <= i < j < |inserts| :: inserts[i].nurseId != inserts[j].nurseId || inserts[i].date != inserts[j].date
    ensures var r := Stamped(inserts, idFor, now);
      && InsertsOf(r) == inserts
      && (forall k | 0 <= k < |r| :: r[k].id == idFor(k) && r[k].createdAt == now && r[k].updatedAt == now)
      && (forall s | s in r ::
            s.wardId == wardId && s.nurseId in ids && s.date in MonthDates(y, m) && (s.isLocked <==> s.shiftType == Vacation))
      && SlotsUnique(r)
  {
    var r := Stamped(inserts, idFor, now);
    StampedKeepsInserts(inserts, idFor, now);
    assert InsertsOf(r) == inserts;
    forall s | s in r ensures InsertOf(s) in inserts {
      var k :| 0 <= k < |r| && r[k] == s;
      assert InsertOf(s) == inserts[k];
    }
  }

  /**
   * The body of `generateMonthlySchedule` for a ward that exists, once the
   * stored requests of the month have been read: the month's unlocked
   * schedules are deleted, the generator is run on the ward's nurses and
   * those requests, and its month is bulk-created with generated ids.
   */
  method Regenerate(db: LocalDb, ward: Ward, nurses: seq<Nurse>, config: GenerationConfig,
                    shiftRequests: seq<ShiftRequest>, vacationRequests: seq<VacationRequest>, idFor: nat -> Id, now: Timestamp)
    returns (newSchedules: seq<Schedule>, ghost generator: ScheduleGenerator)
    modifies db`schedules
    requires ward.id == config.wardId
    requires Distinct(NurseIds(ActiveNurses(nurses)))
    requires NormalizeMonth(config.year, config.month).0 >= 1
    ensures generator.BuiltFrom(ward, nurses, config, shiftRequests, vacationRequests)
    ensures InsertsOf(newSchedules) == generator.MonthRun()
    ensures db.schedules == StoredAfterRegeneration(old(db.schedules), config.wardId, config.year, config.month, newSchedules)
    ensures forall k | 0 <= k < |newSchedules| ::
      newSchedules[k].id == idFor(k) && newSchedules[k].createdAt == now && newSchedules[k].updatedAt == now
    ensures var (y, m) := NormalizeMonth(config.year, config.month);
      var ids := NurseIds(ActiveNurses(nurses));
      && (forall s | s in newSchedules ::
            && s.wardId == config.wardId && s.nurseId in ids && s.date in MonthDates(y, m)
            && (s.isLocked <==> s.shiftType == Vacation))
      && (forall id | id in ids :: DatesOf(EntriesOf(InsertsOf(newSchedules), id)) == MonthDates(y, m))
      && SlotsUnique(newSchedules)
  {
    var deletedCount := db.DeleteByWardAndMonth(config.wardId, config.year, config.month);
    var scheduleInserts;
    scheduleInserts, generator := GenerateSchedule(ward, nurses, config, shiftRequests, vacationRequests);
    newSchedules := db.BulkCreate(scheduleInserts, idFor, now);
    assert db.schedules == StoredAfterRegeneration(old(db.schedules), config.wardId, config.year, config.month, newSchedules);
    var (y, m) := NormalizeMonth(config.year, config.month);
    StampedMonth(scheduleInserts, idFor, now, config.wardId, NurseIds(ActiveNurses(nurses)), y, m);
    assert InsertsOf(newSchedules) == generator.MonthRun();
  }

  /**
   * `generateMonthlySchedule`. With no ward of the configured id nothing
   * happens and `[]` is returned. Otherwise the ward's active nurses and the
   * stored requests of the month are handed to the generator, and the new
   * schedules carry exactly the month that generator computes; storage loses
   * the month's unlocked schedules and gains the generated ones, stamped with
   * generated ids; the in-memory list replaces the ward's month by them. The new
   * schedules give every active nurse of the ward one schedule per date of
   * the month, and no two of them share a (ward, nurse, date).
   */
  method GenerateMonthlySchedule(db: LocalDb, st: AppState, config: GenerationConfig, idFor: nat -> Id, now: Timestamp)
    returns (newSchedules: seq<Schedule>, st': AppState, ghost generator: ScheduleGenerator?)
    modifies db`schedules
    requires Distinct(NurseIds(ActiveNurses(NursesOfWard(st.nurses, config.wardId))))
    requires NormalizeMonth(config.year, config.month).0 >= 1
    ensures Find(st.wards, WardIs(config.wardId)).None? ==>
      newSchedules == [] && st' == st && db.schedules == old(db.schedules)
    ensures var ward := Find(st.wards, WardIs(config.wardId));
      ward.Some? ==>
        && generator != null
        && generator.BuiltFrom(ward.value, NursesOfWard(st.nurses, config.wardId), config,
             old(db.GetShiftRequestsByWardAndMonth(config.wardId, config.year, config.month)),
             old(db.GetVacationRequestsByWardAndMonth(config.wardId, config.year, config.month)))
    ensures Find(st.wards, WardIs(config.wardId)).Some? ==> generator != null && InsertsOf(newSchedules) == generator.MonthRun()
    ensures Find(st.wards, WardIs(config.wardId)).Some? ==>
      && db.schedules == StoredAfterRegeneration(old(db.schedules), config.wardId, config.year, config.month, newSchedules)
      && st' == st.(schedules := ReplaceMonth(st.schedules, config.wardId, config.year, config.month, newSchedules))
    ensures forall k | 0 <= k < |newSchedules| ::
      newSchedules[k].id == idFor(k) && newSchedules[k].createdAt == now && newSchedules[k].updatedAt == now
    ensures var (y, m) := NormalizeMonth(config.year, config.month);
      var ids := NurseIds(ActiveNurses(NursesOfWard(st.nurses, config.wardId)));
      && (forall s | s in newSchedules ::
            && s.wardId == config.wardId && s.nurseId in ids && s.date in MonthDates(y, m)
            && (s.isLocked <==> s.shiftType == Vacation))
      && (Find(st.wards, WardIs(config.wardId)).Some? ==>
            forall id | id in ids :: DatesOf(EntriesOf(InsertsOf(newSchedules), id)) == MonthDates(y, m))
      && SlotsUnique(newSchedules)
  {
    var ward := Find(st.wards, WardIs(config.wardId));
    if ward.None? {
      return [], st, null;
    }
    var wardNurses := NursesOfWard(st.nurses, config.wardId);
    var wardShiftRequests := db.GetShiftRequestsByWardAndMonth(config.wardId, config.year, config.month);
    var wardVacationRequests := db.GetVacationRequestsByWardAndMonth(config.wardId, config.year, config.month);
    newSchedules, generator := Regenerate(db, ward.value, wardNurses, config, wardShiftRequests, wardVacationRequests, idFor, now);
    st' := st.(schedules := ReplaceMonth(st.schedules, config.wardId, config.year, config.month, newSchedules));
  }
}
