/**
 * The pure parts of nurse-scheduler/src/lib/schedule-generator.ts: a nurse's
 * run state and its update (`updateNurseState`), the feasibility check
 * (`canAssignShift`) and the quota score (`getShiftPriority`), together with
 * the history view that explains what the run state counts.
 */
module ShiftRules {
  import opened Wrappers
  import opened Calendar
  import opened Types
  import opened Seqs

  /** `monthlyStats` of `NurseScheduleState`. */
  datatype MonthlyTally = MonthlyTally(day: int, evening: int, night: int, off: int, split: int, weekendWork: int)

  /** `NurseScheduleState` without its `nurse` back-reference, which the engine never reads. */
  datatype NurseState = NurseState(
    consecutiveWorkDays: int,
    consecutiveNights: int,
    lastShift: Option<ShiftType>,
    monthlyStats: MonthlyTally)

  /** The state `initializeNurseStates` gives every nurse. */
  const InitialState := NurseState(0, 0, None, MonthlyTally(0, 0, 0, 0, 0, 0))

  /** `updateNurseState`: the state after the nurse works (or rests) `shift` on a day. */
  function NextState(st: NurseState, shift: ShiftType, isWeekendDay: bool): (r: NurseState)
    ensures r.lastShift == Some(shift)
    ensures IsRest(shift) ==>
      r == NurseState(0, 0, Some(shift), st.monthlyStats.(off := st.monthlyStats.off + 1))
    ensures !IsRest(shift) ==>
      && r.consecutiveWorkDays == st.consecutiveWorkDays + 1
      && r.monthlyStats.off == st.monthlyStats.off
      && r.monthlyStats.weekendWork == st.monthlyStats.weekendWork + (if isWeekendDay then 1 else 0)
    ensures shift == Night ==>
      && r.consecutiveNights == st.consecutiveNights + 1
      && r.monthlyStats == st.monthlyStats.(night := st.monthlyStats.night + 1,
                                           weekendWork := r.monthlyStats.weekendWork)
    ensures shift == Day ==>
      && r.consecutiveNights == 0
      && r.monthlyStats == st.monthlyStats.(day := st.monthlyStats.day + 1, weekendWork := r.monthlyStats.weekendWork)
    ensures shift == Evening ==>
      && r.consecutiveNights == 0
      && r.monthlyStats == st.monthlyStats.(evening := st.monthlyStats.evening + 1, weekendWork := r.monthlyStats.weekendWork)
    ensures shift == Split ==>
      && r.consecutiveNights == 0
      && r.monthlyStats == st.monthlyStats.(split := st.monthlyStats.split + 1, weekendWork := r.monthlyStats.weekendWork)
  {
    var t := st.monthlyStats;
    if IsRest(shift) then
      st.(consecutiveWorkDays := 0, consecutiveNights := 0, lastShift := Some(shift),
          monthlyStats := t.(off := t.off + 1))
    else
      var t := if isWeekendDay then t.(weekendWork := t.weekendWork + 1) else t;
      if shift == Night then
        st.(consecutiveWorkDays := st.consecutiveWorkDays + 1,
            consecutiveNights := st.consecutiveNights + 1,
            lastShift := Some(shift),
            monthlyStats := t.(night := t.night + 1))
      else
        var t :=
          if shift == Day then t.(day := t.day + 1)
          else if shift == Evening then t.(evening := t.evening + 1)
          else t.(split := t.split + 1);
        st.(consecutiveWorkDays := st.consecutiveWorkDays + 1,
            consecutiveNights := 0,
            lastShift := Some(shift),
            monthlyStats := t)
  }

  // ---------------------------------------------------------------------
  // Histories: what the counters of a run state count.
  // ---------------------------------------------------------------------

  /** A date counts as a weekend day when it exists and falls on Saturday or Sunday. */
  predicate OnWeekend(d: Date)
  {
    ValidDate(d) && IsWeekend(d)
  }

  function Shifts(es: seq<ScheduleInsert>): (r: seq<ShiftType>)
    ensures |r| == |es| && forall k | 0 <= k < |es| :: r[k] == es[k].shiftType
  {
    seq(|es|, k requires 0 <= k < |es| => es[k].shiftType)
  }

  /** Length of the run of work (non-rest) days that ends the history. */
  function WorkRun(h: seq<ShiftType>): nat
  {
    if h == [] || IsRest(h[|h| - 1]) then 0 else WorkRun(h[..|h| - 1]) + 1
  }

  /** Length of the run of NIGHT shifts that ends the history. */
  function NightRun(h: seq<ShiftType>): nat
  {
    if h == [] || h[|h| - 1] != Night then 0 else NightRun(h[..|h| - 1]) + 1
  }

  function LastOf(h: seq<ShiftType>): Option<ShiftType>
  {
    if h == [] then None else Some(h[|h| - 1])
  }

  /** The run state reached by applying `updateNurseState` to a nurse's entries in order. */
  function Replay(es: seq<ScheduleInsert>): NurseState
  {
    if es == [] then InitialState
    else NextState(Replay(es[..|es| - 1]), es[|es| - 1].shiftType, OnWeekend(es[|es| - 1].date))
  }

  function CountShift(es: seq<ScheduleInsert>, t: ShiftType): nat
  {
    |Filter(es, (e: ScheduleInsert) => e.shiftType == t)|
  }

  function CountRest(es: seq<ScheduleInsert>): nat
  {
    |Filter(es, (e: ScheduleInsert) => IsRest(e.shiftType))|
  }

  function CountWeekendWork(es: seq<ScheduleInsert>): nat
  {
    |Filter(es, (e: ScheduleInsert) => !IsRest(e.shiftType) && OnWeekend(e.date))|
  }

  /**
   * The run counters after a history are explained by the history alone: the
   * consecutive counters are the trailing runs and `lastShift` the last entry.
   */
  lemma {:induction false} ReplayRuns(es: seq<ScheduleInsert>)
    ensures var st := Replay(es); var h := Shifts(es);
      && st.consecutiveWorkDays == WorkRun(h)
      && st.consecutiveNights == NightRun(h)
      && st.lastShift == LastOf(h)
  {
    if es != [] {
      var init := es[..|es| - 1];
      ReplayRuns(init);
      assert Shifts(es)[..|es| - 1] == Shifts(init);
    }
  }

  /**
   * Each monthly tally counts its kind of entry; VACATION and ANNUAL_LEAVE are
   * counted under `off`, and `weekendWork` counts work entries on weekend dates.
   */
  lemma {:induction false} ReplayTallies(es: seq<ScheduleInsert>)
    ensures Replay(es).monthlyStats ==
      MonthlyTally(CountShift(es, Day), CountShift(es, Evening), CountShift(es, Night),
                   CountRest(es), CountShift(es, Split), CountWeekendWork(es))
  {
    if es != [] {
      var init := es[..|es| - 1];
      ReplayTallies(init);
      var e := es[|es| - 1];
      var st := Replay(init);
      assert Replay(es) == NextState(st, e.shiftType, OnWeekend(e.date));
      match e.shiftType
      case Day =>
      case Evening =>
      case Night =>
      case Split =>
      case _ =>
    }
  }

  // ---------------------------------------------------------------------
  // Feasibility (`canAssignShift`).
  // ---------------------------------------------------------------------

  datatype Denial = OnVacation | MaxWorkDays | MaxNights | RestAfterNight

  /** `{ canAssign, reason }` of `canAssignShift`. */
  datatype Verdict = Allowed | Denied(reason: Denial)

  /**
   * `canAssignShift` on a nurse's current state: the four reasons are tried in
   * the source's order and the first that applies is reported. EVENING after
   * NIGHT is not refused.
   */
  function CheckShift(st: NurseState, onVacation: bool, shift: ShiftType, cfg: GenerationConfig): (v: Verdict)
    ensures v == Denied(OnVacation) <==> onVacation
    ensures v == Denied(MaxWorkDays) <==>
      !onVacation && shift != Off && st.consecutiveWorkDays >= cfg.maxConsecutiveWorkDays
    ensures v == Denied(MaxNights) <==>
      !onVacation && !(shift != Off && st.consecutiveWorkDays >= cfg.maxConsecutiveWorkDays)
      && shift == Night && st.consecutiveNights >= cfg.maxConsecutiveNights
    ensures v.Allowed? <==>
      && !onVacation
      && (shift != Off ==> st.consecutiveWorkDays < cfg.maxConsecutiveWorkDays)
      && (shift == Night ==> st.consecutiveNights < cfg.maxConsecutiveNights)
      && !(cfg.minRestAfterNight && st.lastShift == Some(Night) && shift == Day)
  {
    if onVacation then Denied(OnVacation)
    else if shift != Off && st.consecutiveWorkDays >= cfg.maxConsecutiveWorkDays then Denied(MaxWorkDays)
    else if shift == Night && st.consecutiveNights >= cfg.maxConsecutiveNights then Denied(MaxNights)
    else if cfg.minRestAfterNight && st.lastShift == Some(Night) && shift == Day then Denied(RestAfterNight)
    else Allowed
  }

  /** The rest rule blocks NIGHT then DAY but leaves NIGHT then EVENING alone. */
  lemma EveningAfterNightAllowed(st: NurseState, cfg: GenerationConfig)
    requires st.lastShift == Some(Night) && cfg.minRestAfterNight
    requires st.consecutiveWorkDays < cfg.maxConsecutiveWorkDays
    ensures CheckShift(st, false, Evening, cfg) == Allowed
    ensures CheckShift(st, false, Day, cfg) == Denied(RestAfterNight)
  {
  }

  // ---------------------------------------------------------------------
  // What a whole history must respect.
  // ---------------------------------------------------------------------

  /**
   * Every work entry ends a run of at most `maxConsecutiveWorkDays` work days,
   * every NIGHT ends a run of at most `maxConsecutiveNights` nights, and with
   * `minRestAfterNight` no NIGHT is followed by DAY or SPLIT.
   */
  predicate RunsWithin(h: seq<ShiftType>, cfg: GenerationConfig)
  {
    && (forall j | 0 < j <= |h| :: !IsRest(h[j - 1]) ==> WorkRun(h[..j]) <= cfg.maxConsecutiveWorkDays)
    && (forall j | 0 < j <= |h| :: h[j - 1] == Night ==> NightRun(h[..j]) <= cfg.maxConsecutiveNights)
    && (cfg.minRestAfterNight ==> forall j | 0 < j < |h| :: h[j - 1] == Night ==> h[j] != Day && h[j] != Split)
  }

  /**
   * One day of the engine keeps a history within the limits: a rest entry
   * always does, and so does a work entry whose feasibility check passed for
   * the shift it is recorded as (or for DAY when it is recorded as SPLIT).
   */
  lemma StepKeepsRuns(h: seq<ShiftType>, st: NurseState, checked: ShiftType, recorded: ShiftType, cfg: GenerationConfig)
    requires st.consecutiveWorkDays == WorkRun(h) && st.consecutiveNights == NightRun(h) && st.lastShift == LastOf(h)
    requires RunsWithin(h, cfg)
    requires IsRest(recorded) ||
      (checked in {Day, Evening, Night} && CheckShift(st, false, checked, cfg).Allowed? &&
       (recorded == checked || (checked == Day && recorded == Split)))
    ensures RunsWithin(h + [recorded], cfg)
  {
    var h' := h + [recorded];
    assert h'[..|h|] == h;
    forall j | 0 < j <= |h'|
      ensures !IsRest(h'[j - 1]) ==> WorkRun(h'[..j]) <= cfg.maxConsecutiveWorkDays
      ensures h'[j - 1] == Night ==> NightRun(h'[..j]) <= cfg.maxConsecutiveNights
    {
      if j <= |h| {
        assert h'[..j] == h[..j];
      } else {
        assert h'[..j] == h';
      }
    }
  }

  /** A work entry never lies in a run longer than the bound, wherever the run starts. */
  lemma {:induction false} WorkRunCoversSuffix(h: seq<ShiftType>, i: nat)
    requires i <= |h|
    requires forall k | i <= k < |h| :: !IsRest(h[k])
    ensures WorkRun(h) >= |h| - i
  {
    if i < |h| {
      WorkRunCoversSuffix(h[..|h| - 1], i);
    }
  }

  lemma {:induction false} NightRunCoversSuffix(h: seq<ShiftType>, i: nat)
    requires i <= |h|
    requires forall k | i <= k < |h| :: h[k] == Night
    ensures NightRun(h) >= |h| - i
  {
    if i < |h| {
      NightRunCoversSuffix(h[..|h| - 1], i);
    }
  }

  /**
   * The bounds of `RunsWithin`, restated over stretches: no stretch of
   * consecutive work entries is longer than `maxConsecutiveWorkDays`, and no
   * stretch of consecutive NIGHT entries is longer than `maxConsecutiveNights`.
   */
  lemma RunsWithinBoundsStretches(h: seq<ShiftType>, cfg: GenerationConfig, i: nat, j: nat)
    requires RunsWithin(h, cfg)
    requires i < j <= |h|
    ensures (forall k | i <= k < j :: !IsRest(h[k])) ==> j - i <= cfg.maxConsecutiveWorkDays
    ensures (forall k | i <= k < j :: h[k] == Night) ==> j - i <= cfg.maxConsecutiveNights
  {
    if forall k | i <= k < j :: !IsRest(h[k]) {
      WorkRunCoversSuffix(h[..j], i);
    }
    if forall k | i <= k < j :: h[k] == Night {
      NightRunCoversSuffix(h[..j], i);
    }
  }

  // ---------------------------------------------------------------------
  // Quota score (`getShiftPriority`).
  // ---------------------------------------------------------------------

  /**
   * `getShiftPriority` for a month of `totalDays` days. The source's targets
   * `floor(totalDays * 0.25)`, `floor(totalDays * 0.2)` and `floor(totalDays * 0.3)`
   * are the integer quotients used here for every month length (28..31).
   */
  function ShiftPriority(st: NurseState, shift: ShiftType, totalDays: int): int
    requires 28 <= totalDays <= 31
  {
    var stats := st.monthlyStats;
    match shift
    case Day => totalDays / 4 - stats.day
    case Evening => totalDays / 4 - stats.evening
    case Night => totalDays / 5 - stats.night
    case Off => if stats.off < 3 * totalDays / 10 then 10 else -10
    case _ => 0
  }

  /**
   * The score is the gap between the shift's floored quota and the nurse's
   * count so far; OFF scores 10 below its quota and -10 at or above it; the
   * other shift types score 0.
   */
  lemma ShiftPriorityIsQuotaGap(st: NurseState, shift: ShiftType, totalDays: int)
    requires 28 <= totalDays <= 31
    ensures var p := ShiftPriority(st, shift, totalDays);
      && (shift == Day ==> p == (totalDays as real * 0.25).Floor - st.monthlyStats.day)
      && (shift == Evening ==> p == (totalDays as real * 0.25).Floor - st.monthlyStats.evening)
      && (shift == Night ==> p == (totalDays as real * 0.2).Floor - st.monthlyStats.night)
      && (shift == Off ==> (p == 10 <==> st.monthlyStats.off < (totalDays as real * 0.3).Floor))
      && (shift == Off ==> (p == -10 <==> st.monthlyStats.off >= (totalDays as real * 0.3).Floor))
      && (shift !in {Day, Evening, Night, Off} ==> p == 0)
  {
    QuotaFloors(totalDays);
  }

  lemma QuotaFloors(d: int)
    requires 28 <= d <= 31
    ensures (d as real * 0.25).Floor == d / 4
    ensures (d as real * 0.2).Floor == d / 5
    ensures (d as real * 0.3).Floor == 3 * d / 10
  {
    if d == 28 {
    } else if d == 29 {
    } else if d == 30 {
    } else {
    }
  }

  /** A nurse further below their DAY, EVENING or NIGHT quota scores higher for that shift. */
  lemma PriorityFollowsDeficit(a: NurseState, b: NurseState, shift: ShiftType, totalDays: int)
    requires 28 <= totalDays <= 31 && shift in {Day, Evening, Night}
    requires shift == Day ==> a.monthlyStats.day < b.monthlyStats.day
    requires shift == Evening ==> a.monthlyStats.evening < b.monthlyStats.evening
    requires shift == Night ==> a.monthlyStats.night < b.monthlyStats.night
    ensures ShiftPriority(a, shift, totalDays) > ShiftPriority(b, shift, totalDays)
  {
  }
}
