/**
 * `ScheduleGenerator` of nurse-scheduler/src/lib/schedule-generator.ts: the
 * greedy monthly assignment over per-nurse run state.
 */
module Generator {
  import opened Wrappers
  import opened Calendar
  import opened Types
  import opened Seqs
  import opened ShiftRules
  import opened Ranking

  // ---------------------------------------------------------------------
  // Input normalisation done by the constructor.
  // ---------------------------------------------------------------------

  /** `nurses.filter(n => n.isActive)`. */
  function ActiveNurses(nurses: seq<Nurse>): (r: seq<Nurse>)
    ensures forall n :: n in r <==> n in nurses && n.isActive
  {
    Filter(nurses, (n: Nurse) => n.isActive)
  }

  /** `nurses.map(n => n.id)`. */
  function NurseIds(nurses: seq<Nurse>): seq<Id>
  {
    Project(nurses, (n: Nurse) => n.id)
  }

  /** The map key `${nurseId}-${date}`; dates print as fixed-width `YYYY-MM-DD`,
      so the string key identifies the pair. */
  type RequestKey = (Id, Date)

  function KeyOf(r: ShiftRequest): RequestKey
  {
    (r.nurseId, r.date)
  }

  /** Only APPROVED and PENDING shift requests influence generation. */
  predicate Eligible(r: ShiftRequest)
  {
    r.status == Approved || r.status == Pending
  }

  /** The request that survives for `key`: the last eligible one with that key. */
  function LatestRequest(reqs: seq<ShiftRequest>, key: RequestKey): (r: Option<ShiftRequest>)
    ensures r.None? <==> forall i | 0 <= i < |reqs| :: !(Eligible(reqs[i]) && KeyOf(reqs[i]) == key)
    ensures r.Some? ==> exists i | 0 <= i < |reqs| ::
      && reqs[i] == r.value && Eligible(reqs[i]) && KeyOf(reqs[i]) == key
      && forall j | i < j < |reqs| :: !(Eligible(reqs[j]) && KeyOf(reqs[j]) == key)
  {
    if reqs == [] then None
    else if Eligible(reqs[|reqs| - 1]) && KeyOf(reqs[|reqs| - 1]) == key then Some(reqs[|reqs| - 1])
    else LatestRequest(reqs[..|reqs| - 1], key)
  }

  /** Constructor lines 60-65: index the eligible requests by key; a later request overwrites an earlier one. */
  method IndexRequests(reqs: seq<ShiftRequest>) returns (m: map<RequestKey, ShiftRequest>)
    ensures forall k :: k in m <==> LatestRequest(reqs, k).Some?
    ensures forall k | k in m :: m[k] == LatestRequest(reqs, k).value
  {
    m := map[];
    for i := 0 to |reqs|
      invariant forall k :: k in m <==> LatestRequest(reqs[..i], k).Some?
      invariant forall k | k in m :: m[k] == LatestRequest(reqs[..i], k).value
    {
      assert reqs[..i + 1][..i] == reqs[..i];
      if Eligible(reqs[i]) {
        m := m[KeyOf(reqs[i]) := reqs[i]];
      }
    }
    assert reqs[..|reqs|] == reqs;
  }

  /** An APPROVED vacation of `nurseId` whose (valid) range contains `d`. */
  predicate Covers(v: VacationRequest, nurseId: Id, d: Date)
  {
    && v.status == Approved && v.nurseId == nurseId
    && ValidDate(v.startDate) && ValidDate(v.endDate) && ValidDate(d)
    && DateLe(v.startDate, d) && DateLe(d, v.endDate)
  }

  predicate InDates(m: map<Id, set<Date>>, id: Id, d: Date)
  {
    id in m && d in m[id]
  }

  lemma LtNext(x: Date, d: Date)
    requires ValidDate(x) && ValidDate(d)
    ensures DateLt(x, NextDate(d)) <==> DateLt(x, d) || x == d
  {
    DateOrderIsDayOrder(x, d);
    DateOrderIsDayOrder(x, NextDate(d));
  }

  /** Constructor lines 67-80: every date of every APPROVED range, per nurse. */
  method ExpandVacations(vacs: seq<VacationRequest>) returns (m: map<Id, set<Date>>)
    ensures forall id, d :: InDates(m, id, d) <==> exists i | 0 <= i < |vacs| :: Covers(vacs[i], id, d)
    ensures forall id | id in m :: m[id] != {}
  {
    m := map[];
    for i := 0 to |vacs|
      invariant forall id, x :: InDates(m, id, x) <==> exists j | 0 <= j < i :: Covers(vacs[j], id, x)
      invariant forall id | id in m :: m[id] != {}
    {
      var vac := vacs[i];
      if vac.status == Approved && ValidDate(vac.startDate) && ValidDate(vac.endDate) {
        var d := vac.startDate;
        while DateLe(d, vac.endDate)
          invariant ValidDate(d) && DateLe(vac.startDate, d)
          invariant d == vac.startDate || DayNumber(d) <= DayNumber(vac.endDate) + 1
          invariant forall id, x :: InDates(m, id, x) <==>
            (exists j | 0 <= j < i :: Covers(vacs[j], id, x)) ||
            (id == vac.nurseId && ValidDate(x) && DateLe(vac.startDate, x) && DateLt(x, d))
          invariant forall id | id in m :: m[id] != {}
          decreases DayNumber(vac.endDate) - DayNumber(d)
        {
          DateOrderIsDayOrder(d, vac.endDate);
          DateOrderIsDayOrder(vac.startDate, d);
          DateOrderIsDayOrder(vac.startDate, NextDate(d));
          var next := NextDate(d);
          forall x | ValidDate(x)
            ensures DateLe(vac.startDate, x) && DateLt(x, next) <==> (DateLe(vac.startDate, x) && DateLt(x, d)) || x == d
          {
            LtNext(x, d);
          }
          var dates := if vac.nurseId in m then m[vac.nurseId] else {};
          ghost var m0 := m;
          m := m[vac.nurseId := dates + {d}];
          assert forall id, x :: InDates(m, id, x) <==> InDates(m0, id, x) || (id == vac.nurseId && x == d);
          d := next;
        }
        DateOrderIsDayOrder(d, vac.endDate);
        forall x | ValidDate(x)
          ensures DateLe(vac.startDate, x) && DateLt(x, d) <==> DateLe(vac.startDate, x) && DateLe(x, vac.endDate)
        {
          DateOrderIsDayOrder(x, d);
          DateOrderIsDayOrder(x, vac.endDate);
          DateOrderIsDayOrder(vac.startDate, x);
        }
      }
    }
  }

  /** `.slice(0, n)` for the greedy fills: at most `n` leading elements. */
  function Take<T>(s: seq<T>, n: int): (r: seq<T>)
    ensures |r| <= |s| && (n <= 0 ==> r == []) && (0 <= n <= |s| ==> |r| == n) && (n >= |s| ==> r == s)
    ensures r == s[..|r|]
  {
    if n <= 0 then [] else if n >= |s| then s else s[..n]
  }

  /** The entries of one nurse, in emission order. */
  function EntriesOf(es: seq<ScheduleInsert>, nurseId: Id): (r: seq<ScheduleInsert>)
    ensures forall e :: e in r <==> e in es && e.nurseId == nurseId
  {
    if es == [] then []
    else EntriesOf(es[..|es| - 1], nurseId) + if es[|es| - 1].nurseId == nurseId then [es[|es| - 1]] else []
  }

  lemma {:induction false} EntriesOfConcat(a: seq<ScheduleInsert>, b: seq<ScheduleInsert>, nurseId: Id)
    ensures EntriesOf(a + b, nurseId) == EntriesOf(a, nurseId) + EntriesOf(b, nurseId)
    decreases |b|
  {
    if b == [] {
      assert a + b == a;
    } else {
      assert (a + b)[..|a + b| - 1] == a + b[..|b| - 1];
      EntriesOfConcat(a, b[..|b| - 1], nurseId);
    }
  }

  function DatesOf(es: seq<ScheduleInsert>): (r: seq<Date>)
    ensures |r| == |es| && forall k | 0 <= k < |es| :: r[k] == es[k].date
  {
    seq(|es|, k requires 0 <= k < |es| => es[k].date)
  }

  lemma DatesOfSnoc(es: seq<ScheduleInsert>, e: ScheduleInsert)
    ensures DatesOf(es + [e]) == DatesOf(es) + [e.date]
  {
  }

  /** Appending five pieces of which exactly one is `[e]` and the rest are empty appends `e`. */
  lemma OneOfFive<T>(h: seq<T>, a1: seq<T>, a2: seq<T>, a3: seq<T>, a4: seq<T>, a5: seq<T>, e: T)
    requires (a1 == [e] && a2 == [] && a3 == [] && a4 == [] && a5 == [])
      || (a1 == [] && a2 == [e] && a3 == [] && a4 == [] && a5 == [])
      || (a1 == [] && a2 == [] && a3 == [e] && a4 == [] && a5 == [])
      || (a1 == [] && a2 == [] && a3 == [] && a4 == [e] && a5 == [])
      || (a1 == [] && a2 == [] && a3 == [] && a4 == [] && a5 == [e])
    ensures h + a1 + a2 + a3 + a4 + a5 == h + [e]
  {
    assert h + a1 + a2 + a3 + a4 + a5 == h + (a1 + a2 + a3 + a4 + a5);
  }

  /**
   * The generator's bookkeeping is faithful: every nurse's run state is the
   * replay of that nurse's entries so far, and those entries keep within the
   * run limits.
   */
  ghost predicate Tracks(states: map<Id, NurseState>, ids: seq<Id>, es: seq<ScheduleInsert>, cfg: GenerationConfig)
  {
    forall id | id in ids ::
      && id in states
      && states[id] == Replay(EntriesOf(es, id))
      && RunsWithin(Shifts(EntriesOf(es, id)), cfg)
  }

  /** The five groups one date is split into, in emission order. */
  datatype DayPlan = DayPlan(onLeave: seq<Id>, day: seq<Id>, evening: seq<Id>, night: seq<Id>, off: seq<Id>)

  class ScheduleGenerator {
    const ward: Ward
    /** The active nurses, in input order. */
    const nurses: seq<Nurse>
    const config: GenerationConfig
    const shiftRequests: map<RequestKey, ShiftRequest>
    const vacationDates: map<Id, set<Date>>
    var nurseStates: map<Id, NurseState>

    constructor(ward: Ward, nurses: seq<Nurse>, config: GenerationConfig,
                shiftRequests: seq<ShiftRequest>, vacationRequests: seq<VacationRequest>)
      ensures BuiltFrom(ward, nurses, config, shiftRequests, vacationRequests)
      ensures nurseStates == map[]
    {
      var index := IndexRequests(shiftRequests);
      var dates := ExpandVacations(vacationRequests);
      this.ward := ward;
      this.nurses := ActiveNurses(nurses);
      this.config := config;
      this.shiftRequests := index;
      this.vacationDates := dates;
      this.nurseStates := map[];
    }

    function Ids(): seq<Id>
    {
      NurseIds(nurses)
    }

    /** `initializeNurseStates`: a fresh run state for every active nurse. */
    method InitializeNurseStates()
      modifies this
      ensures forall id :: id in nurseStates <==> id in old(nurseStates) || id in Ids()
      ensures forall id | id in Ids() :: nurseStates[id] == InitialState
      ensures forall id | id in old(nurseStates) && id !in Ids() :: nurseStates[id] == old(nurseStates)[id]
      ensures nurseStates == Restarted(old(nurseStates))
    {
      for i := 0 to |nurses|
        invariant forall id :: id in nurseStates <==> id in old(nurseStates) || id in Ids()[..i]
        invariant forall id | id in Ids()[..i] :: nurseStates[id] == InitialState
        invariant forall id | id in old(nurseStates) && id !in Ids()[..i] :: nurseStates[id] == old(nurseStates)[id]
      {
        assert Ids()[..i + 1] == Ids()[..i] + [nurses[i].id];
        nurseStates := nurseStates[nurses[i].id := InitialState];
      }
      assert Ids()[..|nurses|] == Ids();
    }

    predicate IsNurseOnVacation(nurseId: Id, date: Date)
    {
      InDates(vacationDates, nurseId, date)
    }

    function GetNurseRequest(nurseId: Id, date: Date): (r: Option<ShiftRequest>)
      ensures r.Some? <==> (nurseId, date) in shiftRequests
    {
      if (nurseId, date) in shiftRequests then Some(shiftRequests[(nurseId, date)]) else None
    }

    function RequestedShift(nurseId: Id, date: Date): Option<ShiftType>
    {
      match GetNurseRequest(nurseId, date)
      case None => None
      case Some(r) => Some(r.requestedShift)
    }

    /** `canAssignShift` on the nurse's current run state. */
    function CanAssignShift(states: map<Id, NurseState>, nurseId: Id, shift: ShiftType, date: Date): Verdict
      requires nurseId in states
    {
      CheckShift(states[nurseId], IsNurseOnVacation(nurseId, date), shift, config)
    }

    predicate Feasible(states: map<Id, NurseState>, nurseId: Id, shift: ShiftType, date: Date)
      requires nurseId in states
    {
      CanAssignShift(states, nurseId, shift, date).Allowed?
    }

    /** The month length `getShiftPriority` uses: 30 when there are no nurses. */
    function TotalDays(): (d: int)
      ensures 28 <= d <= 31
    {
      if |nurses| > 0 then
        var (y, m) := NormalizeMonth(config.year, config.month); MonthLength(y, m)
      else 30
    }

    function GetShiftPriority(states: map<Id, NurseState>, nurseId: Id, shift: ShiftType): int
      requires nurseId in states
    {
      ShiftPriority(states[nurseId], shift, TotalDays())
    }

    // -------------------------------------------------------------------
    // Selection (`selectNursesForShift`).
    // -------------------------------------------------------------------

    /** The ids of `ids` that pass `canAssignShift`, in order. */
    function FeasibleAmong(states: map<Id, NurseState>, ids: seq<Id>, shift: ShiftType, date: Date): (r: seq<Id>)
      requires forall x | x in ids :: x in states
      ensures |r| <= |ids|
    {
      if ids == [] then []
      else
        var r := FeasibleAmong(states, ids[..|ids| - 1], shift, date);
        if Feasible(states, ids[|ids| - 1], shift, date) then r + [ids[|ids| - 1]] else r
    }

    lemma {:induction false} FeasibleAmongMembers(states: map<Id, NurseState>, ids: seq<Id>, shift: ShiftType, date: Date)
      requires forall x | x in ids :: x in states
      ensures forall x :: x in FeasibleAmong(states, ids, shift, date) <==> x in ids && Feasible(states, x, shift, date)
    {
      if ids != [] {
        FeasibleAmongMembers(states, ids[..|ids| - 1], shift, date);
        assert ids == ids[..|ids| - 1] + [ids[|ids| - 1]];
      }
    }

    lemma {:induction false} FeasibleAmongDistinct(states: map<Id, NurseState>, ids: seq<Id>, shift: ShiftType, date: Date)
      requires forall x | x in ids :: x in states
      requires Distinct(ids)
      ensures Distinct(FeasibleAmong(states, ids, shift, date))
    {
      if ids != [] {
        var init := ids[..|ids| - 1];
        FeasibleAmongDistinct(states, init, shift, date);
        if Feasible(states, ids[|ids| - 1], shift, date) {
          FeasibleAmongMembers(states, init, shift, date);
          DistinctSnoc(FeasibleAmong(states, init, shift, date), ids[|ids| - 1]);
        }
      }
    }

    lemma {:induction false} FeasibleAmongConcat(states: map<Id, NurseState>, a: seq<Id>, b: seq<Id>, shift: ShiftType, date: Date)
      requires forall x | x in a + b :: x in states
      ensures FeasibleAmong(states, a + b, shift, date) == FeasibleAmong(states, a, shift, date) + FeasibleAmong(states, b, shift, date)
      decreases |b|
    {
      if b == [] {
        assert a + b == a;
      } else {
        assert (a + b)[..|a + b| - 1] == a + b[..|b| - 1];
        FeasibleAmongConcat(states, a, b[..|b| - 1], shift, date);
      }
    }

    /** Nurses whose surviving request for `date` asks for `shift`, in pool order. */
    function Requesters(available: seq<Id>, date: Date, shift: ShiftType): (r: seq<Id>)
      ensures forall x :: x in r <==> x in available && RequestedShift(x, date) == Some(shift)
    {
      Filter(available, (id: Id) => RequestedShift(id, date) == Some(shift))
    }

    /** The `{ id, priority, weekendWork }` records built for the ranking. */
    function CandidatesOf(states: map<Id, NurseState>, ids: seq<Id>, shift: ShiftType): (cs: seq<Candidate>)
      requires forall x | x in ids :: x in states
      ensures IdsOf(cs) == ids
    {
      seq(|ids|, k requires 0 <= k < |ids| && ids[k] in states =>
        Candidate(ids[k], GetShiftPriority(states, ids[k], shift), states[ids[k]].monthlyStats.weekendWork))
    }

    /** The non-requesting nurses of the pool, ranked by the comparator. */
    function RankedRest(states: map<Id, NurseState>, available: seq<Id>, selected: seq<Id>, requesters: seq<Id>, shift: ShiftType, isWeekendDay: bool): (r: seq<Id>)
      requires forall x | x in available :: x in states
      ensures forall x :: x in r <==> x in available && x !in selected && x !in requesters
    {
      var rest := Filter(available, (id: Id) => id !in selected && id !in requesters);
      RankSameIds(CandidatesOf(states, rest, shift), config.balanceWeekends && isWeekendDay);
      IdsOf(Rank(CandidatesOf(states, rest, shift), config.balanceWeekends && isWeekendDay))
    }

    lemma RankedRestIds(states: map<Id, NurseState>, available: seq<Id>, selected: seq<Id>, requesters: seq<Id>, shift: ShiftType, isWeekendDay: bool)
      requires forall x | x in available :: x in states
      requires Distinct(available)
      ensures var r := RankedRest(states, available, selected, requesters, shift, isWeekendDay);
        Distinct(r) && forall x :: x in r <==> x in available && x !in selected && x !in requesters
    {
      var rest := Filter(available, (id: Id) => id !in selected && id !in requesters);
      FilterDistinct(available, (id: Id) => id !in selected && id !in requesters);
      RankIds(CandidatesOf(states, rest, shift), config.balanceWeekends && isWeekendDay);
    }

    /** The first pass of `selectNursesForShift`: up to `count` feasible requesters. */
    function FirstPick(states: map<Id, NurseState>, available: seq<Id>, date: Date, shift: ShiftType, count: int): seq<Id>
      requires forall x | x in available :: x in states
    {
      Take(FeasibleAmong(states, Requesters(available, date, shift), shift, date), count)
    }

    /** The second pass: the remaining slots, filled from the ranked remainder. */
    function SecondPick(states: map<Id, NurseState>, available: seq<Id>, date: Date, shift: ShiftType, count: int, isWeekendDay: bool): seq<Id>
      requires forall x | x in available :: x in states
    {
      var first := FirstPick(states, available, date, shift, count);
      Take(FeasibleAmong(states, RankedRest(states, available, first, Requesters(available, date, shift), shift, isWeekendDay), shift, date),
           count - |first|)
    }

    /**
     * What `selectNursesForShift` picks: the first `count` feasible requesters
     * in pool order, then, while slots remain, the first feasible nurses of the
     * ranked remainder.
     */
    function Selection(states: map<Id, NurseState>, available: seq<Id>, date: Date, shift: ShiftType, count: int, isWeekendDay: bool): seq<Id>
      requires forall x | x in available :: x in states
    {
      FirstPick(states, available, date, shift, count) + SecondPick(states, available, date, shift, count, isWeekendDay)
    }

    /** What each pass contributes. */
    lemma PicksDrawn(states: map<Id, NurseState>, available: seq<Id>, date: Date, shift: ShiftType, count: int, isWeekendDay: bool)
      requires forall x | x in available :: x in states
      ensures var requesters := Requesters(available, date, shift);
        var first := FirstPick(states, available, date, shift, count);
        var second := SecondPick(states, available, date, shift, count, isWeekendDay);
        var ranked := RankedRest(states, available, first, requesters, shift, isWeekendDay);
        && (forall x | x in first :: x in available && RequestedShift(x, date) == Some(shift) && Feasible(states, x, shift, date))
        && (forall x | x in second :: x in available && RequestedShift(x, date) != Some(shift) && Feasible(states, x, shift, date))
        && (|first| < count ==> first == FeasibleAmong(states, requesters, shift, date))
        && (|first| + |second| < count ==> second == FeasibleAmong(states, ranked, shift, date))
        && (second != [] ==> |first| < count)
    {
      var requesters := Requesters(available, date, shift);
      var first := FirstPick(states, available, date, shift, count);
      var ranked := RankedRest(states, available, first, requesters, shift, isWeekendDay);
      FeasibleAmongMembers(states, requesters, shift, date);
      FeasibleAmongMembers(states, ranked, shift, date);
    }

    /** One greedy pass of `selectNursesForShift`: walk `ids`, stop once `count`
        nurses are chosen, take each nurse that passes `canAssignShift`. */
    method FillFrom(states: map<Id, NurseState>, ids: seq<Id>, chosen: seq<Id>, count: int, shift: ShiftType, date: Date)
      returns (selected: seq<Id>)
      requires forall x | x in ids :: x in states
      ensures selected == chosen + Take(FeasibleAmong(states, ids, shift, date), count - |chosen|)
      ensures chosen == [] ==> selected == Take(FeasibleAmong(states, ids, shift, date), count)
    {
      selected := chosen;
      var i := 0;
      while i < |ids|
        invariant 0 <= i <= |ids|
        invariant selected == chosen + FeasibleAmong(states, ids[..i], shift, date)
        invariant i == 0 || |selected| <= count
      {
        if |selected| >= count {
          break;
        }
        assert ids[..i + 1][..i] == ids[..i];
        var check := CanAssignShift(states, ids[i], shift, date);
        if check.Allowed? {
          selected := selected + [ids[i]];
        }
        i := i + 1;
      }
      FillFromStops(states, ids, i, chosen, count, shift, date);
      if chosen == [] {
        AppendNothing(Take(FeasibleAmong(states, ids, shift, date), count), chosen);
      }
    }

    /** Where the greedy pass stops, the rest of the feasible list is cut off by `Take`. */
    lemma FillFromStops(states: map<Id, NurseState>, ids: seq<Id>, i: nat, chosen: seq<Id>, count: int, shift: ShiftType, date: Date)
      requires forall x | x in ids :: x in states
      requires i <= |ids|
      requires var n := |chosen| + |FeasibleAmong(states, ids[..i], shift, date)|;
        (i == 0 || n <= count) && (i < |ids| ==> n >= count)
      ensures chosen + FeasibleAmong(states, ids[..i], shift, date) == chosen + Take(FeasibleAmong(states, ids, shift, date), count - |chosen|)
    {
      var done := FeasibleAmong(states, ids[..i], shift, date);
      var rest := FeasibleAmong(states, ids[i..], shift, date);
      FeasibleAmongConcat(states, ids[..i], ids[i..], shift, date);
      assert ids[..i] + ids[i..] == ids;
      assert (done + rest)[..|done|] == done;
    }

    method SelectNursesForShift(date: Date, shift: ShiftType, count: int, available: seq<Id>, isWeekendDay: bool)
      returns (selected: seq<Id>)
      requires forall x | x in available :: x in nurseStates
      ensures selected == Selection(nurseStates, available, date, shift, count, isWeekendDay)
    {
      var states := nurseStates;
      var requesters := Requesters(available, date, shift);
      selected := FillFrom(states, requesters, [], count, shift, date);
      ghost var first := selected;
      if |selected| < count {
        var remaining := RankedRest(states, available, selected, requesters, shift, isWeekendDay);
        selected := FillFrom(states, remaining, selected, count, shift, date);
      }
      SelectionFromPasses(states, available, date, shift, count, isWeekendDay, first, selected);
    }

    /** The two passes of the method, run one after the other, make `Selection`. */
    lemma SelectionFromPasses(states: map<Id, NurseState>, available: seq<Id>, date: Date, shift: ShiftType, count: int, isWeekendDay: bool,
                              first: seq<Id>, selected: seq<Id>)
      requires forall x | x in available :: x in states
      requires first == Take(FeasibleAmong(states, Requesters(available, date, shift), shift, date), count)
      requires |first| < count ==>
        selected == first + Take(FeasibleAmong(states, RankedRest(states, available, first, Requesters(available, date, shift), shift, isWeekendDay), shift, date), count - |first|)
      requires |first| >= count ==> selected == first
      ensures selected == Selection(states, available, date, shift, count, isWeekendDay)
    {
      assert first == FirstPick(states, available, date, shift, count);
      if |first| >= count {
        assert SecondPick(states, available, date, shift, count, isWeekendDay) == [];
        AppendNothing(first, SecondPick(states, available, date, shift, count, isWeekendDay));
      }
    }

    /** Every selected nurse is from the pool and passes `canAssignShift`. */
    lemma SelectionDrawn(states: map<Id, NurseState>, available: seq<Id>, date: Date, shift: ShiftType, count: int, isWeekendDay: bool)
      requires forall x | x in available :: x in states
      ensures forall x | x in Selection(states, available, date, shift, count, isWeekendDay) :: x in available && Feasible(states, x, shift, date)
    {
      PicksDrawn(states, available, date, shift, count, isWeekendDay);
    }

    /** A pool without repeats gives a team without repeats. */
    lemma SelectionDistinct(states: map<Id, NurseState>, available: seq<Id>, date: Date, shift: ShiftType, count: int, isWeekendDay: bool)
      requires forall x | x in available :: x in states
      requires Distinct(available)
      ensures Distinct(Selection(states, available, date, shift, count, isWeekendDay))
    {
      var requesters := Requesters(available, date, shift);
      var first := FirstPick(states, available, date, shift, count);
      var ranked := RankedRest(states, available, first, requesters, shift, isWeekendDay);
      var second := SecondPick(states, available, date, shift, count, isWeekendDay);
      PicksDrawn(states, available, date, shift, count, isWeekendDay);
      FilterDistinct(available, (id: Id) => RequestedShift(id, date) == Some(shift));
      RankedRestIds(states, available, first, requesters, shift, isWeekendDay);
      var fr := FeasibleAmong(states, requesters, shift, date);
      var fk := FeasibleAmong(states, ranked, shift, date);
      FeasibleAmongDistinct(states, requesters, shift, date);
      FeasibleAmongDistinct(states, ranked, shift, date);
      assert Distinct(first) by {
        assert forall i | 0 <= i < |first| :: first[i] == fr[i];
      }
      assert Distinct(second) by {
        assert forall i | 0 <= i < |second| :: second[i] == fk[i];
      }
      DistinctConcat(first, second);
    }

    /** Never more than `count` nurses, and requesters of the shift come before everyone else. */
    lemma SelectionRequestersFirst(states: map<Id, NurseState>, available: seq<Id>, date: Date, shift: ShiftType, count: int, isWeekendDay: bool)
      requires forall x | x in available :: x in states
      ensures var selected := Selection(states, available, date, shift, count, isWeekendDay);
        && (|selected| <= count || selected == [])
        && forall i, j | 0 <= i < j < |selected| ::
             RequestedShift(selected[j], date) == Some(shift) ==> RequestedShift(selected[i], date) == Some(shift)
    {
      var first := FirstPick(states, available, date, shift, count);
      var second := SecondPick(states, available, date, shift, count, isWeekendDay);
      var selected := first + second;
      PicksDrawn(states, available, date, shift, count, isWeekendDay);
      assert forall k | |first| <= k < |selected| :: selected[k] in second;
      assert forall k | 0 <= k < |first| :: selected[k] in first;
    }

    /** A non-requester is only taken once every feasible requester is in. */
    lemma SelectionRequestersPreferred(states: map<Id, NurseState>, available: seq<Id>, date: Date, shift: ShiftType, count: int, isWeekendDay: bool)
      requires forall x | x in available :: x in states
      ensures var selected := Selection(states, available, date, shift, count, isWeekendDay);
        (exists x | x in selected :: RequestedShift(x, date) != Some(shift)) ==>
          forall x | x in available && RequestedShift(x, date) == Some(shift) && Feasible(states, x, shift, date) :: x in selected
    {
      var requesters := Requesters(available, date, shift);
      PicksDrawn(states, available, date, shift, count, isWeekendDay);
      FeasibleAmongMembers(states, requesters, shift, date);
    }

    /** An under-filled team holds every feasible nurse of the pool. */
    lemma SelectionFillsWhenShort(states: map<Id, NurseState>, available: seq<Id>, date: Date, shift: ShiftType, count: int, isWeekendDay: bool)
      requires forall x | x in available :: x in states
      ensures var selected := Selection(states, available, date, shift, count, isWeekendDay);
        |selected| < count ==> forall x | x in available && Feasible(states, x, shift, date) :: x in selected
    {
      var requesters := Requesters(available, date, shift);
      var first := FirstPick(states, available, date, shift, count);
      var ranked := RankedRest(states, available, first, requesters, shift, isWeekendDay);
      PicksDrawn(states, available, date, shift, count, isWeekendDay);
      FeasibleAmongMembers(states, requesters, shift, date);
      FeasibleAmongMembers(states, ranked, shift, date);
    }

    // -------------------------------------------------------------------
    // Experience mix (`ensureMixedExperience`).
    // -------------------------------------------------------------------

    /** `this.nurses.find(n => n.id === id)`. */
    function FindNurse(nurseId: Id): Option<Nurse>
    {
      Find(nurses, (n: Nurse) => n.id == nurseId)
    }

    predicate IsSeniorId(nurseId: Id)
    {
      FindNurse(nurseId).Some? && IsSeniorLevel(FindNurse(nurseId).value.experienceLevel)
    }

    predicate IsJuniorId(nurseId: Id)
    {
      FindNurse(nurseId).Some? && !IsSeniorLevel(FindNurse(nurseId).value.experienceLevel)
    }

    predicate HasSenior(team: seq<Id>)
    {
      exists x | x in team :: IsSeniorId(x)
    }

    /** Feasible SENIOR/CHARGE nurses of the pool outside the team, in pool order. */
    function SeniorCandidates(states: map<Id, NurseState>, team: seq<Id>, shift: ShiftType, date: Date, available: seq<Id>): (r: seq<Id>)
      requires forall x | x in available :: x in states
      ensures forall x :: x in r <==> x in available && x !in team && IsSeniorId(x) && Feasible(states, x, shift, date)
    {
      FeasibleAmongMembers(states, Filter(Without(available, team), (id: Id) => IsSeniorId(id)), shift, date);
      FeasibleAmong(states, Filter(Without(available, team), (id: Id) => IsSeniorId(id)), shift, date)
    }

    /** Whether `ensureMixedExperience` looks for a replacement at all. */
    predicate NeedsSenior(team: seq<Id>)
    {
      config.requireMixedExperience && |team| >= 2 && !HasSenior(team)
    }

    /**
     * `ensureMixedExperience`: with the flag on and a team of two or more that
     * has no SENIOR/CHARGE member, the first feasible unselected senior of the
     * pool overwrites the first junior of the team. A junior whose id is the
     * empty string is falsy in the source's `if (juniorToReplace)`, so then
     * nothing is replaced.
     */
    function EnsureMixedExperience(states: map<Id, NurseState>, selected: seq<Id>, shift: ShiftType, date: Date, available: seq<Id>): (team: seq<Id>)
      requires forall x | x in available :: x in states
      ensures |team| == |selected|
    {
      if !NeedsSenior(selected) then selected
      else
        var seniorNurses := SeniorCandidates(states, selected, shift, date, available);
        if |seniorNurses| == 0 then selected
        else
          match Find(selected, (id: Id) => IsJuniorId(id))
          case Some(junior) =>
            if junior != "" then selected[IndexOf(selected, junior) := seniorNurses[0]] else selected
          case None => selected
    }

    /** The team is left alone unless the mix rule asks for a senior. */
    lemma MixedKeepsBalancedTeams(states: map<Id, NurseState>, selected: seq<Id>, shift: ShiftType, date: Date, available: seq<Id>)
      requires forall x | x in available :: x in states
      ensures !NeedsSenior(selected) ==> EnsureMixedExperience(states, selected, shift, date, available) == selected
    {
    }

    /** A change is always one slot, the first junior's, taken by the first candidate senior. */
    lemma MixedReplacesFirstJunior(states: map<Id, NurseState>, selected: seq<Id>, shift: ShiftType, date: Date, available: seq<Id>)
      requires forall x | x in available :: x in states
      ensures var team := EnsureMixedExperience(states, selected, shift, date, available);
        var seniors := SeniorCandidates(states, selected, shift, date, available);
        team != selected ==>
          && NeedsSenior(selected) && seniors != []
          && exists idx | 0 <= idx < |selected| ::
               && IsJuniorId(selected[idx]) && (forall j | 0 <= j < idx :: !IsJuniorId(selected[j]))
               && team == selected[idx := seniors[0]]
    {
      var team := EnsureMixedExperience(states, selected, shift, date, available);
      if team != selected {
        var junior := Find(selected, (id: Id) => IsJuniorId(id)).value;
        var idx := IndexOf(selected, junior);
        assert IsJuniorId(selected[idx]);
        forall j | 0 <= j < idx ensures !IsJuniorId(selected[j]) {
          assert selected[j] != junior;
        }
      }
    }

    /** Whenever the rule applies and a feasible senior exists, the team ends up with a senior. */
    lemma MixedGainsSenior(states: map<Id, NurseState>, selected: seq<Id>, shift: ShiftType, date: Date, available: seq<Id>)
      requires forall x | x in available :: x in states
      requires forall x | x in selected :: FindNurse(x).Some? && x != ""
      requires NeedsSenior(selected) && SeniorCandidates(states, selected, shift, date, available) != []
      ensures HasSenior(EnsureMixedExperience(states, selected, shift, date, available))
    {
      assert selected[0] in selected;
      assert IsJuniorId(selected[0]);
      var junior := Find(selected, (id: Id) => IsJuniorId(id)).value;
      var seniors := SeniorCandidates(states, selected, shift, date, available);
      var idx := IndexOf(selected, junior);
      var team := selected[idx := seniors[0]];
      assert EnsureMixedExperience(states, selected, shift, date, available) == team;
      assert seniors[0] in seniors;
      assert team[idx] in team && IsSeniorId(team[idx]);
    }

    /** The team keeps drawing from the pool, keeps passing `canAssignShift`, and stays without repeats. */
    lemma MixedDrawn(states: map<Id, NurseState>, selected: seq<Id>, shift: ShiftType, date: Date, available: seq<Id>)
      requires forall x | x in available :: x in states
      ensures var team := EnsureMixedExperience(states, selected, shift, date, available);
        && (forall x | x in team :: x in selected || (x in available && Feasible(states, x, shift, date)))
        && (Distinct(selected) ==> Distinct(team))
    {
      var team := EnsureMixedExperience(states, selected, shift, date, available);
      if team != selected {
        var junior := Find(selected, (id: Id) => IsJuniorId(id)).value;
        var idx := IndexOf(selected, junior);
        var senior := SeniorCandidates(states, selected, shift, date, available)[0];
        assert team == selected[idx := senior];
        assert senior !in selected;
        if Distinct(selected) {
          forall i, j | 0 <= i < j < |team| ensures team[i] != team[j] {
            if i == idx {
              assert team[j] == selected[j];
            } else if j == idx {
              assert team[i] == selected[i];
            }
          }
        }
      }
    }

    /** `updateNurseState`. */
    method UpdateNurseState(nurseId: Id, shift: ShiftType, isWeekendDay: bool)
      requires nurseId in nurseStates
      modifies this
      ensures nurseStates == old(nurseStates)[nurseId := NextState(old(nurseStates)[nurseId], shift, isWeekendDay)]
    {
      nurseStates := nurseStates[nurseId := NextState(nurseStates[nurseId], shift, isWeekendDay)];
    }

    // -------------------------------------------------------------------
    // One date of `generate`.
    // -------------------------------------------------------------------

    /** The shift type an entry is written with: a DAY pick whose request was SPLIT becomes SPLIT. */
    function Recorded(stage: ShiftType, nurseId: Id, date: Date): (s: ShiftType)
      ensures s == stage || (stage == Day && s == Split)
      ensures stage == Day ==> (s == Split <==> RequestedShift(nurseId, date) == Some(Split))
    {
      if stage == Day && RequestedShift(nurseId, date) == Some(Split) then Split else stage
    }

    function Entry(stage: ShiftType, nurseId: Id, date: Date, locked: bool): ScheduleInsert
    {
      ScheduleInsert(ward.id, nurseId, date, Recorded(stage, nurseId, date), locked, None)
    }

    function GroupEntries(group: seq<Id>, stage: ShiftType, date: Date, locked: bool): (r: seq<ScheduleInsert>)
      ensures |r| == |group| && forall k | 0 <= k < |group| :: r[k] == Entry(stage, group[k], date, locked)
    {
      seq(|group|, k requires 0 <= k < |group| => Entry(stage, group[k], date, locked))
    }

    /** The run states once every nurse of `group` has had `updateNurseState` for this date. */
    function AfterGroup(states: map<Id, NurseState>, group: seq<Id>, stage: ShiftType, date: Date): (r: map<Id, NurseState>)
      ensures r.Keys == states.Keys
    {
      map x | x in states :: if x in group then NextState(states[x], Recorded(stage, x, date), OnWeekend(date)) else states[x]
    }

    /**
     * One of the push loops of `generate`: an entry per nurse of the group,
     * each followed by `updateNurseState` with the shift it was written with.
     */
    method EmitGroup(group: seq<Id>, stage: ShiftType, date: Date, isWeekendDay: bool, locked: bool, schedules: seq<ScheduleInsert>)
      returns (out: seq<ScheduleInsert>)
      modifies this
      requires isWeekendDay == OnWeekend(date)
      requires Distinct(group) && forall x | x in group :: x in nurseStates
      ensures out == schedules + GroupEntries(group, stage, date, locked)
      ensures nurseStates == AfterGroup(old(nurseStates), group, stage, date)
    {
      out := schedules;
      for i := 0 to |group|
        invariant out == schedules + GroupEntries(group[..i], stage, date, locked)
        invariant nurseStates == AfterGroup(old(nurseStates), group[..i], stage, date)
      {
        var nurseId := group[i];
        GroupStep(old(nurseStates), group, i, stage, date, locked);
        var shiftType := Recorded(stage, nurseId, date);
        out := out + [ScheduleInsert(ward.id, nurseId, date, shiftType, locked, None)];
        UpdateNurseState(nurseId, shiftType, isWeekendDay);
      }
      assert group[..|group|] == group;
    }

    lemma GroupStep(s0: map<Id, NurseState>, group: seq<Id>, i: nat, stage: ShiftType, date: Date, locked: bool)
      requires Distinct(group) && i < |group| && forall x | x in group :: x in s0
      ensures var before := AfterGroup(s0, group[..i], stage, date);
        && AfterGroup(s0, group[..i + 1], stage, date)
           == before[group[i] := NextState(before[group[i]], Recorded(stage, group[i], date), OnWeekend(date))]
        && GroupEntries(group[..i + 1], stage, date, locked)
           == GroupEntries(group[..i], stage, date, locked) + [Entry(stage, group[i], date, locked)]
    {
      assert group[..i + 1] == group[..i] + [group[i]];
      assert group[i] !in group[..i];
    }

    /** `availableNurses`: the active nurses not on vacation on `date`, in list order. */
    function Available(date: Date): (r: seq<Id>)
      ensures forall x :: x in r <==> x in Ids() && !IsNurseOnVacation(x, date)
      ensures Distinct(Ids()) ==> Distinct(r)
    {
      var p := (id: Id) => !IsNurseOnVacation(id, date);
      if Distinct(Ids()) then FilterDistinct(Ids(), p); Filter(Ids(), p) else Filter(Ids(), p)
    }

    /** The nurses the vacation loop writes VACATION for, in list order. */
    function OnLeave(date: Date): (r: seq<Id>)
      ensures forall x :: x in r <==> x in Ids() && IsNurseOnVacation(x, date)
      ensures Distinct(Ids()) ==> Distinct(r)
    {
      var p := (id: Id) => IsNurseOnVacation(id, date);
      if Distinct(Ids()) then FilterDistinct(Ids(), p); Filter(Ids(), p) else Filter(Ids(), p)
    }

    /** The run states after the vacation entries of `date`, on which all three teams are judged. */
    function Vacated(states: map<Id, NurseState>, date: Date): (r: map<Id, NurseState>)
      ensures r.Keys == states.Keys
    {
      AfterGroup(states, OnLeave(date), Vacation, date)
    }

    /** A team: selection from `pool` followed by the experience mix. */
    function Team(s1: map<Id, NurseState>, pool: seq<Id>, date: Date, shift: ShiftType, count: int): (team: seq<Id>)
      requires forall x | x in pool :: x in s1
      ensures Distinct(pool) ==> Distinct(team)
      ensures forall x | x in team :: x in pool && Feasible(s1, x, shift, date)
    {
      var isWeekendDay := OnWeekend(date);
      var sel := Selection(s1, pool, date, shift, count, isWeekendDay);
      SelectionDrawn(s1, pool, date, shift, count, isWeekendDay);
      if Distinct(pool) then SelectionDistinct(s1, pool, date, shift, count, isWeekendDay); MixedDrawn(s1, sel, shift, date, pool);
        EnsureMixedExperience(s1, sel, shift, date, pool)
      else MixedDrawn(s1, sel, shift, date, pool); EnsureMixedExperience(s1, sel, shift, date, pool)
    }

    function DayTeam(states: map<Id, NurseState>, date: Date): seq<Id>
      requires forall x | x in Ids() :: x in states
    {
      Team(Vacated(states, date), Available(date), date, Day, ward.minStaffDay)
    }

    /** `afterDay`. */
    function AfterDay(states: map<Id, NurseState>, date: Date): seq<Id>
      requires forall x | x in Ids() :: x in states
    {
      Without(Available(date), DayTeam(states, date))
    }

    function EveningTeam(states: map<Id, NurseState>, date: Date): seq<Id>
      requires forall x | x in Ids() :: x in states
    {
      Team(Vacated(states, date), AfterDay(states, date), date, Evening, ward.minStaffEvening)
    }

    /** `afterEvening`. */
    function AfterEvening(states: map<Id, NurseState>, date: Date): seq<Id>
      requires forall x | x in Ids() :: x in states
    {
      Without(AfterDay(states, date), EveningTeam(states, date))
    }

    function NightTeam(states: map<Id, NurseState>, date: Date): seq<Id>
      requires forall x | x in Ids() :: x in states
    {
      Team(Vacated(states, date), AfterEvening(states, date), date, Night, ward.minStaffNight)
    }

    /**
     * The groups `generate` forms for one date from the run states at its
     * start: the vacation group first, then DAY, EVENING and NIGHT teams,
     * each selected from what the previous teams left and mixed, all judged
     * on the states after the vacation entries; everyone left is OFF.
     */
    function PlanDay(states: map<Id, NurseState>, date: Date): DayPlan
      requires forall x | x in Ids() :: x in states
    {
      DayPlan(OnLeave(date), DayTeam(states, date), EveningTeam(states, date), NightTeam(states, date),
              Without(AfterEvening(states, date), NightTeam(states, date)))
    }

    /** The schedule list once the date's five push loops have run, in push order. */
    function WithDay(es: seq<ScheduleInsert>, plan: DayPlan, date: Date): seq<ScheduleInsert>
    {
      es + GroupEntries(plan.onLeave, Vacation, date, true) + GroupEntries(plan.day, Day, date, false)
        + GroupEntries(plan.evening, Evening, date, false) + GroupEntries(plan.night, Night, date, false)
        + GroupEntries(plan.off, Off, date, false)
    }

    function DayStates(states: map<Id, NurseState>, plan: DayPlan, date: Date): map<Id, NurseState>
    {
      var s1 := AfterGroup(states, plan.onLeave, Vacation, date);
      var s2 := AfterGroup(s1, plan.day, Day, date);
      var s3 := AfterGroup(s2, plan.evening, Evening, date);
      var s4 := AfterGroup(s3, plan.night, Night, date);
      AfterGroup(s4, plan.off, Off, date)
    }

    /**
     * Every active nurse lands in exactly one group of the date: VACATION
     * exactly when on vacation, and no group repeats a nurse.
     */
    lemma PlanDayPartition(states: map<Id, NurseState>, date: Date)
      requires Distinct(Ids()) && forall x | x in Ids() :: x in states
      ensures var p := PlanDay(states, date);
        && Distinct(p.onLeave) && Distinct(p.day) && Distinct(p.evening) && Distinct(p.night) && Distinct(p.off)
        && (forall x :: x in Ids() <==> x in p.onLeave || x in p.day || x in p.evening || x in p.night || x in p.off)
        && (forall x | x in p.onLeave :: x !in p.day && x !in p.evening && x !in p.night && x !in p.off)
        && (forall x | x in p.day :: x !in p.evening && x !in p.night && x !in p.off)
        && (forall x | x in p.evening :: x !in p.night && x !in p.off)
        && (forall x | x in p.night :: x !in p.off)
        && (forall x | x in Ids() :: x in p.onLeave <==> IsNurseOnVacation(x, date))
    {
      WithoutDistinct(Available(date), DayTeam(states, date));
      WithoutDistinct(AfterDay(states, date), EveningTeam(states, date));
      WithoutDistinct(AfterEvening(states, date), NightTeam(states, date));
    }

    /** `generate`'s body for one date. */
    method GenerateDate(date: Date, schedules: seq<ScheduleInsert>) returns (out: seq<ScheduleInsert>)
      modifies this
      requires ValidDate(date)
      requires Distinct(Ids()) && forall x | x in Ids() :: x in nurseStates
      ensures out == WithDay(schedules, PlanDay(old(nurseStates), date), date)
      ensures nurseStates == DayStates(old(nurseStates), PlanDay(old(nurseStates), date), date)
    {
      ghost var plan := PlanDay(nurseStates, date);
      PlanDayPartition(nurseStates, date);
      var isWeekendDay := IsWeekend(date);
      var availableNurses := Available(date);
      out := EmitGroup(OnLeave(date), Vacation, date, isWeekendDay, true, schedules);
      var s1 := nurseStates;

      var dayNurses := SelectNursesForShift(date, Day, ward.minStaffDay, availableNurses, isWeekendDay);
      dayNurses := EnsureMixedExperience(s1, dayNurses, Day, date, availableNurses);
      var afterDay := Without(availableNurses, dayNurses);

      var eveningNurses := SelectNursesForShift(date, Evening, ward.minStaffEvening, afterDay, isWeekendDay);
      eveningNurses := EnsureMixedExperience(s1, eveningNurses, Evening, date, afterDay);
      var afterEvening := Without(afterDay, eveningNurses);

      var nightNurses := SelectNursesForShift(date, Night, ward.minStaffNight, afterEvening, isWeekendDay);
      nightNurses := EnsureMixedExperience(s1, nightNurses, Night, date, afterEvening);
      var offNurses := Without(afterEvening, nightNurses);
      assert dayNurses == plan.day && eveningNurses == plan.evening && nightNurses == plan.night && offNurses == plan.off;

      out := EmitGroup(dayNurses, Day, date, isWeekendDay, false, out);
      out := EmitGroup(eveningNurses, Evening, date, isWeekendDay, false, out);
      out := EmitGroup(nightNurses, Night, date, isWeekendDay, false, out);
      out := EmitGroup(offNurses, Off, date, isWeekendDay, false, out);
    }

    lemma {:induction false} EntriesOfGroup(group: seq<Id>, stage: ShiftType, date: Date, locked: bool, id: Id)
      requires Distinct(group)
      ensures EntriesOf(GroupEntries(group, stage, date, locked), id) == if id in group then [Entry(stage, id, date, locked)] else []
    {
      if group != [] {
        var init := group[..|group| - 1];
        var ges := GroupEntries(group, stage, date, locked);
        assert ges[..|ges| - 1] == GroupEntries(init, stage, date, locked);
        assert group == init + [group[|group| - 1]];
        assert Distinct(init);
        EntriesOfGroup(init, stage, date, locked, id);
      }
    }

    /** The entry a group adds for `id`, if any. */
    function Added(group: seq<Id>, stage: ShiftType, date: Date, locked: bool, id: Id): seq<ScheduleInsert>
    {
      if id in group then [Entry(stage, id, date, locked)] else []
    }

    lemma GroupAppends(es: seq<ScheduleInsert>, group: seq<Id>, stage: ShiftType, date: Date, locked: bool)
      requires Distinct(group)
      ensures forall id :: EntriesOf(es + GroupEntries(group, stage, date, locked), id) == EntriesOf(es, id) + Added(group, stage, date, locked, id)
    {
      forall id ensures EntriesOf(es + GroupEntries(group, stage, date, locked), id) == EntriesOf(es, id) + Added(group, stage, date, locked, id) {
        EntriesOfConcat(es, GroupEntries(group, stage, date, locked), id);
        EntriesOfGroup(group, stage, date, locked, id);
      }
    }

    /** `GroupAppends` for one nurse, naming what the group adds. */
    lemma GroupAppendsFor(es: seq<ScheduleInsert>, group: seq<Id>, stage: ShiftType, date: Date, locked: bool, id: Id)
      returns (added: seq<ScheduleInsert>)
      requires Distinct(group)
      ensures added == Added(group, stage, date, locked, id)
      ensures added == if id in group then [Entry(stage, id, date, locked)] else []
      ensures EntriesOf(es + GroupEntries(group, stage, date, locked), id) == EntriesOf(es, id) + added
    {
      added := Added(group, stage, date, locked, id);
      EntriesOfConcat(es, GroupEntries(group, stage, date, locked), id);
      EntriesOfGroup(group, stage, date, locked, id);
    }

    /** One nurse's step: a rest entry, or a work entry that passed `canAssignShift`, keeps the books and the limits. */
    lemma NurseStep(st: NurseState, h: seq<ScheduleInsert>, stage: ShiftType, id: Id, date: Date, locked: bool)
      requires st == Replay(h) && RunsWithin(Shifts(h), config)
      requires IsRest(stage) || (stage in {Day, Evening, Night} && CheckShift(st, IsNurseOnVacation(id, date), stage, config).Allowed?)
      ensures var e := Entry(stage, id, date, locked);
        && NextState(st, e.shiftType, OnWeekend(date)) == Replay(h + [e])
        && RunsWithin(Shifts(h + [e]), config)
    {
      var e := Entry(stage, id, date, locked);
      assert (h + [e])[..|h|] == h;
      ReplayRuns(h);
      assert Shifts(h + [e]) == Shifts(h) + [e.shiftType];
      StepKeepsRuns(Shifts(h), st, stage, e.shiftType, config);
    }

    /**
     * Writing a group's entries and advancing its nurses' states keeps the
     * bookkeeping faithful and the run limits respected, provided a work
     * group passed `canAssignShift` on the states it is written against.
     */
    lemma GroupKeepsTracks(states: map<Id, NurseState>, es: seq<ScheduleInsert>, group: seq<Id>, stage: ShiftType, date: Date, locked: bool)
      requires Tracks(states, Ids(), es, config)
      requires Distinct(group) && forall x | x in group :: x in Ids()
      requires IsRest(stage) || (stage in {Day, Evening, Night} && forall x | x in group :: x in states && Feasible(states, x, stage, date))
      ensures Tracks(AfterGroup(states, group, stage, date), Ids(), es + GroupEntries(group, stage, date, locked), config)
      ensures forall id :: EntriesOf(es + GroupEntries(group, stage, date, locked), id) == EntriesOf(es, id) + Added(group, stage, date, locked, id)
    {
      var after := AfterGroup(states, group, stage, date);
      var es' := es + GroupEntries(group, stage, date, locked);
      GroupAppends(es, group, stage, date, locked);
      forall id | id in Ids()
        ensures id in after && after[id] == Replay(EntriesOf(es', id)) && RunsWithin(Shifts(EntriesOf(es', id)), config)
      {
        if id in group {
          NurseStep(states[id], EntriesOf(es, id), stage, id, date, locked);
        } else {
          assert EntriesOf(es', id) == EntriesOf(es, id);
        }
      }
    }

    /** What `generate` writes for a nurse on a date. */
    predicate EntryOk(e: ScheduleInsert)
    {
      && e.wardId == ward.id && e.nurseId in Ids() && e.note == None
      && (e.isLocked <==> e.shiftType == Vacation)
      && (e.shiftType == Vacation <==> IsNurseOnVacation(e.nurseId, e.date))
      && e.shiftType in {Vacation, Day, Split, Evening, Night, Off}
      && (e.shiftType == Split ==> RequestedShift(e.nurseId, e.date) == Some(Split))
      && (e.shiftType == Day ==> RequestedShift(e.nurseId, e.date) != Some(Split))
    }

    lemma GroupEntriesOk(group: seq<Id>, stage: ShiftType, date: Date, locked: bool)
      requires (locked <==> stage == Vacation) && stage in {Vacation, Day, Evening, Night, Off}
      requires forall x | x in group :: x in Ids() && (IsNurseOnVacation(x, date) <==> stage == Vacation)
      ensures forall e | e in GroupEntries(group, stage, date, locked) :: EntryOk(e) && e.date == date
    {
      var ges := GroupEntries(group, stage, date, locked);
      forall k | 0 <= k < |ges| ensures EntryOk(ges[k]) && ges[k].date == date {
        assert group[k] in group;
      }
    }

    /**
     * One date of `generate` keeps the bookkeeping faithful and the run limits
     * respected, gives every active nurse exactly one entry for the date, and
     * writes only well-formed entries.
     */
    lemma DayKeepsTracks(states: map<Id, NurseState>, es: seq<ScheduleInsert>, date: Date, before: seq<Date>)
      requires Distinct(Ids()) && Tracks(states, Ids(), es, config)
      requires forall id | id in Ids() :: DatesOf(EntriesOf(es, id)) == before
      ensures var plan := PlanDay(states, date);
        var after := WithDay(es, plan, date);
        && Tracks(DayStates(states, plan, date), Ids(), after, config)
        && (forall id | id in Ids() :: DatesOf(EntriesOf(after, id)) == before + [date])
        && (forall e | e in after :: e in es || (EntryOk(e) && e.date == date))
    {
      var p := PlanDay(states, date);
      PlanDayPartition(states, date);
      var s1 := AfterGroup(states, p.onLeave, Vacation, date);
      var s2 := AfterGroup(s1, p.day, Day, date);
      var s3 := AfterGroup(s2, p.evening, Evening, date);
      var s4 := AfterGroup(s3, p.night, Night, date);
      var es1 := es + GroupEntries(p.onLeave, Vacation, date, true);
      var es2 := es1 + GroupEntries(p.day, Day, date, false);
      var es3 := es2 + GroupEntries(p.evening, Evening, date, false);
      var es4 := es3 + GroupEntries(p.night, Night, date, false);
      var es5 := es4 + GroupEntries(p.off, Off, date, false);
      GroupKeepsTracks(states, es, p.onLeave, Vacation, date, true);
      GroupKeepsTracks(s1, es1, p.day, Day, date, false);
      forall x | x in p.evening ensures x in s2 && Feasible(s2, x, Evening, date) {
        assert s2[x] == s1[x];
      }
      GroupKeepsTracks(s2, es2, p.evening, Evening, date, false);
      forall x | x in p.night ensures x in s3 && Feasible(s3, x, Night, date) {
        assert s3[x] == s1[x];
      }
      GroupKeepsTracks(s3, es3, p.night, Night, date, false);
      GroupKeepsTracks(s4, es4, p.off, Off, date, false);
      forall id | id in Ids() ensures DatesOf(EntriesOf(es5, id)) == before + [date] {
        OneEntryForDate(p, es, date, id);
      }
      GroupEntriesOk(p.onLeave, Vacation, date, true);
      GroupEntriesOk(p.day, Day, date, false);
      GroupEntriesOk(p.evening, Evening, date, false);
      GroupEntriesOk(p.night, Night, date, false);
      GroupEntriesOk(p.off, Off, date, false);
    }

    /** A nurse in exactly one of the five groups gets exactly one entry dated `date`. */
    lemma OneEntryForDate(p: DayPlan, es: seq<ScheduleInsert>, date: Date, id: Id)
      requires (id in p.onLeave) || (id in p.day) || (id in p.evening) || (id in p.night) || (id in p.off)
      requires id in p.onLeave ==> id !in p.day && id !in p.evening && id !in p.night && id !in p.off
      requires id in p.day ==> id !in p.evening && id !in p.night && id !in p.off
      requires id in p.evening ==> id !in p.night && id !in p.off
      requires id in p.night ==> id !in p.off
      requires Distinct(p.onLeave) && Distinct(p.day) && Distinct(p.evening) && Distinct(p.night) && Distinct(p.off)
      ensures DatesOf(EntriesOf(WithDay(es, p, date), id)) == DatesOf(EntriesOf(es, id)) + [date]
    {
      var es1 := es + GroupEntries(p.onLeave, Vacation, date, true);
      var es2 := es1 + GroupEntries(p.day, Day, date, false);
      var es3 := es2 + GroupEntries(p.evening, Evening, date, false);
      var es4 := es3 + GroupEntries(p.night, Night, date, false);
      var a1 := GroupAppendsFor(es, p.onLeave, Vacation, date, true, id);
      var a2 := GroupAppendsFor(es1, p.day, Day, date, false, id);
      var a3 := GroupAppendsFor(es2, p.evening, Evening, date, false, id);
      var a4 := GroupAppendsFor(es3, p.night, Night, date, false, id);
      var a5 := GroupAppendsFor(es4, p.off, Off, date, false, id);
      var h := EntriesOf(es, id);
      assert EntriesOf(WithDay(es, p, date), id) == h + a1 + a2 + a3 + a4 + a5;
      var e :=
        if id in p.onLeave then Entry(Vacation, id, date, true)
        else if id in p.day then Entry(Day, id, date, false)
        else if id in p.evening then Entry(Evening, id, date, false)
        else if id in p.night then Entry(Night, id, date, false)
        else Entry(Off, id, date, false);
      OneOfFive(h, a1, a2, a3, a4, a5, e);
      DatesOfSnoc(h, e);
    }

    // -------------------------------------------------------------------
    // The month (`generate`) and its statistics (`getStatistics`).
    // -------------------------------------------------------------------

    /**
     * `generate`: fresh run states, then every date of the configured month
     * in order. Each active nurse ends with one entry per date of the month,
     * in date order; every entry is one `generate` may write; each nurse's
     * run state is the replay of their entries, which keep the run limits.
     */
    method Generate() returns (schedules: seq<ScheduleInsert>)
      modifies this
      requires Distinct(Ids())
      requires NormalizeMonth(config.year, config.month).0 >= 1
      ensures var (y, m) := NormalizeMonth(config.year, config.month);
        (nurseStates, schedules) == RunDays(Restarted(old(nurseStates)), [], MonthDates(y, m))
      ensures Tracks(nurseStates, Ids(), schedules, config)
      ensures var (y, m) := NormalizeMonth(config.year, config.month);
        forall id | id in Ids() :: DatesOf(EntriesOf(schedules, id)) == MonthDates(y, m)
      ensures forall e | e in schedules :: EntryOk(e)
    {
      InitializeNurseStates();
      ghost var s0 := nurseStates;
      var days := DaysInMonth(config.year, config.month);
      MonthStarts(nurseStates, days);
      schedules := [];
      for i := 0 to |days|
        invariant MonthSoFar(nurseStates, schedules, days[..i])
        invariant (nurseStates, schedules) == RunDays(s0, [], days[..i])
      {
        PrefixSnoc(days, i);
        schedules := GenerateDay(days[i], schedules, days[..i], s0);
      }
      PrefixAll(days);
    }

    /** One more date extends the fold by that date's plan. */
    lemma RunDaysStep(states: map<Id, NurseState>, done: seq<Date>, date: Date)
      requires forall x | x in Ids() :: x in states
      ensures var (s, e) := RunDays(states, [], done);
        var plan := PlanDay(s, date);
        RunDays(states, [], done + [date]) == (DayStates(s, plan, date), WithDay(e, plan, date))
    {
      assert (done + [date])[..|done|] == done;
    }

    /**
     * The run states and the schedule list once `generate`'s loop body has
     * run for each of `days` in turn: each date is planned on the states
     * the previous dates left, and its groups are pushed in stage order.
     */
    ghost function RunDays(states: map<Id, NurseState>, es: seq<ScheduleInsert>, days: seq<Date>): (r: (map<Id, NurseState>, seq<ScheduleInsert>))
      requires forall x | x in Ids() :: x in states
      ensures r.0.Keys == states.Keys
      decreases |days|
    {
      if days == [] then (states, es)
      else
        var (s, e) := RunDays(states, es, days[..|days| - 1]);
        var date := days[|days| - 1];
        var plan := PlanDay(s, date);
        (DayStates(s, plan, date), WithDay(e, plan, date))
    }

    /** The run states once `initializeNurseStates` has reset every active nurse. */
    function Restarted(states: map<Id, NurseState>): (r: map<Id, NurseState>)
      ensures forall x | x in Ids() :: x in r && r[x] == InitialState
      ensures forall x :: x in r <==> x in states || x in Ids()
    {
      map x | x in states.Keys + (set y | y in Ids()) :: if x in Ids() then InitialState else states[x]
    }

    /** Everything `generate` writes for the configured month, starting from no run states. */
    ghost function MonthRun(): seq<ScheduleInsert>
    {
      var (y, m) := NormalizeMonth(config.year, config.month);
      RunDays(Restarted(map[]), [], MonthDates(y, m)).1
    }

    /** `EntryOk`'s vacation and request conditions, read back on the inputs the generator was built from. */
    lemma EntryOnInputs(e: ScheduleInsert, ward: Ward, nurses: seq<Nurse>, config: GenerationConfig,
                        shiftRequests: seq<ShiftRequest>, vacationRequests: seq<VacationRequest>)
      requires EntryOk(e) && BuiltFrom(ward, nurses, config, shiftRequests, vacationRequests)
      ensures e.shiftType == Vacation <==> exists i | 0 <= i < |vacationRequests| :: Covers(vacationRequests[i], e.nurseId, e.date)
      ensures e.shiftType == Split ==>
        var r := LatestRequest(shiftRequests, (e.nurseId, e.date)); r.Some? && r.value.requestedShift == Split
      ensures e.shiftType == Day ==>
        var r := LatestRequest(shiftRequests, (e.nurseId, e.date)); !(r.Some? && r.value.requestedShift == Split)
    {
    }

    /** The generator holds exactly what its constructor derives from these inputs. */
    ghost predicate BuiltFrom(ward: Ward, nurses: seq<Nurse>, config: GenerationConfig,
                              shiftRequests: seq<ShiftRequest>, vacationRequests: seq<VacationRequest>)
    {
      && this.ward == ward && this.nurses == ActiveNurses(nurses) && this.config == config
      && (forall k :: k in this.shiftRequests <==> LatestRequest(shiftRequests, k).Some?)
      && (forall k | k in this.shiftRequests :: this.shiftRequests[k] == LatestRequest(shiftRequests, k).value)
      && (forall id, d :: InDates(vacationDates, id, d) <==>
            exists i | 0 <= i < |vacationRequests| :: Covers(vacationRequests[i], id, d))
    }

    /** What holds after the dates `done` of the month have been generated. */
    ghost predicate MonthSoFar(states: map<Id, NurseState>, es: seq<ScheduleInsert>, done: seq<Date>)
    {
      && (forall x | x in Ids() :: x in states)
      && Tracks(states, Ids(), es, config)
      && (forall id | id in Ids() :: DatesOf(EntriesOf(es, id)) == done)
      && (forall e | e in es :: EntryOk(e))
    }

    lemma MonthStarts(states: map<Id, NurseState>, days: seq<Date>)
      requires forall id | id in Ids() :: id in states && states[id] == InitialState
      ensures MonthSoFar(states, [], days[..0])
    {
      assert days[..0] == [];
    }

    lemma DayKeepsMonth(states: map<Id, NurseState>, es: seq<ScheduleInsert>, date: Date, done: seq<Date>)
      requires Distinct(Ids()) && MonthSoFar(states, es, done)
      ensures var plan := PlanDay(states, date);
        MonthSoFar(DayStates(states, plan, date), WithDay(es, plan, date), done + [date])
    {
      var plan := PlanDay(states, date);
      DayKeepsTracks(states, es, date, done);
      var s5 := DayStates(states, plan, date);
      assert s5.Keys == states.Keys;
    }

    /** One pass of the day loop of `generate`: the day is generated and the month's invariant grows by it. */
    method GenerateDay(date: Date, schedules: seq<ScheduleInsert>, ghost done: seq<Date>, ghost start: map<Id, NurseState>)
      returns (out: seq<ScheduleInsert>)
      modifies this
      requires ValidDate(date)
      requires Distinct(Ids()) && MonthSoFar(nurseStates, schedules, done)
      requires (forall x | x in Ids() :: x in start) && (nurseStates, schedules) == RunDays(start, [], done)
      ensures out == WithDay(schedules, PlanDay(old(nurseStates), date), date)
      ensures nurseStates == DayStates(old(nurseStates), PlanDay(old(nurseStates), date), date)
      ensures MonthSoFar(nurseStates, out, done + [date])
      ensures (nurseStates, out) == RunDays(start, [], done + [date])
    {
      DayKeepsMonth(nurseStates, schedules, date, done);
      RunDaysStep(start, done, date);
      out := GenerateDate(date, schedules);
    }

    /** `getStatistics`: a copy of every nurse's monthly tallies. */
    function GetStatistics(): (stats: map<Id, MonthlyTally>)
      reads this
      ensures stats.Keys == nurseStates.Keys
    {
      map id | id in nurseStates :: nurseStates[id].monthlyStats
    }

    /** While the books are faithful, each nurse's statistics count that nurse's entries. */
    lemma StatisticsCountEntries(schedules: seq<ScheduleInsert>)
      requires Tracks(nurseStates, Ids(), schedules, config)
      ensures forall id | id in Ids() :: id in GetStatistics() && GetStatistics()[id] == TallyOf(EntriesOf(schedules, id))
    {
      forall id | id in Ids() ensures GetStatistics()[id] == TallyOf(EntriesOf(schedules, id)) {
        ReplayTallies(EntriesOf(schedules, id));
      }
    }
  }

  /** The tallies a history earns: one counter per worked shift type, rest days, worked weekend days. */
  function TallyOf(es: seq<ScheduleInsert>): MonthlyTally
  {
    MonthlyTally(CountShift(es, Day), CountShift(es, Evening), CountShift(es, Night),
                 CountRest(es), CountShift(es, Split), CountWeekendWork(es))
  }

  /** An entry of a nurse whose entries carry the month's dates is dated in the month. */
  lemma EntryInMonth(es: seq<ScheduleInsert>, e: ScheduleInsert, dates: seq<Date>)
    requires e in es && DatesOf(EntriesOf(es, e.nurseId)) == dates
    ensures e.date in dates
  {
    var own := EntriesOf(es, e.nurseId);
    var k :| 0 <= k < |own| && own[k] == e;
    assert dates[k] == e.date;
  }

  /**
   * A nurse whose entries carry the month's dates has exactly one entry for
   * each date of the month and for no other date, in ascending date order.
   */
  lemma OneEntryPerDate(es: seq<ScheduleInsert>, id: Id, y: int, m: int)
    requires 1 <= y && 1 <= m <= 12
    requires DatesOf(EntriesOf(es, id)) == MonthDates(y, m)
    ensures var own := EntriesOf(es, id);
      && (forall d :: (exists k | 0 <= k < |own| :: own[k].date == d) <==> ValidDate(d) && d.year == y && d.month == m)
      && (forall i, j | 0 <= i < j < |own| :: DateLt(own[i].date, own[j].date))
  {
    var own := EntriesOf(es, id);
    var dates := MonthDates(y, m);
    assert forall k | 0 <= k < |own| :: own[k].date == dates[k] == Date(y, m, k + 1);
    forall d | ValidDate(d) && d.year == y && d.month == m
      ensures exists k | 0 <= k < |own| :: own[k].date == d
    {
      assert own[d.day - 1].date == d;
    }
  }

  /** Two entries of one nurse keep their emission order among that nurse's entries. */
  lemma {:induction false} EntriesOfKeepsOrder(es: seq<ScheduleInsert>, i: nat, j: nat) returns (p: nat, q: nat)
    requires i < j < |es| && es[i].nurseId == es[j].nurseId
    ensures p < q < |EntriesOf(es, es[j].nurseId)|
    ensures EntriesOf(es, es[j].nurseId)[p] == es[i] && EntriesOf(es, es[j].nurseId)[q] == es[j]
  {
    var n := es[j].nurseId;
    var init := es[..|es| - 1];
    var own0 := EntriesOf(init, n);
    var own := EntriesOf(es, n);
    if j == |es| - 1 {
      assert init[i] == es[i];
      p :| 0 <= p < |own0| && own0[p] == es[i];
      q := |own0|;
      assert own == own0 + [es[j]];
    } else {
      assert init[i] == es[i] && init[j] == es[j];
      p, q := EntriesOfKeepsOrder(init, i, j);
      assert own[..|own0|] == own0;
      assert own[p] == own[..|own0|][p] && own[q] == own[..|own0|][q];
    }
  }

  /**
   * When every nurse's entries carry the month's dates, no two entries share
   * a nurse and a date.
   */
  lemma OneEntryPerSlot(es: seq<ScheduleInsert>, y: int, m: int)
    requires 1 <= m <= 12
    requires forall e | e in es :: DatesOf(EntriesOf(es, e.nurseId)) == MonthDates(y, m)
    ensures forall i, j | 0 <= i < j < |es| :: es[i].nurseId != es[j].nurseId || es[i].date != es[j].date
  {
    forall i, j | 0 <= i < j < |es| && es[i].nurseId == es[j].nurseId
      ensures es[i].date != es[j].date
    {
      var p, q := EntriesOfKeepsOrder(es, i, j);
      assert es[j] in es;
      DistinctDates(DatesOf(EntriesOf(es, es[j].nurseId)), y, m, p, q);
    }
  }

  lemma DistinctDates(dates: seq<Date>, y: int, m: int, p: nat, q: nat)
    requires 1 <= m <= 12 && dates == MonthDates(y, m) && p < q < |dates|
    ensures dates[p] != dates[q]
  {
    assert dates[p].day == p + 1 && dates[q].day == q + 1;
  }

  /**
   * `generateSchedule`: a generator is built from the inputs and its month is
   * returned, exactly `MonthRun` of that generator. Stated on its inputs: for the normalised month, every
   * active nurse gets exactly the month's dates, in order, and a history that
   * keeps the run limits; every entry belongs to the ward and an active nurse,
   * falls in the month, is VACATION (and locked) exactly when an approved
   * vacation covers it, is SPLIT only on the nurse's surviving SPLIT request,
   * and is DAY only when no SPLIT request of the nurse survives for that date.
   */
  method GenerateSchedule(ward: Ward, nurses: seq<Nurse>, config: GenerationConfig,
                          shiftRequests: seq<ShiftRequest>, vacationRequests: seq<VacationRequest>)
    returns (schedules: seq<ScheduleInsert>, ghost generator: ScheduleGenerator)
    requires Distinct(NurseIds(ActiveNurses(nurses)))
    requires NormalizeMonth(config.year, config.month).0 >= 1
    ensures generator.BuiltFrom(ward, nurses, config, shiftRequests, vacationRequests)
    ensures schedules == generator.MonthRun()
    ensures var (y, m) := NormalizeMonth(config.year, config.month);
      forall id | id in NurseIds(ActiveNurses(nurses)) ::
        && DatesOf(EntriesOf(schedules, id)) == MonthDates(y, m)
        && RunsWithin(Shifts(EntriesOf(schedules, id)), config)
    ensures var (y, m) := NormalizeMonth(config.year, config.month);
      forall e | e in schedules ::
        && e.wardId == ward.id && e.nurseId in NurseIds(ActiveNurses(nurses)) && e.note == None
        && e.date in MonthDates(y, m)
        && (e.isLocked <==> e.shiftType == Vacation)
        && (e.shiftType == Vacation <==> exists i | 0 <= i < |vacationRequests| :: Covers(vacationRequests[i], e.nurseId, e.date))
        && e.shiftType in {Vacation, Day, Split, Evening, Night, Off}
        && (e.shiftType == Split ==>
              var r := LatestRequest(shiftRequests, (e.nurseId, e.date)); r.Some? && r.value.requestedShift == Split)
        && (e.shiftType == Day ==>
              var r := LatestRequest(shiftRequests, (e.nurseId, e.date)); !(r.Some? && r.value.requestedShift == Split))
    ensures forall i, j | 0 <= i < j < |schedules| ::
      schedules[i].nurseId != schedules[j].nurseId || schedules[i].date != schedules[j].date
  {
    var g := new ScheduleGenerator(ward, nurses, config, shiftRequests, vacationRequests);
    schedules := g.Generate();
    generator := g;
    var (y, m) := NormalizeMonth(config.year, config.month);
    forall e | e in schedules
      ensures e.date in MonthDates(y, m)
      ensures e.shiftType == Vacation <==> exists i | 0 <= i < |vacationRequests| :: Covers(vacationRequests[i], e.nurseId, e.date)
      ensures e.shiftType == Split ==>
        var r := LatestRequest(shiftRequests, (e.nurseId, e.date)); r.Some? && r.value.requestedShift == Split
      ensures e.shiftType == Day ==>
        var r := LatestRequest(shiftRequests, (e.nurseId, e.date)); !(r.Some? && r.value.requestedShift == Split)
    {
      EntryInMonth(schedules, e, MonthDates(y, m));
      g.EntryOnInputs(e, ward, nurses, config, shiftRequests, vacationRequests);
    }
    OneEntryPerSlot(schedules, y, m);
  }
}
