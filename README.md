# Nurse scheduler — a verified Dafny model

This project models the core of the nurse-scheduler web application: its
monthly shift-assignment engine and the stores around it.

- **The engine.** `ScheduleGenerator` (`Generator.ScheduleGenerator`) and
  `generateSchedule` walk the dates of a month in order. For each date they
  first lock every nurse on approved leave into VACATION. They then pick the
  DAY, EVENING and NIGHT teams from the remaining pool and give everyone left
  OFF.
- **Team selection.** A team first takes the nurses who asked for the shift,
  then fills up from a stable ranking by weekend load and quota deficit. A
  mixed-experience rule may swap a junior for a senior.
- **Run state.** Every assignment updates the nurse's run state: consecutive
  work days, consecutive nights, the last shift and monthly tallies. The next
  feasibility checks read that state.
- **The record store.** `localDb` is modelled as the class
  `LocalStorage.LocalDb`, with one sequence field per collection.
- **The application store.** `AppStore` models the store's state as a
  datatype and covers the ward and nurse deletions, the month views, the
  monthly statistics fold and `generateMonthlySchedule`, which ties engine
  and record store together.
- **The calendar helpers.** `Calendar` models `getDaysInMonth` and
  `isWeekend` over an abstract proleptic Gregorian date (year, month, day),
  with a day number and a day of the week.

Modules, in dependency order:

| module | file | models |
|---|---|---|
| `Wrappers` | wrappers.dfy | `Option` |
| `Calendar` | calendar.dfy | nurse-scheduler/src/lib/utils.ts (dates, `getDaysInMonth`, `isWeekend`) |
| `Types` | types.dfy | the records and unions of nurse-scheduler/src/types/database.ts |
| `Seqs` | seqs.dfy | array `filter`/`find`/`findIndex`/`indexOf` and their laws |
| `ShiftRules` | rules.dfy | `updateNurseState`, `canAssignShift`, `getShiftPriority`, and the run limits a history keeps |
| `Ranking` | ranking.dfy | the comparator and stable sort of `selectNursesForShift` |
| `Generator` | generator.dfy | `ScheduleGenerator` and `generateSchedule` |
| `LocalStorage` | localstorage.dfy | `localDb` |
| `AppStore` | appstore.dfy | the store actions of nurse-scheduler/src/store/app-store.ts |

Stored schedules are modelled as follows:

- Dates are stored as `YYYY-MM-DD` strings. With four-digit years these
  compare like (year, month, day) triples, so the month window
  `[Y-MM-01, Y-MM-31]` is `LocalStorage.InWindow`.
- `LocalStorage.WindowIsMonth` shows that, on a real date, this window is
  exactly the calendar month.
- JavaScript's `Array.prototype.sort` is stable. It is modelled as a stable
  insertion sort, which is proved sorted, a permutation and stable.

## Model

| member | source | states |
|---|---|---|
| Calendar.MonthLength | nurse-scheduler/src/lib/utils.ts:36-37 | a month has 28 to 31 days; 29 exactly for February of a leap year, 28 exactly for February otherwise |
| Calendar.NextDate | nurse-scheduler/src/lib/utils.ts:39 | `d.setDate(d.getDate() + 1)` yields a real date whose day number is one more |
| Calendar.DateOrderIsDayOrder | nurse-scheduler/src/lib/utils.ts:39 | the `d <= lastDay` comparison of dates is the order of day numbers, and equal day numbers mean equal dates |
| Calendar.NormalizeMonth | nurse-scheduler/src/lib/utils.ts:36-37 | `new Date(year, month - 1, 1)` rolls an out-of-range month into a month 1..12 of a neighbouring year, keeping `12·year + month` |
| Calendar.MonthDatesShape | nurse-scheduler/src/lib/utils.ts:34-44 | the month's enumeration has its Gregorian length, runs from day 1 to the last day, stays in the month, and is consecutive and strictly ascending |
| Calendar.DaysInMonth | nurse-scheduler/src/lib/utils.ts:34-44 | the loop returns exactly the normalised month's dates; for months 1..12 and year ≥ 100 these are days 1..length of the requested month |
| Calendar.DayOfWeekAdvances | nurse-scheduler/src/lib/utils.ts:29-32 | the weekday of the next date is the following weekday (mod 7) |
| Calendar.SaturdayThenSunday | nurse-scheduler/src/lib/utils.ts:29-32 | a Saturday and the Sunday after it are weekend days and the Monday after is not |
| Calendar.KnownWeekdays | nurse-scheduler/src/lib/utils.ts:29-32 | anchors the weekday function: 2024-06-01 is a Saturday (weekend), 2024-06-03 a Monday (not) |
| ShiftRules.NextState | nurse-scheduler/src/lib/schedule-generator.ts:258-283 | rest shifts zero both runs and bump only `off`; work bumps the work run and `weekendWork` iff a weekend; NIGHT bumps the night run and `night`; DAY, EVENING and SPLIT reset the night run and bump their own tally; `lastShift` is the shift; nothing else changes |
| ShiftRules.ReplayRuns | nurse-scheduler/src/lib/schedule-generator.ts:258-283 | after any history the run counters are that history's trailing work and night runs, and `lastShift` its last entry |
| ShiftRules.ReplayTallies | nurse-scheduler/src/lib/schedule-generator.ts:258-283 | after any history every monthly tally counts its kind of entry (rest kinds together under `off`) and `weekendWork` counts weekend work entries |
| ShiftRules.CheckShift | nurse-scheduler/src/lib/schedule-generator.ts:113-137 | denial for vacation iff on vacation; for the work run, the night run and rest-after-night each iff its condition holds and no earlier check fired; allowed iff none of the four holds |
| ShiftRules.EveningAfterNightAllowed | nurse-scheduler/src/lib/schedule-generator.ts:132-134 | the rest rule denies DAY after NIGHT but leaves EVENING after NIGHT allowed |
| ShiftRules.StepKeepsRuns | nurse-scheduler/src/lib/schedule-generator.ts:124-133 | a rest entry, or a work entry whose check passed (DAY recorded as SPLIT included), keeps a history within the work-run, night-run and rest-after-night limits |
| ShiftRules.RunsWithinBoundsStretches | nurse-scheduler/src/lib/schedule-generator.ts:124-129 | in a history within the limits, every stretch of work is at most `maxConsecutiveWorkDays` long and every stretch of nights at most `maxConsecutiveNights` |
| ShiftRules.ShiftPriorityIsQuotaGap | nurse-scheduler/src/lib/schedule-generator.ts:146-164 | the score is `floor(d·0.25) − day`, `floor(d·0.25) − evening` or `floor(d·0.2) − night`; for OFF it is +10 iff `off < floor(d·0.3)` and −10 otherwise; 0 for other shift types (real floors) |
| ShiftRules.QuotaFloors | nurse-scheduler/src/lib/schedule-generator.ts:146-151 | for month lengths 28..31 the float quotas equal the integer quotients `d/4`, `d/5`, `3d/10` |
| ShiftRules.PriorityFollowsDeficit | nurse-scheduler/src/lib/schedule-generator.ts:153-159 | of two nurses, the one with fewer shifts of the kind scores strictly higher |
| Ranking.CompareIsKeyOrder | nurse-scheduler/src/lib/schedule-generator.ts:197-204 | the comparator orders by ascending weekend work (when weekends are balanced) and then descending priority, and returns 0 exactly on equal keys |
| Ranking.RankSorted | nurse-scheduler/src/lib/schedule-generator.ts:190-204 | the ranked list is ordered by the comparator |
| Ranking.RankPermutation | nurse-scheduler/src/lib/schedule-generator.ts:190-204 | the ranked list is a permutation of the candidates |
| Ranking.RankStable | nurse-scheduler/src/lib/schedule-generator.ts:190-204 | candidates with equal keys keep their pool order |
| Ranking.RankIds | nurse-scheduler/src/lib/schedule-generator.ts:190-204 | ranking keeps the set of ids and keeps them distinct |
| Generator.ActiveNurses | nurse-scheduler/src/lib/schedule-generator.ts:57 | exactly the active nurses are kept |
| Generator.LatestRequest | nurse-scheduler/src/lib/schedule-generator.ts:60-65 | a key has a request iff an APPROVED or PENDING request for it exists, and then it is the last such one |
| Generator.IndexRequests | nurse-scheduler/src/lib/schedule-generator.ts:60-65 | the request map holds exactly the keys with a latest eligible request, mapped to it |
| Generator.ExpandVacations | nurse-scheduler/src/lib/schedule-generator.ts:67-80 | a nurse's vacation dates are exactly the dates inside some APPROVED range of theirs, and no nurse has an empty set |
| Generator.ScheduleGenerator.constructor | nurse-scheduler/src/lib/schedule-generator.ts:49-84 | keeps the ward and config, only the active nurses, the latest eligible request per (nurse, date), the approved vacation dates, and empty run states (`BuiltFrom` its arguments) |
| Generator.ScheduleGenerator.InitializeNurseStates | nurse-scheduler/src/lib/schedule-generator.ts:86-103 | the states become `Restarted` of the old ones |
| Generator.ScheduleGenerator.Restarted | nurse-scheduler/src/lib/schedule-generator.ts:86-103 | every active nurse gets the zero state; other entries are kept, and no key is added beyond the active nurses |
| Generator.ScheduleGenerator.GetNurseRequest | nurse-scheduler/src/lib/schedule-generator.ts:109-111 | a request is found iff one is indexed under (nurse, date) |
| Generator.ScheduleGenerator.TotalDays | nurse-scheduler/src/lib/schedule-generator.ts:142-144 | the month length used by the score lies in 28..31 (30 when there are no nurses) |
| Generator.ScheduleGenerator.Requesters | nurse-scheduler/src/lib/schedule-generator.ts:176-179 | exactly the pool members whose request is the shift |
| Generator.ScheduleGenerator.FeasibleAmongMembers | nurse-scheduler/src/lib/schedule-generator.ts:181-187 | the greedy pass keeps exactly the nurses that pass `canAssignShift` |
| Generator.ScheduleGenerator.RankedRestIds | nurse-scheduler/src/lib/schedule-generator.ts:190-196 | the ranked remainder is distinct and holds exactly the pool members neither selected nor requesters |
| Generator.ScheduleGenerator.FillFrom | nurse-scheduler/src/lib/schedule-generator.ts:206-212 | the loop appends the first `count − |chosen|` feasible nurses of the list, in list order |
| Generator.ScheduleGenerator.SelectNursesForShift | nurse-scheduler/src/lib/schedule-generator.ts:167-216 | the two loops return exactly `Selection`: feasible requesters first, then the ranked remainder while slots remain |
| Generator.ScheduleGenerator.PicksDrawn | nurse-scheduler/src/lib/schedule-generator.ts:174-213 | the first pass holds only feasible requesters, the second only feasible non-requesters, and the second is non-empty only when the first fell short |
| Generator.ScheduleGenerator.SelectionDrawn | nurse-scheduler/src/lib/schedule-generator.ts:174-215 | every selected nurse is from the pool and passed `canAssignShift` for that shift and date |
| Generator.ScheduleGenerator.SelectionDistinct | nurse-scheduler/src/lib/schedule-generator.ts:174-215 | a pool without repeats gives a selection without repeats |
| Generator.ScheduleGenerator.SelectionRequestersFirst | nurse-scheduler/src/lib/schedule-generator.ts:181-213 | at most `count` nurses are selected, and every requester precedes every non-requester |
| Generator.ScheduleGenerator.SelectionRequestersPreferred | nurse-scheduler/src/lib/schedule-generator.ts:181-213 | a non-requester is selected only if every feasible requester of the pool is |
| Generator.ScheduleGenerator.SelectionFillsWhenShort | nurse-scheduler/src/lib/schedule-generator.ts:189-213 | a team below `count` holds every feasible nurse of the pool |
| Generator.ScheduleGenerator.SeniorCandidates | nurse-scheduler/src/lib/schedule-generator.ts:235-241 | exactly the feasible SENIOR/CHARGE pool members outside the team |
| Generator.ScheduleGenerator.EnsureMixedExperience | nurse-scheduler/src/lib/schedule-generator.ts:218-256 | the team keeps its length |
| Generator.ScheduleGenerator.MixedKeepsBalancedTeams | nurse-scheduler/src/lib/schedule-generator.ts:224-233 | with the flag off, fewer than two members or a senior present, the team is returned unchanged |
| Generator.ScheduleGenerator.MixedReplacesFirstJunior | nurse-scheduler/src/lib/schedule-generator.ts:243-253 | any change overwrites the first junior's slot with the first senior candidate, and only when the rule applies and a candidate exists |
| Generator.ScheduleGenerator.MixedGainsSenior | nurse-scheduler/src/lib/schedule-generator.ts:243-253 | when the rule applies and a candidate exists, the team ends with a senior |
| Generator.ScheduleGenerator.MixedDrawn | nurse-scheduler/src/lib/schedule-generator.ts:235-253 | every member is either from the old team or a feasible pool member, and no repeats are introduced |
| Generator.ScheduleGenerator.UpdateNurseState | nurse-scheduler/src/lib/schedule-generator.ts:258-283 | only the nurse's state changes, to `NextState` of it |
| Generator.ScheduleGenerator.Recorded | nurse-scheduler/src/lib/schedule-generator.ts:346-347 | a DAY pick is recorded as SPLIT iff the nurse's request is SPLIT; other stages are recorded as themselves |
| Generator.ScheduleGenerator.EmitGroup | nurse-scheduler/src/lib/schedule-generator.ts:345-389 | each group loop appends one entry per group member, in order, and steps each member's state |
| Generator.ScheduleGenerator.Available | nurse-scheduler/src/lib/schedule-generator.ts:295-297 | exactly the active nurses not on vacation that date, without repeats |
| Generator.ScheduleGenerator.OnLeave | nurse-scheduler/src/lib/schedule-generator.ts:299-310 | exactly the active nurses on vacation that date, without repeats |
| Generator.ScheduleGenerator.Team | nurse-scheduler/src/lib/schedule-generator.ts:312-341 | a selected and mixed team draws feasible nurses from its pool, without repeats |
| Generator.ScheduleGenerator.PlanDayPartition | nurse-scheduler/src/lib/schedule-generator.ts:299-343 | the day's VACATION, DAY, EVENING, NIGHT and OFF groups partition the active nurses, and a nurse is in VACATION iff on vacation |
| Generator.ScheduleGenerator.GenerateDate | nurse-scheduler/src/lib/schedule-generator.ts:291-389 | one date's body appends the day plan's entries and leaves the states the plan yields |
| Generator.ScheduleGenerator.DayKeepsTracks | nurse-scheduler/src/lib/schedule-generator.ts:291-389 | a generated day keeps every nurse's state equal to the replay of their entries and their history within the run limits, and adds exactly one entry per nurse |
| Generator.ScheduleGenerator.OneEntryForDate | nurse-scheduler/src/lib/schedule-generator.ts:299-389 | a nurse in exactly one of the day's groups gains exactly that date in their entries |
| Generator.ScheduleGenerator.GenerateDay | nurse-scheduler/src/lib/schedule-generator.ts:291-390 | one pass of the day loop appends exactly the entries of `PlanDay` of the current states and moves to the states that plan yields; the pair stays the fold `RunDays` of the dates done, now including this one, and the month's invariant is extended |
| Generator.ScheduleGenerator.RunDays | nurse-scheduler/src/lib/schedule-generator.ts:291-390 | the day loop as a fold over a list of dates: each date applies `PlanDay` to the states left by the dates before it; the state map keeps its keys |
| Generator.ScheduleGenerator.RunDaysStep | nurse-scheduler/src/lib/schedule-generator.ts:291-390 | folding one more date extends the fold by that date's plan, its entries and its states |
| Generator.ScheduleGenerator.Generate | nurse-scheduler/src/lib/schedule-generator.ts:285-393 | the entries and final states are exactly `RunDays` over the normalised month's dates from the restarted states; every active nurse gets the month's dates in order, one entry each; states replay the entries within the run limits; each entry is a well-formed one |
| Generator.ScheduleGenerator.GetStatistics | nurse-scheduler/src/lib/schedule-generator.ts:395-401 | one tally per nurse state |
| Generator.ScheduleGenerator.StatisticsCountEntries | nurse-scheduler/src/lib/schedule-generator.ts:395-401 | each active nurse's statistics are the tallies of their entries |
| Generator.ScheduleGenerator.EntryOnInputs | nurse-scheduler/src/lib/schedule-generator.ts:49-84 | for a generator built from given inputs, a well-formed entry is VACATION iff an approved range of those inputs covers its date, SPLIT only on a surviving SPLIT request and DAY only without one |
| Generator.OneEntryPerSlot | nurse-scheduler/src/lib/schedule-generator.ts:291-389 | no two entries share a (nurse, date) |
| Generator.GenerateSchedule | nurse-scheduler/src/lib/schedule-generator.ts:404-419 | the entries are exactly `MonthRun` (the `RunDays` fold over the normalised month) of a generator `BuiltFrom` these inputs; for that month: each active nurse's entries are the month's dates in order and keep the run limits; entries belong to the ward and active nurses; VACATION iff locked iff an approved range covers the date; SPLIT only on a surviving SPLIT request and DAY only without one; one entry per (nurse, date) |
| LocalStorage.WindowIsMonth | nurse-scheduler/src/lib/local-storage.ts:131-138 | on a real date the `[Y-MM-01, Y-MM-31]` string window is exactly the calendar month |
| LocalStorage.OverlapIsSharedDate | nurse-scheduler/src/lib/local-storage.ts:293-302 | a valid range passes the overlap filter iff it contains a date of the month |
| LocalStorage.WardNurseIds | nurse-scheduler/src/lib/local-storage.ts:240-241 | exactly the ids of the ward's active nurses |
| LocalStorage.InsertRoundTrip | nurse-scheduler/src/lib/local-storage.ts:153-159 | stamping an insert with an id and time keeps the insert's fields |
| LocalStorage.StampedKeepsInserts | nurse-scheduler/src/lib/local-storage.ts:187-192 | the new records carry the inserts in order, each with its own id and timestamps |
| LocalStorage.Overlay | nurse-scheduler/src/lib/local-storage.ts:173-177 | the overwritten record keeps its id and creation time, takes the new fields, and keeps its note when the insert has none |
| LocalStorage.Upserted | nurse-scheduler/src/lib/local-storage.ts:166-183 | with a record of the same (ward, nurse, date), the first one is overwritten in place and the length is unchanged; otherwise exactly one record is appended |
| LocalStorage.UpsertKeepsSlotsUnique | nurse-scheduler/src/lib/local-storage.ts:166-183 | upsert keeps one record per (ward, nurse, date), and afterwards the slot holds the insert's shift and lock |
| LocalStorage.KeptAfterDelete | nurse-scheduler/src/lib/local-storage.ts:203-205 | kept are exactly the records that are not unlocked records of the ward in the month window |
| LocalStorage.DeleteCountsDoomed | nurse-scheduler/src/lib/local-storage.ts:203-209 | the count returned is the number of records removed, and locked records and other wards' records are all kept |
| LocalStorage.PatchesKeepIdentity | nurse-scheduler/src/lib/local-storage.ts:55-67 | an empty partial update changes only `updatedAt` |
| LocalStorage.LocalDb.constructor | nurse-scheduler/src/lib/local-storage.ts:23-27 | an empty store reads as empty collections |
| LocalStorage.LocalDb.UpdateWard | nurse-scheduler/src/lib/local-storage.ts:55-67 | an absent id changes nothing and returns none; otherwise only the first match is patched and returned |
| LocalStorage.LocalDb.DeleteWard | nurse-scheduler/src/lib/local-storage.ts:69-75 | true iff some ward had the id; then all such wards are removed, otherwise nothing changes |
| LocalStorage.LocalDb.GetNursesByWard | nurse-scheduler/src/lib/local-storage.ts:81-83 | exactly the active nurses of the ward |
| LocalStorage.LocalDb.UpdateNurse | nurse-scheduler/src/lib/local-storage.ts:102-114 | as for wards, on the nurse collection |
| LocalStorage.LocalDb.DeleteNurse | nurse-scheduler/src/lib/local-storage.ts:116-125 | soft delete: the first nurse with the id is deactivated and kept; an absent id returns false and changes nothing |
| LocalStorage.LocalDb.GetSchedulesByWardAndMonth | nurse-scheduler/src/lib/local-storage.ts:131-138 | exactly the ward's records in the month window |
| LocalStorage.LocalDb.CreateSchedule | nurse-scheduler/src/lib/local-storage.ts:153-164 | one stamped record is appended and returned |
| LocalStorage.LocalDb.UpsertSchedule | nurse-scheduler/src/lib/local-storage.ts:166-183 | the collection becomes `Upserted` of it; the returned record is the overlay of the first record in the insert's slot, or the newly created record when the slot is empty, so it sits in that slot with the insert's shift |
| LocalStorage.LocalDb.BulkCreate | nurse-scheduler/src/lib/local-storage.ts:185-196 | the stamped inserts are appended after the existing records, in input order, and returned |
| LocalStorage.LocalDb.DeleteByWardAndMonth | nurse-scheduler/src/lib/local-storage.ts:198-210 | the collection becomes `KeptAfterDelete` of it, and the count of removed records is returned |
| LocalStorage.LocalDb.UpdateSchedule | nurse-scheduler/src/lib/local-storage.ts:212-224 | as for wards, on the schedule collection |
| LocalStorage.LocalDb.GetShiftRequestsByWardAndMonth | nurse-scheduler/src/lib/local-storage.ts:239-248 | exactly the requests of the ward's active nurses dated in the month window |
| LocalStorage.LocalDb.UpdateShiftRequest | nurse-scheduler/src/lib/local-storage.ts:263-275 | as for wards, on the shift requests |
| LocalStorage.LocalDb.DeleteShiftRequest | nurse-scheduler/src/lib/local-storage.ts:277-283 | true iff a request had the id; then all such are removed, otherwise nothing changes |
| LocalStorage.LocalDb.GetVacationRequestsByWardAndMonth | nurse-scheduler/src/lib/local-storage.ts:293-302 | exactly the ward's active nurses' requests whose range overlaps the month window |
| LocalStorage.LocalDb.UpdateVacationRequest | nurse-scheduler/src/lib/local-storage.ts:317-329 | as for wards, on the vacation requests |
| LocalStorage.LocalDb.DeleteVacationRequest | nurse-scheduler/src/lib/local-storage.ts:331-337 | true iff a request had the id; then all such are removed, otherwise nothing changes |
| Seqs.UpdateFirst | nurse-scheduler/src/lib/local-storage.ts:212-224 | the find-and-replace of every `update`: without a match the list is unchanged and none is returned; otherwise only the first match is replaced and returned |
| AppStore.WithoutWard | nurse-scheduler/src/store/app-store.ts:124-127 | the ward is removed; the selection is cleared iff it was that ward; a valid selection stays valid; nothing else changes |
| AppStore.WithoutWardIdempotent | nurse-scheduler/src/store/app-store.ts:124-127 | deleting a ward twice is deleting it once |
| AppStore.DeleteWard | nurse-scheduler/src/store/app-store.ts:122-128 | storage always loses the ward (its list is filtered by id) and the state becomes `WithoutWard`, so a store in step with the state stays in step |
| AppStore.DeactivateNurse | nurse-scheduler/src/store/app-store.ts:147-149 | every record is kept in place; a record becomes inactive iff it has the id; nothing else changes |
| AppStore.DeactivatedLeavesRoster | nurse-scheduler/src/store/app-store.ts:145-154 | after a delete the ward's roster is the old roster without that nurse |
| AppStore.DeleteNurse | nurse-scheduler/src/store/app-store.ts:145-150 | the store soft-deletes the first match and the state deactivates the nurse |
| AppStore.GetNursesByWard | nurse-scheduler/src/store/app-store.ts:152-154 | exactly the active nurses of the ward |
| AppStore.GetSchedulesByWardAndMonth | nurse-scheduler/src/store/app-store.ts:261-268 | exactly the ward's schedules in the month window |
| AppStore.ReplaceMonth | nurse-scheduler/src/store/app-store.ts:240-247 | the schedules not of the ward's month, then the new ones at the end; the length accounts for both |
| AppStore.ReplaceMonthIdempotent | nurse-scheduler/src/store/app-store.ts:240-247 | replacing a month twice with the same schedules is replacing it once |
| AppStore.ReplaceMonthViews | nurse-scheduler/src/store/app-store.ts:240-247 | afterwards the ward's month view is exactly the new schedules and other wards' views are unchanged |
| AppStore.StatsCount | nurse-scheduler/src/store/app-store.ts:299-323 | each counter counts the nurse's schedules of its kind: VACATION and ANNUAL_LEAVE under `vacation` and never `off`; `weekendWork` counts weekend schedules that are neither OFF nor VACATION |
| AppStore.StatsTotal | nurse-scheduler/src/store/app-store.ts:299-319 | the six shift counters add up to the nurse's number of schedules in the month |
| AppStore.CountSchedule | nurse-scheduler/src/store/app-store.ts:295-323 | the switch and weekend check step the counters as `Counted` does |
| AppStore.GetMonthlyStats | nurse-scheduler/src/store/app-store.ts:270-327 | the map holds exactly the nurses with a schedule in the month, each with the fold of their schedules |
| AppStore.StoredAfterRegeneration | nurse-scheduler/src/lib/local-storage.ts:203-205 | after regeneration storage holds the surviving records and the new ones, including every locked record |
| AppStore.RegenerationDuplicatesLockedSlot | nurse-scheduler/src/lib/local-storage.ts:203-205 | a locked record whose slot is generated again leaves two records for one (ward, nurse, date) |
| AppStore.SecondRunDuplicatesVacation | nurse-scheduler/src/store/app-store.ts:228-238 | a second run over a month with approved leave stores the leave twice |
| AppStore.StoredAfterCleanRegeneration | nurse-scheduler/src/store/app-store.ts:240-247 | regeneration as intended: every record of the ward's month gives way to the new ones |
| AppStore.CleanRegenerationKeepsSlotsUnique | nurse-scheduler/src/store/app-store.ts:240-247 | clean regeneration keeps one record per (ward, nurse, date) and leaves exactly the new records in the month view |
| AppStore.InMemoryReplacementIsClean | nurse-scheduler/src/store/app-store.ts:240-247 | on real dates the in-memory replacement is the clean regeneration |
| AppStore.StampedMonth | nurse-scheduler/src/lib/local-storage.ts:185-196 | stamping a generated month keeps its inserts in order, gives record k the id `idFor(k)` and the time, and keeps ward, nurse, month, lock and unique slots |
| AppStore.Regenerate | nurse-scheduler/src/store/app-store.ts:226-238 | storage becomes `StoredAfterRegeneration`; the new records carry exactly `MonthRun` of a generator `BuiltFrom` the given ward, roster, config and requests, stamped with `idFor` and the time, belong to the ward and its active nurses, fall in the month, are locked iff VACATION, give each nurse the month's dates, and have unique slots |
| AppStore.GenerateMonthlySchedule | nurse-scheduler/src/store/app-store.ts:211-250 | an unknown ward returns [] and changes nothing; otherwise the new records carry exactly `MonthRun` of a generator `BuiltFrom` the ward, its active nurses and the month's shift and vacation requests read from storage, storage becomes `StoredAfterRegeneration` and the state `ReplaceMonth`; the new records belong to the ward and its active nurses, fall in the month, are locked iff VACATION, give each nurse the month's dates, and have unique slots |

## Left out

- UI components, zustand `set`/`get` plumbing, `isLoading`, `loadAllData` and the plain setters (`setSelectedWard`, `setSelectedMonth`) are not modelled. Neither are the create/update actions of the store that only mirror a `localDb` call into state.
- Browser persistence: `localStorage` and JSON round-trips are replaced by the in-memory sequences of `LocalDb`. The `typeof window` guard is not modelled.
- Ids and timestamps: `generateId` and `new Date().toISOString()` are parameters (`newId`, `idFor`, `now`). The store's own calls to them are not modelled.
- Floating point: the score quotas use the integer quotients `d/4`, `d/5` and `3d/10`. `ShiftRules.QuotaFloors` proves these equal the float floors for d in 28..31. 30 is in that range.
- `getDateString` and `new Date(string)` are not modelled. The generator uses UTC strings and local-midnight dates, which in positive-offset time zones shift a day; the model uses one abstract date throughout.
- Calendar.DaysInMonth: requires the normalised year to be at least 1. JavaScript's mapping of two-digit years to 1900–1999 is modelled (`JsYear`), but years before 1 are not.
- Generator.GenerateSchedule: requires active nurse ids to be distinct. The source keys its state map by id and does not check this.
- Generator.ScheduleGenerator.EnsureMixedExperience: the in-place `selected[idx] = …` overwrite is modelled as a function returning the new team. The array is local to one date, so nothing else observes it. A junior whose id is the empty string is falsy in the source, so it is never replaced; the model keeps that.
- `balanceHolidays` and `balanceNightShifts` are never read by the engine and are not modelled.
- `getByNurseAndMonth`, `getByNurse`, `getById`, `getAll` and the record `create` operations other than `schedules.create` are not modelled.
- The locked-entry lifecycle: locked vacation entries are meant to be regenerated on every run, so a withdrawn leave does not survive. The in-memory replacement (app-store.ts:240-247) already drops them, while `deleteByWardAndMonth` (local-storage.ts:203-205) keeps them in storage. `AppStore.GenerateMonthlySchedule` follows the code as written. See Findings.
- Date strings with years outside 1000..9999: the month window is built from an unpadded `${year}` while stored dates are padded to four digits, so string order agrees with (year, month, day) order only for four-digit years. `LocalStorage.InWindow` compares triples, so it assumes every year involved is in 1000..9999. For a window year of 999 and a stored date "0999-06-03", the string comparison and the model disagree.

## Findings

| source | as written | input that shows it | evidently intended | confidence | as-written member | corrected member |
|---|---|---|---|---|---|---|
| nurse-scheduler/src/lib/local-storage.ts:203-205 with nurse-scheduler/src/store/app-store.ts:228-238 | regeneration deletes only the unlocked records of the ward's month, then bulk-creates a fresh locked VACATION record for every still-approved leave date | one stored locked VACATION record for nurse n1 on 2024-06-03 in ward w1, leave still approved, and June 2024 regenerated | every record of the ward's month, locked or not, gives way to the new run, so storage keeps one record per (ward, nurse, date); the in-memory list already does this | not executed; medium | AppStore.RegenerationDuplicatesLockedSlot, AppStore.SecondRunDuplicatesVacation | AppStore.CleanRegenerationKeepsSlotsUnique, AppStore.InMemoryReplacementIsClean |

The as-written storage rule is `AppStore.StoredAfterRegeneration`. The intended rule is `AppStore.StoredAfterCleanRegeneration`. `AppStore.InMemoryReplacementIsClean` shows that the in-memory state produced by `AppStore.GenerateMonthlySchedule` follows the intended rule, while the persisted copy follows the as-written one. The two copies therefore diverge after a second run. The stale locked record also outlives a leave that is no longer approved.
