# Attendance engine: a Dafny model with proofs

This project models the attendance engine of the HR backend and three of its neighbours, and
proves what they are relied on for. `dafny verify dfyconfig.toml` checks everything.

## How the modules fit together

| module | models |
|---|---|
| Basics, Domain | dates as ordinals, instants in microseconds, hours in hundredths, and the records the engine reads |
| PolicyResolution, ConflictPreview | which policy assignment governs an employee-day, and the preview that guards every save of one |
| RosterConfig, Rotation, Rosters, Rollout | roster configuration, cyclic lookup, shift resolution, bulk rollout |
| Derivation, Batch, Refresh | punches to hours, status, overtime and units; the batched context; incremental re-derivation |
| CloseSnapshot, PeriodClose | the evidence of a period close, and the close protocol as a machine of committed steps |
| CloseSafety, CloseVersions, CloseExactness | safety of every run: locks, corrections, frozen rows, version chains, audit logs, exact locks |
| RequestLife | correction requests over every run, manual edits of rows included |
| AttendanceDesk | the same services as a class updating its tables in place, each method proved equal to its step |
| EmployeeMonth, Idempotency, LeaveCalendar | the employee's month, keyed at-most-once mutations, the leave calendar sweep |

A `State` holds one tenant. Table positions are primary keys and are never reused. Each step is one
committed write: it yields a new state, or is refused and changes nothing. A run may take any steps
in any order with any arguments; configuration may change freely between them, except that no
employee changes legal entity. A *service run* leaves out what HR administrators do to rows outside
the protocol, in bulk (`BulkEdit`) or one by one (`EditRow`).

Migration 0011 installs a database trigger that refuses any attendance row write inside a CLOSED
period. It exists on PostgreSQL only, so the flag `guarded` covers both cases: results that need
the trigger say so, all others hold with and without it. The two lock updates of a transition meet
the trigger in the code's own order: rows are locked before the version's status is saved as CLOSED,
and unlocked after it is saved as REOPENED, so only another CLOSED version can get in the way.

## What the proofs found

Where code and its messages or its two paths disagree, the model follows the code.

- A version reconciled with blockers can never be replaced: line 107 of `services.py` refuses a new
  version unless the last is REOPENED, and a draft with blockers admits no move. The message at
  line 170, "Reconcile the period again", asks for something line 107 forbids
  (`BlockedVersionIsStuck`, `StaleVersionIsStuck`). Both situations are reached by concrete runs.
- The batched policy lookup ignores effective dates and dated scopes. It agrees with the one-record
  resolver exactly when every assignment that only one of them considers is preceded by one that both
  consider (`PolicyAgreementIsExact`); live assignments that cover the page's dates suffice. An
  expired override otherwise changes the frozen loss of pay (`ExpiredOverrideFoolsTheBatch`).
- A scoped refresh filters on current employee fields, the resolver on the scope effective that day.
  The employee-days whose winning assignment changes unnoticed are exactly those led by a side of the
  change that reaches the employee only by the dated scope (`EscapesAreExact`); a row on such a day is
  left wrong when it no longer derives to what it holds (`IncrementalIsExact`,
  `DatedScopeEscapesTheRefresh`). Holidays follow current fields in both paths
  (`DatedScopesReachThePolicyOnly`).
- Loss of pay is not antitone in the check-out off working days; `LossOfPayOffWorkingDays` gives the
  punches for which it grows.
- A roster off step, or a weekend without a shift, is a weekly off for the schedule only; the runtime
  gives the row its missing-punch status (`WeeklyOffAgreement`, `RosterOffIsNotMarked`).
- Without the trigger, a row created inside a CLOSED period, or a reopen under an overlapping CLOSED
  version, leaves unlocked rows in a CLOSED period (`CreationSeparates`, `ReopenSeparates`). Locks are
  exact over a whole run if and only if neither happens (`LocksStayExact`), and with disjoint scopes a
  row is then locked exactly when its scope's latest version is CLOSED (`LocksFollowTheLatestVersion`).
- Resolution accepts draft and cancelled requests and does not consult the lock
  (`WhenResolveWrites`). It is safe in service runs only because submit and close are
  (`ResolveNeverWritesALockedRow`); a manual lock of a row with a pending request, and nothing else,
  makes locked rows await a correction (`LockedRowsStaySettled`, `ManualLockStrandsARequest`).
- The exact-scope half of the preview's blocking test is redundant (`SameSignatureSameKind`), and a
  first normalisation leaves gaps in the positions exactly when an entry survives after a dropped one
  (`FirstPassIsFixed`).
- The leave sweep undercounts days strictly inside a reversed interval that touches the month
  (`WhenTheCountIsRight`, `ReversedLeaveIsUndercounted`). The request service refuses such rows
  (`backend/apps/leave_management/services.py:1567`); the database does not.

## Model

| member | source | states |
|---|---|---|
| PolicyResolution.FindMatchingAssignment | backend/apps/attendance/services.py:512-541 | finds nothing exactly when no live, dated, admitting assignment exists; otherwise returns one that no other applicable assignment is before |
| PolicyResolution.ResolveWins | backend/apps/attendance/services.py:498-541 | for every table, employee, scope and date the resolved assignment is an applicable one with the least (priority, reversed signature, age), and there is one whenever any applies |
| PolicyResolution.WinnerMeaning | backend/apps/attendance/services.py:502-541 | the winner is active under an active policy, dated to include the day, for this employee or for no one in particular; nothing applicable has a smaller priority and nothing on its route is older |
| PolicyResolution.WinnerIsResolved | backend/apps/attendance/services.py:510-541 | with distinct sort keys the winner is unique, whatever order the rows come in |
| PolicyResolution.IrrelevantRow | backend/apps/attendance/services.py:512-531 | inserting or dropping an assignment that does not apply leaves the candidates unchanged, wherever it stands in the listing |
| PolicyResolution.WhomARowReaches | backend/apps/attendance/services.py:514-530 | an assignment reaches the employee it names, and naming none everyone whose six fields match every filter it has |
| PolicyResolution.NarrowerAlwaysWins | backend/apps/attendance/services.py:473-495 | at equal priority an assignment that strictly extends another's scope, or names the employee, beats it whatever their ages |
| PolicyResolution.DeeperScopeWins | backend/apps/attendance/services.py:482-495 | among organization rows of equal priority naming equally many dimensions, the one reaching a deeper dimension wins |
| PolicyResolution.MoreDimensionsWin | backend/apps/attendance/services.py:490-495 | among organization rows of equal priority the one naming more dimensions wins, whichever they are: the other is never resolved beside it |
| PolicyResolution.LargerDepthSumWins | backend/apps/attendance/services.py:491-495 | among organization rows of equal priority naming equally many dimensions equally deep, the larger sum of depths wins: the other is never resolved beside it |
| PolicyResolution.DepartmentBeatsBranch | backend/apps/attendance/services.py:482-541 | concretely, grade and department beat grade and branch on every date, whatever the policies, the ages and the listing order |
| ConflictPreview.PreviewConflicts | backend/apps/attendance/services.py:689-741 | the loop reports every overlapping active row in listing order, and blocks exactly when one of them is on the candidate's route |
| ConflictPreview.ConflictIdsList | backend/apps/attendance/services.py:692-721 | the report names every considered overlapping row, once for each, and no other |
| ConflictPreview.OverlapIsExact | backend/apps/attendance/services.py:599-633 | between organization-scoped assignments the overlap test is true exactly when some date and some possible employee scope match both |
| ConflictPreview.BlockingIsExact | backend/apps/attendance/services.py:599-633 | on one route the blocking test is exact for every kind of row, employee overrides and unknown employees included |
| ConflictPreview.PreviewIsExact | backend/apps/attendance/services.py:668-707 | the preview blocks exactly when an active row other than the edited one shares both the route and an employee-day with the candidate |
| ConflictPreview.SameSignatureSameKind | backend/apps/attendance/services.py:636-657 | equal signatures imply rows of the same kind, and an exact scope implies equal signatures, so the exact-scope half of the blocking test is redundant |
| ConflictPreview.WhatASaveStores | backend/apps/common/api_views.py:2306-2340 | a save stores the row under its id, organization filters cleared for an employee override, and keeps every other row, unless its window is reversed or an active row would share a route and an employee-day; then nothing changes |
| ConflictPreview.SaveKeepsUnambiguous | backend/apps/common/api_views.py:2306-2340 | a save through the preview keeps the table free of two active rows on one route that govern some employee-day together |
| ConflictPreview.SavesStayUnambiguous | backend/apps/common/api_views.py:2257-2360 | so does any sequence of saves, additions and edits alike, whatever the employee directory said at each one |
| ConflictPreview.WinningRouteIsUnique | backend/apps/attendance/services.py:532-541 | in an unambiguous table every employee and date has at most one applicable row with the least (priority, signature) |
| ConflictPreview.AgeNeverDecides | backend/apps/attendance/services.py:534-541 | in any table built by saves the resolved policy depends neither on created_at nor on row order: re-ageing and permuting all rows resolves to the same assignment |
| RosterConfig.SpanOf | backend/apps/attendance/services.py:403-406 | missing, falsy and unreadable spans are 7, a number is kept but never below one day |
| RosterConfig.PatternNamesRead | backend/apps/attendance/services.py:388-392 | the seven pattern names are read as themselves; custom, missing and blank mean a custom cycle |
| RosterConfig.KindsRead | backend/apps/attendance/services.py:398-400 | the word off in any case is an off step, any other or missing kind is work |
| RosterConfig.NormalFormIsUsable | backend/apps/attendance/services.py:385-449 | for any raw configuration with a shift to fall back on, the rotation is non-empty with spans of at least one day |
| RosterConfig.NormalizeTwice | backend/apps/attendance/services.py:385-449 | normalising a normal form renumbers positions from zero and changes nothing else |
| RosterConfig.NormalizeThrice | backend/apps/attendance/services.py:385-449 | from the second pass on normalising is the identity |
| RosterConfig.FirstPassIsFixed | backend/apps/attendance/services.py:393-433 | the first pass is already a fixed point exactly when an enterprise pattern supplies the entries, or no listed entry that survives comes after a dropped one |
| RosterConfig.FirstPassMayLeaveGaps | backend/apps/attendance/services.py:394-414 | a concrete configuration with a dropped first entry on which the first pass is not |
| Rotation.PickEntry | backend/apps/attendance/services.py:832-847 | the cumulative-days loop picks the entry that the fully expanded cycle holds at (date - anchor) mod cycle length |
| Rotation.ExpandedPrefix | backend/apps/attendance/services.py:841-847 | the first entry whose cumulative days pass the pointer is the one owning that day of the expanded cycle |
| Rotation.PickIsPeriodic | backend/apps/attendance/services.py:832-847 | from the anchor on, the pick repeats after one cycle length |
| Rotation.PickBeforeAnchor | backend/apps/attendance/services.py:833-847 | on and before the anchor the first entry applies |
| Rotation.SpanCounts | backend/apps/attendance/services.py:832-847 | the expanded cycle holds each entry on exactly its span_days days |
| Rotation.WindowIsRotation | backend/apps/attendance/services.py:832-847 | the picks of any cycle-long window are the expanded cycle turned to where the window starts |
| Rotation.WindowIsFair | backend/apps/attendance/services.py:832-847 | any cycle-long window on or after the anchor picks each entry on exactly its span_days days |
| Rosters.RosterForLeads | backend/apps/attendance/services.py:941-960 | the first of the stable descending sort is an applicable assignment that no other outranks, and exists whenever any applies |
| Rosters.RosterPrecedence | backend/apps/attendance/services.py:951-960 | overrides before rotations before fixed assignments; within a kind primary first, then latest start, then newest |
| Rosters.ResolveShiftFromAssignment | backend/apps/attendance/services.py:811-859 | the rotation loop yields the shift or roster-off day that the expanded cycle prescribes for the date |
| Rosters.NamedShiftsSuffice | backend/apps/attendance/services.py:835-840 | fetching only the shifts the rotation names resolves like fetching all of them |
| Rosters.AnchorMeaning | backend/apps/attendance/services.py:434-442 | the cycle starts on the configured date, given as a date or as readable text, else on the assignment's first day |
| Rosters.EnterprisePatterns | backend/apps/attendance/services.py:415-433 | whatever entries the configuration lists, an enterprise pattern rests exactly on its named days of the cycle and otherwise works the assignment's own shift |
| Rosters.ListedRotation | backend/apps/attendance/services.py:394-433 | for any other rotation, from its raw configuration: on a date whose day of the cycle falls in listed entry k's days the day is off when k is an off step, else worked on the known shift k names, or on the assignment's own |
| Rosters.EmptyRotation | backend/apps/attendance/services.py:425-433 | a rotation that lists nothing usable works the assignment's own shift every day |
| Rosters.PlainAssignment | backend/apps/attendance/services.py:812-822 | an assignment that is not a rotation works its own shift every day |
| Rosters.TwoShiftRotation | backend/apps/attendance/services.py:841-848 | concretely, of two shifts a week each from day 1 the second works day 8 and the first day 15 |
| Rosters.StoredConfigKeepsMeaning | backend/apps/attendance/services.py:811-859 | an assignment storing the normal form resolves on every date to the same shift or off day as one storing the raw configuration |
| Rollout.RosterBook.HasBlockingConflict | backend/apps/attendance/services.py:879-906 | blocks exactly when the candidate is primary and some primary assignment of the employee overlaps its window |
| Rollout.BlockedIsExact | backend/apps/attendance/services.py:862-906 | an employee is blocked exactly when the rollout is primary and one of the employee's primary assignments covers a date of its window |
| Rollout.RosterBook.Visit | backend/apps/attendance/services.py:987-1045 | one employee's turn: skipped, reported ready, or created, with the whole new table stated |
| Rollout.RosterBook.RollOut | backend/apps/attendance/services.py:976-1096 | the loop over the growing table, with items, counts and blocked flag tied to the specification of the whole rollout |
| Rollout.RolloutMeaning | backend/apps/attendance/services.py:985-1045 | over distinct employees each one's outcome and the rows added are what the table before the rollout says, although the loop checks the growing one |
| Rollout.DryRunPredicts | backend/apps/attendance/services.py:985-1045 | the dry run predicts the real run employee by employee and in its counts, created plus skipped is the target, and the dry run writes nothing |
| Rollout.RolloutKeepsPrimariesDisjoint | backend/apps/attendance/services.py:868-938 | a rollout never makes two primary assignments of one employee cover a date, even over a list that repeats an employee |
| Rollout.RepeatCreatesNothing | backend/apps/attendance/services.py:985-1045 | repeating a primary rollout over an ordered window skips every employee and leaves the table as it was, even over a list that repeats an employee |
| Rollout.RolloutKeepsTemplateMeaning | backend/apps/attendance/services.py:980-1033 | the created row is the one requested with its configuration normalised, and resolves on every date to what the template's raw configuration says |
| Derivation.CalendarPrecedence | backend/apps/attendance/services.py:1404-1433 | the calendar is always of the date's year: the policy's own if it is, else the most specific, then oldest, active one admitting the employee's current fields |
| Derivation.CalendarFilters | backend/apps/attendance/services.py:1407-1423 | a calendar is a candidate exactly when it is active, of the year, and each of its entity, branch and location filters is empty or the employee's |
| Derivation.CalendarFiltersCount | backend/apps/attendance/services.py:1424-1428 | each of the three filters counts one towards how specific a calendar is |
| Derivation.HolidayMeaning | backend/apps/attendance/services.py:1436-1440 | the day's holiday is the oldest of the date in the calendar chosen for the employee's current fields, and there is one whenever that calendar has one |
| Derivation.ScheduledShift | backend/apps/attendance/services.py:1282-1290 | a roster that applies decides the shift, the policy's default shift only when none does, alike for schedule and runtime |
| Derivation.DatedScopesReachThePolicyOnly | backend/apps/attendance/services.py:1272-1292 | an employment scope effective on a date changes a day through its policy alone; holidays and rosters follow current fields |
| Derivation.WorkingDayMeaning | backend/apps/attendance/services.py:1284-1324 | a day is a holiday exactly when one applies, and a working day exactly when none does and a resolved shift works that weekday |
| Derivation.ShiftWindow | backend/apps/attendance/services.py:1443-1449 | a shift's window starts at its start time of the date and runs to the first end time strictly after it, except that a night shift ending later than it starts runs more than a day |
| Derivation.HalfUpIsNearest | backend/apps/attendance/services.py:1475-1477 | rounded hours are within half a hundredth of the punched span, and exactly half rounds up |
| Derivation.HoursReach | backend/apps/attendance/services.py:1475-1505 | rounded hours reach a threshold exactly when the span comes within 18 seconds of it |
| Derivation.MinutesAreWhole | backend/apps/attendance/services.py:1509-1517 | late and early-exit minutes are the whole minutes from shift start and to shift end, and zero exactly within grace |
| Derivation.OvertimeIsNearest | backend/apps/attendance/services.py:1518-1523 | positive overtime is within half a hundredth of worked hours minus shift hours and threshold |
| Derivation.OnlyPunchesPay | backend/apps/attendance/services.py:1479-1526 | without an explicit status a holiday outranks a weekly off, neither pays, and pay or overtime needs two ordered punches nothing automatic overrode |
| Derivation.NothingToDerive | backend/apps/attendance/services.py:1470-1529 | without derivation the explicit status stands, with it a missing punch gives the policy's missing-punch status, and minutes and overtime come from two punches that decide |
| Derivation.PaidShareByPunches | backend/apps/attendance/services.py:1497-1526 | full day, half day, late and absent, and the payable units, characterised exactly by the raw punch span |
| Derivation.StayingLaterNeverHurts | backend/apps/attendance/services.py:1475-1526 | for a fixed check-in, hours, overtime and payable units grow with the check-out, early-exit minutes shrink, and on working days so does loss of pay |
| Derivation.ClaimsOnlyRaisePay | backend/apps/attendance/services.py:1497-1507 | a claimed status never lowers what the punches earn, and counts exactly when they fall below both thresholds with positive hours |
| Derivation.LossOfPayOffWorkingDays | backend/apps/attendance/services.py:1475-1508 | off a working day loss of pay grows with the check-out exactly when the longer punched span reaches the half-day but not the full-day hours and the shorter one does not reach the half-day hours |
| Derivation.LossOfPayCanGrowOnAHoliday | backend/apps/attendance/services.py:1604-1615 | in a concrete world whose policy does not mark holidays, ten minutes worked on a holiday cost nothing and five hours cost half a day of pay |
| Derivation.HolidaysAgree | backend/apps/attendance/services.py:1292-1316 | no day is a holiday to the runtime and not to the schedule, or the other way round |
| Derivation.WeeklyOffAgreement | backend/apps/attendance/services.py:1284-1324 | for any rules, holiday and shift on the row, exactly when the runtime's weekly-off mark agrees with the schedule's, stated on the roster step, the scheduled shift, the weekday and the marking rules; with marking on it fails only on a roster off step and on a weekend with nothing scheduled |
| Derivation.RosterOffIsNotMarked | backend/apps/attendance/services.py:1468-1491 | a concrete Tuesday rested by a six-on-one-off roster: weekly off for the schedule, unknown for the runtime |
| Derivation.RosterOffWithoutPunches | backend/apps/attendance/services.py:1290-1319 | on a roster-off step, or a weekend without a shift, a row without punches gets the missing-punch status and no units |
| Derivation.UnitsAreAWholeDayOrNothing | backend/apps/attendance/services.py:1604-1615 | payable plus loss of pay is a whole day or nothing, and pay is lost by half days and by absences on working days alone |
| Batch.PolicyAgreementIsExact | backend/apps/attendance/services.py:303-331 | over any tables with distinct sort keys, in any listing order and for any dated scope, the batched policy lookup finds what the one-record resolver finds exactly when every assignment that only one of them considers is preceded by one that both consider |
| Batch.AgreementUnderCurrentScope | backend/apps/attendance/services.py:303-331 | where the effective scope is current, that is: every live admitting assignment out of effect that day has an applicable assignment before it |
| Batch.CoveringAssignmentsSuffice | backend/apps/attendance/services.py:303-331 | current scopes and live assignments in effect on all page dates suffice for every record of the page |
| Batch.RosterAgreement | backend/apps/attendance/services.py:333-345 | on every record of a page the batched shift assignment is the one-record one |
| Batch.CalendarAgreement | backend/apps/attendance/services.py:347-363 | and so is the batched holiday calendar, for any policy and scope |
| Batch.HolidayExistence | backend/apps/attendance/services.py:1436-1440 | the one-record lookup returns the oldest holiday row of the date, whenever there is one |
| Batch.BatchAgreesWithSingle | backend/apps/attendance/services.py:1272-1324 | on every record of every page, in any listing order, policy, shift and day type agree between batch and one-record resolution exactly when the two lookups agree over the tables or are led by assignments of one policy; payroll units then agree too |
| Batch.UnitsAgreeExactly | backend/apps/attendance/services.py:1604-1615 | whatever the two leading assignments, payroll units differ between batch and one-record resolution exactly on an absence whose day one of their policies schedules as work and the other does not |
| Batch.ExpiredOverrideFoolsTheBatch | backend/apps/attendance/services.py:303-331 | an expired employee override decides the batched policy: an absence on a working day loses its loss of pay |
| Refresh.RederivedRowMeaning | backend/apps/attendance/services.py:1647-1675 | a re-derived row decided by its two punches holds their hours, minutes and overtime, and identity, source, punches, lock and flag stay |
| Refresh.RederivedFromTables | backend/apps/attendance/services.py:1648-1662 | every re-derived row shows the shift and holiday of its day and the hours of its punches, and its old status counts only if it is leave or remote work |
| Refresh.LeaveAndRemoteSurvive | backend/apps/attendance/services.py:1648-1656 | leave and remote work survive every re-derivation, and none grants either |
| Refresh.SaveChangesOnlyNewPolicies | backend/apps/common/api_views.py:2340-2360 | on an up-to-date store a save changes only rows in range that are unlocked and neither regularized nor manual, of an employee it touches, and whose day gets another policy |
| Refresh.RederiveTwice | backend/apps/attendance/services.py:1647-1675 | re-deriving a re-derived row changes nothing |
| Refresh.WhomARefreshReaches | backend/apps/attendance/services.py:1773-1810 | without a filter a refresh visits everyone's rows, else those of the employees a filter names and of everyone whose current fields match a filter naming no one |
| Refresh.WinnerChangesExactly | backend/apps/attendance/services.py:532-541 | adding, removing, changing or moving one assignment alters the winner of an employee-day exactly when its previous or its saved side applies that day and comes before every other applicable assignment |
| Refresh.EscapesAreExact | backend/apps/attendance/services.py:1782-1797 | outside the touched scopes the winner changes exactly when such a side leads that reaches the employee by the scope effective that day and not by its current fields |
| Refresh.UntouchedKeepsWinner | backend/apps/attendance/services.py:1782-1797 | an employee outside the old and the new scope keeps its winner on every day on which current fields reach whatever the effective scope does |
| Refresh.IncrementalEqualsFull | backend/apps/attendance/services.py:1766-1823 | after one assignment change on an up-to-date store, refreshing only its scopes gives exactly the store a tenant-wide refresh gives, up to date again, unless a passed-over row lies on a day a side of the change could win |
| Refresh.IncrementalIsExact | backend/apps/attendance/services.py:1766-1823 | the two stores are equal exactly when every row passed over on a day a side of the change leads still derives to what it holds |
| Refresh.CurrentScopesSuffice | backend/apps/attendance/services.py:1788-1797 | nothing escapes any change where current fields reach whatever the effective scopes do, equal scopes in particular |
| Refresh.ScopedRefreshesNeverDrift | backend/apps/common/api_views.py:2353-2360 | over any history of assignment changes, each followed only by its scoped refresh and none letting a row escape, the store always equals a tenant-wide refresh |
| Refresh.CurrentScopesNeverDrift | backend/apps/common/api_views.py:2353-2360 | so it does over every history wherever the scopes effective on the rows' dates are the current ones |
| Refresh.DatedScopeEscapesTheRefresh | backend/apps/attendance/services.py:1788-1797 | a concrete case the scoped refresh misses: a scope effective on the day differs from the employee's current fields |
| CloseSnapshot.FetchPage | backend/apps/attendance/services.py:61-66 | collects exactly the period's attendance rows |
| CloseSnapshot.PageMatchesRows | backend/apps/attendance/services.py:61-80 | the fetched page and the evidence are the same rows in the same order |
| CloseSnapshot.BuildRows | backend/apps/attendance/services.py:68-80 | one pass whose running totals equal the recursive sums over the rows built |
| CloseSnapshot.CountPending | backend/apps/attendance/services.py:81-84 | counts the pending requests about rows of the period |
| CloseSnapshot.BuildSnapshot | backend/apps/attendance/services.py:60-94 | the imperative build returns the specified snapshot, and its two payroll totals are those counted on the period's attendance rows |
| CloseSnapshot.SnapshotCoversThePeriod | backend/apps/attendance/services.py:61-80 | the evidence lists every attendance row of the period, each once, and no other |
| CloseSnapshot.RowsConserve | backend/apps/attendance/services.py:68-80 | for any rows of whole or no units, status counts sum to the row count and payable plus loss of pay to the carrying rows |
| CloseSnapshot.SnapshotConserves | backend/apps/attendance/services.py:68-94 | payable plus loss of pay is one day for each present, late, remote or half-day row and each absence on a working day, so never more than a day per row |
| CloseSnapshot.SnapshotTotals | backend/apps/attendance/services.py:72-92 | payable is a day for each present, late or remote row and half a day for each half day; loss of pay is half a day for each half day and a day for each absence on a working day |
| CloseSnapshot.SnapshotShowsTheRows | backend/apps/attendance/services.py:75-91 | each evidence row carries its record's employee, code, date and status; employees and pending requests are those of the period, counted once each |
| CloseSnapshot.ZeroBlockersMeansResolved | backend/apps/attendance/services.py:81-86 | evidence without blockers leaves no unresolved row and no pending request in the period |
| CloseSnapshot.SnapshotMatchesSingle | backend/apps/attendance/services.py:67-71 | the units frozen for a row are those of the one-record resolver wherever the two policy lookups agree over the tables |
| CloseSafety.StepIsSafe | backend/apps/attendance/services.py:97-183 | every service step keeps the safety invariants, and keeps locks exact precisely when it is not one of two separating steps |
| CloseSafety.RunIsSafe | backend/apps/attendance/services.py:97-183 | the invariants hold in every reachable state; with the write guard, locks are exact throughout |
| CloseSafety.LockedRowsAwaitNothing | backend/apps/attendance/services.py:138-173 | in every reachable state a locked row has no pending correction |
| CloseSafety.ResolveNeverWritesALockedRow | backend/apps/attendance/services.py:1932-1968 | although resolution never looks at the lock, it never writes a locked row in a reachable state |
| CloseSafety.WhenResolveWrites | backend/apps/attendance/services.py:1913-1968 | in any state whatever, approval writes the row exactly when the request is unsettled, drafts and cancelled ones included, and the guard does not refuse |
| CloseSafety.ApprovedCorrection | backend/apps/attendance/services.py:1932-1968 | approval applies the requested punches where given, keeps the others, the shift and the lock, marks the row and touches no other |
| CloseSafety.CorrectedDerives | backend/apps/attendance/services.py:1936-1952 | status, holiday, hours, overtime and minutes of a corrected row are what its new punches, the requested status and the kept shift derive to |
| CloseSafety.LockedRowsAreCovered | backend/apps/attendance/services.py:147-180 | every locked row is covered by a version currently CLOSED, in all runs, overlapping periods included |
| CloseSafety.GuardedLocksAreExact | backend/apps/attendance/migrations/0011_monthly_attendance_close.py:106-122 | with the write guard a row is locked exactly when a CLOSED version covers it, in all runs |
| CloseSafety.ClosedRowsAreResolved | backend/apps/attendance/services.py:147-173 | at the moment a version closes, no row it locks is unresolved or awaits a correction, and locking changes nothing else on it |
| CloseSafety.WhatCreationStores | backend/apps/common/api_views.py:1915-1933 | a created row is stored as given, unlocked, exactly when its day is free and no guard refuses |
| CloseSafety.WhatEnsuringAnswers | backend/apps/attendance/services.py:1679-1702 | ensuring a day answers with that employee's row of that day, changes nothing when there is one, adds an unlocked system row without punches when there is none, and refuses inactive employees by that name |
| CloseSafety.BulkEditMeaning | backend/apps/common/api_views.py:17293-17310 | a bulk edit sets one field of the selected rows and nothing else |
| CloseSafety.LockedRowsAreFrozen | backend/apps/attendance/services.py:1802-1808 | from locking until a reopen covering it, no service step changes a row in any way |
| CloseSafety.CorrectionsStick | backend/apps/attendance/services.py:1711-1720 | a regularized row keeps its corrected status, punches and hours through every service step until another correction of it is approved |
| CloseSafety.GuardPreventsSeparation | backend/apps/attendance/migrations/0011_monthly_attendance_close.py:106-122 | the guard refuses both steps that could separate locks from CLOSED periods |
| CloseSafety.GuardFreezesClosedPeriods | backend/apps/attendance/migrations/0011_monthly_attendance_close.py:106-122 | with the guard, a row in a CLOSED period is frozen until a reopen covering it whatever steps the run takes, manual bulk edits and single-row edits included, from any starting state |
| CloseSafety.ExactLocksStepByStep | backend/apps/attendance/services.py:147-180 | from a reachable state with exact locks, one service step keeps them exact if and only if it is not a creation inside a CLOSED period or a reopen under another CLOSED version |
| CloseExactness.LocksStayExact | backend/apps/attendance/services.py:147-180 | with or without the guard, over whole service runs: every state up to a point has a row locked exactly when a CLOSED version covers it, if and only if no step before it separates them |
| CloseExactness.ClosedVersionIsLatest | backend/apps/attendance/services.py:104-180 | in every reachable state a CLOSED version is the latest of its scope |
| CloseExactness.LocksFollowTheLatestVersion | backend/apps/attendance/services.py:147-180 | if scopes are pairwise disjoint and no row is created inside a CLOSED period, a row is locked exactly when its scope's latest version is CLOSED, in every state of every service run, with or without the guard |
| CloseExactness.CreationSeparates | backend/apps/attendance/services.py:1691-1702 | a concrete unguarded run of five steps without a reopen, the last creating a row, that leaves it unlocked inside a CLOSED period |
| CloseExactness.ReopenSeparates | backend/apps/attendance/services.py:174-180 | a concrete unguarded run of nine steps that creates no row, the last reopening a version, that leaves a row unlocked under an overlapping CLOSED one |
| CloseExactness.BlockedDraftIsReachable | backend/apps/attendance/services.py:107-119 | a concrete run to a draft with blockers that is the latest version of its scope |
| CloseExactness.StaleApprovalIsReachable | backend/apps/attendance/services.py:159-171 | a concrete run to an approved latest version whose evidence has changed |
| CloseSafety.BulkEditAndPendingCorrections | backend/apps/common/api_views.py:17293-17310 | a manual bulk edit breaks the rule that locked rows await nothing exactly when it locks a row with a pending correction |
| CloseSafety.EditRowAndPendingCorrections | backend/apps/common/api_views.py:1872-1912 | an edit of one row breaks it exactly when it leaves the row locked while a correction is pending |
| RequestLife.LockedRowsStaySettled | backend/apps/attendance/services.py:1837-1845 | over every run, manual edits included, no locked row awaits a correction in any state up to a point if and only if no manual edit before it leaves a row with a pending request locked |
| RequestLife.ManualLockStrandsARequest | backend/apps/common/api_views.py:17293-17310 | a concrete run, one submission and one manual lock, that ends with a locked row awaiting a correction |
| RequestLife.AtMostOnePending | backend/apps/attendance/services.py:1839-1845 | in every run, manual edits included, at most one request per row is pending |
| RequestLife.SettledRequestsStay | backend/apps/attendance/services.py:1912-1931 | in every run requests are never dropped and change in nothing but their status, and a settled request never changes again |
| RequestLife.SubmissionIsStored | backend/apps/attendance/services.py:1852-1862 | an accepted submission appends one request that carries exactly the caller's row, status, check-in, check-out and reason, and changes nothing else |
| RequestLife.WhySubmissionsAreRefused | backend/apps/attendance/services.py:1837-1850 | each refusal of a submission has its own reason, the first check that fails |
| RequestLife.SettledOnce | backend/apps/attendance/services.py:1912-1916 | settling again the same way is accepted and changes nothing, the other way is refused |
| RequestLife.SubmittedPunchesArrive | backend/apps/attendance/services.py:1852-1954 | over every run, when a submitted request is approved its row gets the punches passed to the submission where given and keeps its own where not |
| RequestLife.SubmittedPunchesAreFinal | backend/apps/attendance/services.py:1852-1954 | in a service run without another correction of the row in between, the kept ones are those the row had at the submission |
| CloseVersions.VersionsFormAChain | backend/apps/attendance/services.py:104-116 | over all runs the versions of a scope are numbered 1..n, each linked to its predecessor, all but the last REOPENED, and the code's latest is the last |
| CloseVersions.LogIsThePath | backend/apps/attendance/services.py:50-54 | every version's log is exactly reconciled followed by the path to its status, carrying one and the same evidence, and a version with blockers is a draft |
| CloseVersions.LogIsAppendOnly | backend/apps/attendance/migrations/0011_monthly_attendance_close.py:101-104 | the event log only grows at its end, and a version's scope, number, key and evidence never change |
| CloseVersions.EveryStatusChange | backend/apps/attendance/services.py:125-173 | however a step changes a version's status, it is one of the four moves, past no blockers, closing only on unchanged evidence and reopening only with a reason |
| CloseVersions.EveryStatusChangeIsLogged | backend/apps/attendance/services.py:50-54 | a status change logs one event of that version with its new status, its evidence and the reason given |
| CloseVersions.WhatReconcilingStores | backend/apps/attendance/services.py:109-119 | reconciling stores a draft of the asked scope and key with the period's evidence as it stands, logged without a reason |
| CloseVersions.WhyReconcilingIsRefused | backend/apps/attendance/services.py:102-108 | each refusal of a fresh key has its own reason, the first check that fails |
| CloseVersions.WhyTransitionsAreRefused | backend/apps/attendance/services.py:131-171 | each refusal of a transition has its own reason, the first check that fails |
| CloseVersions.ReplaysChangeNothing | backend/apps/attendance/services.py:99-101 | a replayed key, or an action whose target is reached, returns its version and changes nothing |
| CloseVersions.WhenAVersionIsAdded | backend/apps/attendance/services.py:99-118 | a scope gets a new version exactly when a fresh key asks, the entity is the tenant's, the period is ordered and the last version, if any, is REOPENED |
| CloseVersions.BlockedVersionIsStuck | backend/apps/attendance/services.py:107-139 | a version reconciled with blockers stays DRAFT for ever and its scope never gets another version |
| CloseVersions.StaleVersionIsStuck | backend/apps/attendance/services.py:107-171 | an approved version stays approved, and its scope gets no new version, for as long as its evidence differs |
| AttendanceDesk.Desk.FindKey | backend/apps/attendance/services.py:99-101 | returns the version holding the key, if any |
| AttendanceDesk.Desk.FindLatest | backend/apps/attendance/services.py:104-106 | finds a version whenever the scope has one, and none of the scope's versions has a higher number |
| AttendanceDesk.Desk.ReconcilePeriod | backend/apps/attendance/services.py:97-119 | new tables and answer are those of the committed reconcile step, refusals leaving everything unchanged |
| AttendanceDesk.Desk.TransitionClose | backend/apps/attendance/services.py:122-183 | new tables and answer are those of the committed transition step, in the code's order of checks |
| AttendanceDesk.Desk.SetLocks | backend/apps/attendance/services.py:173-178 | sets the lock of every row of the period and of no other |
| AttendanceDesk.Desk.SubmitRegularization | backend/apps/attendance/services.py:1826-1862 | appends one pending request carrying the caller's row, status, check-in, check-out and reason, or refuses and appends none, as the committed submit step |
| AttendanceDesk.Desk.ResolveRegularization | backend/apps/attendance/services.py:1903-1968 | settles the request and, on approval, corrects its row, as the committed resolve step |
| AttendanceDesk.Desk.RefreshRecord | backend/apps/attendance/services.py:1647-1675 | re-derives one selected row or is refused by the guard |
| AttendanceDesk.Desk.RefreshForScopes | backend/apps/attendance/services.py:1766-1823 | the row-by-row refresh, stopping at the first refused write |
| AttendanceDesk.Desk.EnsureDayRecord | backend/apps/attendance/services.py:1691-1702 | gets or creates one day's row, deriving only a new one |
| AttendanceDesk.Desk.EnsureRecords | backend/apps/attendance/services.py:1678-1704 | the day loop of the ensure, nothing for an inactive employee or a reversed range |
| AttendanceDesk.RefreshAlwaysCompletes | backend/apps/attendance/services.py:1766-1823 | in every reachable state the row-by-row refresh completes and leaves exactly the declarative refresh of the store |
| AttendanceDesk.EnsuredDaysExist | backend/apps/attendance/services.py:1688-1704 | a completed ensure has a row for every day of the range, leaves existing rows alone, and every row it adds is of that employee and range and up to date |
| AttendanceDesk.EnsuredRangeExists | backend/apps/attendance/services.py:1679-1704 | a completed ensure has a row for every day of the range, both ends included, and does nothing for an inactive employee or a reversed range |
| EmployeeMonth.CollectPeriods | backend/apps/common/ess_attendance.py:42-45 | the fetched closed periods tell exactly which of the employee's days in the month lie in a CLOSED period |
| EmployeeMonth.CollectPending | backend/apps/common/ess_attendance.py:46-49 | collects exactly the employee's rows of the month with a pending correction |
| EmployeeMonth.ViewDay | backend/apps/common/ess_attendance.py:51-72 | one day's lock, derivation and offer as specified |
| EmployeeMonth.BuildDays | backend/apps/common/ess_attendance.py:50-86 | one view per row of the month in date order, with locked days, worked hours and pending corrections totalled |
| EmployeeMonth.EmployeeAttendanceMonth | backend/apps/common/ess_attendance.py:33-86 | refuses a page below 1 or a size outside 1..31; otherwise the clamped page of the full day list with its flags and the summary's locked days, worked hours and pending corrections |
| EmployeeMonth.PagesConcatenate | backend/apps/common/ess_attendance.py:73-81 | the pages put end to end are the full day list, for any list and size |
| EmployeeMonth.EveryDayOnOnePage | backend/apps/common/ess_attendance.py:73-81 | each position is shown on exactly one page, and that page exists |
| EmployeeMonth.OfferIsSound | backend/apps/common/ess_attendance.py:56-70 | whenever regularization is offered, a submit with a non-blank reason is accepted in that state |
| EmployeeMonth.OfferIsExact | backend/apps/common/ess_attendance.py:52-70 | in every reachable state the offer is made exactly when such a submit is accepted and the day is not in a CLOSED period; with the guard, exactly when it is accepted |
| EmployeeMonth.DayShowsTheRow | backend/apps/common/ess_attendance.py:51-72 | a day shows its row's date and status, and the schedule's units exactly while it is open |
| EmployeeMonth.LockedDaysCounted | backend/apps/common/ess_attendance.py:83 | the locked days of the summary are the locked days shown, each once |
| EmployeeMonth.HoursAddUp | backend/apps/common/ess_attendance.py:84 | the worked hours of the summary are those of the listed rows added up |
| EmployeeMonth.WhenTheReasonMatters | backend/apps/attendance/services.py:1846-1850 | a blank reason is refused exactly where the policy asks for one and a given reason would be accepted |
| EmployeeMonth.MonthIsComplete | backend/apps/common/ess_attendance.py:39-41 | the projection misses none of the employee's rows of the month |
| EmployeeMonth.DaysStayUnique | backend/apps/attendance/services.py:1691-1699 | no step ever makes two rows of one employee and date |
| Idempotency.MutationStore.ExecuteIdempotentMutation | backend/apps/common/idempotency.py:51-113 | store, journal and response after a request are those of the specified effect, a raise restoring everything |
| Idempotency.RunIsConsistent | backend/apps/common/idempotency.py:63-113 | in every reachable state each record tells its key's whole history, and keys without a record have none |
| Idempotency.ExecutionsAreCounted | backend/apps/common/idempotency.py:79-113 | a key has run once plus once per earlier 5xx outcome, its record holds the last outcome, and no committed record is in progress |
| Idempotency.AtMostOneSettledExecution | backend/apps/common/idempotency.py:66-78 | once an execution commits below 500, no later request with the key runs the operation again, whoever sends it, whatever it carries and whenever, and the stored response never changes |
| Idempotency.WhenTheOperationRuns | backend/apps/common/idempotency.py:51-93 | a keyed request runs its operation exactly when the key is well formed and new, or held by the same requester and payload, unexpired and last answered 5xx; anything else, a raise included, changes nothing |
| Idempotency.SettledCallsReplay | backend/apps/common/idempotency.py:66-78 | over every run: once a call with a key is answered with a code below 500, every later request with the key is replayed that code and body if it comes from the first committed call's requester with its payload within its retention, and refused otherwise, each for its own reason |
| Idempotency.EverySettledKeyIsCovered | backend/apps/common/idempotency.py:82-91 | a key is stored exactly when it has a first committed call |
| Idempotency.KeylessRunsEveryTime | backend/apps/common/idempotency.py:52-53 | a request without a key runs its operation every time and stores nothing |
| LeaveCalendar.EmployeeLeaveCalendar | backend/apps/common/leave_history.py:74-85 | every array position is in bounds for any intervals, each day's running count is the net count of that day, and for ordered leaves the returned counts add up to the total clipped length |
| LeaveCalendar.OrderedLeavesCountCover | backend/apps/common/leave_history.py:76-84 | for ordered leaves each day's count is exactly the number of leaves covering it |
| LeaveCalendar.WhenTheCountIsRight | backend/apps/common/leave_history.py:76-84 | for arbitrary rows a day's count is right exactly when no reversed interval that touches the month straddles it |
| LeaveCalendar.CountsConserveLength | backend/apps/common/leave_history.py:81-84 | leaves covering each day, added up over the month, are the total length of the leaves clipped to it |
| LeaveCalendar.SweepConservesLength | backend/apps/common/leave_history.py:78-84 | the sweep's own counts never add up to more than the total clipped length, and to exactly that when and only when no reversed interval straddles a day of the month, ordered leaves in particular |
| LeaveCalendar.ReversedLeaveIsUndercounted | backend/apps/common/leave_history.py:78-84 | a concrete reversed row for which the sweep counts minus one leave on a day none covers |

## Left out

- Workflow instances, notifications, comments and timestamps of submit and resolve: calls into services that are not part of this model; only the request and row effects are kept.
- `resolve_employment_scope`: its service is not part of this model; the scope effective on a day is the table `World.scopes`, falling back to the current fields.
- Leave collisions, labels, reasons, warnings and summary text of the payloads.
- `resolve_employee_work_schedule` and the resolution previews: loops that list days already resolved here one at a time.
- `normalize_attendance_policy_config`: a policy carries its rules already in normal form.
- The HR form for one row (`api_views.py:1872-1912`) re-derives some fields before saving: `EditRow` allows any values in their place, so results about it hold for every form; creation through it is `CreateRecord`, which adds an unlocked row, followed by such an edit.
- CloseSafety.GuardFreezesClosedPeriods: deletion of attendance rows is not a step, because table positions are keys; the trigger refuses it inside a CLOSED period as it does the other writes.
- Row locks, advisory locks, savepoints and stale in-memory objects: steps are atomic and serial, and read the tables as they stand.
- PeriodClose.SubmitOutcome: the lock is read from the table at the moment of the call, where the code reads the object it was handed, so a submit racing a close is not covered.
- Time zones and daylight saving: a shift time is an offset from its date's midnight, and instants are compared on that scale.
- Month text, time-zone lookup and today's date in the employee month and the leave calendar: the first day and the length of the month are parameters.
- CloseSnapshot.BuildSnapshot: rows are listed in table order instead of employee code and date; they carry their identity and never move, and the recorded code is part of the row, so two snapshots are equal in one order exactly when they are in the other.
- SHA-256 and JSON encoding: two snapshots have the same hash exactly when they are equal, and likewise payload fingerprints.
- The width of `attempt_count`, of counters and of decimal columns: integers are unbounded.
- Idempotency.MutationStore.ExecuteIdempotentMutation: header trimming covers ASCII blanks only, the key's uniqueness is that of the map, and resource_id and completed_at are not kept.
- RosterConfig.NormalizeTwice: a rotation whose `entries` value is not a list is outside the model, and anchor text is either a readable ISO date or unreadable as a whole.
- AttendanceDesk.Desk.EnsureRecords: a range ending on the last representable date would overflow in the code after its last row; the model ends there normally.
- Deleted rows and employees, and requests filed by someone other than the row's employee: an employee owns its rows and requests.
- The roster rollout's record of itself (`ShiftRosterRollout` and its items) and the selection of its employees: the employees are a parameter, distinct as the query makes them.
- Database listing order where the code leaves it open: agreement between batch and one-record resolution is proved for every order, under distinct sort keys.
- Two tenants in one store: every query filters by tenant, so a state holds one; the idempotency store, which does not, keeps tenant and actor in its records.
- Serializers, permissions, views, admin, management commands and the user interfaces.
