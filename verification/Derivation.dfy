/** From schedule and punches to hours, status, overtime and payroll units. */
module Derivation {
  import opened Basics
  import opened Domain
  import RosterConfig
  import Rosters
  import PolicyResolution

  type ShiftAssignment = Rosters.ShiftAssignment

  /** The tenant's configuration tables. `scopes` overrides an employee's current scope on dated days. */
  datatype World = World(
    assignments: seq<Assignment>, rosters: seq<ShiftAssignment>, shifts: map<Id, Shift>,
    calendars: seq<HolidayCalendar>, staff: map<Id, Employee>, scopes: map<(Id, Date), OrgScope>)

  /** One attendance row; its table position is its primary key. */
  datatype Record = Record(
    employee: Id, date: Date, status: Status, source: Source, shift: Option<Id>, holiday: Option<Id>,
    checkIn: Option<int>, checkOut: Option<int>,
    worked: nat, overtime: nat, lateMinutes: nat, earlyMinutes: nat, regularized: bool, locked: bool)

  /** Foreign keys guarantee the row; the default stands in for the impossible case. */
  function Person(w: World, id: Id): Employee {
    if id in w.staff then w.staff[id].(id := id) else Employee(id, "", false, NO_SCOPE)
  }

  function EffectiveScope(w: World, e: Employee, d: Date): OrgScope {
    if (e.id, d) in w.scopes then w.scopes[(e.id, d)] else e.current
  }

  function AssignmentFor(w: World, e: Employee, d: Date): Option<Assignment> {
    PolicyResolution.Resolve(w.assignments, e.id, EffectiveScope(w, e, d), d)
  }

  function PolicyOf(a: Option<Assignment>): Option<Policy> {
    if a.Some? then Some(a.value.policy) else None
  }

  function PolicyFor(w: World, e: Employee, d: Date): Option<Policy> {
    PolicyOf(AssignmentFor(w, e, d))
  }

  // ---------------------------------------------------------------- holidays

  function CalendarSpecificity(c: HolidayCalendar): nat {
    PolicyResolution.One(c.legalEntity) + PolicyResolution.One(c.branch) + PolicyResolution.One(c.location)
  }

  predicate CalendarAdmits(c: HolidayCalendar, year: int, actual: OrgScope) {
    && c.active && c.year == year
    && PolicyResolution.FieldAdmits(c.legalEntity, actual.legalEntity)
    && PolicyResolution.FieldAdmits(c.branch, actual.branch)
    && PolicyResolution.FieldAdmits(c.location, actual.location)
  }

  predicate CalendarBefore(a: HolidayCalendar, b: HolidayCalendar) {
    || CalendarSpecificity(a) > CalendarSpecificity(b)
    || (CalendarSpecificity(a) == CalendarSpecificity(b) && a.createdAt < b.createdAt)
  }

  /** First of the admitted calendars that none is before. */
  function BestCalendar(rows: seq<HolidayCalendar>, year: int, actual: OrgScope): Option<HolidayCalendar> {
    if rows == [] then None
    else
      var init := BestCalendar(rows[..|rows| - 1], year, actual);
      var row := rows[|rows| - 1];
      if CalendarAdmits(row, year, actual) && (init.None? || CalendarBefore(row, init.value)) then Some(row) else init
  }

  /** What a calendar's organization filters ask of an employee's fields. */
  lemma CalendarFilters(c: HolidayCalendar, year: int, actual: OrgScope)
    ensures CalendarAdmits(c, year, actual) <==>
              && c.active && c.year == year
              && c.legalEntity in {None, actual.legalEntity} && c.branch in {None, actual.branch}
              && c.location in {None, actual.location}
  {
  }

  /** How specific a calendar is: a further filter makes it more so, and each filter counts the same. */
  lemma CalendarFiltersCount(c: HolidayCalendar)
    ensures CalendarSpecificity(c)
            == (if c.legalEntity.Some? then 1 else 0) + (if c.branch.Some? then 1 else 0)
               + (if c.location.Some? then 1 else 0)
  {
  }

  /** A policy's own calendar is used when it is for the right year, active or not. */
  function CalendarFor(
    calendars: seq<HolidayCalendar>, actual: OrgScope, d: Date, policy: Option<Policy>): Option<HolidayCalendar>
  {
    if policy.Some? && policy.value.calendar.Some?
       && policy.value.calendar.value.year == Year(d) then policy.value.calendar
    else BestCalendar(calendars, Year(d), actual)
  }

  lemma {:induction false} BestCalendarIsFirst(rows: seq<HolidayCalendar>, year: int, actual: OrgScope)
    ensures var r := BestCalendar(rows, year, actual);
            && (r.None? <==> forall c :: c in rows ==> !CalendarAdmits(c, year, actual))
            && (r.Some? ==> r.value in rows && CalendarAdmits(r.value, year, actual))
            && (r.Some? ==> forall c :: c in rows && CalendarAdmits(c, year, actual) ==> !CalendarBefore(c, r.value))
  {
    if rows != [] {
      BestCalendarIsFirst(rows[..|rows| - 1], year, actual);
      assert rows == rows[..|rows| - 1] + [rows[|rows| - 1]];
    }
  }

  /**
   The holiday calendar is always one for the date's year: the policy's own if it is for that
   year, else the most specific active one admitting the employee's current organization.
   */
  lemma CalendarPrecedence(calendars: seq<HolidayCalendar>, actual: OrgScope, d: Date, policy: Option<Policy>)
    ensures var r := CalendarFor(calendars, actual, d, policy);
            && (r.Some? ==> r.value.year == Year(d))
            && (policy.Some? && policy.value.calendar.Some? && policy.value.calendar.value.year == Year(d) ==>
                 r == policy.value.calendar)
            && (r.Some? && r != PolicyCalendar(policy) ==>
                 && r.value in calendars && r.value.active
                 && forall c :: c in calendars && CalendarAdmits(c, Year(d), actual) ==>
                      && CalendarSpecificity(c) <= CalendarSpecificity(r.value)
                      && (CalendarSpecificity(c) == CalendarSpecificity(r.value) ==> r.value.createdAt <= c.createdAt))
  {
    BestCalendarIsFirst(calendars, Year(d), actual);
  }

  function PolicyCalendar(policy: Option<Policy>): Option<HolidayCalendar> {
    if policy.Some? then policy.value.calendar else None
  }

  /** Oldest holiday row of the date. */
  function OldestHoliday(rows: seq<HolidayRow>, d: Date): Option<HolidayRow> {
    if rows == [] then None
    else
      var init := OldestHoliday(rows[..|rows| - 1], d);
      var row := rows[|rows| - 1];
      if row.date == d && (init.None? || row.createdAt < init.value.createdAt) then Some(row) else init
  }

  function HolidayFor(w: World, e: Employee, d: Date, policy: Option<Policy>): Option<HolidayRow> {
    var calendar := CalendarFor(w.calendars, e.current, d, policy);
    if calendar.Some? then OldestHoliday(calendar.value.holidays, d) else None
  }

  // ----------------------------------------------------------- work-day spine

  datatype DayType = HolidayDay | WeeklyOffDay | WorkingDay | Unassigned

  datatype WorkDay = WorkDay(policy: Option<Policy>, roster: Option<ShiftAssignment>, shift: Option<Shift>,
    kind: DayType)

  predicate IsWeekend(d: Date) {
    Weekday(d) in {SATURDAY, SUNDAY}
  }

  predicate ShiftRests(shift: Option<Shift>, d: Date) {
    shift.Some? && Weekday(d) in shift.value.weeklyOff
  }

  /** A shift's own rest days, or the weekend when there is no shift. */
  predicate IsWeeklyOff(shift: Option<Shift>, d: Date) {
    ShiftRests(shift, d) || (shift.None? && IsWeekend(d))
  }

  /** The day type from its ingredients: holiday first, then roster off, weekly off, working day. */
  function DayTypeOf(holiday: bool, rosterOff: bool, shift: Option<Shift>, d: Date): DayType {
    if holiday then HolidayDay
    else if rosterOff || IsWeeklyOff(shift, d) then WeeklyOffDay
    else if shift.Some? then WorkingDay
    else Unassigned
  }

  function DefaultShift(policy: Option<Policy>): Option<Shift> {
    if policy.Some? then policy.value.defaultShift else None
  }

  /** One employee-day, resolved row by row from the tables. */
  function ResolveWorkDay(w: World, e: Employee, d: Date): WorkDay {
    var policy := PolicyFor(w, e, d);
    var roster := Rosters.RosterFor(w.rosters, e.id, d);
    var resolved :=
      if roster.Some? then Rosters.ResolveShift(roster.value, d, Rosters.NamedShifts(roster.value, w.shifts))
      else Rosters.Resolved(DefaultShift(policy), false);
    WorkDay(policy, roster, resolved.shift,
      DayTypeOf(HolidayFor(w, e, d, policy).Some?, resolved.rosterOff, resolved.shift, d))
  }

  /** The shift the runtime evaluation falls back on: the roster's, else the policy default. */
  function ShiftFor(w: World, e: Employee, d: Date, policy: Option<Policy>): Option<Shift> {
    var roster := Rosters.RosterFor(w.rosters, e.id, d);
    if roster.Some? then Rosters.ResolveShift(roster.value, d, Rosters.NamedShifts(roster.value, w.shifts)).shift
    else DefaultShift(policy)
  }

  // ------------------------------------------------------- derivation arithmetic

  /** Hundredths of an hour in `span` microseconds, rounded half up. */
  function HalfUpHours(span: nat): nat {
    (span + 18000000) / 36000000
  }

  function WorkedHours(checkIn: Option<int>, checkOut: Option<int>): nat {
    if checkIn.Some? && checkOut.Some? && checkOut.value > checkIn.value
    then HalfUpHours(checkOut.value - checkIn.value) else 0
  }

  function ShiftStart(shift: Shift, d: Date): int {
    d * DAY + shift.startTime
  }

  /** A night shift, or one that ends no later than it starts, ends on the next day. */
  function ShiftEnd(shift: Shift, d: Date): int {
    (if shift.night || shift.endTime <= shift.startTime then d + 1 else d) * DAY + shift.endTime
  }

  function AtLeastZero(x: int): nat {
    if x < 0 then 0 else x
  }

  function LateMinutes(shift: Shift, d: Date, checkIn: int): nat {
    if checkIn > ShiftStart(shift, d) + shift.graceIn * MINUTE
    then AtLeastZero((checkIn - ShiftStart(shift, d)) / MINUTE) else 0
  }

  function EarlyMinutes(shift: Shift, d: Date, checkOut: int): nat {
    if checkOut < ShiftEnd(shift, d) - shift.graceOut * MINUTE
    then AtLeastZero((ShiftEnd(shift, d) - checkOut) / MINUTE) else 0
  }

  /**
   Worked hours over `shiftHours` plus `threshold` minutes, rounded half up. A minute is 5/3
   hundredths, so everything is scaled by three; no half-way case arises.
   */
  function OvertimeHours(worked: nat, shiftHours: nat, threshold: nat): nat {
    if 3 * worked > 3 * shiftHours + 5 * threshold
    then (6 * worked - 6 * shiftHours - 10 * threshold + 3) / 6 else 0
  }

  function RulesOf(policy: Option<Policy>): DerivationRules {
    if policy.Some? then policy.value.rules else DEFAULT_RULES
  }

  function MissingStatus(rules: DerivationRules): Status {
    if rules.missingPunch.MissingIsAbsent? then Absent else Unknown
  }

  /** Status of a day with both punches, before the late rule. */
  function PunchedStatus(worked: nat, fullDay: nat, halfDay: nat, explicit: Option<Status>): Status {
    if fullDay > 0 && worked >= fullDay then Present
    else if halfDay > 0 && worked >= halfDay then HalfDay
    else if explicit.Some? && explicit.value in {Present, HalfDay, Late} && worked > 0 then
      if explicit.value.HalfDay? then HalfDay else Present
    else Absent
  }

  datatype Runtime = Runtime(
    status: Status, shift: Option<Id>, holiday: Option<Id>, worked: nat, overtime: nat, late: nat, early: nat)

  /** The evaluation once policy, shift and holiday are known. */
  function Evaluate(
    d: Date, checkIn: Option<int>, checkOut: Option<int>, explicit: Option<Status>,
    policy: Option<Policy>, shift: Option<Shift>, holiday: Option<HolidayRow>): Runtime
  {
    var rules := RulesOf(policy);
    var worked := WorkedHours(checkIn, checkOut);
    var shiftId := if shift.Some? then Some(shift.value.id) else None;
    var holidayId := if holiday.Some? then Some(holiday.value.id) else None;
    if !rules.enabled then
      Runtime(if explicit.Some? then explicit.value else Unknown, shiftId, holidayId, worked, 0, 0, 0)
    else if explicit == Some(Remote) || explicit == Some(OnLeave) then
      Runtime(explicit.value, shiftId, holidayId, worked, 0, 0, 0)
    else if rules.autoHoliday && holiday.Some? then
      Runtime(Holiday, shiftId, holidayId, worked, 0, 0, 0)
    else if rules.autoWeeklyOff && ShiftRests(shift, d) then
      Runtime(WeeklyOff, shiftId, holidayId, worked, 0, 0, 0)
    else if checkIn.None? || checkOut.None? then
      Runtime(MissingStatus(rules), shiftId, holidayId, worked, 0, 0, 0)
    else
      var status := PunchedStatus(worked, if policy.Some? then policy.value.fullDay else 0,
        if policy.Some? then policy.value.halfDay else 0, explicit);
      if shift.None? || shift.value.flexible then
        Runtime(status, shiftId, holidayId, worked, 0, 0, 0)
      else
        var late := LateMinutes(shift.value, d, checkIn.value);
        var early := EarlyMinutes(shift.value, d, checkOut.value);
        var threshold := if policy.Some? then policy.value.overtimeThreshold else 0;
        var overtime := if rules.deriveOvertime then OvertimeHours(worked, shift.value.workingHours, threshold) else 0;
        Runtime(if late > 0 && rules.lateStatus && status.Present? then Late else status,
          shiftId, holidayId, worked, overtime, late, early)
  }

  function ShiftById(w: World, id: Option<Id>): Option<Shift> {
    if id.Some? && id.value in w.shifts then Some(w.shifts[id.value]) else None
  }

  /** Evaluation of an employee-day; `known` is the shift already on the row, if any. */
  function EvaluateRuntime(
    w: World, e: Employee, d: Date, checkIn: Option<int>, checkOut: Option<int>,
    explicit: Option<Status>, known: Option<Shift>): Runtime
  {
    var policy := PolicyFor(w, e, d);
    var shift := if known.Some? then known else ShiftFor(w, e, d, policy);
    Evaluate(d, checkIn, checkOut, explicit, policy, shift, HolidayFor(w, e, d, policy))
  }

  // ----------------------------------------------------------- payroll units

  datatype Units = Units(payable: nat, lop: nat)

  /** Payable and loss-of-pay units in hundredths of a day. */
  function PayrollUnits(status: Status, day: DayType): Units {
    match status
    case Present => Units(100, 0)
    case Late => Units(100, 0)
    case Remote => Units(100, 0)
    case HalfDay => Units(50, 50)
    case Absent => Units(0, if day.WorkingDay? then 100 else 0)
    case _ => Units(0, 0)
  }

  // ------------------------------------------------------------------ lemmas

  /** Half-up rounding is within half a hundredth, and exactly half is rounded up. */
  lemma HalfUpIsNearest(span: nat)
    ensures var h := HalfUpHours(span);
            -18000000 < 36000000 * h - span <= 18000000
  {
  }

  lemma WorkedMonotone(checkIn: int, early: int, late: int)
    requires early <= late
    ensures WorkedHours(Some(checkIn), Some(early)) <= WorkedHours(Some(checkIn), Some(late))
  {
  }

  lemma EarlyAntitone(shift: Shift, d: Date, early: int, late: int)
    requires early <= late
    ensures EarlyMinutes(shift, d, late) <= EarlyMinutes(shift, d, early)
  {
  }

  lemma OvertimeMonotone(less: nat, more: nat, shiftHours: nat, threshold: nat)
    requires less <= more
    ensures OvertimeHours(less, shiftHours, threshold) <= OvertimeHours(more, shiftHours, threshold)
  {
  }

  /** Positive overtime is within half a hundredth of worked hours minus the threshold. */
  lemma OvertimeIsNearest(worked: nat, shiftHours: nat, threshold: nat)
    ensures var o := OvertimeHours(worked, shiftHours, threshold);
            && (3 * worked > 3 * shiftHours + 5 * threshold ==>
                 -3 <= 6 * o - (6 * worked - 6 * shiftHours - 10 * threshold) <= 3)
            && (o > 0 ==> 3 * worked > 3 * shiftHours + 5 * threshold)
  {
  }

  /** Late minutes are the whole minutes since the shift start, and none within grace; early exit mirrors them. */
  lemma MinutesAreWhole(shift: Shift, d: Date, t: int)
    ensures var late := LateMinutes(shift, d, t);
            && (t <= ShiftStart(shift, d) + shift.graceIn * MINUTE ==> late == 0)
            && (t > ShiftStart(shift, d) + shift.graceIn * MINUTE ==>
                 late * MINUTE <= t - ShiftStart(shift, d) < (late + 1) * MINUTE)
    ensures var early := EarlyMinutes(shift, d, t);
            && (t >= ShiftEnd(shift, d) - shift.graceOut * MINUTE ==> early == 0)
            && (t < ShiftEnd(shift, d) - shift.graceOut * MINUTE ==>
                 early * MINUTE <= ShiftEnd(shift, d) - t < (early + 1) * MINUTE)
  {
  }

  /** Rounded hours reach a threshold exactly when the span comes within half a hundredth (18 s) of it. */
  lemma HoursReach(checkIn: int, checkOut: int, threshold: nat)
    requires threshold > 0
    ensures WorkedHours(Some(checkIn), Some(checkOut)) >= threshold <==>
              checkOut - checkIn >= 36000000 * threshold - 18000000
  {
  }

  /** With derivation on, no explicit status and no automatic holiday or weekly off, the punches decide. */
  predicate PunchesDecide(d: Date, policy: Option<Policy>, shift: Option<Shift>, holiday: Option<HolidayRow>) {
    && RulesOf(policy).enabled
    && !(RulesOf(policy).autoHoliday && holiday.Some?)
    && !(RulesOf(policy).autoWeeklyOff && ShiftRests(shift, d))
  }

  /**
   The punched span comes within half a hundredth of `hours`, so its rounded hours reach them; no hours
   are never reached.
   */
  predicate Reaches(span: int, hours: nat) {
    hours > 0 && span >= 36000000 * hours - 18000000
  }

  /**
   The paid share of a day, in terms of the raw punches: a full day exactly when the span comes
   within 18 seconds of the full-day hours, else half a day exactly when it does so for the half-day hours.
   */
  lemma PaidShareByPunches(
    d: Date, checkIn: int, checkOut: int, policy: Policy, shift: Option<Shift>, holiday: Option<HolidayRow>,
      day: DayType)
    requires PunchesDecide(d, Some(policy), shift, holiday)
    ensures var run := Evaluate(d, Some(checkIn), Some(checkOut), None, Some(policy), shift, holiday);
            var full, half := Reaches(checkOut - checkIn, policy.fullDay), Reaches(checkOut - checkIn, policy.halfDay);
            && (run.status.Present? || run.status.Late? <==> full)
            && (run.status.Late? <==> full && policy.rules.lateStatus && run.late > 0)
            && (run.status.HalfDay? <==> half && !full)
            && (run.status.Absent? <==> !half && !full)
            && PayrollUnits(run.status, day).payable == if full then 100 else if half then 50 else 0
  {
    if policy.fullDay > 0 {
      HoursReach(checkIn, checkOut, policy.fullDay);
    }
    if policy.halfDay > 0 {
      HoursReach(checkIn, checkOut, policy.halfDay);
    }
  }

  /**
   Staying later never hurts: for a fixed check-in, payable units and overtime grow with the
   check-out, early-exit minutes shrink, and on a working day so does loss of pay.
   */
  lemma StayingLaterNeverHurts(
    d: Date, checkIn: int, early: int, late: int,
    policy: Option<Policy>, shift: Option<Shift>, holiday: Option<HolidayRow>, day: DayType)
    requires PunchesDecide(d, policy, shift, holiday)
    requires early <= late
    ensures var a := Evaluate(d, Some(checkIn), Some(early), None, policy, shift, holiday);
            var b := Evaluate(d, Some(checkIn), Some(late), None, policy, shift, holiday);
            && a.worked <= b.worked && a.overtime <= b.overtime && b.early <= a.early && a.late == b.late
            && PayrollUnits(a.status, day).payable <= PayrollUnits(b.status, day).payable
            && (day.WorkingDay? ==> PayrollUnits(b.status, day).lop <= PayrollUnits(a.status, day).lop)
  {
    hide Weekday, LateMinutes;
    WorkedMonotone(checkIn, early, late);
    if shift.Some? && !shift.value.flexible {
      EarlyAntitone(shift.value, d, early, late);
      OvertimeMonotone(WorkedHours(Some(checkIn), Some(early)), WorkedHours(Some(checkIn), Some(late)),
        shift.value.workingHours, if policy.Some? then policy.value.overtimeThreshold else 0);
    }
  }

  /**
   A claimed status other than leave or remote work never lowers what the punches earn. It counts
   only below both thresholds, for positive hours, and then a half day stays half a day.
   */
  lemma ClaimsOnlyRaisePay(
    d: Date, checkIn: Option<int>, checkOut: Option<int>, claim: Status, policy: Option<Policy>, shift: Option<Shift>,
    holiday: Option<HolidayRow>, day: DayType)
    requires PunchesDecide(d, policy, shift, holiday) && claim !in {Remote, OnLeave}
    ensures var plain := Evaluate(d, checkIn, checkOut, None, policy, shift, holiday);
            var claimed := Evaluate(d, checkIn, checkOut, Some(claim), policy, shift, holiday);
            var heard := checkIn.Some? && checkOut.Some? && plain.status.Absent? && plain.worked > 0
                         && claim in {Present, HalfDay, Late};
            && PayrollUnits(plain.status, day).payable <= PayrollUnits(claimed.status, day).payable
            && claimed.(status := plain.status) == plain
            && (claimed.status != plain.status <==> heard)
            && (heard ==> PayrollUnits(claimed.status, day).payable == if claim.HalfDay? then 50 else 100)
  {
  }

  /**
   Off a working day loss of pay grows with the check-out exactly when the longer stay reaches the
   half-day hours but not the full-day hours, and the shorter one did not reach the half-day hours.
   */
  lemma LossOfPayOffWorkingDays(
    d: Date, checkIn: int, early: int, late: int,
    policy: Policy, shift: Option<Shift>, holiday: Option<HolidayRow>, day: DayType)
    requires PunchesDecide(d, Some(policy), shift, holiday)
    requires early <= late && !day.WorkingDay?
    ensures var a := Evaluate(d, Some(checkIn), Some(early), None, Some(policy), shift, holiday);
            var b := Evaluate(d, Some(checkIn), Some(late), None, Some(policy), shift, holiday);
            PayrollUnits(b.status, day).lop > PayrollUnits(a.status, day).lop <==>
              && !Reaches(early - checkIn, policy.halfDay)
              && Reaches(late - checkIn, policy.halfDay) && !Reaches(late - checkIn, policy.fullDay)
  {
    PaidShareByPunches(d, checkIn, early, policy, shift, holiday, day);
    PaidShareByPunches(d, checkIn, late, policy, shift, holiday, day);
  }

  const FOUNDING_DAY := HolidayRow(1, 16, 0)
  const FIRST_YEAR := HolidayCalendar(1, 1, true, None, None, None, 0, [FOUNDING_DAY])
  const UNMARKED_HOLIDAYS := Policy(2, true, None, Some(FIRST_YEAR), 800, 400, 0, true, false,
    DEFAULT_RULES.(enabled := true, autoHoliday := false))
  const UNMARKED_FOR_ALL := Assignment(2, UNMARKED_HOLIDAYS, None, NO_SCOPE, 100, true, None, None, 0)
  const HOLIDAY_WORLD := World([UNMARKED_FOR_ALL], [], map[], [], map[7 := SAMPLE_EMPLOYEE], map[])

  lemma OnlyHoliday(h: HolidayRow)
    ensures OldestHoliday([h], h.date) == Some(h)
  {
    assert [h][..0] == [];
  }

  lemma SampleHoliday()
    ensures PolicyFor(HOLIDAY_WORLD, SAMPLE_EMPLOYEE, 16) == Some(UNMARKED_HOLIDAYS)
    ensures HolidayFor(HOLIDAY_WORLD, SAMPLE_EMPLOYEE, 16, Some(UNMARKED_HOLIDAYS)) == Some(FOUNDING_DAY)
    ensures ResolveWorkDay(HOLIDAY_WORLD, SAMPLE_EMPLOYEE, 16).kind == HolidayDay
    ensures ShiftFor(HOLIDAY_WORLD, SAMPLE_EMPLOYEE, 16, Some(UNMARKED_HOLIDAYS)) == None
  {
    var w := HOLIDAY_WORLD;
    PolicyResolution.ResolveWins(w.assignments, 7, NO_SCOPE, 16);
    assert UNMARKED_FOR_ALL in w.assignments && PolicyResolution.Applies(UNMARKED_FOR_ALL, 7, NO_SCOPE, 16);
    assert AssignmentFor(w, SAMPLE_EMPLOYEE, 16) == Some(UNMARKED_FOR_ALL);
    assert Year(16) == 1 && CalendarFor([], NO_SCOPE, 16, Some(UNMARKED_HOLIDAYS)) == Some(FIRST_YEAR);
    OnlyHoliday(FOUNDING_DAY);
    assert Rosters.AppliedRows([], 7, 16) == [];
  }

  /**
   A holiday worked under a policy that does not mark holidays: ten minutes cost nothing, and
   staying for five hours costs half a day of pay.
   */
  lemma LossOfPayCanGrowOnAHoliday()
    ensures var w, e := HOLIDAY_WORLD, SAMPLE_EMPLOYEE;
            var day := ResolveWorkDay(w, e, 16).kind;
            var a := EvaluateRuntime(w, e, 16, Some(0), Some(10 * MINUTE), None, None);
            var b := EvaluateRuntime(w, e, 16, Some(0), Some(300 * MINUTE), None, None);
            && day == HolidayDay
            && PayrollUnits(a.status, day) == Units(0, 0)
            && PayrollUnits(b.status, day) == Units(50, 50)
  {
    SampleHoliday();
    hide PolicyFor, HolidayFor, ShiftFor, ResolveWorkDay;
    PaidShareByPunches(16, 0, 10 * MINUTE, UNMARKED_HOLIDAYS, None, Some(FOUNDING_DAY), HolidayDay);
    PaidShareByPunches(16, 0, 300 * MINUTE, UNMARKED_HOLIDAYS, None, Some(FOUNDING_DAY), HolidayDay);
  }

  /** The day's holiday is the oldest of the date in the calendar chosen for the employee's current fields. */
  lemma HolidayMeaning(w: World, e: Employee, d: Date, policy: Option<Policy>)
    ensures var chosen := CalendarFor(w.calendars, e.current, d, policy);
            var h := HolidayFor(w, e, d, policy);
            && (h.Some? ==>
                 && chosen.Some? && h.value in chosen.value.holidays && h.value.date == d
                 && forall x :: x in chosen.value.holidays && x.date == d ==> h.value.createdAt <= x.createdAt)
            && (h.None? && chosen.Some? ==> forall x :: x in chosen.value.holidays ==> x.date != d)
  {
    var chosen := CalendarFor(w.calendars, e.current, d, policy);
    if chosen.Some? {
      OldestOfDate(chosen.value.holidays, d);
    }
  }

  lemma {:induction false} OldestOfDate(rows: seq<HolidayRow>, d: Date)
    ensures var r := OldestHoliday(rows, d);
            && (r.None? <==> forall h :: h in rows ==> h.date != d)
            && (r.Some? ==>
                 && r.value in rows && r.value.date == d
                 && forall h :: h in rows && h.date == d ==> r.value.createdAt <= h.createdAt)
  {
    if rows != [] {
      OldestOfDate(rows[..|rows| - 1], d);
      assert rows == rows[..|rows| - 1] + [rows[|rows| - 1]];
    }
  }

  /**
   Without derivation the explicit status stands, or unknown; with it, a missing punch gives the
   policy's missing-punch status. Neither computes minutes or overtime.
   */
  lemma NothingToDerive(
    d: Date, checkIn: Option<int>, checkOut: Option<int>, explicit: Option<Status>,
    policy: Option<Policy>, shift: Option<Shift>, holiday: Option<HolidayRow>)
    ensures var run := Evaluate(d, checkIn, checkOut, explicit, policy, shift, holiday);
            && run.worked == WorkedHours(checkIn, checkOut)
            && (!RulesOf(policy).enabled ==> run.status == if explicit.Some? then explicit.value else Unknown)
            && (PunchesDecide(d, policy, shift, holiday) && explicit.None? && (checkIn.None? || checkOut.None?) ==>
                 run.status == if policy.value.rules.missingPunch.MissingIsAbsent? then Absent else Unknown)
            && (run.late > 0 || run.early > 0 || run.overtime > 0 ==>
                 && PunchesDecide(d, policy, shift, holiday) && checkIn.Some? && checkOut.Some?
                 && explicit !in {Some(Remote), Some(OnLeave)})
            && (run.overtime > 0 ==> policy.value.rules.deriveOvertime)
  {
  }

  /** What is worked on a day: the roster's shift where a roster applies, the policy's default shift otherwise. */
  lemma ScheduledShift(w: World, e: Employee, d: Date)
    ensures var day := ResolveWorkDay(w, e, d);
            && day.policy == PolicyFor(w, e, d)
            && day.roster == Rosters.RosterFor(w.rosters, e.id, d)
            && day.shift == ShiftFor(w, e, d, day.policy)
            && (day.roster.Some? ==> day.shift == Rosters.ResolveShift(day.roster.value, d, w.shifts).shift)
            && (day.roster.None? ==> day.shift == (if day.policy.Some? then day.policy.value.defaultShift else None))
  {
    var roster := Rosters.RosterFor(w.rosters, e.id, d);
    if roster.Some? {
      Rosters.NamedShiftsSuffice(roster.value, d, w.shifts);
    }
    hide Rosters.ResolveShift, Rosters.NamedShifts, Rosters.RosterFor, PolicyFor, HolidayFor;
  }

  /** The runtime and the schedule look holidays up alike: no day is a holiday to one of them only. */
  lemma HolidaysAgree(w: World, e: Employee, d: Date)
    ensures HolidayFor(w, e, d, PolicyFor(w, e, d)).Some? <==> ResolveWorkDay(w, e, d).kind.HolidayDay?
  {
  }

  /** The employee's roster puts an off step on the day. */
  predicate RosterRests(w: World, e: Employee, d: Date) {
    var roster := Rosters.RosterFor(w.rosters, e.id, d);
    roster.Some? && Rosters.RestsOn(roster.value, d)
  }

  /** Neither a roster nor a default shift of the policy speaks for the day. */
  predicate NothingScheduled(w: World, e: Employee, d: Date) {
    Rosters.RosterFor(w.rosters, e.id, d).None? && DefaultShift(PolicyFor(w, e, d)).None?
  }

  /**
   When the runtime's weekly-off mark and the schedule spine's agree, without an explicit status and
   for any rules, holiday and shift already on the row. On a holiday: unless the runtime marks the
   weekly off because holidays are not marked. On another day: exactly when automatic marking with
   the shift in use says what the roster step, the scheduled shift or the bare weekend says. With
   marking on and no shift on the row that leaves two disagreements, a roster off step and a
   weekend with nothing scheduled.
   */
  lemma WeeklyOffAgreement(
    w: World, e: Employee, d: Date, checkIn: Option<int>, checkOut: Option<int>, known: Option<Shift>)
    ensures var policy := PolicyFor(w, e, d);
            var rules, scheduled := RulesOf(policy), ShiftFor(w, e, d, policy);
            var used := if known.Some? then known else scheduled;
            var marked := rules.enabled && rules.autoWeeklyOff && ShiftRests(used, d);
            var agree := EvaluateRuntime(w, e, d, checkIn, checkOut, None, known).status.WeeklyOff?
                         == ResolveWorkDay(w, e, d).kind.WeeklyOffDay?;
            && (HolidayFor(w, e, d, policy).Some? ==> (agree <==> !marked || rules.autoHoliday))
            && (HolidayFor(w, e, d, policy).None? ==>
                 var shiftless := NothingScheduled(w, e, d) && IsWeekend(d);
                 var rests := RosterRests(w, e, d) || ShiftRests(scheduled, d) || shiftless;
                 (agree <==> (marked <==> rests)))
            && (HolidayFor(w, e, d, policy).None? && rules.enabled && rules.autoWeeklyOff && known.None? ==>
                 (agree <==> !RosterRests(w, e, d) && !(NothingScheduled(w, e, d) && IsWeekend(d))))
  {
    var roster := Rosters.RosterFor(w.rosters, e.id, d);
    if roster.Some? {
      RestingRoster(roster.value, d, Rosters.NamedShifts(roster.value, w.shifts));
    }
    hide Rosters.ResolveShift, Rosters.NamedShifts, Rosters.RestsOn, Rosters.RosterFor, PolicyFor, HolidayFor;
  }

  /** A roster resolves to no shift, and to a roster off day, exactly on its off steps. */
  lemma RestingRoster(a: ShiftAssignment, d: Date, shifts: map<Id, Shift>)
    ensures var r := Rosters.ResolveShift(a, d, shifts);
            (r.rosterOff <==> Rosters.RestsOn(a, d)) && (r.shift.None? <==> Rosters.RestsOn(a, d))
  {
  }

  const SAMPLE_SHIFT := Shift(1, 0, 1, 800, 0, 0, false, false, {})
  const SAMPLE_ROSTER := Rosters.ShiftAssignment(1, 7, SAMPLE_SHIFT, Rosters.WeeklyRotation, 3, None, true, 0,
    RosterConfig.RawConfig(Some("six_on_one_off"), RosterConfig.AnchorMissing, []))
  const DERIVING := Policy(1, true, None, None, 0, 0, 0, true, false, DEFAULT_RULES.(enabled := true))
  const DERIVING_FOR_ALL := Assignment(1, DERIVING, None, NO_SCOPE, 100, true, None, None, 0)
  const SAMPLE_EMPLOYEE := Employee(7, "E7", true, NO_SCOPE)
  const ROSTERED_WORLD :=
    World([DERIVING_FOR_ALL], [SAMPLE_ROSTER], map[1 := SAMPLE_SHIFT], [], map[7 := SAMPLE_EMPLOYEE], map[])

  lemma SampleRosterRests()
    ensures Rosters.RestsOn(SAMPLE_ROSTER, 9)
  {
    RosterConfig.PatternRoundTrip(RosterConfig.SixOnOneOff);
    Rosters.EnterprisePatterns(SAMPLE_ROSTER, 9, map[]);
    Rosters.AnchorMeaning(SAMPLE_ROSTER);
    RestingRoster(SAMPLE_ROSTER, 9, map[]);
  }

  lemma SampleRosterFound()
    ensures Rosters.RosterFor(ROSTERED_WORLD.rosters, 7, 9) == Some(SAMPLE_ROSTER)
  {
    Rosters.RosterForLeads(ROSTERED_WORLD.rosters, 7, 9);
    assert SAMPLE_ROSTER in ROSTERED_WORLD.rosters && Rosters.AppliesTo(SAMPLE_ROSTER, 7, 9);
  }

  lemma SampleDerives()
    ensures PolicyFor(ROSTERED_WORLD, SAMPLE_EMPLOYEE, 9) == Some(DERIVING)
    ensures HolidayFor(ROSTERED_WORLD, SAMPLE_EMPLOYEE, 9, Some(DERIVING)).None?
  {
    var w := ROSTERED_WORLD;
    PolicyResolution.ResolveWins(w.assignments, 7, NO_SCOPE, 9);
    assert DERIVING_FOR_ALL in w.assignments && PolicyResolution.Applies(DERIVING_FOR_ALL, 7, NO_SCOPE, 9);
    assert AssignmentFor(w, SAMPLE_EMPLOYEE, 9) == Some(DERIVING_FOR_ALL);
  }

  /** A Tuesday that a six-on-one-off roster rests: the schedule says weekly off, the runtime leaves the row unknown. */
  lemma RosterOffIsNotMarked()
    ensures ResolveWorkDay(ROSTERED_WORLD, SAMPLE_EMPLOYEE, 9).kind == WeeklyOffDay
    ensures EvaluateRuntime(ROSTERED_WORLD, SAMPLE_EMPLOYEE, 9, None, None, None, None).status == Unknown
  {
    SampleRosterRests();
    SampleRosterFound();
    SampleDerives();
    RestingRoster(SAMPLE_ROSTER, 9, Rosters.NamedShifts(SAMPLE_ROSTER, ROSTERED_WORLD.shifts));
    hide Rosters.ResolveShift, Rosters.NamedShifts, Rosters.RestsOn, Rosters.RosterFor, PolicyFor, HolidayFor;
  }

  /**
   On a roster off step, or a weekend without a shift, a row without punches therefore gets the
   missing-punch status.
   */
  lemma RosterOffWithoutPunches(w: World, e: Employee, d: Date)
    requires RulesOf(PolicyFor(w, e, d)).enabled
    ensures var day := ResolveWorkDay(w, e, d);
            var status := EvaluateRuntime(w, e, d, None, None, None, None).status;
            day.kind.WeeklyOffDay? && day.shift.None? ==>
              status == MissingStatus(RulesOf(PolicyFor(w, e, d))) && PayrollUnits(status, day.kind) == Units(0, 0)
  {
  }

  /**
   A dated employment scope reaches a day through its policy alone: holidays and rosters follow
   the employee's current fields, so two histories with the same scope that day agree on the whole day.
   */
  lemma DatedScopesReachThePolicyOnly(w: World, scopes: map<(Id, Date), OrgScope>, e: Employee, d: Date)
    ensures var v := w.(scopes := scopes);
            && (forall policy :: HolidayFor(v, e, d, policy) == HolidayFor(w, e, d, policy))
            && (forall policy :: ShiftFor(v, e, d, policy) == ShiftFor(w, e, d, policy))
            && (PolicyFor(v, e, d) == PolicyFor(w, e, d) ==> ResolveWorkDay(v, e, d) == ResolveWorkDay(w, e, d))
            && (EffectiveScope(v, e, d) == EffectiveScope(w, e, d) ==> PolicyFor(v, e, d) == PolicyFor(w, e, d))
  {
  }

  /**
   A working day needs a resolved shift that does not rest that weekday, and no holiday; a roster off
   step never is one.
   */
  lemma WorkingDayMeaning(w: World, e: Employee, d: Date)
    ensures var day := ResolveWorkDay(w, e, d);
            var holiday := HolidayFor(w, e, d, day.policy).Some?;
            && (day.kind.HolidayDay? <==> holiday)
            && (day.kind.WorkingDay? <==> !holiday && day.shift.Some? && Weekday(d) !in day.shift.value.weeklyOff)
            && (day.kind.Unassigned? ==> day.shift.None? && Weekday(d) !in {SATURDAY, SUNDAY})
  {
  }

  /**
   With derivation on and no explicit status, a holiday outranks a weekly off, neither pays, and
   pay always rests on two punches that nothing automatic overrode.
   */
  lemma OnlyPunchesPay(
    d: Date, checkIn: Option<int>, checkOut: Option<int>, policy: Option<Policy>, shift: Option<Shift>,
    holiday: Option<HolidayRow>, day: DayType)
    requires RulesOf(policy).enabled
    ensures var run := Evaluate(d, checkIn, checkOut, None, policy, shift, holiday);
            var units := PayrollUnits(run.status, day);
            && (run.status.Holiday? <==> RulesOf(policy).autoHoliday && holiday.Some?)
            && (run.status.WeeklyOff? <==> !run.status.Holiday? && !PunchesDecide(d, policy, shift, holiday))
            && (units.payable > 0 || run.overtime > 0 ==>
                 PunchesDecide(d, policy, shift, holiday) && checkIn.Some? && checkOut.Some?
                   && checkOut.value > checkIn.value)
            && run.shift == (if shift.Some? then Some(shift.value.id) else None)
            && run.holiday == (if holiday.Some? then Some(holiday.value.id) else None)
  {
  }

  /**
   A shift's window runs from its start to the first end time strictly after it, except for a
   night shift whose end time already follows its start: that one runs more than a day.
   */
  lemma ShiftWindow(shift: Shift, d: Date)
    requires shift.startTime < DAY && shift.endTime < DAY
    ensures var length := ShiftEnd(shift, d) - ShiftStart(shift, d);
            && 0 < length < 2 * DAY
            && ShiftStart(shift, d) - shift.startTime == d * DAY
            && (ShiftEnd(shift, d) - d * DAY - shift.endTime) % DAY == 0
            && (length > DAY <==> shift.night && shift.startTime < shift.endTime)
  {
  }

  /**
   Units never exceed a day, only statuses that are paid, or absent on a working day, carry any,
   and pay is lost by half days and by absences on working days alone.
   */
  lemma UnitsAreAWholeDayOrNothing(status: Status, day: DayType)
    ensures var u := PayrollUnits(status, day);
            && u.payable + u.lop
                 == (if status in {Present, Late, Remote, HalfDay}
                   || (status.Absent? && day.WorkingDay?) then 100 else 0)
            && (u.lop > 0 <==> status.HalfDay? || (status.Absent? && day.WorkingDay?))
            && (u.payable > 0 && u.lop > 0 ==> u.payable == u.lop)
            && (status.HalfDay? ==> u.payable > 0)
  {
  }
}
