/** The attendance entities that resolution and derivation read. */
module Domain {
  import opened Basics

  /** Instants and times of day are counted in microseconds, hours in hundredths. */
  const MINUTE := 60000000
  const DAY := 86400000000

  datatype Status =
    | Present | Absent | HalfDay | WeeklyOff | Holiday | OnLeave | Late | Remote | Unknown

  datatype Source = Manual | Web | Mobile | Biometric | Import | Api | System

  /** The six organization dimensions, for an employee (actual) or an assignment (expected). */
  datatype OrgScope = OrgScope(
    legalEntity: Option<Id>, branch: Option<Id>, location: Option<Id>,
    department: Option<Id>, grade: Option<Id>, employmentType: Option<Id>)

  const NO_SCOPE := OrgScope(None, None, None, None, None, None)

  datatype Employee = Employee(id: Id, code: string, active: bool, current: OrgScope)

  datatype Shift = Shift(
    id: Id, startTime: nat, endTime: nat, workingHours: nat, graceIn: nat, graceOut: nat,
    night: bool, flexible: bool, weeklyOff: set<nat>)

  datatype HolidayRow = HolidayRow(id: Id, date: Date, createdAt: int)

  datatype HolidayCalendar = HolidayCalendar(
    id: Id, year: int, active: bool, legalEntity: Option<Id>, branch: Option<Id>, location: Option<Id>,
    createdAt: int, holidays: seq<HolidayRow>)

  datatype MissingPunch = MissingIsUnknown | MissingIsAbsent

  /** A policy's derivation rules in normal form. */
  datatype DerivationRules = DerivationRules(
    enabled: bool, autoHoliday: bool, autoWeeklyOff: bool, missingPunch: MissingPunch,
    lateStatus: bool, deriveOvertime: bool)

  const DEFAULT_RULES := DerivationRules(false, true, true, MissingIsUnknown, false, true)

  datatype Policy = Policy(
    id: Id, active: bool, defaultShift: Option<Shift>, calendar: Option<HolidayCalendar>,
    fullDay: nat, halfDay: nat, overtimeThreshold: nat,
    allowRegularization: bool, requireReason: bool, rules: DerivationRules)

  datatype Assignment = Assignment(
    id: Id, policy: Policy, employee: Option<Id>, scope: OrgScope,
    priority: nat, active: bool, from: Option<Date>, until: Option<Date>, createdAt: int)
}
