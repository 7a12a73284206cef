/**
 The batched derivation context: related tables are fetched once for a page of records, and
 every record is then resolved from them. It must agree with the one-record resolver.
 */
module Batch {
  import opened Basics
  import opened Domain
  import opened Derivation
  import PolicyResolution
  import Rosters

  datatype Context = Context(
    assignments: seq<Assignment>, rosters: seq<ShiftAssignment>, shifts: map<Id, Shift>,
      calendars: seq<HolidayCalendar>)

  // ------------------------------------------------------------- the fetches

  function LiveRows(rows: seq<Assignment>): seq<Assignment> {
    if rows == [] then []
    else
      var init := LiveRows(rows[..|rows| - 1]);
      var row := rows[|rows| - 1];
      if PolicyResolution.Live(row) then init + [row] else init
  }

  function EarliestDate(page: seq<Record>): (d: Date)
    requires page != []
    ensures forall k :: 0 <= k < |page| ==> d <= page[k].date
  {
    if |page| == 1 then page[0].date
    else
      var rest := EarliestDate(page[1..]);
      if page[0].date < rest then page[0].date else rest
  }

  function LatestDate(page: seq<Record>): (d: Date)
    requires page != []
    ensures forall k :: 0 <= k < |page| ==> page[k].date <= d
  {
    if |page| == 1 then page[0].date
    else
      var rest := LatestDate(page[1..]);
      if page[0].date > rest then page[0].date else rest
  }

  /** Shift assignments of the page's employees that touch the page's date range. */
  function PageRosters(rows: seq<ShiftAssignment>, employees: set<Id>, first: Date, last: Date): seq<ShiftAssignment> {
    if rows == [] then []
    else
      var init := PageRosters(rows[..|rows| - 1], employees, first, last);
      var row := rows[|rows| - 1];
      if row.employee in employees && row.from <= last
         && Rosters.LastDay(row.until) >= first then init + [row] else init
  }

  function YearCalendars(rows: seq<HolidayCalendar>, years: set<int>): seq<HolidayCalendar> {
    if rows == [] then []
    else
      var init := YearCalendars(rows[..|rows| - 1], years);
      var row := rows[|rows| - 1];
      if row.active && row.year in years then init + [row] else init
  }

  function ForRecords(w: World, page: seq<Record>): Context {
    if page == [] then Context([], [], map[], [])
    else
      Context(
        LiveRows(w.assignments),
        PageRosters(w.rosters, set k | 0 <= k < |page| :: page[k].employee, EarliestDate(page), LatestDate(page)),
        w.shifts,
        YearCalendars(w.calendars, set k | 0 <= k < |page| :: Year(page[k].date)))
  }

  // ------------------------------------------------- resolution from a context

  /** Every live assignment that admits the employee's current fields; no date is consulted. */
  function Admitted(rows: seq<Assignment>, e: Employee): seq<Assignment> {
    if rows == [] then []
    else
      var init := Admitted(rows[..|rows| - 1], e);
      var row := rows[|rows| - 1];
      if PolicyResolution.Admits(row, e.id, e.current) then init + [row] else init
  }

  function ContextAssignment(ctx: Context, e: Employee): Option<Assignment> {
    PolicyResolution.Best(Admitted(ctx.assignments, e))
  }

  /** First listed holiday of the date. */
  function FirstHoliday(rows: seq<HolidayRow>, d: Date): Option<HolidayRow> {
    if rows == [] then None
    else if rows[0].date == d then Some(rows[0])
    else FirstHoliday(rows[1..], d)
  }

  function ContextHoliday(ctx: Context, e: Employee, d: Date, policy: Option<Policy>): Option<HolidayRow> {
    var calendar := CalendarFor(ctx.calendars, e.current, d, policy);
    if calendar.Some? then FirstHoliday(calendar.value.holidays, d) else None
  }

  function ContextWorkDay(ctx: Context, e: Employee, d: Date): WorkDay {
    var policy := PolicyOf(ContextAssignment(ctx, e));
    var roster := Rosters.RosterFor(ctx.rosters, e.id, d);
    var resolved :=
      if roster.Some? then Rosters.ResolveShift(roster.value, d, ctx.shifts)
      else Rosters.Resolved(DefaultShift(policy), false);
    WorkDay(policy, roster, resolved.shift,
      DayTypeOf(ContextHoliday(ctx, e, d, policy).Some?, resolved.rosterOff, resolved.shift, d))
  }

  /** Payroll units of a record as the period close totals them. */
  function ContextUnits(w: World, ctx: Context, r: Record): Units {
    PayrollUnits(r.status, ContextWorkDay(ctx, Person(w, r.employee), r.date).kind)
  }

  function SingleUnits(w: World, r: Record): Units {
    PayrollUnits(r.status, ResolveWorkDay(w, Person(w, r.employee), r.date).kind)
  }

  // --------------------------------------------------------- fetch membership

  lemma {:induction false} LiveMembers(rows: seq<Assignment>)
    ensures forall a :: a in LiveRows(rows) <==> a in rows && PolicyResolution.Live(a)
  {
    if rows != [] {
      LiveMembers(rows[..|rows| - 1]);
      assert rows == rows[..|rows| - 1] + [rows[|rows| - 1]];
    }
  }

  lemma {:induction false} AdmittedMembers(rows: seq<Assignment>, e: Employee)
    ensures forall a :: a in Admitted(rows, e) <==> a in rows && PolicyResolution.Admits(a, e.id, e.current)
  {
    if rows != [] {
      AdmittedMembers(rows[..|rows| - 1], e);
      assert rows == rows[..|rows| - 1] + [rows[|rows| - 1]];
    }
  }

  lemma {:induction false} RosterMembers(rows: seq<ShiftAssignment>, employees: set<Id>, first: Date, last: Date)
    ensures forall a :: a in PageRosters(rows, employees, first, last)
              <==> a in rows && a.employee in employees && a.from <= last && Rosters.LastDay(a.until) >= first
  {
    if rows != [] {
      RosterMembers(rows[..|rows| - 1], employees, first, last);
      assert rows == rows[..|rows| - 1] + [rows[|rows| - 1]];
    }
  }

  lemma {:induction false} CalendarMembers(rows: seq<HolidayCalendar>, years: set<int>)
    ensures forall c :: c in YearCalendars(rows, years) <==> c in rows && c.active && c.year in years
  {
    if rows != [] {
      CalendarMembers(rows[..|rows| - 1], years);
      assert rows == rows[..|rows| - 1] + [rows[|rows| - 1]];
    }
  }

  // -------------------------------------------------------- policies and dates

  /** `listed` holds the rows of the same tables, in whatever order the database returns them. */
  ghost predicate SameTables(w: World, listed: World) {
    && (forall a :: a in w.assignments <==> a in listed.assignments)
    && (forall a :: a in w.rosters <==> a in listed.rosters)
    && (forall c :: c in w.calendars <==> c in listed.calendars)
    && w.shifts == listed.shifts && w.staff == listed.staff && w.scopes == listed.scopes
  }

  ghost predicate DistinctSortKeys(w: World) {
    && PolicyResolution.DistinctKeys(w.assignments)
    && Rosters.DistinctRanks(w.rosters)
    && forall a, b :: a in w.calendars && b in w.calendars && !CalendarBefore(a, b) && !CalendarBefore(b, a) ==> a == b
  }

  lemma ContextAssignmentIsLeast(w: World, listed: World, page: seq<Record>, e: Employee)
    requires page != [] && SameTables(w, listed)
    ensures BatchLead(w, e, ContextAssignment(ForRecords(listed, page), e))
  {
    var ctx := ForRecords(listed, page);
    LiveMembers(listed.assignments);
    AdmittedMembers(ctx.assignments, e);
    PolicyResolution.BestIsLeast(Admitted(ctx.assignments, e));
  }

  /** What the batched lookup considers: live rows admitting the current fields, whatever their dates. */
  predicate BatchConsiders(a: Assignment, e: Employee) {
    PolicyResolution.Live(a) && PolicyResolution.Admits(a, e.id, e.current)
  }

  /** What the one-record resolver considers on the date. */
  predicate SingleConsiders(w: World, a: Assignment, e: Employee, d: Date) {
    PolicyResolution.Applies(a, e.id, EffectiveScope(w, e, d), d)
  }

  /** Every row that only one of the two lookups considers has a row before it that both consider. */
  ghost predicate LookupsAgree(w: World, e: Employee, d: Date) {
    forall a :: a in w.assignments && (BatchConsiders(a, e) <==> !SingleConsiders(w, a, e, d)) ==> Outdone(w, a, e, d)
  }

  ghost predicate Outdone(w: World, a: Assignment, e: Employee, d: Date) {
    exists b :: b in w.assignments && BatchConsiders(b, e) && SingleConsiders(w, b, e, d)
      && PolicyResolution.Before(b, a)
  }

  /**
   The batched policy lookup has no date filter and reads current fields. Over any tables with
   distinct sort keys, in any listing order, it finds what the one-record resolver finds exactly
   when every row that only one of them considers is preceded by one that both consider.
   */
  lemma PolicyAgreementIsExact(w: World, listed: World, page: seq<Record>, e: Employee, d: Date)
    requires page != [] && SameTables(w, listed) && DistinctSortKeys(w)
    ensures ContextAssignment(ForRecords(listed, page), e) == AssignmentFor(w, e, d) <==> LookupsAgree(w, e, d)
  {
    ContextAssignmentIsLeast(w, listed, page, e);
    PolicyResolution.ResolveWins(w.assignments, e.id, EffectiveScope(w, e, d), d);
    var c, r := ContextAssignment(ForRecords(listed, page), e), AssignmentFor(w, e, d);
    if LookupsAgree(w, e, d) {
      CommonLead(w, e, d, c, r);
    }
    if c == r && r.Some? {
      forall a | a in w.assignments && (BatchConsiders(a, e) <==> !SingleConsiders(w, a, e, d))
        ensures Outdone(w, a, e, d)
      {
        assert PolicyResolution.Before(r.value, a);
      }
    }
  }

  ghost predicate BatchLead(w: World, e: Employee, c: Option<Assignment>) {
    && (c.None? <==> forall a :: a in w.assignments ==> !BatchConsiders(a, e))
    && (c.Some? ==>
         && c.value in w.assignments && BatchConsiders(c.value, e)
         && forall a :: a in w.assignments && BatchConsiders(a, e) ==> !PolicyResolution.Before(a, c.value))
  }

  ghost predicate SingleLead(w: World, e: Employee, d: Date, r: Option<Assignment>) {
    && (r.None? <==> forall a :: a in w.assignments ==> !SingleConsiders(w, a, e, d))
    && (r.Some? ==>
         && r.value in w.assignments && SingleConsiders(w, r.value, e, d)
         && forall a :: a in w.assignments && SingleConsiders(w, a, e, d) ==> !PolicyResolution.Before(a, r.value))
  }

  lemma CommonLead(w: World, e: Employee, d: Date, c: Option<Assignment>, r: Option<Assignment>)
    requires DistinctSortKeys(w) && LookupsAgree(w, e, d)
    requires BatchLead(w, e, c) && SingleLead(w, e, d, r)
    ensures c == r
  {
    if c.Some? {
      assert SingleConsiders(w, c.value, e, d);
    }
    if r.Some? {
      assert BatchConsiders(r.value, e);
    }
  }

  /**
   Where the effective scope is current: every admitted row out of effect that day has an applicable
   row before it.
   */
  lemma AgreementUnderCurrentScope(w: World, e: Employee, d: Date)
    requires EffectiveScope(w, e, d) == e.current
    ensures LookupsAgree(w, e, d) <==>
              forall a :: a in w.assignments && BatchConsiders(a, e) && !PolicyResolution.InEffect(a, d) ==>
                exists b :: b in w.assignments && PolicyResolution.Applies(b, e.id, e.current, d)
                  && PolicyResolution.Before(b, a)
  {
    forall a | a in w.assignments && BatchConsiders(a, e) && !PolicyResolution.InEffect(a, d)
      ensures Outdone(w, a, e, d) <==>
                exists b :: b in w.assignments && PolicyResolution.Applies(b, e.id, e.current, d)
                  && PolicyResolution.Before(b, a)
    {
      assert forall b :: BatchConsiders(b, e) && SingleConsiders(w, b, e, d) <==>
        PolicyResolution.Applies(b, e.id, e.current, d);
    }
  }

  /** Current scopes and live assignments in effect on all page dates suffice, for every record of the page. */
  lemma CoveringAssignmentsSuffice(w: World, page: seq<Record>, k: nat)
    requires k < |page|
    requires EffectiveScope(w, Person(w, page[k].employee), page[k].date) == Person(w, page[k].employee).current
    requires forall a, i :: a in w.assignments && PolicyResolution.Live(a) && 0 <= i < |page| ==>
               PolicyResolution.InEffect(a, page[i].date)
    ensures LookupsAgree(w, Person(w, page[k].employee), page[k].date)
  {
  }

  // ------------------------------------------------------ rosters and holidays

  lemma RosterAgreement(w: World, listed: World, page: seq<Record>, k: nat)
    requires k < |page| && SameTables(w, listed) && DistinctSortKeys(w)
    ensures Rosters.RosterFor(ForRecords(listed, page).rosters, page[k].employee, page[k].date)
            == Rosters.RosterFor(w.rosters, page[k].employee, page[k].date)
  {
    var ctx := ForRecords(listed, page);
    var e, d := page[k].employee, page[k].date;
    RosterMembers(listed.rosters, set i | 0 <= i < |page| :: page[i].employee, EarliestDate(page), LatestDate(page));
    assert forall a :: Rosters.AppliesTo(a, e, d) ==> (a in w.rosters <==> a in ctx.rosters);
    Rosters.RosterForLeads(w.rosters, e, d);
    Rosters.RosterForLeads(ctx.rosters, e, d);
  }

  lemma CalendarAgreement(w: World, listed: World, page: seq<Record>, k: nat, actual: OrgScope, policy: Option<Policy>)
    requires k < |page| && SameTables(w, listed) && DistinctSortKeys(w)
    ensures CalendarFor(ForRecords(listed, page).calendars, actual, page[k].date, policy)
            == CalendarFor(w.calendars, actual, page[k].date, policy)
  {
    var year := Year(page[k].date);
    var fetched := ForRecords(listed, page).calendars;
    CalendarMembers(listed.calendars, set i | 0 <= i < |page| :: Year(page[i].date));
    BestCalendarIsFirst(fetched, year, actual);
    BestCalendarIsFirst(w.calendars, year, actual);
  }

  /**
   The one-record lookup finds the oldest holiday of the date, the batched one the first listed; both
   find one or neither does.
   */
  lemma {:induction false} HolidayExistence(rows: seq<HolidayRow>, d: Date)
    ensures OldestHoliday(rows, d).Some? <==> exists k :: 0 <= k < |rows| && rows[k].date == d
    ensures var r := OldestHoliday(rows, d);
            r.Some? ==>
              && r.value in rows && r.value.date == d
              && forall h :: h in rows && h.date == d ==> r.value.createdAt <= h.createdAt
  {
    if rows != [] {
      HolidayExistence(rows[..|rows| - 1], d);
    }
  }

  lemma {:induction false} FirstHolidayExistence(rows: seq<HolidayRow>, d: Date)
    ensures FirstHoliday(rows, d).Some? <==> exists k :: 0 <= k < |rows| && rows[k].date == d
  {
    if rows != [] {
      FirstHolidayExistence(rows[1..], d);
    }
  }

  // -------------------------------------------------------------- main result

  /** The day of a record depends on which path resolves it through the policy alone. */
  lemma SameOnceThePolicyIs(w: World, listed: World, page: seq<Record>, k: nat)
    requires k < |page| && SameTables(w, listed) && DistinctSortKeys(w)
    ensures var ctx, e, d := ForRecords(listed, page), Person(w, page[k].employee), page[k].date;
            ContextWorkDay(ctx, e, d) == ResolveWorkDay(w, e, d) <==>
              PolicyOf(ContextAssignment(ctx, e)) == PolicyFor(w, e, d)
  {
    var ctx := ForRecords(listed, page);
    var e, d := Person(w, page[k].employee), page[k].date;
    var policy := PolicyFor(w, e, d);
    RosterAgreement(w, listed, page, k);
    var roster := Rosters.RosterFor(w.rosters, e.id, d);
    if roster.Some? {
      Rosters.NamedShiftsSuffice(roster.value, d, w.shifts);
    }
    CalendarAgreement(w, listed, page, k, e.current, policy);
    var calendar := CalendarFor(w.calendars, e.current, d, policy);
    if calendar.Some? {
      HolidayExistence(calendar.value.holidays, d);
      FirstHolidayExistence(calendar.value.holidays, d);
    }
  }

  /** Some row leads the batched lookup, another the one-record lookup, and both carry one policy. */
  ghost predicate LeadsShareAPolicy(w: World, e: Employee, d: Date) {
    exists a, b :: BatchLead(w, e, Some(a)) && SingleLead(w, e, d, Some(b)) && a.policy == b.policy
  }

  /**
   On every record of a page the batched context and the one-record resolver give the same policy,
   shift and day type exactly when their lookups agree over the tables, or are led by rows of one
   policy; the payroll units then agree as well.
   */
  lemma BatchAgreesWithSingle(w: World, listed: World, page: seq<Record>, k: nat)
    requires k < |page| && SameTables(w, listed) && DistinctSortKeys(w)
    ensures var ctx, e, d := ForRecords(listed, page), Person(w, page[k].employee), page[k].date;
            && (ContextWorkDay(ctx, e, d) == ResolveWorkDay(w, e, d) <==>
                 LookupsAgree(w, e, d) || LeadsShareAPolicy(w, e, d))
            && (LookupsAgree(w, e, d) || LeadsShareAPolicy(w, e, d) ==>
                 ContextUnits(w, ctx, page[k]) == SingleUnits(w, page[k]))
  {
    var ctx := ForRecords(listed, page);
    var e, d := Person(w, page[k].employee), page[k].date;
    SameOnceThePolicyIs(w, listed, page, k);
    PolicyAgreementIsExact(w, listed, page, e, d);
    ContextAssignmentIsLeast(w, listed, page, e);
    PolicyResolution.ResolveWins(w.assignments, e.id, EffectiveScope(w, e, d), d);
    var c, r := ContextAssignment(ctx, e), AssignmentFor(w, e, d);
    hide ForRecords, ContextWorkDay, ResolveWorkDay, LookupsAgree;
    SamePolicyExactly(w, e, d, c, r);
  }

  lemma SamePolicyExactly(w: World, e: Employee, d: Date, c: Option<Assignment>, r: Option<Assignment>)
    requires DistinctSortKeys(w)
    requires BatchLead(w, e, c) && SingleLead(w, e, d, r)
    ensures PolicyOf(c) == PolicyOf(r) <==> c == r || LeadsShareAPolicy(w, e, d)
  {
    if LeadsShareAPolicy(w, e, d) {
      var a, b :| BatchLead(w, e, Some(a)) && SingleLead(w, e, d, Some(b)) && a.policy == b.policy;
      assert c == Some(a) && r == Some(b);
    }
    if PolicyOf(c) == PolicyOf(r) && c.Some? {
      assert BatchLead(w, e, Some(c.value)) && SingleLead(w, e, d, Some(r.value));
    }
  }

  /** Under the policy the day is scheduled as work: no holiday applies and the shift in use does not rest. */
  predicate WorksUnder(w: World, e: Employee, d: Date, policy: Option<Policy>) {
    var shift := ShiftFor(w, e, d, policy);
    HolidayFor(w, e, d, policy).None? && shift.Some? && !ShiftRests(shift, d)
  }

  lemma SingleWorkingDay(w: World, e: Employee, d: Date)
    ensures ResolveWorkDay(w, e, d).kind.WorkingDay? <==> WorksUnder(w, e, d, PolicyFor(w, e, d))
  {
    WorkingDayMeaning(w, e, d);
  }

  lemma ContextWorkingDay(w: World, listed: World, page: seq<Record>, k: nat)
    requires k < |page| && SameTables(w, listed) && DistinctSortKeys(w)
    ensures var ctx, e, d := ForRecords(listed, page), Person(w, page[k].employee), page[k].date;
            ContextWorkDay(ctx, e, d).kind.WorkingDay? <==> WorksUnder(w, e, d, PolicyOf(ContextAssignment(ctx, e)))
  {
    var ctx := ForRecords(listed, page);
    var e, d := Person(w, page[k].employee), page[k].date;
    var policy := PolicyOf(ContextAssignment(ctx, e));
    RosterAgreement(w, listed, page, k);
    var roster := Rosters.RosterFor(w.rosters, e.id, d);
    if roster.Some? {
      Rosters.NamedShiftsSuffice(roster.value, d, w.shifts);
      RestingRoster(roster.value, d, w.shifts);
    }
    CalendarAgreement(w, listed, page, k, e.current, policy);
    var calendar := CalendarFor(w.calendars, e.current, d, policy);
    if calendar.Some? {
      HolidayExistence(calendar.value.holidays, d);
      FirstHolidayExistence(calendar.value.holidays, d);
    }
    hide Rosters.ResolveShift, Rosters.NamedShifts, Rosters.RosterFor, ForRecords, CalendarFor;
  }

  /**
   Whatever the policies: with `c` leading the batched lookup and `r` the one-record lookup, the
   payroll units of a record differ exactly on an absence whose day one policy schedules as work
   and the other does not.
   */
  lemma UnitsAgreeExactly(
    w: World, listed: World, page: seq<Record>, k: nat, c: Option<Assignment>, r: Option<Assignment>)
    requires k < |page| && SameTables(w, listed) && DistinctSortKeys(w)
    requires var e := Person(w, page[k].employee); BatchLead(w, e, c) && SingleLead(w, e, page[k].date, r)
    ensures var e, d := Person(w, page[k].employee), page[k].date;
            ContextUnits(w, ForRecords(listed, page), page[k]) != SingleUnits(w, page[k]) <==>
              page[k].status.Absent? && WorksUnder(w, e, d, PolicyOf(c)) != WorksUnder(w, e, d, PolicyOf(r))
  {
    var ctx := ForRecords(listed, page);
    var e, d := Person(w, page[k].employee), page[k].date;
    ContextAssignmentIsLeast(w, listed, page, e);
    PolicyResolution.ResolveWins(w.assignments, e.id, EffectiveScope(w, e, d), d);
    assert ContextAssignment(ctx, e) == c && AssignmentFor(w, e, d) == r;
    ContextWorkingDay(w, listed, page, k);
    SingleWorkingDay(w, e, d);
    hide ForRecords, ContextWorkDay, ResolveWorkDay, WorksUnder;
  }

  // ------------------------------------------ why the in-effect condition is needed

  const PLAIN := Policy(1, true, None, None, 0, 0, 0, true, false, DEFAULT_RULES)
  const SHIFTED := PLAIN.(id := 2, defaultShift := Some(Shift(1, 0, 1, 800, 0, 0, false, false, {})))
  const EXPIRED := Assignment(1, PLAIN, Some(7), NO_SCOPE, 100, true, None, Some(10), 0)
  const EVERYONE := Assignment(2, SHIFTED, None, NO_SCOPE, 100, true, None, None, 0)
  const SAMPLE_STAFF := Employee(7, "E7", true, NO_SCOPE)
  const SAMPLE_WORLD := World([EXPIRED, EVERYONE], [], map[], [], map[7 := SAMPLE_STAFF], map[])
  const SAMPLE_ABSENCE := Record(7, 16, Absent, System, None, None, None, None, 0, 0, 0, 0, false, false)

  lemma SampleKeysDistinct()
    ensures DistinctSortKeys(SAMPLE_WORLD)
  {
    PolicyResolution.NarrowerAlwaysWins(EXPIRED, EVERYONE);
  }

  lemma SampleBatchedSide()
    ensures ContextAssignment(ForRecords(SAMPLE_WORLD, [SAMPLE_ABSENCE]), SAMPLE_STAFF) == Some(EXPIRED)
  {
    var w := SAMPLE_WORLD;
    ContextAssignmentIsLeast(w, w, [SAMPLE_ABSENCE], SAMPLE_STAFF);
    PolicyResolution.NarrowerAlwaysWins(EXPIRED, EVERYONE);
    assert w.assignments[0] in w.assignments && w.assignments[1] in w.assignments;
  }

  lemma SampleSingleSide()
    ensures AssignmentFor(SAMPLE_WORLD, SAMPLE_STAFF, 16) == Some(EVERYONE)
  {
    var w := SAMPLE_WORLD;
    PolicyResolution.ResolveWins(w.assignments, 7, NO_SCOPE, 16);
    assert w.assignments[1] in w.assignments && PolicyResolution.Applies(w.assignments[1], 7, NO_SCOPE, 16);
    assert !PolicyResolution.InEffect(EXPIRED, 16);
  }

  /**
   An expired employee override still decides the batched policy, and an absence on a working
   day loses its loss of pay.
   */
  lemma ExpiredOverrideFoolsTheBatch()
    ensures DistinctSortKeys(SAMPLE_WORLD)
    ensures ContextUnits(SAMPLE_WORLD, ForRecords(SAMPLE_WORLD, [SAMPLE_ABSENCE]), SAMPLE_ABSENCE) == Units(0, 0)
    ensures SingleUnits(SAMPLE_WORLD, SAMPLE_ABSENCE) == Units(0, 100)
  {
    SampleKeysDistinct();
    SampleBatchedSide();
    SampleSingleSide();
    assert ContextWorkDay(ForRecords(SAMPLE_WORLD, [SAMPLE_ABSENCE]), SAMPLE_STAFF, 16).kind == Unassigned;
    assert ResolveWorkDay(SAMPLE_WORLD, SAMPLE_STAFF, 16).kind == WorkingDay;
  }
}
