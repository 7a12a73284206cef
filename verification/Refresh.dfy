/**
 Re-deriving attendance rows after configuration changes: refreshing only the scopes an
 assignment change touches leaves the same store as refreshing the whole tenant.
 */
module Refresh {
  import opened Basics
  import opened Domain
  import opened Derivation
  import opened PolicyResolution

  /** Locked, regularized and manually entered rows are never re-derived. */
  predicate Refreshable(r: Record, from: Date, to: Date) {
    from <= r.date <= to && !r.locked && !r.regularized && !r.source.Manual?
  }

  /** Leave and remote work survive re-derivation; any other status is derived afresh. */
  function KeptStatus(r: Record): Option<Status> {
    if r.status.OnLeave? || r.status.Remote? then Some(r.status) else None
  }

  function WithRuntime(r: Record, run: Runtime): Record {
    r.(status := run.status, shift := run.shift, holiday := run.holiday, worked := run.worked,
       overtime := run.overtime, lateMinutes := run.late, earlyMinutes := run.early)
  }

  function Rederive(w: World, r: Record): Record {
    WithRuntime(r, EvaluateRuntime(w, Person(w, r.employee), r.date, r.checkIn, r.checkOut, KeptStatus(r), None))
  }

  /** A re-derived row decided by its two punches holds their hours and minutes, and nothing else changes. */
  lemma RederivedRowMeaning(w: World, r: Record)
    requires r.checkIn.Some? && r.checkOut.Some? && KeptStatus(r).None?
    requires var e := Person(w, r.employee);
             var policy := PolicyFor(w, e, r.date);
             PunchesDecide(r.date, policy, ShiftFor(w, e, r.date, policy), HolidayFor(w, e, r.date, policy))
    ensures var q := Rederive(w, r);
            var e := Person(w, r.employee);
            var policy := PolicyFor(w, e, r.date);
            var shift := ShiftFor(w, e, r.date, policy);
            && q.worked == WorkedHours(r.checkIn, r.checkOut)
            && (shift.Some? && !shift.value.flexible ==>
                 && q.lateMinutes == LateMinutes(shift.value, r.date, r.checkIn.value)
                 && q.earlyMinutes == EarlyMinutes(shift.value, r.date, r.checkOut.value)
                 && (policy.value.rules.deriveOvertime ==>
                      q.overtime == OvertimeHours(q.worked, shift.value.workingHours, policy.value.overtimeThreshold))
                 && (!policy.value.rules.deriveOvertime ==> q.overtime == 0))
            && (shift.None? || shift.value.flexible ==> q.lateMinutes == q.earlyMinutes == q.overtime == 0)
            && (q.employee, q.date, q.source, q.checkIn, q.checkOut, q.regularized, q.locked)
                 == (r.employee, r.date, r.source, r.checkIn, r.checkOut, r.regularized, r.locked)
  {
  }

  /**
   A re-derived row shows the shift and the holiday of its day and the hours of its punches, and its
   old status counts only if it is leave or remote work.
   */
  lemma RederivedFromTables(w: World, r: Record, status: Status)
    ensures var q, e := Rederive(w, r), Person(w, r.employee);
            var shift := ShiftFor(w, e, r.date, PolicyFor(w, e, r.date));
            var holiday := HolidayFor(w, e, r.date, PolicyFor(w, e, r.date));
            && q.shift == (if shift.Some? then Some(shift.value.id) else None)
            && q.holiday == (if holiday.Some? then Some(holiday.value.id) else None)
            && q.worked == WorkedHours(r.checkIn, r.checkOut)
            && (r.status !in {OnLeave, Remote} && status !in {OnLeave, Remote} ==>
                 Rederive(w, r.(status := status)) == q)
  {
    hide PolicyFor, ShiftFor, HolidayFor;
  }

  /** Leave and remote work survive re-derivation under any configuration, and no re-derivation grants either. */
  lemma LeaveAndRemoteSurvive(w: World, r: Record)
    ensures var q := Rederive(w, r);
            && (q.status.OnLeave? <==> r.status.OnLeave?)
            && (q.status.Remote? <==> r.status.Remote?)
  {
    var e := Person(w, r.employee);
    var policy := PolicyFor(w, e, r.date);
    EvaluateKeepsExplicit(r.date, r.checkIn, r.checkOut, KeptStatus(r), policy,
      ShiftFor(w, e, r.date, policy), HolidayFor(w, e, r.date, policy));
  }

  /** One non-empty scope mapping passed to the refresh; absent and empty ones are dropped before. */
  datatype ScopeFilter = ScopeFilter(employee: Option<Id>, scope: OrgScope)

  function FilterOf(a: Assignment): ScopeFilter {
    ScopeFilter(a.employee, a.scope)
  }

  predicate FilterSelects(f: ScopeFilter, e: Employee) {
    if f.employee.Some? then f.employee.value == e.id else ScopeAdmits(f.scope, e.current)
  }

  /** No filter at all, or one without any field, means the whole tenant. */
  predicate Selected(filters: seq<ScopeFilter>, e: Employee) {
    filters == [] || exists i :: 0 <= i < |filters| && FilterSelects(filters[i], e)
  }

  /**
   Whose rows a refresh visits: with no filter everyone's; otherwise those of the employees a filter
   names, and of everyone whose current fields match every organization field of a filter naming no one.
   */
  lemma WhomARefreshReaches(filters: seq<ScopeFilter>, e: Employee)
    ensures Selected(filters, e) <==>
              || filters == []
              || (exists i :: 0 <= i < |filters| && filters[i].employee == Some(e.id))
              || (exists i :: 0 <= i < |filters| && filters[i].employee.None? && Matches(filters[i].scope, e.current))
  {
    forall i | 0 <= i < |filters|
      ensures FilterSelects(filters[i], e) <==>
                || filters[i].employee == Some(e.id)
                || (filters[i].employee.None? && Matches(filters[i].scope, e.current))
    {
    }
  }

  function RefreshedRow(w: World, filters: seq<ScopeFilter>, from: Date, to: Date, r: Record): Record {
    if Refreshable(r, from, to) && Selected(filters, Person(w, r.employee)) then Rederive(w, r) else r
  }

  function RefreshedRows(w: World, filters: seq<ScopeFilter>, from: Date, to: Date,
      rows: seq<Record>): (after: seq<Record>)
    ensures |after| == |rows|
    ensures forall i :: 0 <= i < |rows| ==> after[i] == RefreshedRow(w, filters, from, to, rows[i])
  {
    seq(|rows|, i requires 0 <= i < |rows| => RefreshedRow(w, filters, from, to, rows[i]))
  }

  /** Every row the tenant-wide refresh would visit already holds its derived values. */
  ghost predicate UpToDate(w: World, from: Date, to: Date, rows: seq<Record>) {
    forall i :: 0 <= i < |rows| && Refreshable(rows[i], from, to) ==> Rederive(w, rows[i]) == rows[i]
  }

  // ------------------------------------------------------------- idempotence

  lemma EvaluateKeepsExplicit(
    d: Date, checkIn: Option<int>, checkOut: Option<int>, explicit: Option<Status>,
    policy: Option<Policy>, shift: Option<Shift>, holiday: Option<HolidayRow>)
    requires explicit.Some? ==> explicit.value.OnLeave? || explicit.value.Remote?
    ensures var status := Evaluate(d, checkIn, checkOut, explicit, policy, shift, holiday).status;
            (if status.OnLeave? || status.Remote? then Some(status) else None) == explicit
  {
  }

  /** Re-deriving a re-derived row changes nothing. */
  lemma RederiveTwice(w: World, r: Record)
    ensures Rederive(w, Rederive(w, r)) == Rederive(w, r)
  {
    var e := Person(w, r.employee);
    var policy := PolicyFor(w, e, r.date);
    EvaluateKeepsExplicit(r.date, r.checkIn, r.checkOut, KeptStatus(r), policy,
      ShiftFor(w, e, r.date, policy), HolidayFor(w, e, r.date, policy));
    assert KeptStatus(Rederive(w, r)) == KeptStatus(r);
  }

  lemma RefreshMakesUpToDate(w: World, from: Date, to: Date, rows: seq<Record>)
    ensures UpToDate(w, from, to, RefreshedRows(w, [], from, to, rows))
  {
    forall i | 0 <= i < |rows| && Refreshable(rows[i], from, to)
      ensures Rederive(w, Rederive(w, rows[i])) == Rederive(w, rows[i])
    {
      RederiveTwice(w, rows[i]);
    }
  }

  // ------------------------------------------------------- one assignment change

  /**
   Adding (`previous` is nothing), removing (`saved` is nothing) or changing one assignment. `rest`
   holds the other rows; the changed row may also move in the listing.
   */
  datatype Change = Change(
    rest: seq<Assignment>, previousAt: nat, previous: Option<Assignment>, savedAt: nat, saved: Option<Assignment>)

  ghost predicate ChangeOf(c: Change, w: World, w': World) {
    && c.previousAt <= |c.rest| && c.savedAt <= |c.rest|
    && w.assignments == InsertAt(c.rest, c.previousAt, c.previous)
    && w' == w.(assignments := InsertAt(c.rest, c.savedAt, c.saved))
  }

  /** The scopes a save refreshes: the previous one if it was active, the current one if it is. */
  function TouchedFilters(c: Change): seq<ScopeFilter> {
    (if c.previous.Some? && c.previous.value.active then [FilterOf(c.previous.value)] else [])
    + (if c.saved.Some? && c.saved.value.active then [FilterOf(c.saved.value)] else [])
  }

  /** What a save does to the rows: nothing when neither side is active. */
  function RowsAfterSave(w': World, c: Change, from: Date, to: Date, rows: seq<Record>): seq<Record> {
    if TouchedFilters(c) == [] then rows else RefreshedRows(w', TouchedFilters(c), from, to, rows)
  }

  /** The save refreshes the employee's rows. */
  predicate Touched(c: Change, e: Employee) {
    TouchedFilters(c) != [] && Selected(TouchedFilters(c), e)
  }

  predicate TrailsDay(c: Change, x: Option<Assignment>, w: World, e: Employee, d: Date) {
    x.Some? ==> Trails(c.rest, x.value, e.id, EffectiveScope(w, e, d), d)
  }

  predicate LeadsDay(c: Change, x: Option<Assignment>, w: World, e: Employee, d: Date) {
    x.Some? && Leads(c.rest, x.value, e.id, EffectiveScope(w, e, d), d)
  }

  /**
   Neither side of the change can be the day's winner: each does not apply, or another applicable row
   is before it.
   */
  predicate Unaffected(c: Change, w: World, e: Employee, d: Date) {
    TrailsDay(c, c.previous, w, e, d) && TrailsDay(c, c.saved, w, e, d)
  }

  lemma UnaffectedKeepsWinner(c: Change, w: World, w': World, e: Employee, d: Date)
    requires ChangeOf(c, w, w') && Unaffected(c, w, e, d)
    ensures AssignmentFor(w', e, d) == AssignmentFor(w, e, d)
  {
    TrailingRow(c.rest, c.previousAt, c.previous, e.id, EffectiveScope(w, e, d), d);
    TrailingRow(c.rest, c.savedAt, c.saved, e.id, EffectiveScope(w, e, d), d);
  }

  lemma NonLeadingRow(c: Change, i: nat, x: Option<Assignment>, w: World, e: Employee, d: Date)
    requires i <= |c.rest| && DistinctKeys(InsertAt(c.rest, i, x)) && !LeadsDay(c, x, w, e, d)
    ensures Resolve(InsertAt(c.rest, i, x), e.id, EffectiveScope(w, e, d), d) == Resolve(c.rest, e.id,
              EffectiveScope(w, e, d), d)
  {
    var effective := EffectiveScope(w, e, d);
    if TrailsDay(c, x, w, e, d) {
      TrailingRow(c.rest, i, x, e.id, effective, d);
    } else {
      var rows := InsertAt(c.rest, i, x);
      assert rows[i] == x.value && forall y :: y in rows <==> y in c.rest || y == x.value by {
        InsertedMembers(c.rest, i, x.value);
      }
      ResolveWins(c.rest, e.id, effective, d);
      WinnerIsResolved(rows, e.id, effective, d, Resolve(c.rest, e.id, effective, d).value);
    }
  }

  lemma InsertedMembers(rest: seq<Assignment>, i: nat, x: Assignment)
    requires i <= |rest|
    ensures var rows := InsertAt(rest, i, Some(x));
            rows[i] == x && forall y :: y in rows <==> y in rest || y == x
  {
    assert rest == rest[..i] + rest[i..];
  }

  lemma LeadingSideDecides(c: Change, i: nat, x: Assignment, other: Option<Assignment>, j: nat, w: World,
      e: Employee, d: Date)
    requires i <= |c.rest| && j <= |c.rest| && other != Some(x)
    requires DistinctKeys(InsertAt(c.rest, j, other)) && LeadsDay(c, Some(x), w, e, d)
    ensures Resolve(InsertAt(c.rest, i, Some(x)), e.id, EffectiveScope(w, e, d), d)
            != Resolve(InsertAt(c.rest, j, other), e.id, EffectiveScope(w, e, d), d)
  {
    var effective := EffectiveScope(w, e, d);
    LeadingRow(c.rest, i, x, e.id, effective, d);
    if LeadsDay(c, other, w, e, d) {
      LeadingRow(c.rest, j, other.value, e.id, effective, d);
    } else {
      NonLeadingRow(c, j, other, w, e, d);
      ResolveWins(c.rest, e.id, effective, d);
    }
  }

  /**
   A change of one assignment alters the winner of an employee-day exactly when its previous or its
   saved side applies at the scope effective that day and comes before every other applicable row.
   */
  lemma WinnerChangesExactly(c: Change, w: World, w': World, e: Employee, d: Date)
    requires ChangeOf(c, w, w') && c.previous != c.saved
    requires DistinctKeys(w.assignments) && DistinctKeys(w'.assignments)
    ensures AssignmentFor(w', e, d) != AssignmentFor(w, e, d)
            <==> LeadsDay(c, c.previous, w, e, d) || LeadsDay(c, c.saved, w, e, d)
  {
    if LeadsDay(c, c.previous, w, e, d) {
      LeadingSideDecides(c, c.previousAt, c.previous.value, c.saved, c.savedAt, w, e, d);
    } else if LeadsDay(c, c.saved, w, e, d) {
      LeadingSideDecides(c, c.savedAt, c.saved.value, c.previous, c.previousAt, w, e, d);
    } else {
      NonLeadingRow(c, c.previousAt, c.previous, w, e, d);
      NonLeadingRow(c, c.savedAt, c.saved, w, e, d);
    }
  }

  /**
   The employee-days a scoped refresh misses: outside the touched scopes the winner changes exactly
   when a side of the change leads, and that side then reaches the employee by the scope effective
   that day and not by its current fields.
   */
  lemma EscapesAreExact(c: Change, w: World, w': World, e: Employee, d: Date)
    requires ChangeOf(c, w, w') && c.previous != c.saved
    requires DistinctKeys(w.assignments) && DistinctKeys(w'.assignments)
    requires !Touched(c, e)
    ensures AssignmentFor(w', e, d) != AssignmentFor(w, e, d) <==>
              || (LeadsDay(c, c.previous, w, e, d) && !Admits(c.previous.value, e.id, e.current))
              || (LeadsDay(c, c.saved, w, e, d) && !Admits(c.saved.value, e.id, e.current))
  {
    WinnerChangesExactly(c, w, w', e, d);
    UntouchedIsNotAdmitted(c, e);
  }

  lemma UntouchedIsNotAdmitted(c: Change, e: Employee)
    requires !Touched(c, e)
    ensures c.previous.Some? && c.previous.value.active ==> !Admits(c.previous.value, e.id, e.current)
    ensures c.saved.Some? && c.saved.value.active ==> !Admits(c.saved.value, e.id, e.current)
  {
    var filters := TouchedFilters(c);
    if c.previous.Some? && c.previous.value.active {
      assert filters[0] == FilterOf(c.previous.value) && !FilterSelects(filters[0], e);
    }
    if c.saved.Some? && c.saved.value.active {
      var last := |filters| - 1;
      assert filters[last] == FilterOf(c.saved.value) && !FilterSelects(filters[last], e);
    }
  }

  /** A side that reaches the employee by the scope effective that day also reaches it by its current fields. */
  predicate ReachesCurrent(a: Option<Assignment>, e: Employee, effective: OrgScope) {
    a.Some? && a.value.active && Admits(a.value, e.id, effective) ==> Admits(a.value, e.id, e.current)
  }

  predicate CurrentFieldsReach(c: Change, w: World, e: Employee, d: Date) {
    ReachesCurrent(c.previous, e, EffectiveScope(w, e, d)) && ReachesCurrent(c.saved, e, EffectiveScope(w, e, d))
  }

  /**
   Where current fields reach whatever the effective scope does, an employee outside both touched
   scopes keeps its winner.
   */
  lemma UntouchedKeepsWinner(c: Change, w: World, w': World, e: Employee, d: Date)
    requires ChangeOf(c, w, w')
    requires CurrentFieldsReach(c, w, e, d) && !Touched(c, e)
    ensures Unaffected(c, w, e, d) && AssignmentFor(w', e, d) == AssignmentFor(w, e, d)
  {
    UntouchedIsNotAdmitted(c, e);
    UnaffectedKeepsWinner(c, w, w', e, d);
  }

  // -------------------------------------------------- scoped and full refreshes

  /** No row that the scoped refresh passes over lies on a day one side of the change could win. */
  ghost predicate NothingEscapes(c: Change, w: World, from: Date, to: Date, rows: seq<Record>) {
    forall i :: 0 <= i < |rows| && Refreshable(rows[i], from, to) ==> CoveredByRefresh(c, w, rows[i])
  }

  predicate CoveredByRefresh(c: Change, w: World, r: Record) {
    var e := Person(w, r.employee);
    Touched(c, e) || Unaffected(c, w, e, r.date)
  }

  /**
   Nothing escapes where current fields reach whatever the effective scopes do, in particular where the
   two are equal.
   */
  lemma CurrentScopesSuffice(c: Change, w: World, from: Date, to: Date, rows: seq<Record>)
    requires forall i :: 0 <= i < |rows| && Refreshable(rows[i], from, to) ==>
               CurrentFieldsReach(c, w, Person(w, rows[i].employee), rows[i].date)
    ensures NothingEscapes(c, w, from, to, rows)
  {
    forall i | 0 <= i < |rows| && Refreshable(rows[i], from, to)
      ensures CoveredByRefresh(c, w, rows[i])
    {
      var e := Person(w, rows[i].employee);
      if !Touched(c, e) {
        UntouchedIsNotAdmitted(c, e);
      }
    }
  }

  /** A row's derivation depends on the assignments through its day's policy alone. */
  lemma SamePolicyRederivesTheSame(w: World, w': World, r: Record)
    requires w' == w.(assignments := w'.assignments)
    requires PolicyFor(w', Person(w, r.employee), r.date) == PolicyFor(w, Person(w, r.employee), r.date)
    ensures Rederive(w', r) == Rederive(w, r)
  {
  }

  /**
   After any one assignment change on an up-to-date store, refreshing only the touched scopes
   gives exactly the store a tenant-wide refresh gives, and that store is up to date again,
   provided nothing escapes.
   */
  lemma IncrementalEqualsFull(c: Change, w: World, w': World, from: Date, to: Date, rows: seq<Record>)
    requires ChangeOf(c, w, w')
    requires UpToDate(w, from, to, rows)
    requires NothingEscapes(c, w, from, to, rows)
    ensures RowsAfterSave(w', c, from, to, rows) == RefreshedRows(w', [], from, to, rows)
    ensures UpToDate(w', from, to, RowsAfterSave(w', c, from, to, rows))
  {
    hide Rederive, Unaffected;
    forall i | 0 <= i < |rows| && PassedOver(c, w, from, to, rows[i])
      ensures Rederive(w', rows[i]) == rows[i]
    {
      assert CoveredByRefresh(c, w, rows[i]);
      UnaffectedKeepsWinner(c, w, w', Person(w, rows[i].employee), rows[i].date);
      SamePolicyRederivesTheSame(w, w', rows[i]);
    }
    SameWherePassedOver(c, w, w', from, to, rows);
    RefreshMakesUpToDate(w', from, to, rows);
  }

  /** A tenant-wide refresh visits the row and the save does not. */
  predicate PassedOver(c: Change, w: World, from: Date, to: Date, r: Record) {
    Refreshable(r, from, to) && !Touched(c, Person(w, r.employee))
  }

  /** The two refreshes can differ only on rows the scoped one passes over, and there do when the row derives anew. */
  lemma SameWherePassedOver(c: Change, w: World, w': World, from: Date, to: Date, rows: seq<Record>)
    requires ChangeOf(c, w, w')
    ensures RowsAfterSave(w', c, from, to, rows) == RefreshedRows(w', [], from, to, rows) <==>
              forall i :: 0 <= i < |rows| && PassedOver(c, w, from, to, rows[i]) ==> Rederive(w', rows[i]) == rows[i]
  {
    hide Rederive, Refreshable, Selected;
    var scoped, full := RowsAfterSave(w', c, from, to, rows), RefreshedRows(w', [], from, to, rows);
    forall i | 0 <= i < |rows|
      ensures scoped[i] == full[i] <==>
                (PassedOver(c, w, from, to, rows[i]) ==> Rederive(w', rows[i]) == rows[i])
    {
      DiffersWherePassedOver(c, w, w', from, to, rows, i);
    }
  }

  lemma DiffersWherePassedOver(c: Change, w: World, w': World, from: Date, to: Date, rows: seq<Record>, i: nat)
    requires ChangeOf(c, w, w') && i < |rows|
    ensures RowsAfterSave(w', c, from, to, rows)[i] == RefreshedRows(w', [], from, to, rows)[i] <==>
              (PassedOver(c, w, from, to, rows[i]) ==> Rederive(w', rows[i]) == rows[i])
  {
    hide Rederive, Refreshable;
    assert Selected([], Person(w, rows[i].employee));
    assert Person(w', rows[i].employee) == Person(w, rows[i].employee);
  }

  /**
   Exactly when the scoped refresh gives the store of a full one: every row it passes over on a day
   whose winner a side of the change takes or leaves still derives to what it holds.
   */
  lemma IncrementalIsExact(c: Change, w: World, w': World, from: Date, to: Date, rows: seq<Record>)
    requires ChangeOf(c, w, w') && c.previous != c.saved
    requires DistinctKeys(w.assignments) && DistinctKeys(w'.assignments)
    requires UpToDate(w, from, to, rows)
    ensures RowsAfterSave(w', c, from, to, rows) == RefreshedRows(w', [], from, to, rows) <==>
              forall i :: 0 <= i < |rows| && Refreshable(rows[i], from, to) && Escapes(c, w, rows[i]) ==>
                Rederive(w', rows[i]) == rows[i]
  {
    hide Rederive, Refreshable, LeadsDay;
    SameWherePassedOver(c, w, w', from, to, rows);
    forall i | 0 <= i < |rows| && Refreshable(rows[i], from, to)
      ensures !Touched(c, Person(w, rows[i].employee)) && !Escapes(c, w, rows[i]) ==> Rederive(w', rows[i]) == rows[i]
    {
      WinnerChangesExactly(c, w, w', Person(w, rows[i].employee), rows[i].date);
      if !Touched(c, Person(w, rows[i].employee)) && !Escapes(c, w, rows[i]) {
        SamePolicyRederivesTheSame(w, w', rows[i]);
      }
    }
  }

  /** The row is passed over on a day that a side of the change leads. */
  predicate Escapes(c: Change, w: World, r: Record) {
    var e := Person(w, r.employee);
    !Touched(c, e) && (LeadsDay(c, c.previous, w, e, r.date) || LeadsDay(c, c.saved, w, e, r.date))
  }

  /**
   A save disturbs no more than it must: on an up-to-date store it changes only rows in range that
   are neither locked, regularized nor manual, of an employee it touches, and whose day gets another policy.
   */
  lemma SaveChangesOnlyNewPolicies(c: Change, w: World, w': World, from: Date, to: Date, rows: seq<Record>, i: nat)
    requires ChangeOf(c, w, w') && UpToDate(w, from, to, rows) && i < |rows|
    ensures var r := rows[i];
            var e := Person(w, r.employee);
            RowsAfterSave(w', c, from, to, rows)[i] != r ==>
              && from <= r.date <= to && !r.locked && !r.regularized && r.source != Manual
              && Touched(c, e) && PolicyFor(w', e, r.date) != PolicyFor(w, e, r.date)
  {
    hide Rederive;
    if PolicyFor(w', Person(w, rows[i].employee), rows[i].date) == PolicyFor(w, Person(w, rows[i].employee),
       rows[i].date) {
      SamePolicyRederivesTheSame(w, w', rows[i]);
    }
  }

  // ------------------------------------------------------------ runs of changes

  /** The configuration after each change of a history. */
  ghost predicate History(worlds: seq<World>, changes: seq<Change>) {
    |worlds| == |changes| + 1 && forall k :: 0 <= k < |changes| ==> ChangeOf(changes[k], worlds[k], worlds[k + 1])
  }

  function RowsAfter(worlds: seq<World>, changes: seq<Change>, from: Date, to: Date, rows: seq<Record>): seq<Record>
    requires |worlds| == |changes| + 1
  {
    if changes == [] then rows
    else
      var n := |changes| - 1;
      RowsAfterSave(worlds[n + 1], changes[n], from, to, RowsAfter(worlds[..n + 1], changes[..n], from, to, rows))
  }

  /** What decides whether a row may be re-derived and for whom; no refresh changes it. */
  predicate SameIdentity(r: Record, q: Record) {
    (r.employee, r.date, r.source, r.regularized, r.locked) == (q.employee, q.date, q.source, q.regularized, q.locked)
  }

  ghost predicate SameIdentities(rows: seq<Record>, after: seq<Record>) {
    |rows| == |after| && forall i :: 0 <= i < |rows| ==> SameIdentity(rows[i], after[i])
  }

  lemma SaveKeepsIdentities(c: Change, w': World, from: Date, to: Date, rows: seq<Record>)
    ensures SameIdentities(rows, RowsAfterSave(w', c, from, to, rows))
  {
    forall i | 0 <= i < |rows|
      ensures SameIdentity(rows[i], RowsAfterSave(w', c, from, to, rows)[i])
    {
      assert SameIdentity(rows[i], Rederive(w', rows[i]));
    }
  }

  lemma EscapesByIdentity(c: Change, w: World, from: Date, to: Date, rows: seq<Record>, after: seq<Record>)
    requires SameIdentities(rows, after) && NothingEscapes(c, w, from, to, rows)
    ensures NothingEscapes(c, w, from, to, after)
  {
    forall i | 0 <= i < |after| && Refreshable(after[i], from, to)
      ensures CoveredByRefresh(c, w, after[i])
    {
      assert SameIdentity(rows[i], after[i]) && CoveredByRefresh(c, w, rows[i]);
    }
  }

  lemma OneMoreChange(c: Change, w: World, w': World, from: Date, to: Date, before: seq<Record>)
    requires ChangeOf(c, w, w') && UpToDate(w, from, to, before) && NothingEscapes(c, w, from, to, before)
    ensures var after := RowsAfterSave(w', c, from, to, before);
            UpToDate(w', from, to, after) && RefreshedRows(w', [], from, to, after) == after
  {
    hide Rederive;
    IncrementalEqualsFull(c, w, w', from, to, before);
  }

  /** No change of the history lets a row escape; only the identities of the rows matter, so the first store decides. */
  ghost predicate NothingEverEscapes(worlds: seq<World>, changes: seq<Change>, from: Date, to: Date, rows: seq<Record>)
    requires |worlds| == |changes| + 1
  {
    forall k {:trigger changes[k]} :: 0 <= k < |changes| ==> NothingEscapes(changes[k], worlds[k], from, to, rows)
  }

  /**
   Over any history of assignment changes, each followed only by its scoped refresh, the store
   always equals a tenant-wide refresh under the latest configuration, provided nothing escapes.
   */
  lemma {:induction false} ScopedRefreshesNeverDrift(
    worlds: seq<World>, changes: seq<Change>, from: Date, to: Date, rows: seq<Record>)
    requires History(worlds, changes)
    requires UpToDate(worlds[0], from, to, rows) && NothingEverEscapes(worlds, changes, from, to, rows)
    ensures var last := worlds[|changes|];
            var after := RowsAfter(worlds, changes, from, to, rows);
            && UpToDate(last, from, to, after) && SameIdentities(rows, after)
            && RefreshedRows(last, [], from, to, after) == after
    decreases |changes|
  {
    hide Rederive, ChangeOf, RowsAfterSave, NothingEscapes;
    if changes != [] {
      hide UpToDate, Refreshable, Selected, SameIdentity;
      var n := |changes| - 1;
      ScopedRefreshesNeverDrift(worlds[..n + 1], changes[..n], from, to, rows);
      var before := RowsAfter(worlds[..n + 1], changes[..n], from, to, rows);
      EscapesByIdentity(changes[n], worlds[n], from, to, rows, before);
      OneMoreChange(changes[n], worlds[n], worlds[n + 1], from, to, before);
      SaveKeepsIdentities(changes[n], worlds[n + 1], from, to, before);
      IdentitiesCompose(rows, before, RowsAfterSave(worlds[n + 1], changes[n], from, to, before));
    }
  }

  lemma IdentitiesCompose(rows: seq<Record>, before: seq<Record>, after: seq<Record>)
    requires SameIdentities(rows, before) && SameIdentities(before, after)
    ensures SameIdentities(rows, after)
  {
    forall i | 0 <= i < |rows|
      ensures SameIdentity(rows[i], after[i])
    {
      assert SameIdentity(rows[i], before[i]) && SameIdentity(before[i], after[i]);
    }
  }

  /** In particular wherever effective scopes are the current ones, whatever the changes. */
  lemma CurrentScopesNeverDrift(worlds: seq<World>, changes: seq<Change>, from: Date, to: Date, rows: seq<Record>)
    requires History(worlds, changes) && UpToDate(worlds[0], from, to, rows)
    requires forall i :: 0 <= i < |rows| && Refreshable(rows[i], from, to) ==>
               var e := Person(worlds[0], rows[i].employee); EffectiveScope(worlds[0], e, rows[i].date) == e.current
    ensures var last, after := worlds[|changes|], RowsAfter(worlds, changes, from, to, rows);
            UpToDate(last, from, to, after) && RefreshedRows(last, [], from, to, after) == after
  {
    forall k | 0 <= k < |changes|
      ensures NothingEscapes(changes[k], worlds[k], from, to, rows)
    {
      StaffAndScopesStay(worlds, changes, k);
      CurrentScopesSuffice(changes[k], worlds[k], from, to, rows);
    }
    ScopedRefreshesNeverDrift(worlds, changes, from, to, rows);
  }

  lemma {:induction false} StaffAndScopesStay(worlds: seq<World>, changes: seq<Change>, k: nat)
    requires History(worlds, changes) && k < |worlds|
    ensures worlds[k].staff == worlds[0].staff && worlds[k].scopes == worlds[0].scopes
    decreases k
  {
    if k > 0 {
      StaffAndScopesStay(worlds, changes, k - 1);
      assert ChangeOf(changes[k - 1], worlds[k - 1], worlds[k - 1 + 1]);
    }
  }

  // -------------------------------- why current fields must stand for the scope

  const HERE := NO_SCOPE.(branch := Some(1))
  const THERE := NO_SCOPE.(branch := Some(2))
  const STRICT := Policy(1, true, None, None, 0, 0, 0, true, false,
    DEFAULT_RULES.(enabled := true, missingPunch := MissingIsAbsent))
  const FOR_THERE := Assignment(1, STRICT, None, THERE, 100, true, None, None, 0)
  const MOVED_STAFF := Employee(7, "E7", true, HERE)
  const DATED_WORLD := World([], [], map[], [], map[7 := MOVED_STAFF], map[(7, 16) := THERE])
  const DATED_AFTER := DATED_WORLD.(assignments := [FOR_THERE])
  const DATED_ROW := Record(7, 16, Unknown, System, None, None, None, None, 0, 0, 0, 0, false, false)
  const DATED_CHANGE := Change([], 0, None, 0, Some(FOR_THERE))

  lemma DatedRowWasUpToDate()
    ensures Rederive(DATED_WORLD, DATED_ROW) == DATED_ROW
  {
  }

  lemma DatedRowBecomesAbsent()
    ensures Rederive(DATED_AFTER, DATED_ROW).status == Absent
  {
    ResolveWins([FOR_THERE], 7, THERE, 16);
    assert FOR_THERE in DATED_AFTER.assignments && Applies(FOR_THERE, 7, THERE, 16);
    assert AssignmentFor(DATED_AFTER, MOVED_STAFF, 16) == Some(FOR_THERE);
  }

  /**
   When the scope effective on a day differs from the current fields, a scoped refresh can miss
   a row: the new assignment reaches the employee by branch 2, held that day, not now.
   */
  lemma DatedScopeEscapesTheRefresh()
    ensures ChangeOf(DATED_CHANGE, DATED_WORLD, DATED_AFTER) && UpToDate(DATED_WORLD, 16, 16, [DATED_ROW])
    ensures RowsAfterSave(DATED_AFTER, DATED_CHANGE, 16, 16, [DATED_ROW]) == [DATED_ROW]
    ensures RefreshedRows(DATED_AFTER, [], 16, 16, [DATED_ROW])[0].status == Absent
  {
    DatedRowWasUpToDate();
    DatedRowBecomesAbsent();
    hide Rederive;
    assert InsertAt(DATED_CHANGE.rest, 0, DATED_CHANGE.saved) == [FOR_THERE];
    assert TouchedFilters(DATED_CHANGE) == [FilterOf(FOR_THERE)] && !FilterSelects(FilterOf(FOR_THERE), MOVED_STAFF);
    assert RowsAfterSave(DATED_AFTER, DATED_CHANGE, 16, 16, [DATED_ROW])[0] == DATED_ROW;
  }
}
