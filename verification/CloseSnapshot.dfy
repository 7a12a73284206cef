/** The evidence a period close freezes: derived rows, status counts, payroll totals and blockers. */
module CloseSnapshot {
  import opened Basics
  import opened Domain
  import opened Derivation
  import opened Batch

  datatype RegStatus = RegDraft | RegPending | RegApproved | RegRejected | RegCancelled

  /** A correction request; `record` is the table position of the attendance row it is about. */
  datatype Regularization = Regularization(
    record: nat, status: RegStatus, requestedStatus: Status,
    requestedIn: Option<int>, requestedOut: Option<int>, reason: string)

  datatype PeriodScope = PeriodScope(entity: Id, from: Date, until: Date)

  function EntityOf(w: World, employee: Id): Option<Id> {
    Person(w, employee).current.legalEntity
  }

  predicate InScope(w: World, r: Record, p: PeriodScope) {
    EntityOf(w, r.employee) == Some(p.entity) && p.from <= r.date <= p.until
  }

  datatype SnapshotRow = SnapshotRow(record: nat, employee: Id, code: string, date: Date, status: Status, units: Units)

  /** Two snapshots have the same hash exactly when they are the same snapshot. */
  datatype Snapshot = Snapshot(
    scope: PeriodScope, rows: seq<SnapshotRow>, statusCounts: multiset<Status>,
    payable: nat, lop: nat, employees: nat, pending: nat, unknown: nat)

  function Page(w: World, records: seq<Record>, p: PeriodScope): seq<Record> {
    if records == [] then []
    else
      var init := Page(w, records[..|records| - 1], p);
      var r := records[|records| - 1];
      if InScope(w, r, p) then init + [r] else init
  }

  function RowFor(w: World, ctx: Context, i: nat, r: Record): SnapshotRow {
    SnapshotRow(i, r.employee, Person(w, r.employee).code, r.date, r.status, ContextUnits(w, ctx, r))
  }

  function RowsOf(w: World, ctx: Context, records: seq<Record>, p: PeriodScope): seq<SnapshotRow> {
    if records == [] then []
    else
      var n := |records| - 1;
      var init := RowsOf(w, ctx, records[..n], p);
      if InScope(w, records[n], p) then init + [RowFor(w, ctx, n, records[n])] else init
  }

  function StatusCounts(rows: seq<SnapshotRow>): multiset<Status> {
    if rows == [] then multiset{}
    else StatusCounts(rows[..|rows| - 1]) + multiset{rows[|rows| - 1].status}
  }

  function PayableTotal(rows: seq<SnapshotRow>): nat {
    if rows == [] then 0 else PayableTotal(rows[..|rows| - 1]) + rows[|rows| - 1].units.payable
  }

  function LopTotal(rows: seq<SnapshotRow>): nat {
    if rows == [] then 0 else LopTotal(rows[..|rows| - 1]) + rows[|rows| - 1].units.lop
  }

  function UnknownCount(rows: seq<SnapshotRow>): nat {
    if rows == [] then 0
    else UnknownCount(rows[..|rows| - 1]) + (if rows[|rows| - 1].status.Unknown? then 1 else 0)
  }

  function EmployeesOf(rows: seq<SnapshotRow>): set<Id> {
    set k | 0 <= k < |rows| :: rows[k].employee
  }

  predicate PendingInScope(w: World, records: seq<Record>, g: Regularization, p: PeriodScope) {
    g.status.RegPending? && g.record < |records| && InScope(w, records[g.record], p)
  }

  function PendingCount(w: World, records: seq<Record>, regs: seq<Regularization>, p: PeriodScope): nat {
    if regs == [] then 0
    else
      PendingCount(w, records, regs[..|regs| - 1], p)
      + (if PendingInScope(w, records, regs[|regs| - 1], p) then 1 else 0)
  }

  function SnapshotOf(w: World, records: seq<Record>, regs: seq<Regularization>, p: PeriodScope): Snapshot {
    var rows := RowsOf(w, ForRecords(w, Page(w, records, p)), records, p);
    Snapshot(p, rows, StatusCounts(rows), PayableTotal(rows), LopTotal(rows), |EmployeesOf(rows)|,
      PendingCount(w, records, regs, p), UnknownCount(rows))
  }

  function Blockers(s: Snapshot): nat {
    s.pending + s.unknown
  }

  method FetchPage(w: World, records: seq<Record>, p: PeriodScope) returns (page: seq<Record>)
    ensures page == Page(w, records, p)
    ensures forall r :: r in page <==> r in records && InScope(w, r, p)
  {
    page := [];
    for i := 0 to |records|
      invariant page == Page(w, records[..i], p)
      invariant forall r :: r in page <==> r in records[..i] && InScope(w, r, p)
    {
      assert records[..i + 1] == records[..i] + [records[i]];
      assert records[..i + 1][..i] == records[..i];
      if InScope(w, records[i], p) {
        page := page + [records[i]];
      }
    }
    assert records[..|records|] == records;
  }

  method CountPending(w: World, records: seq<Record>, regs: seq<Regularization>, p: PeriodScope) returns (pending: nat)
    ensures pending == PendingCount(w, records, regs, p)
  {
    pending := 0;
    for i := 0 to |regs|
      invariant pending == PendingCount(w, records, regs[..i], p)
    {
      assert regs[..i + 1][..i] == regs[..i];
      if PendingInScope(w, records, regs[i], p) {
        pending := pending + 1;
      }
    }
    assert regs[..|regs|] == regs;
  }

  datatype Totals = Totals(statusCounts: multiset<Status>, payable: nat, lop: nat, unknown: nat)

  function TotalsOf(rows: seq<SnapshotRow>): Totals {
    Totals(StatusCounts(rows), PayableTotal(rows), LopTotal(rows), UnknownCount(rows))
  }

  lemma TotalsGrow(rows: seq<SnapshotRow>, row: SnapshotRow)
    ensures var t := TotalsOf(rows);
            TotalsOf(rows + [row]) == Totals(t.statusCounts + multiset{row.status}, t.payable + row.units.payable,
              t.lop + row.units.lop, t.unknown + (if row.status.Unknown? then 1 else 0))
  {
    assert (rows + [row])[..|rows|] == rows;
  }

  /** One pass over the rows with running totals. */
  method BuildRows(w: World, ctx: Context, records: seq<Record>, p: PeriodScope)
    returns (rows: seq<SnapshotRow>, totals: Totals)
    ensures rows == RowsOf(w, ctx, records, p) && totals == TotalsOf(rows)
  {
    rows := [];
    var statusCounts: multiset<Status> := multiset{};
    var payable: nat, lop: nat, unknown: nat := 0, 0, 0;
    for i := 0 to |records|
      invariant rows == RowsOf(w, ctx, records[..i], p)
      invariant Totals(statusCounts, payable, lop, unknown) == TotalsOf(rows)
    {
      assert records[..i + 1][..i] == records[..i];
      if InScope(w, records[i], p) {
        var row := RowFor(w, ctx, i, records[i]);
        TotalsGrow(rows, row);
        rows := rows + [row];
        statusCounts := statusCounts + multiset{row.status};
        payable, lop := payable + row.units.payable, lop + row.units.lop;
        if row.status.Unknown? {
          unknown := unknown + 1;
        }
      }
    }
    assert records[..|records|] == records;
    totals := Totals(statusCounts, payable, lop, unknown);
  }

  /** Absent rows of the period whose day the schedule calls a working day. */
  function WorkingAbsences(w: World, ctx: Context, records: seq<Record>, p: PeriodScope): nat {
    if records == [] then 0
    else
      var n := |records| - 1;
      WorkingAbsences(w, ctx, records[..n], p) + (if IsWorkingAbsence(w, ctx, records[n], p) then 1 else 0)
  }

  predicate IsWorkingAbsence(w: World, ctx: Context, r: Record, p: PeriodScope) {
    && InScope(w, r, p) && r.status.Absent?
    && ContextWorkDay(ctx, Person(w, r.employee), r.date).kind.WorkingDay?
  }

  /** Rows of the period with the status. */
  function PeriodRowsWith(w: World, records: seq<Record>, p: PeriodScope, status: Status): nat {
    if records == [] then 0
    else
      var n := |records| - 1;
      PeriodRowsWith(w, records[..n], p, status)
        + (if InScope(w, records[n], p) && records[n].status == status then 1 else 0)
  }

  /** Rows of the period that are paid a whole day. */
  function PaidRows(w: World, records: seq<Record>, p: PeriodScope): nat {
    PeriodRowsWith(w, records, p, Present) + PeriodRowsWith(w, records, p, Late) + PeriodRowsWith(w, records, p, Remote)
  }

  /** What the payroll totals freeze, counted on the attendance rows themselves. */
  ghost predicate TotalsMean(w: World, records: seq<Record>, p: PeriodScope, payable: nat, lop: nat) {
    var half := PeriodRowsWith(w, records, p, HalfDay);
    && payable == 50 * half + 100 * PaidRows(w, records, p)
    && lop == 50 * half + 100 * WorkingAbsences(w, ForRecords(w, Page(w, records, p)), records, p)
  }

  method BuildSnapshot(w: World, records: seq<Record>, regs: seq<Regularization>, p: PeriodScope) returns (s: Snapshot)
    ensures s == SnapshotOf(w, records, regs, p)
    ensures TotalsMean(w, records, p, s.payable, s.lop)
  {
    var page := FetchPage(w, records, p);
    var rows, totals := BuildRows(w, ForRecords(w, page), records, p);
    var pending := CountPending(w, records, regs, p);
    s := Snapshot(p, rows, totals.statusCounts, totals.payable, totals.lop, |EmployeesOf(rows)|, pending,
      totals.unknown);
    SnapshotTotals(w, records, regs, p);
  }

  // ------------------------------------------------------------- conservation

  /** The statuses that carry a whole day between payable and loss of pay. */
  predicate CarriesUnits(row: SnapshotRow) {
    row.units.payable + row.units.lop == 100
  }

  function CarryingRows(rows: seq<SnapshotRow>): nat {
    if rows == [] then 0
    else CarryingRows(rows[..|rows| - 1]) + (if CarriesUnits(rows[|rows| - 1]) then 1 else 0)
  }

  function RowsWith(rows: seq<SnapshotRow>, status: Status): nat {
    if rows == [] then 0
    else RowsWith(rows[..|rows| - 1], status) + (if rows[|rows| - 1].status == status then 1 else 0)
  }

  ghost predicate Derived(w: World, ctx: Context, records: seq<Record>, rows: seq<SnapshotRow>) {
    forall k :: 0 <= k < |rows| ==>
      && rows[k].record < |records|
      && rows[k] == RowFor(w, ctx, rows[k].record, records[rows[k].record])
  }

  lemma {:induction false} RowsAreDerived(w: World, ctx: Context, records: seq<Record>, p: PeriodScope)
    ensures Derived(w, ctx, records, RowsOf(w, ctx, records, p))
  {
    if records != [] {
      RowsAreDerived(w, ctx, records[..|records| - 1], p);
    }
  }

  /** Conservation over any rows whose units were derived: counts, totals and whole days add up. */
  lemma {:induction false} RowsConserve(rows: seq<SnapshotRow>)
    requires forall k :: 0 <= k < |rows| ==> rows[k].units.payable + rows[k].units.lop in {0, 100}
    ensures |StatusCounts(rows)| == |rows|
    ensures forall s :: StatusCounts(rows)[s] == RowsWith(rows, s)
    ensures PayableTotal(rows) + LopTotal(rows) == 100 * CarryingRows(rows)
    ensures CarryingRows(rows) <= |rows|
    ensures UnknownCount(rows) == RowsWith(rows, Unknown)
  {
    if rows != [] {
      RowsConserve(rows[..|rows| - 1]);
    }
  }

  /**
   A snapshot's status counts sum to its record count, and payable plus loss of pay is one whole
   day for each row that is paid, half paid, or absent on a working day, so never more than a day a row.
   */
  lemma SnapshotConserves(w: World, records: seq<Record>, regs: seq<Regularization>, p: PeriodScope)
    ensures var s := SnapshotOf(w, records, regs, p);
            var ctx := ForRecords(w, Page(w, records, p));
            && |s.statusCounts| == |s.rows|
            && (forall st :: s.statusCounts[st] == RowsWith(s.rows, st))
            && s.payable + s.lop == 100 * CarryingRows(s.rows) <= 100 * |s.rows|
            && s.unknown == s.statusCounts[Unknown]
            && forall k :: 0 <= k < |s.rows| ==>
                 (CarriesUnits(s.rows[k]) <==>
                   || s.rows[k].status in {Present, Late, Remote, HalfDay}
                   || (s.rows[k].status.Absent?
                       && ContextWorkDay(ctx, Person(w, s.rows[k].employee), s.rows[k].date).kind.WorkingDay?))
  {
    var ctx := ForRecords(w, Page(w, records, p));
    var rows := RowsOf(w, ctx, records, p);
    RowsAreDerived(w, ctx, records, p);
    forall k | 0 <= k < |rows|
      ensures rows[k].units.payable + rows[k].units.lop in {0, 100}
      ensures CarriesUnits(rows[k]) <==>
              || rows[k].status in {Present, Late, Remote, HalfDay}
              || (rows[k].status.Absent?
                   && ContextWorkDay(ctx, Person(w, rows[k].employee), rows[k].date).kind.WorkingDay?)
    {
      var r := records[rows[k].record];
      UnitsAreAWholeDayOrNothing(r.status, ContextWorkDay(ctx, Person(w, r.employee), r.date).kind);
    }
    RowsConserve(rows);
  }

  /** The units of one row, by status and working day. */
  lemma UnitsOfRow(w: World, ctx: Context, r: Record)
    ensures var u := ContextUnits(w, ctx, r);
            && u.payable == (if r.status in {Present, Late, Remote} then 100 else if r.status.HalfDay? then 50 else 0)
            && var working := ContextWorkDay(ctx, Person(w, r.employee), r.date).kind.WorkingDay?;
            u.lop == (if r.status.HalfDay? then 50 else if r.status.Absent? && working then 100 else 0)
  {
    hide ContextWorkDay, Person;
  }

  lemma OneMoreRecord(w: World, ctx: Context, records: seq<Record>, p: PeriodScope)
    requires records != []
    ensures var n := |records| - 1;
            var r, inside := records[n], InScope(w, records[n], p);
            && PaidRows(w, records, p)
                 == PaidRows(w, records[..n], p) + (if inside && r.status in {Present, Late, Remote} then 1 else 0)
            && PeriodRowsWith(w, records, p, HalfDay)
                 == PeriodRowsWith(w, records[..n], p, HalfDay) + (if inside && r.status.HalfDay? then 1 else 0)
            && WorkingAbsences(w, ctx, records, p)
                 == WorkingAbsences(w, ctx, records[..n], p) + (if IsWorkingAbsence(w, ctx, r, p) then 1 else 0)
  {
    hide InScope, IsWorkingAbsence;
  }

  lemma OneMoreRow(w: World, ctx: Context, records: seq<Record>, p: PeriodScope)
    requires records != []
    ensures var n := |records| - 1;
            var before, after := RowsOf(w, ctx, records[..n], p), RowsOf(w, ctx, records, p);
            var u := ContextUnits(w, ctx, records[n]);
            && PayableTotal(after) == PayableTotal(before) + (if InScope(w, records[n], p) then u.payable else 0)
            && LopTotal(after) == LopTotal(before) + (if InScope(w, records[n], p) then u.lop else 0)
  {
    hide InScope, ContextUnits;
    var n := |records| - 1;
    if InScope(w, records[n], p) {
      TotalsGrow(RowsOf(w, ctx, records[..n], p), RowFor(w, ctx, n, records[n]));
    }
  }

  lemma {:induction false} RowTotals(w: World, ctx: Context, records: seq<Record>, p: PeriodScope)
    ensures var rows := RowsOf(w, ctx, records, p);
            var half := PeriodRowsWith(w, records, p, HalfDay);
            && PayableTotal(rows) == 50 * half + 100 * PaidRows(w, records, p)
            && LopTotal(rows) == 50 * half + 100 * WorkingAbsences(w, ctx, records, p)
  {
    if records != [] {
      var n := |records| - 1;
      RowTotals(w, ctx, records[..n], p);
      OneMoreRecord(w, ctx, records, p);
      OneMoreRow(w, ctx, records, p);
      UnitsOfRow(w, ctx, records[n]);
      hide InScope, ContextUnits, ContextWorkDay, Person, RowsOf, PeriodRowsWith, WorkingAbsences, PaidRows,
        PayableTotal, LopTotal;
    }
  }

  /**
   The frozen totals: a day for each present, late or remote row and half a day for each half day are
   payable; half a day for each half day and a day for each absence on a working day are lost.
   */
  lemma SnapshotTotals(w: World, records: seq<Record>, regs: seq<Regularization>, p: PeriodScope)
    ensures var s := SnapshotOf(w, records, regs, p);
            TotalsMean(w, records, p, s.payable, s.lop)
  {
    RowTotals(w, ForRecords(w, Page(w, records, p)), records, p);
  }

  lemma {:induction false} RequestsCounted(w: World, records: seq<Record>, regs: seq<Regularization>, p: PeriodScope)
    ensures PendingCount(w, records, regs, p) == |set k | 0 <= k < |regs| && PendingInScope(w, records, regs[k], p)|
  {
    if regs != [] {
      var n := |regs| - 1;
      RequestsCounted(w, records, regs[..n], p);
      var before := set k | 0 <= k < n && PendingInScope(w, records, regs[..n][k], p);
      var after := set k | 0 <= k < |regs| && PendingInScope(w, records, regs[k], p);
      assert after == if PendingInScope(w, records, regs[n], p) then before + {n} else before;
    }
  }

  /**
   The rest of the evidence: each row carries its record's employee, the employee's code, the date and
   the status; the employee count is that of the period's rows, the pending count that of its requests.
   */
  lemma SnapshotShowsTheRows(w: World, records: seq<Record>, regs: seq<Regularization>, p: PeriodScope)
    ensures var s := SnapshotOf(w, records, regs, p);
            && s.scope == p
            && (forall k :: 0 <= k < |s.rows| ==>
                 var i := s.rows[k].record;
                 && i < |records|
                 && (s.rows[k].employee, s.rows[k].date, s.rows[k].status)
                      == (records[i].employee, records[i].date, records[i].status)
                 && s.rows[k].code == Person(w, records[i].employee).code)
            && s.employees == |set i | 0 <= i < |records| && InScope(w, records[i], p) :: records[i].employee|
            && s.pending == |set k | 0 <= k < |regs| && PendingInScope(w, records, regs[k], p)|
  {
    var ctx := ForRecords(w, Page(w, records, p));
    var rows := RowsOf(w, ctx, records, p);
    RowsAreDerived(w, ctx, records, p);
    RequestsCounted(w, records, regs, p);
    RowsAreInScope(w, ctx, records, p);
    forall i | 0 <= i < |records| && InScope(w, records[i], p)
      ensures records[i].employee in EmployeesOf(rows)
    {
      RowsHold(w, ctx, records, p, i);
      var k :| 0 <= k < |rows| && rows[k].record == i;
      assert rows[k].employee == records[i].employee;
    }
    assert EmployeesOf(rows) == set i | 0 <= i < |records| && InScope(w, records[i], p) :: records[i].employee;
  }

  // ---------------------------------------------- what zero blockers rule out

  lemma {:induction false} NoPendingCounted(w: World, records: seq<Record>, regs: seq<Regularization>, p: PeriodScope)
    requires PendingCount(w, records, regs, p) == 0
    ensures forall k :: 0 <= k < |regs| ==> !PendingInScope(w, records, regs[k], p)
  {
    if regs != [] {
      NoPendingCounted(w, records, regs[..|regs| - 1], p);
    }
  }

  lemma {:induction false} NoUnknownCounted(w: World, ctx: Context, records: seq<Record>, p: PeriodScope)
    requires UnknownCount(RowsOf(w, ctx, records, p)) == 0
    ensures forall i :: 0 <= i < |records| && InScope(w, records[i], p) ==> !records[i].status.Unknown?
  {
    if records != [] {
      var n := |records| - 1;
      var init := RowsOf(w, ctx, records[..n], p);
      if InScope(w, records[n], p) {
        assert (init + [RowFor(w, ctx, n, records[n])])[..|init|] == init;
      }
      NoUnknownCounted(w, ctx, records[..n], p);
    }
  }

  /** Evidence without blockers: no row in scope is unresolved and none awaits a correction. */
  lemma ZeroBlockersMeansResolved(w: World, records: seq<Record>, regs: seq<Regularization>, p: PeriodScope)
    requires Blockers(SnapshotOf(w, records, regs, p)) == 0
    ensures forall i :: 0 <= i < |records| && InScope(w, records[i], p) ==> !records[i].status.Unknown?
    ensures forall k :: 0 <= k < |regs| ==> !PendingInScope(w, records, regs[k], p)
  {
    NoPendingCounted(w, records, regs, p);
    NoUnknownCounted(w, ForRecords(w, Page(w, records, p)), records, p);
  }

  // ------------------------------------------ totals and the one-record resolver

  lemma {:induction false} PageHolds(w: World, records: seq<Record>, p: PeriodScope, i: nat)
    requires i < |records| && InScope(w, records[i], p)
    ensures records[i] in Page(w, records, p)
  {
    var n := |records| - 1;
    if i < n {
      PageHolds(w, records[..n], p, i);
    }
  }

  lemma {:induction false} RowsAreInScope(w: World, ctx: Context, records: seq<Record>, p: PeriodScope)
    ensures forall k :: 0 <= k < |RowsOf(w, ctx, records, p)| ==>
              var row := RowsOf(w, ctx, records, p)[k]; row.record < |records| && InScope(w, records[row.record], p)
  {
    if records != [] {
      RowsAreInScope(w, ctx, records[..|records| - 1], p);
    }
  }

  /** Rows refer to records below `bound`, each later row to a later record. */
  ghost predicate Ascending(rows: seq<SnapshotRow>, bound: nat) {
    && (forall k :: 0 <= k < |rows| ==> rows[k].record < bound)
    && forall j, k :: 0 <= j < k < |rows| ==> rows[j].record < rows[k].record
  }

  lemma AscendingGrows(rows: seq<SnapshotRow>, bound: nat, row: SnapshotRow)
    requires Ascending(rows, bound) && row.record == bound
    ensures Ascending(rows + [row], bound + 1)
  {
  }

  lemma {:induction false} RowsAreOrdered(w: World, ctx: Context, records: seq<Record>, p: PeriodScope)
    ensures Ascending(RowsOf(w, ctx, records, p), |records|)
  {
    if records != [] {
      var n := |records| - 1;
      RowsAreOrdered(w, ctx, records[..n], p);
      AscendingGrows(RowsOf(w, ctx, records[..n], p), n, RowFor(w, ctx, n, records[n]));
    }
  }

  lemma {:induction false} RowsHold(w: World, ctx: Context, records: seq<Record>, p: PeriodScope, i: nat)
    requires i < |records| && InScope(w, records[i], p)
    ensures exists k :: 0 <= k < |RowsOf(w, ctx, records, p)| && RowsOf(w, ctx, records, p)[k].record == i
  {
    var n := |records| - 1;
    var init := RowsOf(w, ctx, records[..n], p);
    var rows := RowsOf(w, ctx, records, p);
    if i < n {
      RowsHold(w, ctx, records[..n], p, i);
      var k :| 0 <= k < |init| && init[k].record == i;
      assert rows[k] == init[k];
    } else {
      assert rows[|init|].record == i;
    }
  }

  /** The fetched page and the evidence are the same rows in the same order. */
  lemma {:induction false} PageMatchesRows(w: World, ctx: Context, records: seq<Record>, p: PeriodScope)
    ensures var page, rows := Page(w, records, p), RowsOf(w, ctx, records, p);
            |page| == |rows| && forall k :: 0 <= k < |rows| ==>
              rows[k].record < |records| && page[k] == records[rows[k].record]
  {
    RowsAreDerived(w, ctx, records, p);
    if records != [] {
      PageMatchesRows(w, ctx, records[..|records| - 1], p);
    }
  }

  /** The evidence lists every attendance row of the period, each exactly once, and no other row. */
  lemma SnapshotCoversThePeriod(w: World, records: seq<Record>, regs: seq<Regularization>, p: PeriodScope, i: nat)
    requires i < |records|
    ensures var rows := SnapshotOf(w, records, regs, p).rows;
            && (InScope(w, records[i], p) <==> exists k :: 0 <= k < |rows| && rows[k].record == i)
            && Ascending(rows, |records|)
  {
    var ctx := ForRecords(w, Page(w, records, p));
    RowsAreInScope(w, ctx, records, p);
    RowsAreOrdered(w, ctx, records, p);
    if InScope(w, records[i], p) {
      RowsHold(w, ctx, records, p, i);
    }
  }

  /**
   The units a close freezes for a row are those the one-record resolver gives wherever the two
   policy lookups agree over the tables.
   */
  lemma SnapshotMatchesSingle(w: World, records: seq<Record>, regs: seq<Regularization>, p: PeriodScope, k: nat)
    requires DistinctSortKeys(w) && k < |SnapshotOf(w, records, regs, p).rows|
    ensures var row := SnapshotOf(w, records, regs, p).rows[k];
            && row.record < |records|
            && (var e, d := Person(w, row.employee), row.date;
               LookupsAgree(w, e, d) || LeadsShareAPolicy(w, e, d) ==> row.units == SingleUnits(w, records[row.record]))
  {
    var page := Page(w, records, p);
    var ctx := ForRecords(w, page);
    RowsAreDerived(w, ctx, records, p);
    RowsAreInScope(w, ctx, records, p);
    var row := RowsOf(w, ctx, records, p)[k];
    PageHolds(w, records, p, row.record);
    var j :| 0 <= j < |page| && page[j] == records[row.record];
    BatchAgreesWithSingle(w, w, page, j);
  }
}
