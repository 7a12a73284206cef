/** Bulk rollout of a roster template, with its dry run. */
module Rollout {
  import opened Basics
  import opened Domain
  import opened RosterConfig
  import opened Rosters

  datatype Template = Template(shift: Shift, kind: AssignmentKind, config: RawConfig)

  datatype Window = Window(from: Date, until: Option<Date>, primary: bool)

  datatype ItemStatus = Skipped | Ready | Created

  datatype Item = Item(employee: Id, status: ItemStatus)

  predicate WindowsOverlap(startA: Date, endA: Option<Date>, startB: Date, endB: Option<Date>) {
    startA <= LastDay(endB) && startB <= LastDay(endA)
  }

  /** A primary candidate is blocked by any overlapping primary assignment of the employee. */
  predicate Blocked(rows: seq<ShiftAssignment>, employee: Id, w: Window) {
    exists i :: 0 <= i < |rows| && rows[i].employee == employee && BlocksWindow(rows[i], w)
  }

  predicate BlocksWindow(a: ShiftAssignment, w: Window) {
    w.primary && a.primary && WindowsOverlap(w.from, w.until, a.from, a.until)
  }

  function ItemFor(rows: seq<ShiftAssignment>, employee: Id, w: Window, dryRun: bool): Item {
    Item(employee, if Blocked(rows, employee, w) then Skipped else if dryRun then Ready else Created)
  }

  function NewAssignment(id: Id, employee: Id, t: Template, w: Window, now: int): ShiftAssignment {
    ShiftAssignment(id, employee, t.shift, t.kind, w.from, w.until, w.primary, now,
      ToRaw(Normalize(t.config, Some(t.shift.id), Some(w.from))))
  }

  /** Two primary assignments of one employee never cover the same date. */
  ghost predicate PrimariesDisjoint(rows: seq<ShiftAssignment>) {
    forall i, j, d: Date :: 0 <= i < |rows| && 0 <= j < |rows| && i != j ==> !DoublyCovered(rows[i], rows[j], d)
  }

  predicate DoublyCovered(a: ShiftAssignment, b: ShiftAssignment, d: Date) {
    a.primary && b.primary && a.employee == b.employee && CoversDay(a, d) && CoversDay(b, d)
  }

  datatype Progress = Progress(rows: seq<ShiftAssignment>, items: seq<Item>, created: nat, skipped: nat)

  /** One employee's turn, checked against the table as it has grown so far. */
  function Advance(p: Progress, e: Id, t: Template, w: Window, now: int, dryRun: bool): Progress {
    var item := ItemFor(p.rows, e, w, dryRun);
    var skip := item.status.Skipped?;
    Progress(
      if item.status.Created? then p.rows + [NewAssignment(|p.rows|, e, t, w, now)] else p.rows,
      p.items + [item],
      if skip then p.created else p.created + 1,
      if skip then p.skipped + 1 else p.skipped)
  }

  function RollOutAll(
    rows: seq<ShiftAssignment>, employees: seq<Id>, t: Template, w: Window, now: int, dryRun: bool): Progress
  {
    if employees == [] then Progress(rows, [], 0, 0)
    else
      var n := |employees| - 1;
      Advance(RollOutAll(rows, employees[..n], t, w, now, dryRun), employees[n], t, w, now, dryRun)
  }

  /** The rows created for the employees that `before` does not block, in order. */
  function AddedRows(
    before: seq<ShiftAssignment>, employees: seq<Id>, t: Template, w: Window, now: int, id: nat): seq<ShiftAssignment>
  {
    if employees == [] then []
    else if Blocked(before, employees[0], w) then AddedRows(before, employees[1..], t, w, now, id)
    else [NewAssignment(id, employees[0], t, w, now)] + AddedRows(before, employees[1..], t, w, now, id + 1)
  }

  ghost predicate DistinctEmployees(employees: seq<Id>) {
    forall i, j :: 0 <= i < j < |employees| ==> employees[i] != employees[j]
  }

  /** The table of shift assignments that rollouts extend. */
  class RosterBook {
    var assignments: seq<ShiftAssignment>

    constructor ()
      ensures assignments == []
    {
      assignments := [];
    }

    /** The conflict loop of one employee. */
    method HasBlockingConflict(employee: Id, w: Window) returns (blocking: bool)
      ensures blocking <==> Blocked(assignments, employee, w)
    {
      blocking := false;
      for i := 0 to |assignments|
        invariant blocking <==>
                    exists k :: 0 <= k < i && assignments[k].employee == employee && BlocksWindow(assignments[k], w)
      {
        if assignments[i].employee == employee && BlocksWindow(assignments[i], w) {
          blocking := true;
        }
      }
    }

    /** One employee's turn: skip, report ready, or create the assignment. */
    method Visit(t: Template, w: Window, employee: Id, now: int, dryRun: bool) returns (item: Item)
      modifies this
      ensures item == ItemFor(old(assignments), employee, w, dryRun)
      ensures assignments == if item.status.Created?
                             then old(assignments) + [NewAssignment(|old(assignments)|, employee, t, w, now)]
                             else old(assignments)
    {
      var blocking := HasBlockingConflict(employee, w);
      if blocking {
        return Item(employee, Skipped);
      }
      if dryRun {
        return Item(employee, Ready);
      }
      assignments := assignments + [NewAssignment(|assignments|, employee, t, w, now)];
      return Item(employee, Created);
    }

    /** One pass over the employees; only a real run writes. */
    method RollOut(t: Template, w: Window, employees: seq<Id>, now: int, dryRun: bool)
      returns (items: seq<Item>, created: nat, skipped: nat, anyBlocked: bool)
      modifies this
      ensures Progress(assignments, items, created, skipped)
              == RollOutAll(old(assignments), employees, t, w, now, dryRun)
      ensures anyBlocked <==> skipped > 0
    {
      items, created, skipped, anyBlocked := [], 0, 0, false;
      for i := 0 to |employees|
        invariant Progress(assignments, items, created, skipped)
                  == RollOutAll(old(assignments), employees[..i], t, w, now, dryRun)
        invariant anyBlocked <==> skipped > 0
      {
        assert employees[..i + 1][..i] == employees[..i];
        var item := Visit(t, w, employees[i], now, dryRun);
        if item.status.Skipped? {
          anyBlocked, skipped := true, skipped + 1;
        } else {
          created := created + 1;
        }
        items := items + [item];
      }
      assert employees[..|employees|] == employees;
    }
  }

  // ------------------------------------------------------------------ lemmas

  lemma {:induction false} AddedRowsAvoid(
    before: seq<ShiftAssignment>, employees: seq<Id>, t: Template, w: Window, now: int, id: nat, e: Id)
    requires e !in employees
    ensures forall a :: a in AddedRows(before, employees, t, w, now, id) ==> a.employee != e
    decreases |employees|
  {
    if employees != [] {
      AddedRowsAvoid(before, employees[1..], t, w, now, id, e);
      AddedRowsAvoid(before, employees[1..], t, w, now, id + 1, e);
    }
  }

  /**
   An employee is blocked exactly when the rollout is primary and one of the employee's primary
   assignments covers a date of its window.
   */
  lemma BlockedIsExact(rows: seq<ShiftAssignment>, employee: Id, w: Window)
    requires w.from <= LastDay(w.until)
    requires forall i :: 0 <= i < |rows| ==> rows[i].from <= LastDay(rows[i].until)
    ensures Blocked(rows, employee, w) <==>
              w.primary && exists i, d: Date :: 0 <= i < |rows| && CoversForEmployee(rows[i], employee, w, d)
  {
    if Blocked(rows, employee, w) {
      var i :| 0 <= i < |rows| && rows[i].employee == employee && BlocksWindow(rows[i], w);
      var d: Date := if w.from < rows[i].from then rows[i].from else w.from;
      assert CoversForEmployee(rows[i], employee, w, d);
    } else if w.primary && exists i, d: Date :: 0 <= i < |rows| && CoversForEmployee(rows[i], employee, w, d) {
      var i, d: Date :| 0 <= i < |rows| && CoversForEmployee(rows[i], employee, w, d);
      assert BlocksWindow(rows[i], w);
    }
  }

  predicate CoversForEmployee(a: ShiftAssignment, employee: Id, w: Window, d: Date) {
    a.primary && a.employee == employee && CoversDay(a, d) && w.from <= d <= LastDay(w.until)
  }

  lemma AppendedRowsOfOthers(before: seq<ShiftAssignment>, added: seq<ShiftAssignment>, e: Id, w: Window)
    requires forall a :: a in added ==> a.employee != e
    ensures Blocked(before + added, e, w) <==> Blocked(before, e, w)
  {
    var rows := before + added;
    if Blocked(before, e, w) {
      var i :| 0 <= i < |before| && before[i].employee == e && BlocksWindow(before[i], w);
      assert rows[i] == before[i];
    }
    forall i | |before| <= i < |rows|
      ensures rows[i].employee != e
    {
      assert rows[i] in added;
    }
    assert forall i :: 0 <= i < |before| ==> before[i] == rows[i];
  }

  lemma {:induction false} AddedRowsStep(
    before: seq<ShiftAssignment>, employees: seq<Id>, t: Template, w: Window, now: int, id: nat, e: Id)
    ensures var sofar := AddedRows(before, employees, t, w, now, id);
            AddedRows(before, employees + [e], t, w, now, id)
              == if Blocked(before, e, w) then sofar else sofar + [NewAssignment(id + |sofar|, e, t, w, now)]
    decreases |employees|
  {
    hide NewAssignment, Blocked;
    if employees != [] {
      assert (employees + [e])[1..] == employees[1..] + [e];
      if Blocked(before, employees[0], w) {
        AddedRowsStep(before, employees[1..], t, w, now, id, e);
      } else {
        AddedRowsStep(before, employees[1..], t, w, now, id + 1, e);
      }
    }
  }

  /** Checking the growing table gives the same answer as checking the table the rollout started with. */
  lemma RolloutStep(before: seq<ShiftAssignment>, visited: seq<Id>, t: Template, w: Window, now: int, e: Id)
    requires e !in visited
    ensures var grown := before + AddedRows(before, visited, t, w, now, |before|);
            && (Blocked(grown, e, w) <==> Blocked(before, e, w))
            && before + AddedRows(before, visited + [e], t, w, now, |before|)
                 == if Blocked(before, e, w) then grown else grown + [NewAssignment(|grown|, e, t, w, now)]
  {
    hide AddedRows, NewAssignment, Blocked;
    AddedRowsAvoid(before, visited, t, w, now, |before|, e);
    AppendedRowsOfOthers(before, AddedRows(before, visited, t, w, now, |before|), e, w);
    AddedRowsStep(before, visited, t, w, now, |before|, e);
  }

  /** What a rollout over distinct employees does, stated against the table it started with. */
  ghost predicate RolledOut(
    before: seq<ShiftAssignment>, employees: seq<Id>, t: Template, w: Window, now: int, dryRun: bool, p: Progress)
  {
    && |p.items| == |employees| == p.created + p.skipped
    && (forall k :: 0 <= k < |p.items| ==> p.items[k] == ItemFor(before, employees[k], w, dryRun))
    && p.rows == if dryRun then before else before + AddedRows(before, employees, t, w, now, |before|)
  }

  lemma {:induction false} RolloutMeaning(
    before: seq<ShiftAssignment>, employees: seq<Id>, t: Template, w: Window, now: int, dryRun: bool)
    requires DistinctEmployees(employees)
    ensures RolledOut(before, employees, t, w, now, dryRun, RollOutAll(before, employees, t, w, now, dryRun))
  {
    hide NewAssignment, Blocked;
    if employees != [] {
      var n := |employees| - 1;
      RolloutMeaning(before, employees[..n], t, w, now, dryRun);
      assert employees == employees[..n] + [employees[n]];
      assert employees[n] !in employees[..n];
      RolloutStep(before, employees[..n], t, w, now, employees[n]);
    }
  }

  lemma NewRowShape(id: Id, e: Id, t: Template, w: Window, now: int)
    ensures var a := NewAssignment(id, e, t, w, now);
            a.employee == e && a.from == w.from && a.until == w.until && a.primary == w.primary
  {
  }

  /** A new row of an employee that `rows` does not block shares no date with its primaries. */
  lemma NewRowKeepsDisjoint(rows: seq<ShiftAssignment>, a: ShiftAssignment, w: Window)
    requires PrimariesDisjoint(rows) && !Blocked(rows, a.employee, w)
    requires a.from == w.from && a.until == w.until && a.primary == w.primary
    ensures PrimariesDisjoint(rows + [a])
  {
    forall i, d: Date | 0 <= i < |rows|
      ensures !DoublyCovered(rows[i], a, d) && !DoublyCovered(a, rows[i], d)
    {
      assert !(rows[i].employee == a.employee && BlocksWindow(rows[i], w));
    }
  }

  /**
   A rollout never makes two primary assignments of one employee cover a date, even if an employee is
   listed twice.
   */
  lemma {:induction false} RolloutKeepsPrimariesDisjoint(
    before: seq<ShiftAssignment>, employees: seq<Id>, t: Template, w: Window, now: int, dryRun: bool)
    requires PrimariesDisjoint(before)
    ensures PrimariesDisjoint(RollOutAll(before, employees, t, w, now, dryRun).rows)
  {
    if employees != [] {
      var n := |employees| - 1;
      RolloutKeepsPrimariesDisjoint(before, employees[..n], t, w, now, dryRun);
      var p := RollOutAll(before, employees[..n], t, w, now, dryRun);
      if ItemFor(p.rows, employees[n], w, dryRun).status.Created? {
        NewRowShape(|p.rows|, employees[n], t, w, now);
        NewRowKeepsDisjoint(p.rows, NewAssignment(|p.rows|, employees[n], t, w, now), w);
      }
    }
  }

  lemma BlockedStaysBlocked(rows: seq<ShiftAssignment>, more: seq<ShiftAssignment>, e: Id, w: Window)
    requires rows <= more && Blocked(rows, e, w)
    ensures Blocked(more, e, w)
  {
    var i :| 0 <= i < |rows| && rows[i].employee == e && BlocksWindow(rows[i], w);
    assert more[i] == rows[i];
  }

  /** One employee's turn in a real primary rollout leaves the employee blocked. */
  lemma TurnBlocks(p: Progress, e: Id, t: Template, w: Window, now: int)
    requires w.primary && w.from <= LastDay(w.until)
    ensures p.rows <= Advance(p, e, t, w, now, false).rows && Blocked(Advance(p, e, t, w, now, false).rows, e, w)
  {
    var after := Advance(p, e, t, w, now, false).rows;
    if !Blocked(p.rows, e, w) {
      NewRowShape(|p.rows|, e, t, w, now);
      assert after[|p.rows|].employee == e && BlocksWindow(after[|p.rows|], w);
    }
  }

  /** After a real primary rollout over an ordered window, every targeted employee is blocked. */
  lemma {:induction false} RolledOutEmployeesAreBlocked(
    before: seq<ShiftAssignment>, employees: seq<Id>, t: Template, w: Window, now: int, k: nat)
    requires w.primary && w.from <= LastDay(w.until)
    requires k < |employees|
    ensures Blocked(RollOutAll(before, employees, t, w, now, false).rows, employees[k], w)
  {
    hide Advance, Blocked;
    var n := |employees| - 1;
    var p := RollOutAll(before, employees[..n], t, w, now, false);
    TurnBlocks(p, employees[n], t, w, now);
    if k < n {
      RolledOutEmployeesAreBlocked(before, employees[..n], t, w, now, k);
      BlockedStaysBlocked(p.rows, RollOutAll(before, employees, t, w, now, false).rows, employees[k], w);
    }
  }

  /** Repeating a primary rollout creates nothing and changes nothing, whatever the list of employees. */
  lemma RepeatCreatesNothing(
    before: seq<ShiftAssignment>, employees: seq<Id>, t: Template, w: Window, now: int, later: int)
    requires w.primary && w.from <= LastDay(w.until)
    ensures var once := RollOutAll(before, employees, t, w, now, false);
            var again := RollOutAll(once.rows, employees, t, w, later, false);
            again.rows == once.rows && again.created == 0 && again.skipped == |employees|
  {
    var after := RollOutAll(before, employees, t, w, now, false).rows;
    forall k | 0 <= k < |employees|
      ensures Blocked(after, employees[k], w)
    {
      RolledOutEmployeesAreBlocked(before, employees, t, w, now, k);
    }
    AllBlocked(after, employees, t, w, later);
  }

  lemma {:induction false} AllBlocked(rows: seq<ShiftAssignment>, employees: seq<Id>, t: Template, w: Window, now: int)
    requires forall k :: 0 <= k < |employees| ==> Blocked(rows, employees[k], w)
    ensures var p := RollOutAll(rows, employees, t, w, now, false);
            p.rows == rows && p.created == 0 && p.skipped == |employees|
  {
    if employees != [] {
      AllBlocked(rows, employees[..|employees| - 1], t, w, now);
    }
  }

  /** The dry run predicts the real run employee by employee and in its counts, and leaves the table alone. */
  lemma DryRunPredicts(before: seq<ShiftAssignment>, employees: seq<Id>, t: Template, w: Window, now: int)
    requires DistinctEmployees(employees)
    ensures var dry := RollOutAll(before, employees, t, w, now, true);
            var run := RollOutAll(before, employees, t, w, now, false);
            && dry.rows == before
            && dry.created == run.created && dry.skipped == run.skipped
            && run.created + run.skipped == |employees| == |run.items| == |dry.items|
            && |run.rows| == |before| + run.created
            && forall k :: 0 <= k < |employees| ==>
                 && run.items[k].employee == dry.items[k].employee == employees[k]
                 && (run.items[k].status.Created? <==> dry.items[k].status.Ready?)
                 && (run.items[k].status.Skipped? <==> dry.items[k].status.Skipped?)
  {
    RolloutMeaning(before, employees, t, w, now, true);
    RolloutMeaning(before, employees, t, w, now, false);
    CountsAgree(before, employees, t, w, now);
  }

  lemma {:induction false} CountsAgree(before: seq<ShiftAssignment>, employees: seq<Id>, t: Template, w: Window,
      now: int)
    requires DistinctEmployees(employees)
    ensures var dry := RollOutAll(before, employees, t, w, now, true);
            var run := RollOutAll(before, employees, t, w, now, false);
            dry.created == run.created && dry.skipped == run.skipped && |run.rows| == |before| + run.created
  {
    if employees != [] {
      var n := |employees| - 1;
      CountsAgree(before, employees[..n], t, w, now);
      RolloutMeaning(before, employees[..n], t, w, now, true);
      RolloutMeaning(before, employees[..n], t, w, now, false);
      assert employees[n] !in employees[..n];
      RolloutStep(before, employees[..n], t, w, now, employees[n]);
    }
  }

  /** The assignment a rollout is asked for, with the template's raw configuration. */
  function Requested(id: Id, employee: Id, t: Template, w: Window, now: int): ShiftAssignment {
    ShiftAssignment(id, employee, t.shift, t.kind, w.from, w.until, w.primary, now, t.config)
  }

  /**
   The row a rollout stores is the one requested except for its configuration, and resolves on
   every date to what the template's raw configuration says.
   */
  lemma RolloutKeepsTemplateMeaning(id: Id, employee: Id, t: Template, w: Window, now: int, d: Date,
      shifts: map<Id, Shift>)
    ensures var created, requested := NewAssignment(id, employee, t, w, now), Requested(id, employee, t, w, now);
            && created.(config := t.config) == requested
            && ResolveShift(created, d, shifts) == ResolveShift(requested, d, shifts)
  {
    var created, requested := NewAssignment(id, employee, t, w, now), Requested(id, employee, t, w, now);
    assert created == requested.(config := ToRaw(Normalize(t.config, Some(t.shift.id), Some(w.from))));
    hide Normalize, ResolveShift, ToRaw;
    StoredConfigKeepsMeaning(requested, d, shifts);
  }
}
