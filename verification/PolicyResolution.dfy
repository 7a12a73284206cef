/**
 Which attendance-policy assignment governs an employee on a date.

 Every live assignment that admits the employee competes; the smallest
 (priority, reversed scope signature, age) wins.
 */
module PolicyResolution {
  import opened Basics
  import opened Domain

  // ---------------------------------------------------------------- matching

  predicate FieldAdmits(expected: Option<Id>, actual: Option<Id>) {
    expected.None? || expected == actual
  }

  predicate ScopeAdmits(expected: OrgScope, actual: OrgScope) {
    && FieldAdmits(expected.legalEntity, actual.legalEntity)
    && FieldAdmits(expected.branch, actual.branch)
    && FieldAdmits(expected.location, actual.location)
    && FieldAdmits(expected.department, actual.department)
    && FieldAdmits(expected.grade, actual.grade)
    && FieldAdmits(expected.employmentType, actual.employmentType)
  }

  /** A named employee overrides any organization filter left on the row. */
  predicate Admits(a: Assignment, employee: Id, actual: OrgScope) {
    if a.employee.Some? then a.employee.value == employee else ScopeAdmits(a.scope, actual)
  }

  /** Every field the scope names is the actual one. */
  predicate Matches(s: OrgScope, actual: OrgScope) {
    && s.legalEntity in {None, actual.legalEntity} && s.branch in {None, actual.branch}
    && s.location in {None, actual.location} && s.department in {None, actual.department}
    && s.grade in {None, actual.grade} && s.employmentType in {None, actual.employmentType}
  }

  /** Whom a row reaches: the employee it names; naming none, everyone whose fields match every filter it has. */
  lemma WhomARowReaches(a: Assignment, employee: Id, actual: OrgScope)
    ensures Admits(a, employee, actual) <==>
              a.employee == Some(employee) || (a.employee.None? && Matches(a.scope, actual))
  {
  }

  predicate InEffect(a: Assignment, d: Date) {
    && (a.from.None? || a.from.value <= d)
    && (a.until.None? || d <= a.until.value)
  }

  predicate Live(a: Assignment) {
    a.active && a.policy.active
  }

  predicate Applies(a: Assignment, employee: Id, actual: OrgScope, d: Date) {
    Live(a) && InEffect(a, d) && Admits(a, employee, actual)
  }

  // ---------------------------------------------------------------- ordering

  datatype Signature = Signature(fields: nat, deepest: nat, total: nat)

  function One(field: Option<Id>): nat {
    if field.Some? then 1 else 0
  }

  function Rank(field: Option<Id>, rank: nat): nat {
    if field.Some? then rank else 0
  }

  function Max(a: nat, b: nat): nat {
    if a < b then b else a
  }

  function ScopeSignature(s: OrgScope): Signature {
    Signature(
      One(s.grade) + One(s.employmentType) + One(s.department) + One(s.location) + One(s.branch) + One(s.legalEntity),
      Max(Rank(s.grade, 5), Max(Rank(s.employmentType, 5), Max(Rank(s.department, 4),
        Max(Rank(s.location, 3), Max(Rank(s.branch, 2), Rank(s.legalEntity, 1)))))),
      Rank(s.grade, 5) + Rank(s.employmentType, 5) + Rank(s.department, 4)
        + Rank(s.location, 3) + Rank(s.branch, 2) + Rank(s.legalEntity, 1))
  }

  function SignatureOf(a: Assignment): Signature {
    if a.employee.Some? then Signature(99, 99, 99) else ScopeSignature(a.scope)
  }

  predicate MoreSpecific(a: Signature, b: Signature) {
    || a.fields > b.fields
    || (a.fields == b.fields && (a.deepest > b.deepest || (a.deepest == b.deepest && a.total > b.total)))
  }

  /** The route an assignment competes on; ties on it are what the conflict preview must exclude. */
  predicate SameRoute(a: Assignment, b: Assignment) {
    a.priority == b.priority && SignatureOf(a) == SignatureOf(b)
  }

  predicate RouteBefore(a: Assignment, b: Assignment) {
    || a.priority < b.priority
    || (a.priority == b.priority && MoreSpecific(SignatureOf(a), SignatureOf(b)))
  }

  predicate Before(a: Assignment, b: Assignment) {
    RouteBefore(a, b) || (SameRoute(a, b) && a.createdAt < b.createdAt)
  }

  // -------------------------------------------------------------- resolution

  function Applicable(rows: seq<Assignment>, employee: Id, actual: OrgScope, d: Date): seq<Assignment> {
    if rows == [] then []
    else
      var init := Applicable(rows[..|rows| - 1], employee, actual, d);
      var row := rows[|rows| - 1];
      if Applies(row, employee, actual, d) then init + [row] else init
  }

  /** The first row that no other row is before. */
  function Best(rows: seq<Assignment>): Option<Assignment> {
    if rows == [] then None
    else
      var init := Best(rows[..|rows| - 1]);
      var row := rows[|rows| - 1];
      if init.None? || Before(row, init.value) then Some(row) else init
  }

  function Resolve(rows: seq<Assignment>, employee: Id, actual: OrgScope, d: Date): Option<Assignment> {
    Best(Applicable(rows, employee, actual, d))
  }

  /** `winner` is what the resolver must return, said without naming an algorithm. */
  ghost predicate Wins(rows: seq<Assignment>, employee: Id, actual: OrgScope, d: Date, winner: Assignment) {
    && winner in rows
    && Applies(winner, employee, actual, d)
    && forall a :: a in rows && Applies(a, employee, actual, d) ==> !Before(a, winner)
  }

  /** Resolver loop: collect the matches, then keep the first minimum. */
  method FindMatchingAssignment(rows: seq<Assignment>, employee: Id, actual: OrgScope, d: Date)
    returns (winner: Option<Assignment>)
    ensures winner == Resolve(rows, employee, actual, d)
    ensures winner.None? <==> forall a :: a in rows ==> !Applies(a, employee, actual, d)
    ensures winner.Some? ==> winner.value in rows && Applies(winner.value, employee, actual, d)
    ensures winner.Some? ==> forall a :: a in rows && Applies(a, employee, actual, d) ==> !Before(a, winner.value)
  {
    var matches := [];
    for i := 0 to |rows|
      invariant matches == Applicable(rows[..i], employee, actual, d)
    {
      assert rows[..i + 1][..i] == rows[..i];
      if Applies(rows[i], employee, actual, d) {
        matches := matches + [rows[i]];
      }
    }
    assert rows[..|rows|] == rows;
    winner := None;
    for i := 0 to |matches|
      invariant winner == Best(matches[..i])
    {
      assert matches[..i + 1][..i] == matches[..i];
      if winner.None? || Before(matches[i], winner.value) {
        winner := Some(matches[i]);
      }
    }
    assert matches[..|matches|] == matches;
    ApplicableMembers(rows, employee, actual, d);
    BestIsLeast(matches);
  }

  // ------------------------------------------------------------------ lemmas

  lemma {:induction false} ApplicableMembers(rows: seq<Assignment>, employee: Id, actual: OrgScope, d: Date)
    ensures forall a :: a in Applicable(rows, employee, actual, d) <==> a in rows && Applies(a, employee, actual, d)
  {
    if rows != [] {
      ApplicableMembers(rows[..|rows| - 1], employee, actual, d);
      assert rows == rows[..|rows| - 1] + [rows[|rows| - 1]];
    }
  }

  lemma {:induction false} BestIsLeast(rows: seq<Assignment>)
    ensures Best(rows).None? <==> rows == []
    ensures Best(rows).Some? ==> Best(rows).value in rows
    ensures Best(rows).Some? ==> forall a :: a in rows ==> !Before(a, Best(rows).value)
  {
    if rows != [] {
      BestIsLeast(rows[..|rows| - 1]);
      assert rows == rows[..|rows| - 1] + [rows[|rows| - 1]];
    }
  }

  /** `Resolve` meets its declarative description. */
  lemma ResolveWins(rows: seq<Assignment>, employee: Id, actual: OrgScope, d: Date)
    ensures var r := Resolve(rows, employee, actual, d);
            && (r.None? <==> forall a :: a in rows ==> !Applies(a, employee, actual, d))
            && (r.Some? ==> Wins(rows, employee, actual, d, r.value))
  {
    ApplicableMembers(rows, employee, actual, d);
    BestIsLeast(Applicable(rows, employee, actual, d));
  }

  /** The row does not apply, or an applicable one of `rest` comes before it. */
  predicate Trails(rest: seq<Assignment>, x: Assignment, employee: Id, actual: OrgScope, d: Date) {
    Applies(x, employee, actual, d) ==> exists y :: y in rest && Applies(y, employee, actual, d) && Before(y, x)
  }

  /** The row applies and comes before every applicable one of `rest`. */
  predicate Leads(rest: seq<Assignment>, x: Assignment, employee: Id, actual: OrgScope, d: Date) {
    && Applies(x, employee, actual, d)
    && forall y :: y in rest && Applies(y, employee, actual, d) ==> Before(x, y)
  }

  lemma BestOfAppended(rows: seq<Assignment>, row: Assignment)
    ensures Best(rows + [row]) == if rows == [] || Before(row, Best(rows).value) then Some(row) else Best(rows)
  {
    assert (rows + [row])[..|rows|] == rows;
    BestIsLeast(rows);
  }

  /**
   Inserting a row keeps the best one, or makes the inserted one best; it does so at most when no row
   is before it.
   */
  lemma {:induction false} BestAfterInsert(rest: seq<Assignment>, i: nat, x: Assignment)
    requires i <= |rest|
    ensures var r := Best(InsertAt(rest, i, Some(x)));
            r == Best(rest) || (r == Some(x) && forall y :: y in rest ==> !Before(y, x))
    decreases |rest|
  {
    BestIsLeast(InsertAt(rest, i, Some(x)));
    if i == |rest| {
      assert InsertAt(rest, i, Some(x)) == rest + [x];
      BestOfAppended(rest, x);
      BestMembers(rest, rest + [x]);
    } else {
      var init, last := rest[..|rest| - 1], rest[|rest| - 1];
      BestAfterInsert(init, i, x);
      assert InsertAt(rest, i, Some(x)) == InsertAt(init, i, Some(x)) + [last];
      assert rest == init + [last];
      BestOfAppended(InsertAt(init, i, Some(x)), last);
      BestOfAppended(init, last);
      BestIsLeast(init);
      BestMembers(rest, InsertAt(rest, i, Some(x)));
    }
  }

  lemma BestMembers(rest: seq<Assignment>, rows: seq<Assignment>)
    requires forall y :: y in rest ==> y in rows
    ensures Best(rows).Some? ==> forall y :: y in rest ==> !Before(y, Best(rows).value)
  {
    BestIsLeast(rows);
  }

  /**
   What being resolved takes: an active row of an active policy, dated to include the day, for this
   employee or for no one in particular; no row of smaller priority applies, and none on the same
   route is older.
   */
  lemma WinnerMeaning(rows: seq<Assignment>, employee: Id, actual: OrgScope, d: Date)
    requires Resolve(rows, employee, actual, d).Some?
    ensures var r := Resolve(rows, employee, actual, d).value;
            && r.active && r.policy.active && r.employee in {None, Some(employee)}
            && (r.from.Some? ==> r.from.value <= d) && (r.until.Some? ==> d <= r.until.value)
            && (forall a :: a in rows && Applies(a, employee, actual, d) ==> r.priority <= a.priority)
            && (forall a :: a in rows && Applies(a, employee, actual, d) && SameRoute(a, r) ==>
                 r.createdAt <= a.createdAt)
  {
    ResolveWins(rows, employee, actual, d);
  }

  /** No two different rows carry the same (priority, signature, age). */
  ghost predicate DistinctKeys(rows: seq<Assignment>) {
    forall a, b :: a in rows && b in rows && !Before(a, b) && !Before(b, a) ==> a == b
  }

  /** With distinct keys the winner is unique, so row order cannot matter. */
  lemma WinnerIsResolved(rows: seq<Assignment>, employee: Id, actual: OrgScope, d: Date, winner: Assignment)
    requires DistinctKeys(rows)
    requires Wins(rows, employee, actual, d, winner)
    ensures Resolve(rows, employee, actual, d) == Some(winner)
  {
    ResolveWins(rows, employee, actual, d);
  }

  /** A row that does not apply can be added, dropped or moved without changing the outcome. */
  lemma {:induction false} IrrelevantRow(
    rest: seq<Assignment>, i: nat, x: Option<Assignment>, employee: Id, actual: OrgScope, d: Date)
    requires i <= |rest|
    requires x.Some? ==> !Applies(x.value, employee, actual, d)
    ensures Applicable(InsertAt(rest, i, x), employee, actual, d) == Applicable(rest, employee, actual, d)
    decreases |rest|
  {
    if x.Some? {
      var rows := InsertAt(rest, i, x);
      if i == |rest| {
        assert rows[..|rows| - 1] == rest;
      } else {
        var init := rest[..|rest| - 1];
        assert rows[..|rows| - 1] == InsertAt(init, i, x);
        assert rows[|rows| - 1] == rest[|rest| - 1];
        IrrelevantRow(init, i, x, employee, actual, d);
      }
    }
  }

  /**
   The scope names a dimension of at least this depth: grade and employment type lie deepest, legal
   entity shallowest.
   */
  predicate NamesFrom(s: OrgScope, depth: nat) {
    || (depth <= 5 && (s.grade.Some? || s.employmentType.Some?))
    || (depth <= 4 && s.department.Some?)
    || (depth <= 3 && s.location.Some?)
    || (depth <= 2 && s.branch.Some?)
    || (depth <= 1 && s.legalEntity.Some?)
  }

  /** How many dimensions a scope names. */
  function NamedCount(s: OrgScope): nat {
    (if s.grade.Some? then 1 else 0) + (if s.employmentType.Some? then 1 else 0)
    + (if s.department.Some? then 1 else 0) + (if s.location.Some? then 1 else 0)
    + (if s.branch.Some? then 1 else 0) + (if s.legalEntity.Some? then 1 else 0)
  }

  /** Between organization rows of equal priority naming equally many dimensions, the one reaching deeper wins. */
  lemma DeeperScopeWins(deep: Assignment, shallow: Assignment, depth: nat)
    requires deep.priority == shallow.priority && deep.employee.None? && shallow.employee.None?
    requires NamedCount(deep.scope) == NamedCount(shallow.scope)
    requires 1 <= depth && NamesFrom(deep.scope, depth) && !NamesFrom(shallow.scope, depth)
    ensures RouteBefore(deep, shallow) && !RouteBefore(shallow, deep)
  {
    assert ScopeSignature(deep.scope).deepest >= depth > ScopeSignature(shallow.scope).deepest;
  }

  lemma {:induction false} ApplicableRowInserted(
    rest: seq<Assignment>, i: nat, x: Assignment, employee: Id, actual: OrgScope, d: Date) returns (j: nat)
    requires i <= |rest| && Applies(x, employee, actual, d)
    ensures j <= |Applicable(rest, employee, actual, d)|
    ensures Applicable(InsertAt(rest, i, Some(x)), employee, actual, d)
            == InsertAt(Applicable(rest, employee, actual, d), j, Some(x))
    decreases |rest|
  {
    var rows := InsertAt(rest, i, Some(x));
    if i == |rest| {
      assert rows[..|rows| - 1] == rest;
      j := |Applicable(rest, employee, actual, d)|;
    } else {
      var init := rest[..|rest| - 1];
      assert rows[..|rows| - 1] == InsertAt(init, i, Some(x));
      assert rows[|rows| - 1] == rest[|rest| - 1];
      j := ApplicableRowInserted(init, i, x, employee, actual, d);
    }
  }

  /**
   A row that trails the others can be added, dropped or moved without changing the outcome, ties among
   the others included.
   */
  lemma TrailingRow(rest: seq<Assignment>, i: nat, x: Option<Assignment>, employee: Id, actual: OrgScope, d: Date)
    requires i <= |rest|
    requires x.Some? ==> Trails(rest, x.value, employee, actual, d)
    ensures Resolve(InsertAt(rest, i, x), employee, actual, d) == Resolve(rest, employee, actual, d)
  {
    if x.Some? && Applies(x.value, employee, actual, d) {
      var j := ApplicableRowInserted(rest, i, x.value, employee, actual, d);
      ApplicableMembers(rest, employee, actual, d);
      BestAfterInsert(Applicable(rest, employee, actual, d), j, x.value);
    } else {
      IrrelevantRow(rest, i, x, employee, actual, d);
    }
  }

  /** A row that leads the others is resolved wherever it stands. */
  lemma LeadingRow(rest: seq<Assignment>, i: nat, x: Assignment, employee: Id, actual: OrgScope, d: Date)
    requires i <= |rest| && Leads(rest, x, employee, actual, d)
    ensures Resolve(InsertAt(rest, i, Some(x)), employee, actual, d) == Some(x)
  {
    var j := ApplicableRowInserted(rest, i, x, employee, actual, d);
    ApplicableMembers(rest, employee, actual, d);
    var others := Applicable(rest, employee, actual, d);
    var rows := InsertAt(others, j, Some(x));
    BestIsLeast(rows);
    assert rows[j] == x;
    assert forall y :: y in rows ==> y in others || y == x;
  }

  /** Depths of the named dimensions added up. */
  function DepthSum(s: OrgScope): nat {
    (if s.grade.Some? then 5 else 0) + (if s.employmentType.Some? then 5 else 0)
    + (if s.department.Some? then 4 else 0) + (if s.location.Some? then 3 else 0)
    + (if s.branch.Some? then 2 else 0) + (if s.legalEntity.Some? then 1 else 0)
  }

  lemma SignatureSums(s: OrgScope)
    ensures ScopeSignature(s).fields == NamedCount(s) && ScopeSignature(s).total == DepthSum(s)
  {
  }

  lemma DepthReached(s: OrgScope, depth: nat)
    requires 1 <= depth <= 5
    ensures NamesFrom(s, depth) <==> ScopeSignature(s).deepest >= depth
  {
  }

  lemma DeepestAtMostFive(s: OrgScope)
    ensures ScopeSignature(s).deepest <= 5
  {
  }

  lemma SameDepth(a: OrgScope, b: OrgScope)
    requires forall depth: nat :: 1 <= depth <= 5 ==> (NamesFrom(a, depth) <==> NamesFrom(b, depth))
    ensures ScopeSignature(a).deepest == ScopeSignature(b).deepest
  {
    hide ScopeSignature, NamesFrom;
    DeepestAtMostFive(a);
    DeepestAtMostFive(b);
    var depth := Max(ScopeSignature(a).deepest, ScopeSignature(b).deepest);
    if depth >= 1 {
      DepthReached(a, depth);
      DepthReached(b, depth);
    }
  }

  /** Among organization rows of equal priority the one naming more dimensions wins, whichever they are. */
  lemma MoreDimensionsWin(
    rows: seq<Assignment>, more: Assignment, fewer: Assignment, employee: Id, actual: OrgScope, d: Date)
    requires more.priority == fewer.priority && more.employee.None? && fewer.employee.None?
    requires NamedCount(more.scope) > NamedCount(fewer.scope)
    requires more in rows && Applies(more, employee, actual, d)
    ensures RouteBefore(more, fewer) && Resolve(rows, employee, actual, d) != Some(fewer)
  {
    SignatureSums(more.scope);
    SignatureSums(fewer.scope);
    hide ScopeSignature, NamedCount;
    RoutedBehindLoses(rows, more, fewer, employee, actual, d);
  }

  /** A row that another applicable row is routed before is never resolved. */
  lemma RoutedBehindLoses(
    rows: seq<Assignment>, first: Assignment, second: Assignment, employee: Id, actual: OrgScope, d: Date)
    requires first in rows && Applies(first, employee, actual, d) && RouteBefore(first, second)
    ensures Resolve(rows, employee, actual, d) != Some(second)
  {
    ResolveWins(rows, employee, actual, d);
  }

  /**
   Between organization rows of equal priority naming equally many dimensions, none of them reaching
   deeper than the other, the larger sum of depths wins: the other row is never resolved beside it.
   */
  lemma LargerDepthSumWins(
    rows: seq<Assignment>, deep: Assignment, shallow: Assignment, employee: Id, actual: OrgScope, d: Date)
    requires deep.priority == shallow.priority && deep.employee.None? && shallow.employee.None?
    requires NamedCount(deep.scope) == NamedCount(shallow.scope)
    requires forall depth: nat :: 1 <= depth <= 5 ==>
               (NamesFrom(deep.scope, depth) <==> NamesFrom(shallow.scope, depth))
    requires DepthSum(deep.scope) > DepthSum(shallow.scope)
    requires deep in rows && Applies(deep, employee, actual, d)
    ensures RouteBefore(deep, shallow) && Resolve(rows, employee, actual, d) != Some(shallow)
  {
    SameDepth(deep.scope, shallow.scope);
    SignatureSums(deep.scope);
    SignatureSums(shallow.scope);
    hide ScopeSignature, DepthSum, NamesFrom, NamedCount;
    RoutedBehindLoses(rows, deep, shallow, employee, actual, d);
  }

  const GRADE_AND_BRANCH := OrgScope(None, Some(1), None, None, Some(1), None)
  const GRADE_AND_DEPARTMENT := OrgScope(None, None, None, Some(1), Some(1), None)

  /** Grade and department beat grade and branch, whatever the policies and ages and in either order. */
  lemma DepartmentBeatsBranch(p: Assignment, q: Assignment)
    requires p.scope == GRADE_AND_BRANCH && q.scope == GRADE_AND_DEPARTMENT
    requires p.priority == q.priority && p.employee.None? && q.employee.None? && Live(p) && Live(q)
    requires p.from.None? && p.until.None? && q.from.None? && q.until.None?
    ensures forall d: Date ::
              var actual := OrgScope(None, Some(1), None, Some(1), Some(1), None);
              Resolve([p, q], 7, actual, d) == Some(q) && Resolve([q, p], 7, actual, d) == Some(q)
  {
    var actual := OrgScope(None, Some(1), None, Some(1), Some(1), None);
    forall d: Date
      ensures Resolve([p, q], 7, actual, d) == Some(q) && Resolve([q, p], 7, actual, d) == Some(q)
    {
      assert Applies(p, 7, actual, d) && Applies(q, 7, actual, d);
      LargerDepthSumWins([p, q], q, p, 7, actual, d);
      LargerDepthSumWins([q, p], q, p, 7, actual, d);
      ResolveWins([p, q], 7, actual, d);
      ResolveWins([q, p], 7, actual, d);
    }
  }

  lemma FieldExtension(wide: Option<Id>, narrow: Option<Id>)
    requires FieldAdmits(wide, narrow)
    ensures One(wide) <= One(narrow)
    ensures One(wide) == One(narrow) ==> wide == narrow
  {
  }

  /** Naming more dimensions raises the first signature component. */
  lemma ExtensionIsMoreSpecific(wide: OrgScope, narrow: OrgScope)
    requires ScopeAdmits(wide, narrow) && wide != narrow
    ensures ScopeSignature(narrow).fields > ScopeSignature(wide).fields
    ensures MoreSpecific(ScopeSignature(narrow), ScopeSignature(wide))
  {
    FieldExtension(wide.legalEntity, narrow.legalEntity);
    FieldExtension(wide.branch, narrow.branch);
    FieldExtension(wide.location, narrow.location);
    FieldExtension(wide.department, narrow.department);
    FieldExtension(wide.grade, narrow.grade);
    FieldExtension(wide.employmentType, narrow.employmentType);
  }

  /**
   At equal priority an assignment that strictly extends another's scope, or names the
   employee where the other does not, is before it whatever their ages.
   */
  lemma NarrowerAlwaysWins(narrow: Assignment, wide: Assignment)
    requires narrow.priority == wide.priority
    requires wide.employee.None?
    requires narrow.employee.Some? || (ScopeAdmits(wide.scope, narrow.scope) && wide.scope != narrow.scope)
    ensures RouteBefore(narrow, wide) && Before(narrow, wide) && !Before(wide, narrow)
  {
    if narrow.employee.None? {
      ExtensionIsMoreSpecific(wide.scope, narrow.scope);
    }
  }
}
