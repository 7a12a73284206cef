/**
 The conflict preview that guards every save of an attendance-policy assignment, and the
 proof that a table maintained through it never has an ambiguous route.
 */
module ConflictPreview {
  import opened Basics
  import opened Domain
  import opened PolicyResolution

  /** The tenant's employee directory: current organization scope by employee. */
  type Directory = map<Id, OrgScope>

  function FirstDay(a: Assignment): Date {
    if a.from.Some? then a.from.value else DATE_MIN
  }

  function LastDay(a: Assignment): Date {
    if a.until.Some? then a.until.value else DATE_MAX
  }

  /** Stored rows satisfy the database check that their window is not reversed. */
  predicate OrderedWindow(a: Assignment) {
    FirstDay(a) <= LastDay(a)
  }

  predicate FieldsCompatible(a: Option<Id>, b: Option<Id>) {
    a.None? || b.None? || a == b
  }

  predicate ScopesCompatible(a: OrgScope, b: OrgScope) {
    && FieldsCompatible(a.legalEntity, b.legalEntity)
    && FieldsCompatible(a.branch, b.branch)
    && FieldsCompatible(a.location, b.location)
    && FieldsCompatible(a.department, b.department)
    && FieldsCompatible(a.grade, b.grade)
    && FieldsCompatible(a.employmentType, b.employmentType)
  }

  predicate ScopesOverlap(candidate: Assignment, existing: Assignment, staff: Directory) {
    if LastDay(candidate) < FirstDay(existing) || LastDay(existing) < FirstDay(candidate) then false
    else if candidate.employee.Some? && existing.employee.Some? then
      candidate.employee == existing.employee
    else if candidate.employee.Some? then
      var e := candidate.employee.value;
      e in staff && Admits(existing, e, staff[e])
    else if existing.employee.Some? && existing.employee.value in staff then
      Admits(candidate, existing.employee.value, staff[existing.employee.value])
    else
      ScopesCompatible(candidate.scope, existing.scope)
  }

  predicate ExactScope(candidate: Assignment, existing: Assignment) {
    candidate.employee == existing.employee && candidate.scope == existing.scope
  }

  /** The preview's reason to block: an overlap on the same route. */
  predicate Blocks(candidate: Assignment, existing: Assignment, staff: Directory) {
    && ScopesOverlap(candidate, existing, staff)
    && candidate.priority == existing.priority
    && (ExactScope(candidate, existing) || SignatureOf(candidate) == SignatureOf(existing))
  }

  predicate Considered(existing: Assignment, candidate: Assignment) {
    existing.active && existing.id != candidate.id
  }

  predicate HasBlockingConflict(rows: seq<Assignment>, candidate: Assignment, staff: Directory) {
    exists i :: 0 <= i < |rows| && Considered(rows[i], candidate) && Blocks(candidate, rows[i], staff)
  }

  function ConflictIds(rows: seq<Assignment>, candidate: Assignment, staff: Directory): seq<Id> {
    if rows == [] then []
    else
      var init := ConflictIds(rows[..|rows| - 1], candidate, staff);
      var row := rows[|rows| - 1];
      if Considered(row, candidate) && ScopesOverlap(candidate, row, staff) then init + [row.id] else init
  }

  predicate Listed(row: Assignment, candidate: Assignment, staff: Directory) {
    Considered(row, candidate) && ScopesOverlap(candidate, row, staff)
  }

  lemma {:induction false} ConflictIdsMembers(rows: seq<Assignment>, candidate: Assignment, staff: Directory)
    ensures forall id :: id in ConflictIds(rows, candidate, staff) <==>
              exists i :: 0 <= i < |rows| && rows[i].id == id && Listed(rows[i], candidate, staff)
  {
    hide Considered, ScopesOverlap;
    if rows != [] {
      var n := |rows| - 1;
      ConflictIdsMembers(rows[..n], candidate, staff);
      assert forall i :: 0 <= i < n ==> rows[..n][i] == rows[i];
    }
  }

  lemma {:induction false} ConflictIdsCount(rows: seq<Assignment>, candidate: Assignment, staff: Directory)
    ensures |ConflictIds(rows, candidate, staff)| == |set i | 0 <= i < |rows| && Listed(rows[i], candidate, staff)|
  {
    hide Considered, ScopesOverlap;
    if rows != [] {
      var n := |rows| - 1;
      ConflictIdsCount(rows[..n], candidate, staff);
      var before := set i | 0 <= i < n && Listed(rows[..n][i], candidate, staff);
      var after := set i | 0 <= i < |rows| && Listed(rows[i], candidate, staff);
      assert after == if Listed(rows[n], candidate, staff) then before + {n} else before;
    }
  }

  /** One id for every considered row that overlaps, and no other. */
  lemma ConflictIdsList(rows: seq<Assignment>, candidate: Assignment, staff: Directory)
    ensures var ids := ConflictIds(rows, candidate, staff);
            && (forall id :: id in ids <==>
                 exists i :: 0 <= i < |rows| && rows[i].id == id && Listed(rows[i], candidate, staff))
            && |ids| == |set i | 0 <= i < |rows| && Listed(rows[i], candidate, staff)|
  {
    ConflictIdsMembers(rows, candidate, staff);
    ConflictIdsCount(rows, candidate, staff);
  }

  /** The preview loop: every overlap is listed, and one on the same route blocks. */
  method PreviewConflicts(rows: seq<Assignment>, candidate: Assignment, staff: Directory)
    returns (conflicts: seq<Id>, blocking: bool)
    ensures blocking <==> HasBlockingConflict(rows, candidate, staff)
    ensures conflicts == ConflictIds(rows, candidate, staff)
    ensures conflicts != [] <==>
            exists i :: 0 <= i < |rows| && Considered(rows[i], candidate) && ScopesOverlap(candidate, rows[i], staff)
  {
    conflicts, blocking := [], false;
    for k := 0 to |rows|
      invariant conflicts == ConflictIds(rows[..k], candidate, staff)
      invariant blocking <==>
                  exists i :: 0 <= i < k && Considered(rows[i], candidate) && Blocks(candidate, rows[i], staff)
      invariant conflicts != [] <==>
                exists i :: 0 <= i < k && Considered(rows[i], candidate) && ScopesOverlap(candidate, rows[i], staff)
    {
      assert rows[..k + 1][..k] == rows[..k];
      if Considered(rows[k], candidate) && ScopesOverlap(candidate, rows[k], staff) {
        var samePriority := candidate.priority == rows[k].priority;
        var exact := ExactScope(candidate, rows[k]);
        var sameGranularity := SignatureOf(candidate) == SignatureOf(rows[k]);
        if samePriority && (exact || sameGranularity) {
          blocking := true;
        }
        conflicts := conflicts + [rows[k].id];
      }
    }
    assert rows[..|rows|] == rows;
  }

  // ------------------------------------------------- exactness of the overlap

  /** Some employee on some date is governed by both rows. */
  ghost predicate SharedDay(a: Assignment, b: Assignment) {
    exists e: Id, s: OrgScope, d: Date :: BothReach(a, b, e, s, d)
  }

  predicate BothReach(a: Assignment, b: Assignment, e: Id, s: OrgScope, d: Date) {
    InEffect(a, d) && InEffect(b, d) && Admits(a, e, s) && Admits(b, e, s)
  }

  function MergeField(a: Option<Id>, b: Option<Id>): Option<Id> {
    if a.Some? then a else b
  }

  function MergeScopes(a: OrgScope, b: OrgScope): (m: OrgScope)
    ensures ScopesCompatible(a, b) ==> ScopeAdmits(a, m) && ScopeAdmits(b, m)
  {
    OrgScope(MergeField(a.legalEntity, b.legalEntity), MergeField(a.branch, b.branch),
      MergeField(a.location, b.location), MergeField(a.department, b.department),
      MergeField(a.grade, b.grade), MergeField(a.employmentType, b.employmentType))
  }

  /** Between organization-scoped rows the overlap test holds exactly when an employee-day is shared. */
  lemma OverlapIsExact(a: Assignment, b: Assignment, staff: Directory)
    requires a.employee.None? && b.employee.None?
    requires OrderedWindow(a) && OrderedWindow(b)
    ensures ScopesOverlap(a, b, staff) <==> SharedDay(a, b)
  {
    if ScopesOverlap(a, b, staff) {
      var d: Date := if FirstDay(a) < FirstDay(b) then FirstDay(b) else FirstDay(a);
      assert BothReach(a, b, 0, MergeScopes(a.scope, b.scope), d);
    }
  }

  /** On one route the test is exact whatever kind of rows they are and whoever is in the directory. */
  lemma BlockingIsExact(candidate: Assignment, existing: Assignment, staff: Directory)
    requires OrderedWindow(candidate) && OrderedWindow(existing)
    ensures Blocks(candidate, existing, staff) <==> SameRoute(candidate, existing) && SharedDay(candidate, existing)
  {
    SameSignatureSameKind(candidate, existing);
    if candidate.employee.None? && existing.employee.None? {
      OverlapIsExact(candidate, existing, staff);
    } else if Blocks(candidate, existing, staff) {
      var d: Date := if FirstDay(candidate) < FirstDay(existing) then FirstDay(existing) else FirstDay(candidate);
      assert BothReach(candidate, existing, candidate.employee.value, NO_SCOPE, d);
    }
  }

  /**
   Over a table of ordered windows the preview blocks exactly when an active row other than the
   one being edited shares the candidate's route and an employee-day with it.
   */
  lemma PreviewIsExact(rows: seq<Assignment>, candidate: Assignment, staff: Directory)
    requires OrderedWindow(candidate) && forall i :: 0 <= i < |rows| ==> OrderedWindow(rows[i])
    ensures HasBlockingConflict(rows, candidate, staff) <==>
              exists i :: 0 <= i < |rows| && rows[i].active && rows[i].id != candidate.id
                && SameRoute(candidate, rows[i]) && SharedDay(candidate, rows[i])
  {
    forall i | 0 <= i < |rows|
      ensures Blocks(candidate, rows[i], staff) <==> SameRoute(candidate, rows[i]) && SharedDay(candidate, rows[i])
    {
      BlockingIsExact(candidate, rows[i], staff);
    }
  }

  /** No organization signature reaches the employee signature. */
  lemma SameSignatureSameKind(a: Assignment, b: Assignment)
    ensures SignatureOf(a) == SignatureOf(b) ==> (a.employee.Some? <==> b.employee.Some?)
    ensures ExactScope(a, b) ==> SignatureOf(a) == SignatureOf(b)
  {
  }

  // --------------------------------------------------- saving through the guard

  /** Saving an employee override clears its organization filters first. */
  function Cleared(item: Assignment): Assignment {
    if item.employee.Some? then item.(scope := NO_SCOPE) else item
  }

  /** Position of the first row with the id, or the table's length. */
  function FindId(rows: seq<Assignment>, id: Id): (k: nat)
    ensures k <= |rows| && (k < |rows| ==> rows[k].id == id)
    ensures forall i :: 0 <= i < k ==> rows[i].id != id
  {
    if rows == [] || rows[0].id == id then 0 else 1 + FindId(rows[1..], id)
  }

  /** A saved row replaces the row with its id, or is appended. */
  function Upsert(rows: seq<Assignment>, item: Assignment): seq<Assignment> {
    var k := FindId(rows, item.id);
    if k < |rows| then rows[k := item] else rows + [item]
  }

  /**
   One save request: an active item with a blocking conflict, or a reversed window, is refused and
   changes nothing.
   */
  function Save(rows: seq<Assignment>, item: Assignment, staff: Directory): seq<Assignment> {
    var saved := Cleared(item);
    if (saved.active && HasBlockingConflict(rows, saved, staff)) || !OrderedWindow(saved) then rows
    else Upsert(rows, saved)
  }

  datatype SaveRequest = SaveRequest(item: Assignment, staff: Directory)

  function SaveAll(rows: seq<Assignment>, requests: seq<SaveRequest>): seq<Assignment>
    decreases |requests|
  {
    if requests == [] then rows
    else SaveAll(Save(rows, requests[0].item, requests[0].staff), requests[1..])
  }

  ghost predicate UniqueIds(rows: seq<Assignment>) {
    forall i, j :: 0 <= i < j < |rows| ==> rows[i].id != rows[j].id
  }

  /** Two active rows on one route that govern some employee-day together. */
  ghost predicate Ambiguous(a: Assignment, b: Assignment) {
    a.active && b.active && SameRoute(a, b) && SharedDay(a, b)
  }

  ghost predicate Unambiguous(rows: seq<Assignment>) {
    forall i, j :: 0 <= i < |rows| && 0 <= j < |rows| && i != j ==> !Ambiguous(rows[i], rows[j])
  }

  ghost predicate AllOrdered(rows: seq<Assignment>) {
    forall i :: 0 <= i < |rows| ==> OrderedWindow(rows[i])
  }

  lemma UpsertShape(rows: seq<Assignment>, item: Assignment)
    requires UniqueIds(rows)
    ensures var after, k := Upsert(rows, item), FindId(rows, item.id);
            && k < |after| && after[k] == item
            && (forall i :: 0 <= i < |after| && i != k ==> i < |rows| && after[i] == rows[i] && rows[i].id != item.id)
            && UniqueIds(after)
  {
  }

  lemma SharedDaySymmetric(a: Assignment, b: Assignment)
    ensures SharedDay(a, b) <==> SharedDay(b, a)
  {
    forall x: Assignment, y: Assignment | SharedDay(x, y)
      ensures SharedDay(y, x)
    {
      var e: Id, s: OrgScope, d: Date :| BothReach(x, y, e, s, d);
      assert BothReach(y, x, e, s, d);
    }
  }

  lemma SaveKeepsUnambiguous(rows: seq<Assignment>, item: Assignment, staff: Directory)
    requires UniqueIds(rows) && Unambiguous(rows) && AllOrdered(rows)
    ensures var after := Save(rows, item, staff);
            UniqueIds(after) && Unambiguous(after) && AllOrdered(after)
  {
    var saved := Cleared(item);
    if !(saved.active && HasBlockingConflict(rows, saved, staff)) && OrderedWindow(saved) {
      UpsertShape(rows, saved);
      var after, k := Upsert(rows, saved), FindId(rows, saved.id);
      forall j | 0 <= j < |after| && j != k
        ensures !Ambiguous(saved, after[j]) && !Ambiguous(after[j], saved)
      {
        BlockingIsExact(saved, rows[j], staff);
        SharedDaySymmetric(saved, rows[j]);
      }
    }
  }

  /** What the save stores: an employee override has no organization filters. */
  predicate StoredAs(saved: Assignment, item: Assignment) {
    saved == item.(scope := if item.employee.Some? then NO_SCOPE else item.scope)
  }

  /** The save must be refused: a reversed window, or an active row sharing a route and an employee-day with another. */
  ghost predicate MustRefuse(rows: seq<Assignment>, saved: Assignment) {
    || !OrderedWindow(saved)
    || (saved.active && exists i :: 0 <= i < |rows| && rows[i].active && rows[i].id != saved.id
                          && SameRoute(saved, rows[i]) && SharedDay(saved, rows[i]))
  }

  /** A save stores the row under its id and leaves every other row, unless it must be refused; then nothing changes. */
  lemma WhatASaveStores(rows: seq<Assignment>, item: Assignment, saved: Assignment, staff: Directory)
    requires UniqueIds(rows) && AllOrdered(rows) && StoredAs(saved, item)
    ensures var after := Save(rows, item, staff);
            && (MustRefuse(rows, saved) ==> after == rows)
            && (!MustRefuse(rows, saved) ==>
                 && saved in after
                 && forall a: Assignment :: a.id != item.id ==> (a in after <==> a in rows))
  {
    if OrderedWindow(saved) {
      PreviewIsExact(rows, saved, staff);
    }
    UpsertShape(rows, saved);
    UpsertKeepsOthers(rows, saved);
    hide HasBlockingConflict, SharedDay, SameRoute;
  }

  lemma UpsertKeepsOthers(rows: seq<Assignment>, item: Assignment)
    requires UniqueIds(rows)
    ensures item in Upsert(rows, item)
    ensures forall a: Assignment :: a.id != item.id ==> (a in Upsert(rows, item) <==> a in rows)
  {
    var after, k := Upsert(rows, item), FindId(rows, item.id);
    forall a: Assignment | a.id != item.id
      ensures a in after <==> a in rows
    {
      if a in rows {
        var i :| 0 <= i < |rows| && rows[i] == a;
        assert after[i] == a;
      }
    }
    assert after[k] == item;
  }

  /** Every table built by saves, whatever the directory said at each save, is unambiguous. */
  lemma {:induction false} SavesStayUnambiguous(rows: seq<Assignment>, requests: seq<SaveRequest>)
    requires UniqueIds(rows) && Unambiguous(rows) && AllOrdered(rows)
    ensures UniqueIds(SaveAll(rows, requests)) && Unambiguous(SaveAll(rows, requests))
    decreases |requests|
  {
    if requests != [] {
      SaveKeepsUnambiguous(rows, requests[0].item, requests[0].staff);
      SavesStayUnambiguous(Save(rows, requests[0].item, requests[0].staff), requests[1..]);
    }
  }

  /** Every row that no other applicable row routes before. */
  ghost predicate OnWinningRoute(rows: seq<Assignment>, e: Id, s: OrgScope, d: Date, a: Assignment) {
    && Applies(a, e, s, d)
    && forall x :: x in rows && Applies(x, e, s, d) ==> !RouteBefore(x, a)
  }

  lemma {:induction false} WinningRouteIsUnique(rows: seq<Assignment>, e: Id, s: OrgScope, d: Date, i: nat, j: nat)
    requires Unambiguous(rows) && i < |rows| && j < |rows|
    requires OnWinningRoute(rows, e, s, d, rows[i]) && OnWinningRoute(rows, e, s, d, rows[j])
    ensures i == j
  {
    assert SameRoute(rows[i], rows[j]) by {
      assert rows[i] in rows && rows[j] in rows;
    }
    assert BothReach(rows[i], rows[j], e, s, d);
    assert Ambiguous(rows[i], rows[j]);
  }

  predicate Reaged(a: Assignment, b: Assignment) {
    b == a.(createdAt := b.createdAt)
  }

  /** `other` lists the rows of `rows` in the order `perm`, with any ages. */
  ghost predicate Relisted(rows: seq<Assignment>, other: seq<Assignment>, perm: seq<nat>) {
    && |perm| == |other|
    && (forall k {:trigger perm[k]} :: 0 <= k < |perm| ==> perm[k] < |rows| && Reaged(rows[perm[k]], other[k]))
    && (forall i :: 0 <= i < |rows| ==> i in perm)
  }

  lemma ReagedAlike(a: Assignment, b: Assignment, e: Id, s: OrgScope, d: Date)
    requires Reaged(a, b)
    ensures Applies(a, e, s, d) <==> Applies(b, e, s, d)
    ensures a.priority == b.priority && SignatureOf(a) == SignatureOf(b)
  {
  }

  lemma {:induction false} OriginalIsOnWinningRoute(
    rows: seq<Assignment>, other: seq<Assignment>, perm: seq<nat>, e: Id, s: OrgScope, d: Date, k: nat)
    requires Relisted(rows, other, perm)
    requires k < |other| && Wins(other, e, s, d, other[k])
    ensures OnWinningRoute(rows, e, s, d, rows[perm[k]])
  {
    ReagedAlike(rows[perm[k]], other[k], e, s, d);
    forall x | x in rows && Applies(x, e, s, d)
      ensures !RouteBefore(x, rows[perm[k]])
    {
      var i :| 0 <= i < |rows| && rows[i] == x;
      assert i in perm;
      var t :| 0 <= t < |perm| && perm[t] == i;
      ReagedAlike(x, other[t], e, s, d);
      assert !Before(other[t], other[k]);
    }
  }

  lemma {:induction false} AgeNeverDecidesIn(
    rows: seq<Assignment>, other: seq<Assignment>, perm: seq<nat>, e: Id, s: OrgScope, d: Date)
    requires Unambiguous(rows) && Relisted(rows, other, perm)
    ensures var r, q := Resolve(rows, e, s, d), Resolve(other, e, s, d);
            (r.None? <==> q.None?) && (r.Some? ==> Reaged(r.value, q.value))
  {
    ResolveWins(rows, e, s, d);
    ResolveWins(other, e, s, d);
    var r, q := Resolve(rows, e, s, d), Resolve(other, e, s, d);
    if r.Some? {
      var i :| 0 <= i < |rows| && rows[i] == r.value;
      assert i in perm;
      var t :| 0 <= t < |perm| && perm[t] == i;
      ReagedAlike(r.value, other[t], e, s, d);
      assert other[t] in other;
    }
    if q.Some? {
      var k :| 0 <= k < |other| && other[k] == q.value;
      ReagedAlike(rows[perm[k]], q.value, e, s, d);
      assert rows[perm[k]] in rows;
      OriginalIsOnWinningRoute(rows, other, perm, e, s, d, k);
      var i :| 0 <= i < |rows| && rows[i] == r.value;
      WinningRouteIsUnique(rows, e, s, d, i, perm[k]);
    }
  }

  /** In any table built by saves the resolved assignment depends neither on `created_at` nor on row order. */
  lemma {:induction false} AgeNeverDecides(
    requests: seq<SaveRequest>, other: seq<Assignment>, perm: seq<nat>, e: Id, s: OrgScope, d: Date)
    requires Relisted(SaveAll([], requests), other, perm)
    ensures var r, q := Resolve(SaveAll([], requests), e, s, d), Resolve(other, e, s, d);
            (r.None? <==> q.None?) && (r.Some? ==> Reaged(r.value, q.value))
  {
    SavesStayUnambiguous([], requests);
    AgeNeverDecidesIn(SaveAll([], requests), other, perm, e, s, d);
  }
}
