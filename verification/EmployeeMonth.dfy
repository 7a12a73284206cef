/** The employee's own month: lock projection, regularization offer and pagination. */
module EmployeeMonth {
  import opened Basics
  import opened Domain
  import opened Derivation
  import opened CloseSnapshot
  import opened PeriodClose
  import Batch
  import CloseSafety

  /** One day of the projection; the derivation summary is shown only for open days. */
  datatype DayView = DayView(row: nat, date: Date, status: Status, locked: bool, units: Option<Units>,
    canRegularize: bool)

  datatype MonthPage = MonthPage(
    days: seq<DayView>, items: seq<DayView>, page: nat, pages: nat, hasNext: bool, hasPrevious: bool,
    lockedDays: nat, workedHours: nat, pendingCorrections: nat)

  // ------------------------------------------------------------- the day view

  /** Locked on the row, or inside a CLOSED period of the employee's legal entity. */
  predicate ShownLocked(s: State, r: Record) {
    r.locked || Sealed(s, r)
  }

  /** Offered unless the day is final, a correction already waits, or the policy forbids it. */
  predicate CanRegularize(s: State, i: nat)
    requires i < |s.records|
  {
    var policy := RecordPolicy(s, s.records[i]);
    && !ShownLocked(s, s.records[i])
    && !HasPending(s, i)
    && !(policy.Some? && !policy.value.allowRegularization)
  }

  function ViewOf(s: State, i: nat): DayView
    requires i < |s.records|
  {
    var r := s.records[i];
    DayView(i, r.date, r.status, ShownLocked(s, r),
      if ShownLocked(s, r) then None else Some(Batch.SingleUnits(s.world, r)), CanRegularize(s, i))
  }

  /** Table positions of the employee's rows of the next `days` days, by date. */
  function MonthRows(records: seq<Record>, employee: Id, first: Date, days: nat): (rows: seq<nat>)
    requires first + days <= DATE_MAX + 1
    ensures forall k :: 0 <= k < |rows| ==>
              && rows[k] < |records| && records[rows[k]].employee == employee
              && first <= records[rows[k]].date < first + days
    ensures forall i, j :: 0 <= i < j < |rows| ==> records[rows[i]].date < records[rows[j]].date
  {
    if days == 0 then []
    else
      var init := MonthRows(records, employee, first, days - 1);
      var d: Date := first + days - 1;
      if HasDay(records, employee, d) then init + [RowOfDay(records, employee, d)] else init
  }

  function Views(s: State, rows: seq<nat>): (views: seq<DayView>)
    requires forall k :: 0 <= k < |rows| ==> rows[k] < |s.records|
    ensures |views| == |rows| && forall k :: 0 <= k < |rows| ==> views[k] == ViewOf(s, rows[k])
  {
    seq(|rows|, k requires 0 <= k < |rows| => ViewOf(s, rows[k]))
  }

  // --------------------------------------------------------------- pagination

  function PageCount(total: nat, size: nat): (pages: nat)
    requires size >= 1
    ensures pages >= 1 && (pages - 1) * size <= total <= pages * size
  {
    var pages := (total + size - 1) / size;
    CeilingBounds(total, size);
    if pages < 1 then 1 else pages
  }

  lemma CeilingBounds(total: nat, size: nat)
    requires size >= 1
    ensures var pages := (total + size - 1) / size;
            total <= pages * size && (pages >= 1 ==> (pages - 1) * size <= total) && (pages == 0 ==> total == 0)
  {
    var x := total + size - 1;
    var q, r := x / size, x % size;
    assert x == q * size + r;
    assert (q - 1) * size == q * size - size;
  }

  function Clamp(page: nat, total: nat, size: nat): (p: nat)
    requires page >= 1 && size >= 1
    ensures 1 <= p <= PageCount(total, size)
    ensures page <= PageCount(total, size) ==> p == page
    ensures page > PageCount(total, size) ==> p == PageCount(total, size)
  {
    if page < PageCount(total, size) then page else PageCount(total, size)
  }

  /** Rows (page - 1) * size onward, at most `size` of them. */
  function PageItems<T>(days: seq<T>, page: nat, size: nat): seq<T>
    requires size >= 1 && 1 <= page <= PageCount(|days|, size)
  {
    PageStart(|days|, page, size);
    var offset := (page - 1) * size;
    if offset + size <= |days| then days[offset..offset + size] else days[offset..]
  }

  lemma PageStart(total: nat, page: nat, size: nat)
    requires size >= 1 && 1 <= page <= PageCount(total, size)
    ensures 0 <= (page - 1) * size <= total
  {
    ScaledOrder(page - 1, PageCount(total, size) - 1, size);
  }

  lemma ScaledOrder(a: nat, b: nat, size: nat)
    requires a <= b
    ensures a * size <= b * size
  {
  }

  /** The first `n` pages, put end to end. */
  function FirstPages<T>(days: seq<T>, n: nat, size: nat): seq<T>
    requires size >= 1 && n <= PageCount(|days|, size)
  {
    if n == 0 then [] else FirstPages(days, n - 1, size) + PageItems(days, n, size)
  }

  lemma {:induction false} FirstPagesArePrefix<T>(days: seq<T>, n: nat, size: nat)
    requires size >= 1 && n <= PageCount(|days|, size)
    ensures FirstPages(days, n, size) == if n * size <= |days| then days[..n * size] else days
    decreases n
  {
    if n > 0 {
      FirstPagesArePrefix(days, n - 1, size);
      PageStart(|days|, n, size);
      NextMultiple(n, size);
      PrefixGrows(days, (n - 1) * size, size);
    }
  }

  lemma NextMultiple(n: nat, size: nat)
    requires n > 0
    ensures n * size == (n - 1) * size + size
  {
  }

  lemma PrefixGrows<T>(days: seq<T>, a: nat, size: nat)
    requires a <= |days|
    ensures a + size <= |days| ==> days[..a] + days[a..a + size] == days[..a + size]
    ensures days[..a] + days[a..] == days
  {
  }

  /** The pages, put end to end, are the full day list. */
  lemma PagesConcatenate<T>(days: seq<T>, size: nat)
    requires size >= 1
    ensures FirstPages(days, PageCount(|days|, size), size) == days
  {
    FirstPagesArePrefix(days, PageCount(|days|, size), size);
  }

  /** Position `i` is shown on page `p` exactly when p is i / size + 1, so on one page only. */
  predicate OnPage(total: nat, p: nat, size: nat, i: nat) {
    p >= 1 && (p - 1) * size <= i < p * size && i < total
  }

  lemma EveryDayOnOnePage(total: nat, size: nat, i: nat, p: nat)
    requires size >= 1 && i < total
    ensures OnPage(total, i / size + 1, size, i) && i / size + 1 <= PageCount(total, size)
    ensures OnPage(total, p, size, i) ==> p == i / size + 1
  {
    var q := i / size;
    assert i == q * size + i % size;
    assert (q + 1) * size == q * size + size;
    PageOfIsUnique(q, PageCount(total, size), size, i, total);
    if OnPage(total, p, size, i) {
      PageIsUnique(q, p - 1, size, i);
    }
  }

  lemma PageIsUnique(q: nat, p: nat, size: nat, i: nat)
    requires size >= 1
    requires q * size <= i < q * size + size && p * size <= i < (p + 1) * size
    ensures p == q
  {
    assert (p + 1) * size == p * size + size && (q + 1) * size == q * size + size;
    if p < q {
      ScaledOrder(p + 1, q, size);
    } else if q < p {
      ScaledOrder(q + 1, p, size);
    }
  }

  lemma PageOfIsUnique(q: nat, pages: nat, size: nat, i: nat, total: nat)
    requires q * size <= i < total <= pages * size
    ensures q + 1 <= pages
  {
    if pages <= q {
      ScaledOrder(pages, q, size);
    }
  }

  // ------------------------------------------------------------- the operation

  method CollectPeriods(s: State, employee: Id, first: Date, last: Date) returns (closed: seq<PeriodScope>)
    ensures forall r: Record :: r.employee == employee && first <= r.date <= last ==>
              ((exists k :: 0 <= k < |closed| && closed[k].from <= r.date <= closed[k].until) <==> Sealed(s, r))
  {
    closed := [];
    for c := 0 to |s.closes|
      invariant forall r: Record :: r.employee == employee && first <= r.date <= last ==>
                  ((exists k :: 0 <= k < |closed| && closed[k].from <= r.date <= closed[k].until)
                    <==> exists o :: 0 <= o < c && ClosedOver(s.world, s.closes[o], r))
    {
      var item := s.closes[c];
      ghost var before := closed;
      if item.status.Closed? && EntityOf(s.world, employee) == Some(item.scope.entity)
         && item.scope.from <= last && first <= item.scope.until {
        closed := closed + [item.scope];
      }
      forall r: Record | r.employee == employee && first <= r.date <= last
        ensures (exists k :: 0 <= k < |closed| && closed[k].from <= r.date <= closed[k].until)
                <==> (exists k :: 0 <= k < |before| && before[k].from <= r.date <= before[k].until)
                     || ClosedOver(s.world, item, r)
      {
        assert forall k :: 0 <= k < |before| ==> closed[k] == before[k];
        if ClosedOver(s.world, item, r) {
          assert closed[|before|] == item.scope;
        }
      }
    }
  }

  /** The employee's rows of the month that await a correction. */
  function AwaitingRows(s: State, employee: Id, first: Date, last: Date): set<nat> {
    set i | 0 <= i < |s.records| && Awaits(s, i, employee, first, last)
  }

  predicate Awaits(s: State, i: nat, employee: Id, first: Date, last: Date)
    requires i < |s.records|
  {
    s.records[i].employee == employee && first <= s.records[i].date <= last && HasPending(s, i)
  }

  method CollectPending(s: State, employee: Id, first: Date, last: Date) returns (pending: set<nat>)
    ensures pending == AwaitingRows(s, employee, first, last)
  {
    pending := {};
    for k := 0 to |s.regs|
      invariant forall i: nat :: i in pending <==>
                  && i < |s.records| && s.records[i].employee == employee && first <= s.records[i].date <= last
                  && exists j :: 0 <= j < k && s.regs[j].record == i && s.regs[j].status.RegPending?
    {
      var i := s.regs[k].record;
      if s.regs[k].status.RegPending? && i < |s.records|
         && s.records[i].employee == employee && first <= s.records[i].date <= last {
        pending := pending + {i};
      }
    }
  }

  lemma AwaitsByMembership(s: State, i: nat, employee: Id, first: Date, last: Date)
    requires i < |s.records| && s.records[i].employee == employee && first <= s.records[i].date <= last
    ensures i in AwaitingRows(s, employee, first, last) <==> HasPending(s, i)
  {
  }

  /** Hours worked on the listed rows. */
  function WorkedTotal(s: State, rows: seq<nat>): nat
    requires forall k :: 0 <= k < |rows| ==> rows[k] < |s.records|
  {
    if rows == [] then 0 else WorkedTotal(s, rows[..|rows| - 1]) + s.records[rows[|rows| - 1]].worked
  }

  function CountLocked(days: seq<DayView>): nat {
    if days == [] then 0 else CountLocked(days[..|days| - 1]) + (if days[|days| - 1].locked then 1 else 0)
  }

  method ViewDay(s: State, i: nat, closed: seq<PeriodScope>, pending: set<nat>) returns (view: DayView)
    requires i < |s.records|
    requires (exists k :: 0 <= k < |closed| && closed[k].from <= s.records[i].date <= closed[k].until)
             <==> Sealed(s, s.records[i])
    requires i in pending <==> HasPending(s, i)
    ensures view == ViewOf(s, i)
  {
    var record := s.records[i];
    var locked := record.locked || exists c :: 0 <= c < |closed| && closed[c].from <= record.date <= closed[c].until;
    var units, offered := None, false;
    if !locked {
      units := Some(Batch.SingleUnits(s.world, record));
      var policy := RecordPolicy(s, record);
      offered := i !in pending && !(policy.Some? && !policy.value.allowRegularization);
    }
    view := DayView(i, record.date, record.status, locked, units, offered);
  }

  lemma CountsStartAtZero(s: State)
    ensures CountLocked([]) == 0 && WorkedTotal(s, []) == 0
  {
  }

  lemma CountsGrow(s: State, rows: seq<nat>, k: nat, days: seq<DayView>, view: DayView)
    requires k < |rows| && forall j :: 0 <= j < |rows| ==> rows[j] < |s.records|
    ensures CountLocked(days + [view]) == CountLocked(days) + (if view.locked then 1 else 0)
    ensures WorkedTotal(s, rows[..k + 1]) == WorkedTotal(s, rows[..k]) + s.records[rows[k]].worked
  {
    assert (days + [view])[..|days|] == days;
    assert rows[..k + 1][..k] == rows[..k];
  }

  method BuildDays(s: State, employee: Id, first: Date, length: nat)
    returns (days: seq<DayView>, lockedDays: nat, workedHours: nat, pendingCorrections: nat)
    requires 1 <= length && first + length - 1 <= DATE_MAX
    ensures days == Views(s, MonthRows(s.records, employee, first, length))
    ensures lockedDays == CountLocked(days)
    ensures workedHours == WorkedTotal(s, MonthRows(s.records, employee, first, length))
    ensures pendingCorrections == |AwaitingRows(s, employee, first, first + length - 1)|
  {
    hide ViewOf, Sealed, HasPending, MonthRows, AwaitingRows, CountLocked, WorkedTotal;
    CountsStartAtZero(s);
    var rows := MonthRows(s.records, employee, first, length);
    var closed := CollectPeriods(s, employee, first, first + length - 1);
    var pending := CollectPending(s, employee, first, first + length - 1);
    days, lockedDays, workedHours := [], 0, 0;
    for k := 0 to |rows|
      invariant |days| == k && forall j :: 0 <= j < k ==> days[j] == ViewOf(s, rows[j])
      invariant lockedDays == CountLocked(days)
      invariant workedHours == WorkedTotal(s, rows[..k])
    {
      AwaitsByMembership(s, rows[k], employee, first, first + length - 1);
      var view := ViewDay(s, rows[k], closed, pending);
      CountsGrow(s, rows, k, days, view);
      days := days + [view];
      workedHours := workedHours + s.records[rows[k]].worked;
      if view.locked {
        lockedDays := lockedDays + 1;
      }
    }
    assert rows[..|rows|] == rows;
    pendingCorrections := |pending|;
  }

  /** One month of `length` days from `first`: the day loop, then the clamped page. */
  method EmployeeAttendanceMonth(s: State, employee: Id, first: Date, length: nat, page: int, size: int)
    returns (r: Option<MonthPage>)
    requires 1 <= length && first + length - 1 <= DATE_MAX
    ensures r.None? <==> page < 1 || size < 1 || size > 31
    ensures r.Some? ==>
              var rows := MonthRows(s.records, employee, first, length);
              var days := Views(s, rows);
              var p := Clamp(page, |days|, size);
              && r.value.days == days
              && r.value.page == p && r.value.pages == PageCount(|days|, size)
              && r.value.items == PageItems(days, p, size)
              && (r.value.hasNext <==> p < r.value.pages) && (r.value.hasPrevious <==> p > 1)
              && r.value.lockedDays == CountLocked(days)
              && r.value.workedHours == WorkedTotal(s, rows)
              && r.value.pendingCorrections == |AwaitingRows(s, employee, first, first + length - 1)|
  {
    if page < 1 || size < 1 || size > 31 {
      return None;
    }
    var days, lockedDays, workedHours, pendingCorrections := BuildDays(s, employee, first, length);
    var pages := PageCount(|days|, size);
    var p := if page < pages then page else pages;
    return Some(MonthPage(days, PageItems(days, p, size), p, pages, p < pages, p > 1, lockedDays, workedHours,
      pendingCorrections));
  }

  /** A day shows its row; the derivation's units appear on open days only, as the schedule gives them. */
  lemma DayShowsTheRow(s: State, i: nat)
    requires i < |s.records|
    ensures var view, r := ViewOf(s, i), s.records[i];
            var day := ResolveWorkDay(s.world, Person(s.world, r.employee), r.date);
            && view.row == i && view.date == r.date && view.status == r.status
            && (view.locked <==> r.locked || Sealed(s, r))
            && view.units == (if view.locked then None else Some(PayrollUnits(r.status, day.kind)))
  {
  }

  /** The summary's locked days are counted one by one. */
  lemma {:induction false} LockedDaysCounted(days: seq<DayView>)
    ensures CountLocked(days) == |set k | 0 <= k < |days| && days[k].locked|
  {
    if days != [] {
      var n := |days| - 1;
      LockedDaysCounted(days[..n]);
      var before := set k | 0 <= k < n && days[..n][k].locked;
      var after := set k | 0 <= k < |days| && days[k].locked;
      assert after == if days[n].locked then before + {n} else before;
    }
  }

  /** And its hours are those of the month's rows added up. */
  lemma HoursAddUp(s: State, rows: seq<nat>, i: nat)
    requires i < |s.records| && forall k :: 0 <= k < |rows| ==> rows[k] < |s.records|
    ensures WorkedTotal(s, []) == 0
    ensures WorkedTotal(s, rows + [i]) == WorkedTotal(s, rows) + s.records[i].worked
  {
    assert (rows + [i])[..|rows|] == rows;
  }

  // -------------------------------------------------------------- main results

  /** Whenever regularization is offered, a submission with a non-blank reason is accepted. */
  lemma OfferIsSound(s: State, i: nat, status: Status, checkIn: Option<int>, checkOut: Option<int>, reason: string)
    requires i < |s.records| && ViewOf(s, i).canRegularize && !IsBlank(reason)
    ensures SubmitOutcome(s, i, status, checkIn, checkOut, reason).Done?
  {
  }

  /**
   With the write guard the offer is also complete: in every reachable state it is made exactly
   when a submission with a non-blank reason would be accepted. Without it, a row created inside
   a CLOSED period is accepted though not offered.
   */
  lemma OfferIsExact(
    states: seq<State>, steps: seq<Step>, n: nat, i: nat,
    status: Status, checkIn: Option<int>, checkOut: Option<int>, reason: string)
    requires IsServiceRun(states, steps) && Initial(states[0]) && n < |states|
    requires i < |states[n].records| && !IsBlank(reason)
    ensures var s := states[n];
            var accepted := SubmitOutcome(s, i, status, checkIn, checkOut, reason).Done?;
            && (ViewOf(s, i).canRegularize <==> accepted && !Sealed(s, s.records[i]))
            && (s.guarded ==> (ViewOf(s, i).canRegularize <==> accepted))
            && (s.guarded ==> ViewOf(s, i).locked == s.records[i].locked)
  {
    hide Next;
    CloseSafety.RunIsSafe(states, steps, n);
  }

  /**
   A blank reason is refused exactly where the policy asks for one; a given reason never makes the
   difference elsewhere.
   */
  lemma WhenTheReasonMatters(
    s: State, i: nat, status: Status, checkIn: Option<int>, checkOut: Option<int>, blank: string, reason: string)
    requires i < |s.records| && IsBlank(blank) && !IsBlank(reason)
    ensures var policy := RecordPolicy(s, s.records[i]);
            SubmitOutcome(s, i, status, checkIn, checkOut, blank).Done? <==>
              && SubmitOutcome(s, i, status, checkIn, checkOut, reason).Done?
              && !(policy.Some? && policy.value.requireReason)
  {
  }

  /** At most one row per employee and date, as the database constrains. */
  ghost predicate UniqueDays(records: seq<Record>) {
    forall i, j :: 0 <= i < j < |records| ==> !SameDay(records[i], records[j])
  }

  predicate SameDay(a: Record, b: Record) {
    a.employee == b.employee && a.date == b.date
  }

  lemma UniqueDaysStep(s: State, step: Step)
    requires UniqueDays(s.records)
    ensures UniqueDays(Next(s, step).records)
  {
    DaysAfterStep(s, step);
    hide Next;
    var t := Next(s, step).records;
    forall i, j | 0 <= i < j < |t|
      ensures !SameDay(t[i], t[j])
    {
      assert SameDay(s.records[i], t[i]);
      assert j < |s.records| ==> SameDay(s.records[j], t[j]);
    }
  }

  /** Rows keep their employee and date; a row is added only for a day that has none. */
  lemma DaysAfterStep(s: State, step: Step)
    ensures var t := Next(s, step).records;
            && |s.records| <= |t| <= |s.records| + 1
            && (forall i :: 0 <= i < |s.records| ==> SameDay(s.records[i], t[i]))
            && (|t| > |s.records| ==> forall i :: 0 <= i < |s.records| ==> !SameDay(s.records[i], t[|s.records|]))
  {
    hide Corrected, Sealed, RecordPolicy, SnapshotOf;
    if step.EnsureDay? {
      CloseSafety.RederiveKeepsKey(s.world, BlankRecord(step.employee, step.date));
    } else if step.Resolve? && step.reg < |s.regs| && s.regs[step.reg].record < |s.records| {
      CloseSafety.CorrectedKeepsKey(s.world, s.records[s.regs[step.reg].record], s.regs[step.reg]);
    }
  }

  lemma {:induction false} DaysStayUnique(states: seq<State>, steps: seq<Step>, n: nat)
    requires IsRun(states, steps) && n < |states| && UniqueDays(states[0].records)
    ensures UniqueDays(states[n].records)
    decreases n
  {
    if n > 0 {
      DaysStayUnique(states, steps, n - 1);
      UniqueDaysStep(states[n - 1], steps[n - 1]);
    }
  }

  /** The projection misses none of the month's rows. */
  lemma {:induction false} MonthIsComplete(records: seq<Record>, employee: Id, first: Date, days: nat, i: nat)
    requires first + days <= DATE_MAX + 1 && UniqueDays(records)
    requires i < |records| && records[i].employee == employee && first <= records[i].date < first + days
    ensures i in MonthRows(records, employee, first, days)
    decreases days
  {
    var d: Date := first + days - 1;
    if records[i].date == d {
      assert HasDay(records, employee, d);
      var found := RowOfDay(records, employee, d);
      assert SameDay(records[i], records[found]) && SameDay(records[found], records[i]);
    } else {
      MonthIsComplete(records, employee, first, days - 1, i);
    }
  }
}
