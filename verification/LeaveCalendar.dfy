/** Monthly leave counts by a difference array and one running sum. */
module LeaveCalendar {
  import opened Basics

  datatype Interval = Interval(start: Date, end: Date)

  datatype DayCount = DayCount(date: Date, count: int)

  predicate Touches(v: Interval, first: Date, last: Date) {
    v.start <= last && first <= v.end
  }

  predicate Covers(v: Interval, d: Date) {
    v.start <= d <= v.end
  }

  /** The reference: how many leaves cover the day, counted one by one. */
  function CoverCount(leaves: seq<Interval>, d: Date): nat {
    if leaves == [] then 0
    else CoverCount(leaves[..|leaves| - 1], d) + (if Covers(leaves[|leaves| - 1], d) then 1 else 0)
  }

  /** What one fetched interval adds to a day of the month: one from its start, minus one after its end. */
  function Net(v: Interval, d: Date): int {
    (if v.start <= d then 1 else 0) - (if v.end < d then 1 else 0)
  }

  /** Net contribution of the intervals that touch the month. */
  function NetCount(leaves: seq<Interval>, first: Date, last: Date, d: Date): int {
    if leaves == [] then 0
    else
      var v := leaves[|leaves| - 1];
      NetCount(leaves[..|leaves| - 1], first, last, d) + (if Touches(v, first, last) then Net(v, d) else 0)
  }

  /** Sum of the first `n` elements. */
  function Sum(s: seq<int>, n: nat): int
    requires n <= |s|
  {
    if n == 0 then 0 else Sum(s, n - 1) + s[n - 1]
  }

  lemma {:induction false} SumAfterBump(s: seq<int>, j: nat, bump: int, n: nat)
    requires j < |s| && n <= |s|
    ensures Sum(s[j := s[j] + bump], n) == Sum(s, n) + (if j < n then bump else 0)
    decreases n
  {
    if n > 0 {
      SumAfterBump(s, j, bump, n - 1);
    }
  }

  lemma {:induction false} SumOfZeros(s: seq<int>, n: nat)
    requires n <= |s| && forall i :: 0 <= i < |s| ==> s[i] == 0
    ensures Sum(s, n) == 0
    decreases n
  {
    if n > 0 {
      SumOfZeros(s, n - 1);
    }
  }

  /** The running sums of the difference array are the net counts of the leaves applied so far. */
  ghost predicate Applied(deltas: seq<int>, leaves: seq<Interval>, first: Date, days: nat) {
    && |deltas| == days + 1 && first + days - 1 <= DATE_MAX
    && forall i :: 0 <= i < days ==> AppliedOn(deltas, leaves, first, days, i)
  }

  predicate AppliedOn(deltas: seq<int>, leaves: seq<Interval>, first: Date, days: nat, i: nat)
    requires i < days && |deltas| == days + 1 && first + days - 1 <= DATE_MAX
  {
    Sum(deltas, i + 1) == NetCount(leaves, first, first + days - 1, first + i)
  }

  /** The two bumps of one interval, at positions inside the array. */
  function Bumped(deltas: seq<int>, v: Interval, first: Date, last: Date): (after: seq<int>)
    requires first <= last && |deltas| == last - first + 2 && Touches(v, first, last)
    ensures |after| == |deltas|
  {
    var from := (if v.start < first then first else v.start) - first;
    var past := (if v.end < last then v.end else last) - first + 1;
    var once := deltas[from := deltas[from] + 1];
    once[past := once[past] - 1]
  }

  lemma BumpsApplyOneMore(deltas: seq<int>, leaves: seq<Interval>, v: Interval, first: Date, days: nat)
    requires days >= 1 && Applied(deltas, leaves, first, days)
    requires Touches(v, first, first + days - 1)
    ensures Applied(Bumped(deltas, v, first, first + days - 1), leaves + [v], first, days)
  {
    var last: Date := first + days - 1;
    var from := (if v.start < first then first else v.start) - first;
    var past := (if v.end < last then v.end else last) - first + 1;
    var once := deltas[from := deltas[from] + 1];
    assert (leaves + [v])[..|leaves|] == leaves;
    forall i | 0 <= i < days
      ensures AppliedOn(Bumped(deltas, v, first, last), leaves + [v], first, days, i)
    {
      assert AppliedOn(deltas, leaves, first, days, i);
      SumAfterBump(deltas, from, 1, i + 1);
      SumAfterBump(once, past, -1, i + 1);
    }
  }

  lemma SkippedLeaf(deltas: seq<int>, leaves: seq<Interval>, v: Interval, first: Date, days: nat)
    requires days >= 1 && Applied(deltas, leaves, first, days)
    requires !Touches(v, first, first + days - 1)
    ensures Applied(deltas, leaves + [v], first, days)
  {
    assert (leaves + [v])[..|leaves|] == leaves;
    assert forall i :: 0 <= i < days && AppliedOn(deltas, leaves, first, days, i)
                 ==> AppliedOn(deltas, leaves + [v], first, days, i);
  }

  /**
   The sweep over one month of `days` days from `first`. All array positions are in bounds for
   any intervals, ordered or not, and each day's count is the net count of that day.
   */
  method EmployeeLeaveCalendar(leaves: seq<Interval>, first: Date, days: nat) returns (counts: seq<DayCount>)
    requires 1 <= days && first + days - 1 <= DATE_MAX
    ensures |counts| == days
    ensures forall i :: 0 <= i < days ==> counts[i].date == first + i
    ensures forall i :: 0 <= i < days ==> counts[i].count == NetCount(leaves, first, first + days - 1, first + i)
    ensures AllOrdered(leaves) ==> TotalOf(counts) == TotalClipped(leaves, first, first + days - 1)
  {
    var last: Date := first + days - 1;
    var deltas := new int[days + 1](_ => 0);
    forall i | 0 <= i < days
      ensures AppliedOn(deltas[..], [], first, days, i)
    {
      SumOfZeros(deltas[..], i + 1);
    }
    for k := 0 to |leaves|
      invariant Applied(deltas[..], leaves[..k], first, days)
    {
      var v := leaves[k];
      assert leaves[..k + 1] == leaves[..k] + [v];
      if Touches(v, first, last) {
        ghost var before := deltas[..];
        var from := (if v.start < first then first else v.start) - first;
        deltas[from] := deltas[from] + 1;
        var past := (if v.end < last then v.end else last) - first + 1;
        deltas[past] := deltas[past] - 1;
        assert deltas[..] == Bumped(before, v, first, last);
        BumpsApplyOneMore(before, leaves[..k], v, first, days);
      } else {
        SkippedLeaf(deltas[..], leaves[..k], v, first, days);
      }
    }
    assert leaves[..|leaves|] == leaves;
    counts := [];
    var running := 0;
    for i := 0 to days
      invariant |counts| == i && running == Sum(deltas[..], i)
      invariant forall k :: 0 <= k < i ==> counts[k] == DayCount(first + k, NetCount(leaves, first, last, first + k))
    {
      assert AppliedOn(deltas[..], leaves, first, days, i);
      running := running + deltas[i];
      counts := counts + [DayCount(first + i, running)];
    }
    OutputTotal(counts, leaves, first, last);
    SweepConservesLength(leaves, first, days);
  }

  // ------------------------------------------------------- net count and cover

  ghost predicate AllOrdered(leaves: seq<Interval>) {
    forall k :: 0 <= k < |leaves| ==> leaves[k].start <= leaves[k].end
  }

  /** The day falls strictly between the end and the start of a reversed interval that touches the month. */
  predicate InReversedGap(v: Interval, first: Date, last: Date, d: Date) {
    Touches(v, first, last) && v.end < d < v.start
  }

  function GapCount(leaves: seq<Interval>, first: Date, last: Date, d: Date): nat {
    if leaves == [] then 0
    else
      GapCount(leaves[..|leaves| - 1], first, last, d)
      + (if InReversedGap(leaves[|leaves| - 1], first, last, d) then 1 else 0)
  }

  lemma {:induction false} NetIsCoverLessGaps(leaves: seq<Interval>, first: Date, last: Date, d: Date)
    requires first <= d <= last
    ensures NetCount(leaves, first, last, d) == CoverCount(leaves, d) - GapCount(leaves, first, last, d)
    ensures GapCount(leaves, first, last, d) == 0 <==> forall k :: 0 <= k < |leaves| ==>
              !InReversedGap(leaves[k], first, last, d)
  {
    if leaves != [] {
      var init := leaves[..|leaves| - 1];
      NetIsCoverLessGaps(init, first, last, d);
      assert forall k :: 0 <= k < |init| ==> init[k] == leaves[k];
    }
  }

  /** For ordered leaves each day's count is exactly the number of leaves covering it. */
  lemma OrderedLeavesCountCover(leaves: seq<Interval>, first: Date, last: Date, d: Date)
    requires first <= d <= last && AllOrdered(leaves)
    ensures NetCount(leaves, first, last, d) == CoverCount(leaves, d)
  {
    NetIsCoverLessGaps(leaves, first, last, d);
  }

  /** For arbitrary rows the count is right on a day exactly when no reversed interval straddles it. */
  lemma WhenTheCountIsRight(leaves: seq<Interval>, first: Date, last: Date, d: Date)
    requires first <= d <= last
    ensures (NetCount(leaves, first, last, d) == CoverCount(leaves, d)) <==>
            forall k :: 0 <= k < |leaves| ==> !InReversedGap(leaves[k], first, last, d)
  {
    NetIsCoverLessGaps(leaves, first, last, d);
  }

  // -------------------------------------------------------------- conservation

  function ClippedLength(v: Interval, first: Date, last: Date): nat {
    var from := if v.start < first then first else v.start;
    var to := if v.end < last then v.end else last;
    if to < from then 0 else to - from + 1
  }

  function TotalClipped(leaves: seq<Interval>, first: Date, last: Date): nat {
    if leaves == [] then 0
    else TotalClipped(leaves[..|leaves| - 1], first, last) + ClippedLength(leaves[|leaves| - 1], first, last)
  }

  /** Counts added up over the first `n` days of the month. */
  function MonthTotal(leaves: seq<Interval>, first: Date, n: nat): nat
    requires first + n <= DATE_MAX + 1
  {
    if n == 0 then 0 else MonthTotal(leaves, first, n - 1) + CoverCount(leaves, first + n - 1)
  }

  lemma {:induction false} OneLeafTotal(v: Interval, first: Date, n: nat)
    requires first + n <= DATE_MAX + 1
    ensures MonthTotal([v], first, n) == if n == 0 then 0 else ClippedLength(v, first, first + n - 1)
    decreases n
  {
    assert [v][..0] == [];
    if n > 0 {
      OneLeafTotal(v, first, n - 1);
      assert CoverCount([v], first + n - 1) == if Covers(v, first + n - 1) then 1 else 0;
    }
  }

  lemma {:induction false} MonthTotalSplits(leaves: seq<Interval>, v: Interval, first: Date, n: nat)
    requires first + n <= DATE_MAX + 1
    ensures MonthTotal(leaves + [v], first, n) == MonthTotal(leaves, first, n) + MonthTotal([v], first, n)
    decreases n
  {
    if n > 0 {
      MonthTotalSplits(leaves, v, first, n - 1);
      var d: Date := first + n - 1;
      assert (leaves + [v])[..|leaves|] == leaves && [v][..0] == [];
      assert CoverCount(leaves + [v], d) == CoverCount(leaves, d) + CoverCount([v], d);
    }
  }

  /** The month's counts add up to the total length of the leaves clipped to the month. */
  lemma {:induction false} CountsConserveLength(leaves: seq<Interval>, first: Date, days: nat)
    requires 1 <= days && first + days - 1 <= DATE_MAX
    ensures MonthTotal(leaves, first, days) == TotalClipped(leaves, first, first + days - 1)
    decreases |leaves|
  {
    if leaves == [] {
      NoLeavesNoTotal(first, days);
    } else {
      var init, v := leaves[..|leaves| - 1], leaves[|leaves| - 1];
      assert leaves == init + [v];
      CountsConserveLength(init, first, days);
      MonthTotalSplits(init, v, first, days);
      OneLeafTotal(v, first, days);
    }
  }

  // ------------------------------------------------- conservation of the sweep

  /** The sweep's counts added up over the first `n` days of a month ending on `last`. */
  function SweepTotal(leaves: seq<Interval>, first: Date, last: Date, n: nat): int
    requires first + n <= DATE_MAX + 1
  {
    if n == 0 then 0 else SweepTotal(leaves, first, last, n - 1) + NetCount(leaves, first, last, first + n - 1)
  }

  /** No reversed interval straddles any of the first `n` days. */
  ghost predicate GapFree(leaves: seq<Interval>, first: Date, last: Date, n: nat) {
    forall d: Date, k :: first <= d < first + n && 0 <= k < |leaves| ==> !InReversedGap(leaves[k], first, last, d)
  }

  lemma {:induction false} SweepTotalLessGaps(leaves: seq<Interval>, first: Date, last: Date, n: nat)
    requires first + n <= last + 1
    ensures SweepTotal(leaves, first, last, n) <= MonthTotal(leaves, first, n)
    ensures SweepTotal(leaves, first, last, n) == MonthTotal(leaves, first, n) <==> GapFree(leaves, first, last, n)
    decreases n
  {
    if n > 0 {
      SweepTotalLessGaps(leaves, first, last, n - 1);
      var d: Date := first + n - 1;
      NetIsCoverLessGaps(leaves, first, last, d);
      assert GapFree(leaves, first, last, n) <==>
        GapFree(leaves, first, last, n - 1) && forall k :: 0 <= k < |leaves| ==>
          !InReversedGap(leaves[k], first, last, d);
    }
  }

  /**
   The counts of the sweep never add up to more than the total length of the leaves clipped to the
   month, and to exactly that when and only when no reversed interval straddles a day of it.
   */
  lemma SweepConservesLength(leaves: seq<Interval>, first: Date, days: nat)
    requires 1 <= days && first + days - 1 <= DATE_MAX
    ensures var last: Date := first + days - 1;
            && SweepTotal(leaves, first, last, days) <= TotalClipped(leaves, first, last)
            && (SweepTotal(leaves, first, last, days) == TotalClipped(leaves, first, last) <==>
                 GapFree(leaves, first, last, days))
            && (AllOrdered(leaves) ==> SweepTotal(leaves, first, last, days) == TotalClipped(leaves, first, last))
  {
    CountsConserveLength(leaves, first, days);
    SweepTotalLessGaps(leaves, first, first + days - 1, days);
  }

  /** The counts of a month's days added up. */
  function TotalOf(counts: seq<DayCount>): int {
    if counts == [] then 0 else TotalOf(counts[..|counts| - 1]) + counts[|counts| - 1].count
  }

  lemma {:induction false} OutputTotal(counts: seq<DayCount>, leaves: seq<Interval>, first: Date, last: Date)
    requires first + |counts| <= DATE_MAX + 1
    requires forall i :: 0 <= i < |counts| ==> counts[i].count == NetCount(leaves, first, last, first + i)
    ensures TotalOf(counts) == SweepTotal(leaves, first, last, |counts|)
    decreases |counts|
  {
    if counts != [] {
      OutputTotal(counts[..|counts| - 1], leaves, first, last);
    }
  }

  /**
   A row the request service would refuse: from day 20 to day 10. On day 15 the sweep counts
   minus one leave where none covers the day.
   */
  lemma ReversedLeaveIsUndercounted()
    ensures var leaves := [Interval(20, 10)];
            NetCount(leaves, 1, 30, 15) == -1 && CoverCount(leaves, 15) == 0 && !GapFree(leaves, 1, 30, 30)
  {
    var leaves := [Interval(20, 10)];
    assert leaves[..0] == [];
    assert InReversedGap(leaves[0], 1, 30, 15);
  }

  lemma {:induction false} NoLeavesNoTotal(first: Date, n: nat)
    requires first + n <= DATE_MAX + 1
    ensures MonthTotal([], first, n) == 0
    decreases n
  {
    if n > 0 {
      NoLeavesNoTotal(first, n - 1);
    }
  }
}
