/** Cyclic roster lookup, checked against the fully expanded cycle. */
module Rotation {
  import opened Basics
  import opened RosterConfig

  ghost predicate Usable(entries: seq<Entry>) {
    entries != [] && forall i :: 0 <= i < |entries| ==> 1 <= entries[i].span
  }

  function CycleDays(entries: seq<Entry>): nat {
    if entries == [] then 0 else CycleDays(entries[..|entries| - 1]) + entries[|entries| - 1].span
  }

  /** The reference: one list element per day of the cycle, naming the entry that day belongs to. */
  function Expanded(entries: seq<Entry>): (days: seq<nat>)
    ensures |days| == CycleDays(entries)
    ensures forall i :: 0 <= i < |days| ==> days[i] < |entries|
  {
    if entries == [] then []
    else
      var n := |entries| - 1;
      Expanded(entries[..n]) + Run(n, entries[n].span)
  }

  function Run(k: nat, length: nat): seq<nat> {
    seq(length, _ => k)
  }

  lemma {:induction false} CyclePositive(entries: seq<Entry>)
    requires Usable(entries)
    ensures CycleDays(entries) >= 1
  {
  }

  /** Days before the anchor count as day zero of the cycle. */
  function DayPointer(entries: seq<Entry>, anchor: Date, d: Date): (p: nat)
    requires CycleDays(entries) >= 1
    ensures p < CycleDays(entries)
  {
    (if d < anchor then 0 else d - anchor) % CycleDays(entries)
  }

  function EntryOn(entries: seq<Entry>, anchor: Date, d: Date): (k: nat)
    requires CycleDays(entries) >= 1
    ensures k < |entries|
  {
    Expanded(entries)[DayPointer(entries, anchor, d)]
  }

  lemma {:induction false} ExpandedPrefix(entries: seq<Entry>, k: nat, p: nat)
    requires k < |entries|
    requires CycleDays(entries[..k]) <= p < CycleDays(entries[..k + 1])
    ensures p < CycleDays(entries) && Expanded(entries)[p] == k
    decreases |entries|
  {
    var n := |entries| - 1;
    if k == n {
      assert entries[..k + 1] == entries;
    } else {
      assert entries[..n][..k] == entries[..k] && entries[..n][..k + 1] == entries[..k + 1];
      ExpandedPrefix(entries[..n], k, p);
    }
  }

  /** The cumulative-days loop finds the entry that the expanded cycle holds at the day pointer. */
  method PickEntry(entries: seq<Entry>, anchor: Date, d: Date) returns (chosen: nat)
    requires Usable(entries)
    ensures CycleDays(entries) >= 1 && chosen == EntryOn(entries, anchor, d)
  {
    CyclePositive(entries);
    var cycle := 0;
    for i := 0 to |entries|
      invariant cycle == CycleDays(entries[..i])
    {
      assert entries[..i + 1][..i] == entries[..i];
      cycle := cycle + entries[i].span;
    }
    assert entries[..|entries|] == entries;
    var elapsed := if d < anchor then 0 else d - anchor;
    var pointer := elapsed % cycle;
    chosen := 0;
    var cumulative := 0;
    for k := 0 to |entries|
      invariant cumulative == CycleDays(entries[..k])
      invariant cumulative <= pointer
    {
      assert entries[..k + 1][..k] == entries[..k];
      cumulative := cumulative + entries[k].span;
      if pointer < cumulative {
        ExpandedPrefix(entries, k, pointer);
        chosen := k;
        break;
      }
    }
  }

  // ------------------------------------------------------------- periodicity

  lemma ModShift(x: nat, c: nat)
    requires c >= 1
    ensures (x + c) % c == x % c
  {
    assert x + c == c * (x / c + 1) + x % c;
    ModUnique(x + c, c, x / c + 1, x % c);
  }

  lemma ModUnique(x: nat, c: nat, q: nat, r: nat)
    requires c >= 1 && r < c && x == c * q + r
    ensures x % c == r
  {
    assert c * (q - x / c) == x % c - r;
    if q != x / c {
      ScaledGap(c, q - x / c);
    }
  }

  lemma ScaledGap(c: nat, gap: int)
    requires gap != 0
    ensures c * gap >= c || c * gap + c <= 0
  {
    if gap >= 1 {
      Scaled(c, gap);
    } else {
      Scaled(c, 0 - gap);
    }
  }

  lemma Scaled(c: nat, k: nat)
    requires k >= 1
    ensures c * k >= c
  {
  }

  lemma PointerIsPeriodic(entries: seq<Entry>, anchor: Date, d: Date)
    requires CycleDays(entries) >= 1
    requires anchor <= d && d + CycleDays(entries) <= DATE_MAX
    ensures DayPointer(entries, anchor, d + CycleDays(entries)) == DayPointer(entries, anchor, d)
  {
    hide CycleDays;
    ModShift(d - anchor, CycleDays(entries));
    assert d + CycleDays(entries) - anchor == (d - anchor) + CycleDays(entries);
  }

  /** The pick repeats with the cycle from the anchor on. */
  lemma PickIsPeriodic(entries: seq<Entry>, anchor: Date, d: Date)
    requires Usable(entries)
    requires anchor <= d && d + CycleDays(entries) <= DATE_MAX
    ensures CycleDays(entries) >= 1
    ensures EntryOn(entries, anchor, d + CycleDays(entries)) == EntryOn(entries, anchor, d)
  {
    CyclePositive(entries);
    PointerIsPeriodic(entries, anchor, d);
    hide DayPointer, CycleDays;
  }

  lemma CycleStartsWithFirst(entries: seq<Entry>)
    requires Usable(entries)
    ensures CycleDays(entries) >= 1 && Expanded(entries)[0] == 0
  {
    var first := entries[..1];
    assert first[..0] == [] && CycleDays(first) == entries[0].span;
    assert entries[..0] == [];
    ExpandedPrefix(entries, 0, 0);
  }

  lemma ZeroPointer(entries: seq<Entry>, anchor: Date, d: Date)
    requires CycleDays(entries) >= 1 && d <= anchor
    ensures DayPointer(entries, anchor, d) == 0
  {
    ModUnique(0, CycleDays(entries), 0, 0);
  }

  /** On and before the anchor the first entry applies. */
  lemma PickBeforeAnchor(entries: seq<Entry>, anchor: Date, d: Date)
    requires Usable(entries) && d <= anchor
    ensures CycleDays(entries) >= 1 && EntryOn(entries, anchor, d) == 0
  {
    CyclePositive(entries);
    CycleStartsWithFirst(entries);
    ZeroPointer(entries, anchor, d);
  }

  /** The picks of `length` consecutive days. */
  function Picks(entries: seq<Entry>, anchor: Date, start: Date, length: nat): seq<nat>
    requires CycleDays(entries) >= 1 && start + length <= DATE_MAX + 1
  {
    seq<nat>(length, i requires 0 <= i < length => EntryOn(entries, anchor, start + i))
  }

  lemma {:induction false} Repeats(s: seq<nat>, n: nat, k: nat)
    requires forall i :: 0 <= i < |s| ==> s[i] == n
    ensures multiset(s)[k] == if k == n then |s| else 0
  {
    if s != [] {
      Repeats(s[1..], n, k);
      assert s == [s[0]] + s[1..];
    }
  }

  lemma CountAppended(head: seq<nat>, tail: seq<nat>, n: nat, k: nat)
    requires forall i :: 0 <= i < |tail| ==> tail[i] == n
    ensures multiset(head + tail)[k] == multiset(head)[k] + (if k == n then |tail| else 0)
  {
    Repeats(tail, n, k);
  }

  lemma LaterEntryIsAbsent(s: seq<nat>, n: nat)
    requires forall i :: 0 <= i < |s| ==> s[i] < n
    ensures multiset(s)[n] == 0
  {
    assert n !in s;
  }

  /** The number of days the cycle gives to entry `k` is its span. */
  lemma {:induction false} SpanCounts(entries: seq<Entry>, k: nat)
    requires k < |entries|
    ensures multiset(Expanded(entries))[k] == entries[k].span
    decreases |entries|
  {
    var n := |entries| - 1;
    var head := Expanded(entries[..n]);
    CountAppended(head, Run(n, entries[n].span), n, k);
    if k < n {
      SpanCounts(entries[..n], k);
    } else {
      LaterEntryIsAbsent(head, n);
    }
  }

  lemma PointerLater(entries: seq<Entry>, anchor: Date, start: Date, i: nat)
    requires i < CycleDays(entries)
    requires anchor <= start && start + i <= DATE_MAX
    ensures var r := DayPointer(entries, anchor, start);
            DayPointer(entries, anchor, start + i)
              == if r + i < CycleDays(entries) then r + i else r + i - CycleDays(entries)
  {
    PointerAdvances(start - anchor, i, CycleDays(entries));
    assert start + i - anchor == (start - anchor) + i;
  }

  /** Day `i` of the window is day `i` of the cycle turned to where the window starts. */
  lemma WindowDay(entries: seq<Entry>, anchor: Date, start: Date, i: nat)
    requires i < CycleDays(entries)
    requires anchor <= start && start + i <= DATE_MAX
    ensures var cycle, r := Expanded(entries), DayPointer(entries, anchor, start);
            (cycle[r..] + cycle[..r])[i] == EntryOn(entries, anchor, start + i)
  {
    PointerLater(entries, anchor, start, i);
    hide CycleDays, Expanded, DayPointer;
    var cycle, r := Expanded(entries), DayPointer(entries, anchor, start);
    if r + i < |cycle| {
      assert cycle[r..][i] == cycle[r + i];
    } else {
      assert cycle[..r][r + i - |cycle|] == cycle[r + i - |cycle|];
    }
  }

  lemma WindowIsRotation(entries: seq<Entry>, anchor: Date, start: Date)
    requires CycleDays(entries) >= 1
    requires anchor <= start && start + CycleDays(entries) <= DATE_MAX + 1
    ensures var r := DayPointer(entries, anchor, start);
            Picks(entries, anchor, start, CycleDays(entries)) == Expanded(entries)[r..] + Expanded(entries)[..r]
  {
    hide CycleDays, Expanded, DayPointer;
    var cycle, r := Expanded(entries), DayPointer(entries, anchor, start);
    var window := Picks(entries, anchor, start, CycleDays(entries));
    forall i: nat | i < CycleDays(entries)
      ensures window[i] == (cycle[r..] + cycle[..r])[i]
    {
      WindowDay(entries, anchor, start, i);
    }
  }

  lemma TurningKeepsCounts(s: seq<nat>, r: nat)
    requires r <= |s|
    ensures multiset(s[r..] + s[..r]) == multiset(s)
  {
    assert s == s[..r] + s[r..];
  }

  /** Any cycle-long window on or after the anchor gives each entry exactly its span of days. */
  lemma WindowIsFair(entries: seq<Entry>, anchor: Date, start: Date, k: nat)
    requires Usable(entries) && k < |entries|
    requires anchor <= start && start + CycleDays(entries) <= DATE_MAX + 1
    ensures CycleDays(entries) >= 1
    ensures multiset(Picks(entries, anchor, start, CycleDays(entries)))[k] == entries[k].span
  {
    CyclePositive(entries);
    WindowIsRotation(entries, anchor, start);
    TurningKeepsCounts(Expanded(entries), DayPointer(entries, anchor, start));
    SpanCounts(entries, k);
  }

  lemma PointerAdvances(x: nat, i: nat, c: nat)
    requires i < c
    ensures (x + i) % c == if x % c + i < c then x % c + i else x % c + i - c
  {
    var q, r := x / c, x % c;
    assert x == c * q + r;
    if r + i < c {
      ModUnique(x + i, c, q, r + i);
    } else {
      assert c * (q + 1) == c * q + c;
      ModUnique(x + i, c, q + 1, r + i - c);
    }
  }
}
