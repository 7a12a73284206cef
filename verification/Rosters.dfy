/** Employee shift assignments: which one applies on a date and which shift it yields. */
module Rosters {
  import opened Basics
  import opened Domain
  import opened RosterConfig
  import opened Rotation

  datatype AssignmentKind = Fixed | WeeklyRotation | TemporaryOverride

  datatype ShiftAssignment = ShiftAssignment(
    id: Id, employee: Id, shift: Shift, kind: AssignmentKind, from: Date, until: Option<Date>,
    primary: bool, createdAt: int, config: RawConfig)

  function LastDay(until: Option<Date>): Date {
    if until.Some? then until.value else DATE_MAX
  }

  predicate CoversDay(a: ShiftAssignment, d: Date) {
    a.from <= d <= LastDay(a.until)
  }

  // --------------------------------------------------------- which one applies

  function KindPriority(k: AssignmentKind): nat {
    match k
    case TemporaryOverride => 3
    case WeeklyRotation => 2
    case Fixed => 1
  }

  function Flag(b: bool): nat {
    if b then 1 else 0
  }

  /** The sort key (kind, primary, start, age), compared from the left. */
  predicate Outranks(a: ShiftAssignment, b: ShiftAssignment) {
    var ka, kb := KindPriority(a.kind), KindPriority(b.kind);
    var pa, pb := Flag(a.primary), Flag(b.primary);
    || ka > kb
    || (ka == kb && pa > pb)
    || (ka == kb && pa == pb && a.from > b.from)
    || (ka == kb && pa == pb && a.from == b.from && a.createdAt > b.createdAt)
  }

  predicate AppliesTo(a: ShiftAssignment, employee: Id, d: Date) {
    a.employee == employee && CoversDay(a, d)
  }

  function AppliedRows(rows: seq<ShiftAssignment>, employee: Id, d: Date): seq<ShiftAssignment> {
    if rows == [] then []
    else
      var init := AppliedRows(rows[..|rows| - 1], employee, d);
      var row := rows[|rows| - 1];
      if AppliesTo(row, employee, d) then init + [row] else init
  }

  /** Head of the list after a stable descending sort: the first row that none outranks. */
  function Top(rows: seq<ShiftAssignment>): Option<ShiftAssignment> {
    if rows == [] then None
    else
      var init := Top(rows[..|rows| - 1]);
      var row := rows[|rows| - 1];
      if init.None? || Outranks(row, init.value) then Some(row) else init
  }

  function RosterFor(rows: seq<ShiftAssignment>, employee: Id, d: Date): Option<ShiftAssignment> {
    Top(AppliedRows(rows, employee, d))
  }

  ghost predicate Leads(rows: seq<ShiftAssignment>, employee: Id, d: Date, a: ShiftAssignment) {
    && a in rows && AppliesTo(a, employee, d)
    && forall b :: b in rows && AppliesTo(b, employee, d) ==> !Outranks(b, a)
  }

  ghost predicate DistinctRanks(rows: seq<ShiftAssignment>) {
    forall a, b :: a in rows && b in rows && !Outranks(a, b) && !Outranks(b, a) ==> a == b
  }

  lemma {:induction false} AppliedMembers(rows: seq<ShiftAssignment>, employee: Id, d: Date)
    ensures forall a :: a in AppliedRows(rows, employee, d) <==> a in rows && AppliesTo(a, employee, d)
  {
    if rows != [] {
      AppliedMembers(rows[..|rows| - 1], employee, d);
      assert rows == rows[..|rows| - 1] + [rows[|rows| - 1]];
    }
  }

  lemma {:induction false} TopIsGreatest(rows: seq<ShiftAssignment>)
    ensures Top(rows).None? <==> rows == []
    ensures Top(rows).Some? ==> Top(rows).value in rows
    ensures Top(rows).Some? ==> forall a :: a in rows ==> !Outranks(a, Top(rows).value)
  {
    if rows != [] {
      TopIsGreatest(rows[..|rows| - 1]);
      assert rows == rows[..|rows| - 1] + [rows[|rows| - 1]];
    }
  }

  lemma RosterForLeads(rows: seq<ShiftAssignment>, employee: Id, d: Date)
    ensures var r := RosterFor(rows, employee, d);
            && (r.None? <==> forall a :: a in rows ==> !AppliesTo(a, employee, d))
            && (r.Some? ==> Leads(rows, employee, d, r.value))
  {
    AppliedMembers(rows, employee, d);
    TopIsGreatest(AppliedRows(rows, employee, d));
  }

  /**
   Temporary overrides come first, then rotations, then fixed assignments; within a kind a primary
   assignment first, then the one starting last, then the newest.
   */
  lemma RosterPrecedence(rows: seq<ShiftAssignment>, employee: Id, d: Date, b: ShiftAssignment)
    requires b in rows && b.employee == employee && b.from <= d && (b.until.Some? ==> d <= b.until.value)
    ensures var r := RosterFor(rows, employee, d);
            && r.Some?
            && var a := r.value;
            && a in rows && a.employee == employee && a.from <= d && (a.until.Some? ==> d <= a.until.value)
            && (b.kind.TemporaryOverride? ==> a.kind.TemporaryOverride?)
            && (a.kind.Fixed? ==> b.kind.Fixed?)
            && (a.kind == b.kind && b.primary ==> a.primary)
            && (a.kind == b.kind && a.primary == b.primary ==> b.from <= a.from)
            && (a.kind == b.kind && a.primary == b.primary && a.from == b.from ==> b.createdAt <= a.createdAt)
  {
    RosterForLeads(rows, employee, d);
  }

  // ------------------------------------------------------------ which shift

  datatype Resolved = Resolved(shift: Option<Shift>, rosterOff: bool)

  function AnchorDay(anchor: Option<DateText>, fallback: Date): Date {
    if anchor.Some? && anchor.value.Iso? then anchor.value.date else fallback
  }

  function NormalConfig(a: ShiftAssignment): (c: Config)
    ensures CycleDays(c.entries) >= 1
  {
    var c := Normalize(a.config, Some(a.shift.id), Some(a.from));
    assert CycleDays(c.entries) >= 1 by {
      NormalFormIsUsable(a.config, Some(a.shift.id), Some(a.from));
      CyclePositive(c.entries);
    }
    c
  }

  /** The rotation step of the day is an off step. */
  predicate RestsOn(a: ShiftAssignment, d: Date) {
    a.kind.WeeklyRotation? &&
    var c := NormalConfig(a);
    c.entries[EntryOn(c.entries, AnchorDay(c.anchor, a.from), d)].kind.Off?
  }

  function ResolveShift(a: ShiftAssignment, d: Date, shifts: map<Id, Shift>): Resolved {
    if !a.kind.WeeklyRotation? then Resolved(Some(a.shift), false)
    else
      var c := NormalConfig(a);
      var entry := c.entries[EntryOn(c.entries, AnchorDay(c.anchor, a.from), d)];
      if entry.kind.Off? then Resolved(None, true)
      else if entry.shift.Some? && entry.shift.value in shifts then Resolved(Some(shifts[entry.shift.value]), false)
      else Resolved(Some(a.shift), false)
  }

  /** The shifts a one-off resolution fetches: those its own rotation names. */
  function NamedShifts(a: ShiftAssignment, shifts: map<Id, Shift>): map<Id, Shift> {
    var entries := NormalConfig(a).entries;
    map id | id in shifts && (exists i :: 0 <= i < |entries| && entries[i].shift == Some(id)) :: shifts[id]
  }

  /** Fetching only the named shifts or all of them makes no difference. */
  lemma NamedShiftsSuffice(a: ShiftAssignment, d: Date, shifts: map<Id, Shift>)
    ensures ResolveShift(a, d, NamedShifts(a, shifts)) == ResolveShift(a, d, shifts)
  {
  }

  /** Resolution by the cumulative-days loop. */
  method ResolveShiftFromAssignment(a: ShiftAssignment, d: Date, shifts: map<Id, Shift>) returns (r: Resolved)
    ensures r == ResolveShift(a, d, shifts)
  {
    if !a.kind.WeeklyRotation? {
      return Resolved(Some(a.shift), false);
    }
    var c := NormalConfig(a);
    NormalFormIsUsable(a.config, Some(a.shift.id), Some(a.from));
    var k := PickEntry(c.entries, AnchorDay(c.anchor, a.from), d);
    var entry := c.entries[k];
    if entry.kind.Off? {
      r := Resolved(None, true);
    } else if entry.shift.Some? && entry.shift.value in shifts {
      r := Resolved(Some(shifts[entry.shift.value]), false);
    } else {
      r := Resolved(Some(a.shift), false);
    }
  }

  // ------------------------------------------ storing a normal form keeps meaning

  lemma {:induction false} SameSpansSameCycle(a: seq<Entry>, b: seq<Entry>)
    requires |a| == |b| && forall i :: 0 <= i < |a| ==> a[i].span == b[i].span
    ensures CycleDays(a) == CycleDays(b) && Expanded(a) == Expanded(b)
  {
    if a != [] {
      SameSpansSameCycle(a[..|a| - 1], b[..|b| - 1]);
    }
  }

  /** An assignment storing the normal form resolves, on every date, like one storing the raw configuration. */
  lemma StoredConfigKeepsMeaning(a: ShiftAssignment, d: Date, shifts: map<Id, Shift>)
    ensures var stored := a.(config := ToRaw(Normalize(a.config, Some(a.shift.id), Some(a.from))));
            ResolveShift(stored, d, shifts) == ResolveShift(a, d, shifts)
  {
    var once := Normalize(a.config, Some(a.shift.id), Some(a.from));
    NormalizeTwice(a.config, Some(a.shift.id), Some(a.from));
    SameSpansSameCycle(once.entries, Renumbered(once.entries));
  }

  // ------------------------------------------------- anchors and enterprise patterns

  /**
   The cycle starts on the configured date, given as a date or as readable text, else on the
   assignment's first day.
   */
  lemma AnchorMeaning(a: ShiftAssignment)
    ensures var raw := a.config.anchor;
            AnchorDay(NormalConfig(a).anchor, a.from)
              == if raw.AnchorDate? then raw.date
                 else if raw.AnchorText? && raw.text.Iso? then raw.text.date
                 else a.from
  {
  }

  lemma TwoSpanCycle(entries: seq<Entry>)
    requires |entries| == 2
    ensures CycleDays(entries[..1]) == entries[0].span && CycleDays(entries) == entries[0].span + entries[1].span
  {
    assert entries[..1][..0] == [];
  }

  lemma TwoSpans(entries: seq<Entry>, p: nat)
    requires |entries| == 2 && p < entries[0].span + entries[1].span
    ensures CycleDays(entries) == entries[0].span + entries[1].span
    ensures Expanded(entries)[p] == if p < entries[0].span then 0 else 1
  {
    TwoSpanCycle(entries);
    assert entries[..0] == [] && entries[..2] == entries;
    ExpandedPrefix(entries, if p < entries[0].span then 0 else 1, p);
  }

  lemma ThreeSpans(entries: seq<Entry>, p: nat)
    requires |entries| == 3 && p < entries[0].span + entries[1].span + entries[2].span
    ensures CycleDays(entries) == entries[0].span + entries[1].span + entries[2].span
    ensures Expanded(entries)[p]
            == if p < entries[0].span then 0 else if p < entries[0].span + entries[1].span then 1 else 2
  {
    assert entries[..2][..1] == entries[..1] && entries[..3] == entries;
    TwoSpanCycle(entries[..2]);
    if p < entries[0].span + entries[1].span {
      TwoSpans(entries[..2], p);
    } else {
      ExpandedPrefix(entries, 2, p);
    }
  }

  /** Cycle length and rest days of the enterprise patterns, counted from the anchor. */
  function PatternCycle(p: Pattern): nat {
    if p.FourOnFourOff? then 8 else 7
  }

  predicate RestDay(p: Pattern, k: nat) {
    match p
    case SixOnOneOff => k == 6
    case FiveOnTwoOff => k in {5, 6}
    case FourOnFourOff => k in {4, 5, 6, 7}
    case TwoTwoThree => k in {2, 3}
    case _ => false
  }

  /** The entry an enterprise pattern holds on day `k` of its cycle is off exactly on the pattern's rest days. */
  lemma PatternDay(p: Pattern, fallback: Id, k: nat)
    requires PatternSpans(p) != [] && k < PatternCycle(p)
    ensures var entries := PatternEntries(PatternSpans(p), fallback);
            && CycleDays(entries) == PatternCycle(p)
            && entries[Expanded(entries)[k]].kind == (if RestDay(p, k) then Off else Work)
            && entries[Expanded(entries)[k]].shift == (if RestDay(p, k) then None else Some(fallback))
  {
    hide CycleDays, Expanded;
    var entries := PatternEntries(PatternSpans(p), fallback);
    if p.TwoTwoThree? {
      ThreeSpans(entries, k);
    } else {
      TwoSpans(entries, k);
    }
  }

  lemma PatternConfig(a: ShiftAssignment)
    requires PatternSpans(PatternOf(a.config.pattern)) != []
    ensures NormalConfig(a).entries == PatternEntries(PatternSpans(PatternOf(a.config.pattern)), a.shift.id)
  {
    hide PatternOf, PatternEntries, NormalEntries;
  }

  /**
   What the pattern names mean: whatever entries the configuration lists, the day is off exactly
   on the pattern's rest days and otherwise on the assignment's own shift.
   */
  lemma EnterprisePatterns(a: ShiftAssignment, d: Date, shifts: map<Id, Shift>)
    requires a.kind.WeeklyRotation? && PatternSpans(PatternOf(a.config.pattern)) != []
    ensures var pattern := PatternOf(a.config.pattern);
            var anchor := AnchorDay(NormalConfig(a).anchor, a.from);
            var k := (if d < anchor then 0 else d - anchor) % PatternCycle(pattern);
            ResolveShift(a, d, shifts)
              == if RestDay(pattern, k) then Resolved(None, true)
                 else Resolved(Some(if a.shift.id in shifts then shifts[a.shift.id] else a.shift), false)
  {
    var pattern := PatternOf(a.config.pattern);
    var c := NormalConfig(a);
    PatternConfig(a);
    var anchor := AnchorDay(c.anchor, a.from);
    var k := (if d < anchor then 0 else d - anchor) % PatternCycle(pattern);
    PatternDay(pattern, a.shift.id, k);
    hide PatternOf, PatternSpans, PatternEntries, NormalConfig, CycleDays, Expanded, RestDay, PatternCycle;
  }

  // ----------------------------------------------------- listed rotations, from raw to shift

  /** Days the listed entries take up; values that are not objects take none. */
  function RawDays(raws: seq<RawEntry>): nat {
    if raws == [] then 0
    else
      var last := raws[|raws| - 1];
      RawDays(raws[..|raws| - 1]) + (if last.Mapping? then SpanOf(last.span) else 0)
  }

  lemma {:induction false} ListedDays(raws: seq<RawEntry>, fallback: Id)
    ensures CycleDays(NormalEntries(raws, Some(fallback))) == RawDays(raws)
  {
    if raws != [] {
      var n := |raws| - 1;
      var init := NormalEntries(raws[..n], Some(fallback));
      ListedDays(raws[..n], fallback);
      if raws[n].Mapping? {
        var last := NormalEntry(raws[n], n, Some(fallback)).value;
        assert (init + [last])[..|init|] == init;
      }
    }
  }

  lemma {:induction false} ListedPrefix(raws: seq<RawEntry>, k: nat, fallback: Id)
    requires k < |raws| && raws[k].Mapping?
    ensures var entries := NormalEntries(raws, Some(fallback));
            var j := |NormalEntries(raws[..k], Some(fallback))|;
            && j < |entries|
            && entries[..j] == NormalEntries(raws[..k], Some(fallback))
            && entries[..j + 1] == NormalEntries(raws[..k + 1], Some(fallback))
            && entries[j] == NormalEntry(raws[k], k, Some(fallback)).value
    decreases |raws|
  {
    var n := |raws| - 1;
    if k == n {
      assert raws[..k + 1] == raws;
    } else {
      assert raws[..n][..k] == raws[..k] && raws[..n][..k + 1] == raws[..k + 1];
      ListedPrefix(raws[..n], k, fallback);
    }
  }

  lemma ListedConfig(a: ShiftAssignment)
    requires PatternSpans(PatternOf(a.config.pattern)) == []
    ensures var listed := NormalEntries(a.config.entries, Some(a.shift.id));
            NormalConfig(a).entries == if listed == [] then [Entry(0, Work, Some(a.shift.id), 7)] else listed
  {
    hide PatternOf, NormalEntries;
  }

  /** The shift with the id where it is known, the assignment's own otherwise. */
  function KnownOrOwn(a: ShiftAssignment, id: Id, shifts: map<Id, Shift>): Resolved {
    Resolved(Some(if id in shifts then shifts[id] else a.shift), false)
  }

  /** The day of the cycle, counted from the configured anchor in cycles of `cycle` days. */
  function CycleDay(a: ShiftAssignment, d: Date, cycle: nat): nat
    requires cycle >= 1
  {
    var raw := a.config.anchor;
    var anchor: Date := if raw.AnchorDate? then raw.date
                        else if raw.AnchorText? && raw.text.Iso? then raw.text.date
                        else a.from;
    (if d < anchor then 0 else d - anchor) % cycle
  }

  /**
   What a listed rotation means, from its raw configuration: on a date whose day of the cycle falls in
   listed entry k's days, the day is off when k is an off step; otherwise it is worked on the shift k
   names, when it names a known one, and on the assignment's own shift when it does not.
   */
  lemma ListedRotation(a: ShiftAssignment, d: Date, shifts: map<Id, Shift>, k: nat)
    requires a.kind.WeeklyRotation? && PatternSpans(PatternOf(a.config.pattern)) == []
    requires k < |a.config.entries| && a.config.entries[k].Mapping?
    requires RawDays(a.config.entries) >= 1
    requires var day := CycleDay(a, d, RawDays(a.config.entries));
             RawDays(a.config.entries[..k]) <= day < RawDays(a.config.entries[..k + 1])
    ensures var raw := a.config.entries[k];
            ResolveShift(a, d, shifts)
              == if KindOf(raw.kind).Off? then Resolved(None, true)
                 else KnownOrOwn(a, if raw.shift.Some? then raw.shift.value else a.shift.id, shifts)
  {
    var raws := a.config.entries;
    var listed := NormalEntries(raws, Some(a.shift.id));
    ListedConfig(a);
    AnchorMeaning(a);
    ListedPrefix(raws, k, a.shift.id);
    ListedDays(raws, a.shift.id);
    ListedDays(raws[..k], a.shift.id);
    ListedDays(raws[..k + 1], a.shift.id);
    var j := |NormalEntries(raws[..k], Some(a.shift.id))|;
    assert NormalConfig(a).entries == listed;
    ExpandedPrefix(listed, j, CycleDay(a, d, RawDays(raws)));
    hide PatternOf, NormalEntries, NormalConfig, CycleDays, Expanded, KindOf, SpanOf;
  }

  /** A rotation that lists nothing usable works the assignment's own shift every day. */
  lemma EmptyRotation(a: ShiftAssignment, d: Date, shifts: map<Id, Shift>)
    requires a.kind.WeeklyRotation? && PatternSpans(PatternOf(a.config.pattern)) == []
    requires forall i :: 0 <= i < |a.config.entries| ==> a.config.entries[i].NotAMapping?
    ensures ResolveShift(a, d, shifts) == KnownOrOwn(a, a.shift.id, shifts)
  {
    ListedConfig(a);
    NothingListed(a.config.entries, a.shift.id);
    assert NormalConfig(a).entries == [Entry(0, Work, Some(a.shift.id), 7)];
    hide PatternOf, NormalEntries, NormalConfig;
  }

  lemma {:induction false} NothingListed(raws: seq<RawEntry>, fallback: Id)
    requires forall i :: 0 <= i < |raws| ==> raws[i].NotAMapping?
    ensures NormalEntries(raws, Some(fallback)) == []
  {
    if raws != [] {
      NothingListed(raws[..|raws| - 1], fallback);
    }
  }

  /** Any assignment that is not a rotation works its own shift every day. */
  lemma PlainAssignment(a: ShiftAssignment, d: Date, shifts: map<Id, Shift>)
    requires !a.kind.WeeklyRotation?
    ensures ResolveShift(a, d, shifts) == Resolved(Some(a.shift), false)
  {
  }

  /** Two shifts a week each from day 1: the second one works day 8, the first day 15. */
  lemma TwoShiftRotation(a: ShiftAssignment, shifts: map<Id, Shift>)
    requires a.kind.WeeklyRotation? && a.from == 1 && 1 in shifts && 2 in shifts
    requires a.config == RawConfig(None, AnchorMissing,
               [Mapping(Some(1), None, SpanNumber(7)), Mapping(Some(2), None, SpanNumber(7))])
    ensures ResolveShift(a, 8, shifts) == Resolved(Some(shifts[2]), false)
    ensures ResolveShift(a, 15, shifts) == Resolved(Some(shifts[1]), false)
  {
    var raws := a.config.entries;
    assert raws[..2] == raws && raws[..2][..1] == raws[..1] && raws[..1][..0] == [] && raws[..0] == [];
    assert RawDays(raws[..1]) == 7 && RawDays(raws) == 14;
    ListedRotation(a, 8, shifts, 1);
    ListedRotation(a, 15, shifts, 0);
  }
}
