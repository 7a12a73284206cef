/** Roster rotation configuration: raw JSON in, normal form out. */
module RosterConfig {
  import opened Basics

  datatype EntryKind = Work | Off

  datatype Entry = Entry(position: nat, kind: EntryKind, shift: Option<Id>, span: nat)

  datatype Pattern =
    | FixedWeekly | WeeklyCycle | CustomCycle | SixOnOneOff | FiveOnTwoOff | FourOnFourOff | TwoTwoThree

  /** Text in an anchor field: a readable ISO date, or anything `date.fromisoformat` refuses. */
  datatype DateText = Iso(date: Date) | OtherText(text: string)

  datatype Config = Config(pattern: Pattern, anchor: Option<DateText>, entries: seq<Entry>)

  /** A span value: absent or falsy, truthy and readable by `int`, or truthy and unreadable. */
  datatype RawSpan = SpanMissing | SpanNumber(days: int) | SpanUnreadable

  datatype RawEntry = NotAMapping | Mapping(shift: Option<Id>, kind: Option<string>, span: RawSpan)

  datatype RawAnchor = AnchorMissing | AnchorDate(date: Date) | AnchorText(text: DateText)

  /** A configuration that is not a JSON object reads as one with every field missing. */
  datatype RawConfig = RawConfig(pattern: Option<string>, anchor: RawAnchor, entries: seq<RawEntry>)

  function PatternName(p: Pattern): string {
    match p
    case FixedWeekly => "fixed_weekly"
    case WeeklyCycle => "weekly_rotation"
    case CustomCycle => "custom_cycle"
    case SixOnOneOff => "six_on_one_off"
    case FiveOnTwoOff => "five_on_two_off"
    case FourOnFourOff => "four_on_four_off"
    case TwoTwoThree => "two_two_three"
  }

  /** Missing, blank, "custom" and unknown names all mean a custom cycle. */
  function PatternOf(text: Option<string>): Pattern {
    if text.None? then CustomCycle
    else
      var name := Strip(text.value);
      if name == "fixed_weekly" then FixedWeekly
      else if name == "weekly_rotation" then WeeklyCycle
      else if name == "six_on_one_off" then SixOnOneOff
      else if name == "five_on_two_off" then FiveOnTwoOff
      else if name == "four_on_four_off" then FourOnFourOff
      else if name == "two_two_three" then TwoTwoThree
      else CustomCycle
  }

  /** Alternating on and off spans of the enterprise patterns; empty for the others. */
  function PatternSpans(p: Pattern): seq<nat> {
    match p
    case SixOnOneOff => [6, 1]
    case FiveOnTwoOff => [5, 2]
    case FourOnFourOff => [4, 4]
    case TwoTwoThree => [2, 2, 3]
    case _ => []
  }

  function KindName(k: EntryKind): string {
    if k.Off? then "off" else "work"
  }

  function KindOf(text: Option<string>): EntryKind {
    if text.Some? && Lower(Strip(text.value)) == "off" then Off else Work
  }

  function SpanOf(raw: RawSpan): (span: nat)
    ensures 1 <= span
    ensures !raw.SpanNumber? ==> span == 7
    ensures raw.SpanNumber? ==> span == if 1 <= raw.days then raw.days else 1
  {
    match raw
    case SpanMissing => 7
    case SpanUnreadable => 7
    case SpanNumber(days) => if days < 1 then 1 else days
  }

  /** A work entry without any shift to fall back on, or a value that is not an object, is dropped. */
  function NormalEntry(raw: RawEntry, index: nat, fallback: Option<Id>): Option<Entry> {
    if raw.NotAMapping? then None
    else
      var shift := if raw.shift.Some? then raw.shift else fallback;
      var kind := KindOf(raw.kind);
      if shift.None? && kind.Work? then None
      else Some(Entry(index, kind, shift, SpanOf(raw.span)))
  }

  function NormalEntries(raws: seq<RawEntry>, fallback: Option<Id>): seq<Entry> {
    if raws == [] then []
    else
      var init := NormalEntries(raws[..|raws| - 1], fallback);
      var last := NormalEntry(raws[|raws| - 1], |raws| - 1, fallback);
      if last.Some? then init + [last.value] else init
  }

  function PatternEntries(spans: seq<nat>, fallback: Id): seq<Entry> {
    seq(|spans|, i requires 0 <= i < |spans| =>
      if i % 2 == 0 then Entry(i, Work, Some(fallback), spans[i]) else Entry(i, Off, None, spans[i]))
  }

  function NormalAnchor(raw: RawAnchor, effectiveFrom: Option<Date>): Option<DateText> {
    if raw.AnchorDate? then Some(Iso(raw.date))
    else if raw.AnchorText? && raw.text != OtherText("") then Some(raw.text)
    else if effectiveFrom.Some? then Some(Iso(effectiveFrom.value))
    else None
  }

  function Normalize(raw: RawConfig, fallback: Option<Id>, effectiveFrom: Option<Date>): Config {
    var pattern := PatternOf(raw.pattern);
    var listed := NormalEntries(raw.entries, fallback);
    var entries :=
      if PatternSpans(pattern) != [] && fallback.Some? then PatternEntries(PatternSpans(pattern), fallback.value)
      else if listed == [] && fallback.Some? then [Entry(0, Work, fallback, 7)]
      else listed;
    Config(pattern, NormalAnchor(raw.anchor, effectiveFrom), entries)
  }

  /** A stored normal form, read back as raw JSON. */
  function ToRaw(c: Config): RawConfig {
    RawConfig(
      Some(PatternName(c.pattern)),
      if c.anchor.Some? then AnchorText(c.anchor.value) else AnchorMissing,
      RawEntries(c.entries))
  }

  function RawEntryOf(entry: Entry): RawEntry {
    Mapping(entry.shift, Some(KindName(entry.kind)), SpanNumber(entry.span))
  }

  function RawEntries(entries: seq<Entry>): seq<RawEntry> {
    seq(|entries|, i requires 0 <= i < |entries| => RawEntryOf(entries[i]))
  }

  // ------------------------------------------------------------------ lemmas

  lemma PatternRoundTrip(p: Pattern)
    ensures PatternOf(Some(PatternName(p))) == p
  {
    var name := PatternName(p);
    assert !IsSpace(name[0]) && !IsSpace(name[|name| - 1]);
    assert Strip(name) == name;
  }

  lemma KindRoundTrip(k: EntryKind)
    ensures KindOf(Some(KindName(k))) == k
  {
    var name := KindName(k);
    assert !IsSpace(name[0]) && !IsSpace(name[|name| - 1]);
    assert Strip(name) == name;
    assert Lower(name) == name;
    if k.Work? {
      assert Lower(name)[0] == 'w';
    }
  }

  /** The names the source knows, and what everything else means. */
  lemma PatternNamesRead()
    ensures PatternOf(Some("fixed_weekly")) == FixedWeekly && PatternOf(Some("weekly_rotation")) == WeeklyCycle
    ensures PatternOf(Some("six_on_one_off")) == SixOnOneOff && PatternOf(Some("five_on_two_off")) == FiveOnTwoOff
    ensures PatternOf(Some("four_on_four_off")) == FourOnFourOff && PatternOf(Some("two_two_three")) == TwoTwoThree
    ensures PatternOf(Some("custom_cycle")) == CustomCycle && PatternOf(Some("custom")) == CustomCycle
    ensures PatternOf(None) == CustomCycle && PatternOf(Some("")) == CustomCycle
  {
    forall p: Pattern
      ensures PatternOf(Some(PatternName(p))) == p
    {
      PatternRoundTrip(p);
    }
    assert PatternName(FixedWeekly) == "fixed_weekly" && PatternName(WeeklyCycle) == "weekly_rotation";
    assert PatternName(SixOnOneOff) == "six_on_one_off" && PatternName(FiveOnTwoOff) == "five_on_two_off";
    assert PatternName(FourOnFourOff) == "four_on_four_off" && PatternName(TwoTwoThree) == "two_two_three";
    assert PatternName(CustomCycle) == "custom_cycle";
    assert Strip("custom") == "custom" && Strip("") == "";
  }

  /** Only the word off, in any case, is an off step. */
  lemma KindsRead()
    ensures KindOf(Some("off")) == Off && KindOf(Some("OFF")) == Off
    ensures KindOf(Some("work")) == Work && KindOf(Some("rest")) == Work && KindOf(None) == Work
  {
    KindRoundTrip(Off);
    KindRoundTrip(Work);
    assert KindName(Off) == "off" && KindName(Work) == "work";
    assert Strip("OFF") == "OFF" && Strip("rest") == "rest";
    assert Lower("OFF") == "off";
    assert Lower("rest")[0] == 'r';
  }

  ghost predicate Storable(entries: seq<Entry>, fallback: Option<Id>) {
    forall i :: 0 <= i < |entries| ==>
      && 1 <= entries[i].span
      && (entries[i].kind.Work? || fallback.Some? ==> entries[i].shift.Some?)
  }

  lemma {:induction false} ListedEntriesAreStorable(raws: seq<RawEntry>, fallback: Option<Id>)
    ensures Storable(NormalEntries(raws, fallback), fallback)
  {
    if raws != [] {
      ListedEntriesAreStorable(raws[..|raws| - 1], fallback);
    }
  }

  /** With a shift to fall back on, the rotation is never empty and every span is at least a day. */
  lemma NormalFormIsUsable(raw: RawConfig, fallback: Option<Id>, effectiveFrom: Option<Date>)
    ensures var entries := Normalize(raw, fallback, effectiveFrom).entries;
            && (fallback.Some? ==> entries != [])
            && forall i :: 0 <= i < |entries| ==> 1 <= entries[i].span
  {
    ListedEntriesAreStorable(raw.entries, fallback);
  }

  /** The list with positions renumbered from zero. */
  function Renumbered(entries: seq<Entry>): seq<Entry> {
    seq(|entries|, i requires 0 <= i < |entries| => entries[i].(position := i))
  }

  lemma StoredEntryReadsBack(entry: Entry, index: nat, fallback: Option<Id>)
    requires 1 <= entry.span && (entry.kind.Work? || fallback.Some? ==> entry.shift.Some?)
    ensures NormalEntry(RawEntryOf(entry), index, fallback) == Some(entry.(position := index))
  {
    KindRoundTrip(entry.kind);
  }

  lemma {:induction false} StoredEntriesReadBack(entries: seq<Entry>, fallback: Option<Id>)
    requires Storable(entries, fallback)
    ensures NormalEntries(RawEntries(entries), fallback) == Renumbered(entries)
    decreases |entries|
  {
    if entries != [] {
      var n := |entries| - 1;
      var init := entries[..n];
      StoredEntriesReadBack(init, fallback);
      var raws := RawEntries(entries);
      assert raws[..n] == RawEntries(init);
      StoredEntryReadsBack(entries[n], n, fallback);
      calc {
        NormalEntries(raws, fallback);
        NormalEntries(raws[..n], fallback) + [entries[n].(position := n)];
        Renumbered(init) + [entries[n].(position := n)];
        Renumbered(entries);
      }
    }
  }

  /** Normalising a normal form changes nothing but the positions, which become 0, 1, 2, ... */
  lemma NormalizeTwice(raw: RawConfig, fallback: Option<Id>, effectiveFrom: Option<Date>)
    ensures var once := Normalize(raw, fallback, effectiveFrom);
            Normalize(ToRaw(once), fallback, effectiveFrom) == once.(entries := Renumbered(once.entries))
  {
    var once := Normalize(raw, fallback, effectiveFrom);
    PatternRoundTrip(once.pattern);
    var spans := PatternSpans(once.pattern);
    if spans != [] && fallback.Some? {
      assert Renumbered(once.entries) == once.entries;
    } else {
      ListedEntriesAreStorable(raw.entries, fallback);
      assert Storable(once.entries, fallback);
      StoredEntriesReadBack(once.entries, fallback);
    }
  }

  /** From the second pass on, normalising is the identity. */
  lemma NormalizeThrice(raw: RawConfig, fallback: Option<Id>, effectiveFrom: Option<Date>)
    ensures var twice := Normalize(ToRaw(Normalize(raw, fallback, effectiveFrom)), fallback, effectiveFrom);
            Normalize(ToRaw(twice), fallback, effectiveFrom) == twice
  {
    NormalizeTwice(raw, fallback, effectiveFrom);
    var twice := Normalize(ToRaw(Normalize(raw, fallback, effectiveFrom)), fallback, effectiveFrom);
    NormalizeTwice(ToRaw(Normalize(raw, fallback, effectiveFrom)), fallback, effectiveFrom);
    assert Renumbered(twice.entries) == twice.entries;
  }

  /** The raw entry survives normalisation: an object with a shift to work on, or an off step. */
  predicate Kept(raw: RawEntry, fallback: Option<Id>) {
    raw.Mapping? && (raw.shift.Some? || fallback.Some? || KindOf(raw.kind).Off?)
  }

  ghost predicate AllKept(raws: seq<RawEntry>, fallback: Option<Id>) {
    forall i :: 0 <= i < |raws| ==> Kept(raws[i], fallback)
  }

  /** No entry that survives comes after one that is dropped. */
  ghost predicate NoGap(raws: seq<RawEntry>, fallback: Option<Id>) {
    forall i, j :: 0 <= i < j < |raws| && Kept(raws[j], fallback) ==> Kept(raws[i], fallback)
  }

  ghost predicate Positioned(entries: seq<Entry>) {
    forall i :: 0 <= i < |entries| ==> entries[i].position == i
  }

  lemma {:induction false} ListedLength(raws: seq<RawEntry>, fallback: Option<Id>)
    ensures |NormalEntries(raws, fallback)| <= |raws|
    ensures |NormalEntries(raws, fallback)| == |raws| <==> AllKept(raws, fallback)
  {
    if raws != [] {
      var init := raws[..|raws| - 1];
      ListedLength(init, fallback);
      assert AllKept(raws, fallback) <==> AllKept(init, fallback) && Kept(raws[|raws| - 1], fallback);
    }
  }

  lemma {:induction false} PositionedExactly(raws: seq<RawEntry>, fallback: Option<Id>)
    ensures Positioned(NormalEntries(raws, fallback)) <==> NoGap(raws, fallback)
  {
    if raws != [] {
      var n := |raws| - 1;
      var init := NormalEntries(raws[..n], fallback);
      PositionedExactly(raws[..n], fallback);
      ListedLength(raws[..n], fallback);
      if Kept(raws[n], fallback) {
        LastKept(raws, fallback);
        var last := NormalEntry(raws[n], n, fallback).value;
        assert (init + [last])[|init|].position == n;
        assert forall i :: 0 <= i < |init| ==> (init + [last])[i] == init[i];
      } else {
        LastDropped(raws, fallback);
      }
    }
  }

  lemma LastKept(raws: seq<RawEntry>, fallback: Option<Id>)
    requires raws != [] && Kept(raws[|raws| - 1], fallback)
    ensures NoGap(raws, fallback) <==> AllKept(raws[..|raws| - 1], fallback)
    ensures AllKept(raws[..|raws| - 1], fallback) ==> NoGap(raws[..|raws| - 1], fallback)
  {
    var init := raws[..|raws| - 1];
    if NoGap(raws, fallback) {
      forall i | 0 <= i < |init|
        ensures Kept(init[i], fallback)
      {
        assert Kept(raws[i], fallback);
      }
    }
    assert forall i :: 0 <= i < |init| ==> init[i] == raws[i];
  }

  lemma LastDropped(raws: seq<RawEntry>, fallback: Option<Id>)
    requires raws != [] && !Kept(raws[|raws| - 1], fallback)
    ensures NoGap(raws, fallback) <==> NoGap(raws[..|raws| - 1], fallback)
  {
    var init := raws[..|raws| - 1];
    assert forall i :: 0 <= i < |init| ==> init[i] == raws[i];
  }

  /**
   The first pass is already a fixed point exactly when an enterprise pattern supplies the entries,
   or no listed entry that survives comes after a dropped one.
   */
  lemma FirstPassIsFixed(raw: RawConfig, fallback: Option<Id>, effectiveFrom: Option<Date>)
    ensures var once := Normalize(raw, fallback, effectiveFrom);
            Normalize(ToRaw(once), fallback, effectiveFrom) == once <==>
              || (PatternSpans(PatternOf(raw.pattern)) != [] && fallback.Some?)
              || NoGap(raw.entries, fallback)
  {
    var once := Normalize(raw, fallback, effectiveFrom);
    NormalizeTwice(raw, fallback, effectiveFrom);
    PositionedExactly(raw.entries, fallback);
    FixedWhenPositioned(once.entries);
  }

  lemma FixedWhenPositioned(entries: seq<Entry>)
    ensures Renumbered(entries) == entries <==> Positioned(entries)
  {
    if Renumbered(entries) == entries {
      assert forall i :: 0 <= i < |entries| ==> Renumbered(entries)[i] == entries[i].(position := i);
    }
  }

  /** A concrete first pass that is not: a dropped first entry leaves a gap in the positions. */
  lemma FirstPassMayLeaveGaps()
    ensures exists raw: RawConfig ::
              var once := Normalize(raw, Some(1), None);
              Normalize(ToRaw(once), Some(1), None) != once
  {
    var raw := RawConfig(None, AnchorMissing, [NotAMapping, Mapping(Some(2), None, SpanMissing)]);
    var once := Normalize(raw, Some(1), None);
    assert raw.entries[..1][..0] == [];
    assert NormalEntries(raw.entries[..1], Some(1)) == [];
    assert once.entries == [Entry(1, Work, Some(2), 7)];
    NormalizeTwice(raw, Some(1), None);
    assert Renumbered(once.entries)[0].position == 0;
  }
}
