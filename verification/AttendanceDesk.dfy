/**
 The attendance services as they run: methods that update the tenant's tables in place.

 Each method is proved against the committed step of the same name in PeriodClose, so every
 result about runs of steps is a result about sequences of these calls.
 */
module AttendanceDesk {
  import opened Basics
  import opened Domain
  import opened Derivation
  import opened Refresh
  import opened CloseSnapshot
  import opened PeriodClose
  import CloseSafety

  /** A batch that writes row by row: what it leaves behind, and why it stopped if it did. */
  datatype Batch = Batch(state: State, why: Option<Refusal>)

  /** The first `n` rows refreshed in table order, stopping at the first refused write. */
  function RefreshRows(s: State, filters: seq<ScopeFilter>, from: Date, to: Date, n: nat): Batch {
    if n == 0 then Batch(s, None) else RefreshInto(RefreshRows(s, filters, from, to, n - 1), filters, from, to, n - 1)
  }

  /** One more row, if the filters select it and the batch has not already stopped. */
  function RefreshInto(b: Batch, filters: seq<ScopeFilter>, from: Date, to: Date, i: nat): Batch {
    if b.why.Some? || i >= |b.state.records| then b
    else if !Selected(filters, Person(b.state.world, b.state.records[i].employee)) then b
    else
      var o := RefreshOne(b.state, i, from, to);
      if o.Done? then Batch(o.next, None) else Batch(b.state, Some(o.why))
  }

  /** Get-or-create over `days` consecutive days. */
  function EnsureDays(s: State, employee: Id, from: Date, days: nat): Batch
    requires from + days <= DATE_MAX + 1
  {
    if days == 0 then Batch(s, None)
    else EnsureInto(EnsureDays(s, employee, from, days - 1), employee, from + days - 1)
  }

  /** Nothing for an inactive employee or a reversed range. */
  function EnsureRange(s: State, employee: Id, from: Date, to: Date): Batch {
    if !Person(s.world, employee).active || to < from then Batch(s, None)
    else EnsureDays(s, employee, from, to - from + 1)
  }

  /** One more day, unless the batch has already stopped. */
  function EnsureInto(b: Batch, employee: Id, date: Date): Batch {
    if b.why.Some? then b
    else
      var o := Ensure(b.state, employee, date);
      if o.Done? then Batch(o.next, None) else Batch(b.state, Some(o.why))
  }

  function Answer(o: Outcome): Result<nat, Refusal> {
    if o.Done? then Ok(o.row) else Err(o.why)
  }

  /** The state an outcome leaves behind. */
  function Left(s: State, o: Outcome): State {
    if o.Done? then o.next else s
  }

  class Desk {
    const guarded: bool
    var entities: set<Id>
    var world: World
    var records: seq<Record>
    var regs: seq<Regularization>
    var closes: seq<Close>
    var events: seq<Event>

    ghost function Value(): State
      reads this
    {
      State(guarded, entities, world, records, regs, closes, events)
    }

    constructor (guarded: bool, entities: set<Id>, world: World)
      ensures Value() == State(guarded, entities, world, [], [], [], [])
      ensures Initial(Value())
    {
      this.guarded, this.entities, this.world := guarded, entities, world;
      records, regs, closes, events := [], [], [], [];
    }

    method IsSealed(r: Record) returns (sealed: bool)
      ensures sealed <==> Sealed(Value(), r)
    {
      sealed := false;
      for c := 0 to |closes|
        invariant sealed <==> exists o :: 0 <= o < c && ClosedOver(world, closes[o], r)
      {
        if ClosedOver(world, closes[c], r) {
          sealed := true;
        }
      }
    }

    // ------------------------------------------------------------ close versions

    method FindKey(key: string) returns (owner: Option<nat>)
      ensures owner == KeyOwner(closes, key)
    {
      owner := None;
      for c := 0 to |closes|
        invariant owner == KeyOwner(closes[..c], key)
      {
        assert closes[..c + 1][..c] == closes[..c];
        if owner.None? && closes[c].key == key {
          owner := Some(c);
        }
      }
      assert closes[..|closes|] == closes;
    }

    method FindLatest(scope: PeriodScope) returns (latest: Option<nat>)
      ensures latest == Latest(closes, scope)
      ensures latest.None? <==> forall c :: 0 <= c < |closes| ==> closes[c].scope != scope
      ensures latest.Some? ==>
                && latest.value < |closes| && closes[latest.value].scope == scope
                && forall c :: 0 <= c < |closes| && closes[c].scope == scope ==>
                     closes[c].version <= closes[latest.value].version
    {
      latest := None;
      for c := 0 to |closes|
        invariant latest == Latest(closes[..c], scope)
      {
        assert closes[..c + 1][..c] == closes[..c];
        if closes[c].scope == scope {
          if latest.None? || closes[c].version > closes[latest.value].version {
            latest := Some(c);
          }
        }
      }
      assert closes[..|closes|] == closes;
      LatestIsHighest(closes, scope);
    }

    method ReconcilePeriod(scope: PeriodScope, key: string) returns (r: Result<nat, Refusal>)
      modifies this
      ensures var o := ReconcileOutcome(old(Value()), scope, key);
              Value() == Left(old(Value()), o) && r == Answer(o)
    {
      var existing := FindKey(key);
      if existing.Some? {
        return Ok(existing.value);
      }
      if scope.entity !in entities {
        return Err(ForeignEntity);
      }
      var previous := FindLatest(scope);
      if previous.Some? && !closes[previous.value].status.Reopened? {
        return Err(ActiveVersionExists);
      }
      if scope.until < scope.from {
        return Err(ReversedPeriod);
      }
      var snapshot := BuildSnapshot(world, records, regs, scope);
      var version := 1;
      if previous.Some? {
        version := closes[previous.value].version + 1;
      }
      var item := Close(scope, version, Draft, previous, key, snapshot, Blockers(snapshot));
      closes := closes + [item];
      events := events + [EventFor(|closes| - 1, Reconciled, "", item)];
      return Ok(|closes| - 1);
    }

    /** Sets the lock of every row of the period. */
    method SetLocks(p: PeriodScope, locked: bool)
      modifies this`records
      ensures records == LockScope(world, old(records), p, locked)
    {
      ghost var before := records;
      for i := 0 to |records|
        invariant |records| == |before|
        invariant forall k :: 0 <= k < i ==>
                    records[k] == if InScope(world, before[k], p) then before[k].(locked := locked) else before[k]
        invariant forall k :: i <= k < |records| ==> records[k] == before[k]
      {
        if InScope(world, records[i], p) {
          records := records[i := records[i].(locked := locked)];
        }
      }
    }

    /** Whether the write guard would refuse one of the period's rows on account of another version. */
    method BlockedByOther(c: nat) returns (blocked: bool)
      requires c < |closes|
      ensures blocked <==> SealedElsewhere(Value(), c)
    {
      blocked := false;
      for i := 0 to |records|
        invariant blocked <==>
                  exists k, o :: 0 <= k < i && 0 <= o < |closes| && o != c && SharesRow(Value(), k, c, o)
      {
        for o := 0 to |closes|
          invariant blocked <==>
                    || (exists k, p :: 0 <= k < i && 0 <= p < |closes| && p != c && SharesRow(Value(), k, c, p))
                    || (exists p :: 0 <= p < o && p != c && SharesRow(Value(), i, c, p))
        {
          if o != c && InScope(world, records[i], closes[c].scope) && ClosedOver(world, closes[o], records[i]) {
            assert SharesRow(Value(), i, c, o);
            blocked := true;
          }
        }
      }
    }

    method TransitionClose(c: nat, action: Action, note: string) returns (r: Result<nat, Refusal>)
      modifies this
      ensures var o := TransitionOutcome(old(Value()), c, action, note);
              Value() == Left(old(Value()), o) && r == Answer(o)
    {
      if c >= |closes| {
        return Err(NoSuchRow);
      }
      if action.Unsupported? {
        return Err(UnsupportedAction);
      }
      var close := closes[c];
      if close.status == TargetStatus(action) {
        return Ok(c);
      }
      if close.status != SourceStatus(action) {
        return Err(WrongStatus);
      }
      if !action.DoReopen? && close.blockers != 0 {
        return Err(HasBlockers);
      }
      if action.DoReopen? && IsBlank(note) {
        return Err(ReasonRequired);
      }
      if action.DoClose? {
        var current := BuildSnapshot(world, records, regs, close.scope);
        if current != close.snapshot {
          return Err(StaleEvidence);
        }
      }
      if action.DoClose? || action.DoReopen? {
        var blocked := BlockedByOther(c);
        if guarded && blocked {
          return Err(PeriodIsClosed);
        }
        SetLocks(close.scope, action.DoClose?);
      }
      close := close.(status := TargetStatus(action));
      closes := closes[c := close];
      events := events + [EventFor(c, KindFor(action), note, close)];
      return Ok(c);
    }

    // ------------------------------------------------------------ regularization

    method SubmitRegularization(
      row: nat, requestedStatus: Status, requestedIn: Option<int>, requestedOut: Option<int>, reason: string)
      returns (r: Result<nat, Refusal>)
      modifies this`regs
      ensures var o := SubmitOutcome(old(Value()), row, requestedStatus, requestedIn, requestedOut, reason);
              Value() == Left(old(Value()), o) && r == Answer(o)
      ensures r.Ok? ==>
                && r.value == |old(regs)| && |regs| == |old(regs)| + 1 && regs[..|old(regs)|] == old(regs)
                && var g := regs[r.value];
                && g.record == row && g.status == RegPending && g.requestedStatus == requestedStatus
                && g.requestedIn == requestedIn && g.requestedOut == requestedOut && g.reason == reason
      ensures r.Err? ==> regs == old(regs)
    {
      if row >= |records| {
        return Err(NoSuchRow);
      }
      if records[row].locked {
        return Err(RecordLocked);
      }
      if exists k :: 0 <= k < |regs| && regs[k].record == row && regs[k].status.RegPending? {
        return Err(AlreadyPending);
      }
      var policy := PolicyFor(world, Person(world, records[row].employee), records[row].date);
      if policy.Some? && !policy.value.allowRegularization {
        return Err(NotAllowed);
      }
      if policy.Some? && policy.value.requireReason && IsBlank(reason) {
        return Err(ReasonRequired);
      }
      regs := regs + [Regularization(row, RegPending, requestedStatus, requestedIn, requestedOut, reason)];
      return Ok(|regs| - 1);
    }

    method ResolveRegularization(k: nat, approve: bool) returns (r: Result<nat, Refusal>)
      modifies this`regs, this`records
      ensures var o := ResolveOutcome(old(Value()), k, approve);
              Value() == Left(old(Value()), o) && r == Answer(o)
    {
      if k >= |regs| {
        return Err(NoSuchRow);
      }
      var g := regs[k];
      var desired := if approve then RegApproved else RegRejected;
      if g.status == desired {
        return Ok(k);
      }
      if g.status.RegApproved? || g.status.RegRejected? {
        return Err(AlreadyResolved);
      }
      if approve {
        if g.record >= |records| {
          return Err(NoSuchRow);
        }
        var sealed := IsSealed(records[g.record]);
        if guarded && sealed {
          return Err(PeriodIsClosed);
        }
        var row := records[g.record];
        var checkIn, checkOut := row.checkIn, row.checkOut;
        if g.requestedIn.Some? {
          checkIn := g.requestedIn;
        }
        if g.requestedOut.Some? {
          checkOut := g.requestedOut;
        }
        var run := EvaluateRuntime(world, Person(world, row.employee), row.date, checkIn, checkOut,
          Some(g.requestedStatus), ShiftById(world, row.shift));
        records := records[g.record :=
          WithRuntime(row, run).(checkIn := checkIn, checkOut := checkOut, regularized := true)];
      }
      regs := regs[k := g.(status := desired)];
      return Ok(k);
    }

    // -------------------------------------------------------- refresh and ensure

    /** Re-derives one selected row and saves it. */
    method RefreshRecord(i: nat, filters: seq<ScopeFilter>, from: Date, to: Date) returns (why: Option<Refusal>)
      requires i < |records|
      modifies this`records
      ensures Batch(Value(), why) == RefreshInto(Batch(old(Value()), None), filters, from, to, i)
      ensures |records| == |old(records)|
    {
      if !Selected(filters, Person(world, records[i].employee)) || !Refreshable(records[i], from, to) {
        return None;
      }
      var sealed := IsSealed(records[i]);
      if guarded && sealed {
        return Some(PeriodIsClosed);
      }
      records := records[i := Rederive(world, records[i])];
      return None;
    }

    /** Refreshes the selected rows one by one; a refused write stops the loop where it is. */
    method RefreshForScopes(filters: seq<ScopeFilter>, from: Date, to: Date) returns (why: Option<Refusal>)
      modifies this`records
      ensures Batch(Value(), why) == RefreshRows(old(Value()), filters, from, to, |old(records)|)
    {
      hide RefreshInto;
      ghost var before := Value();
      why := None;
      for i := 0 to |records|
        invariant |records| == |before.records|
        invariant why.None? && Batch(Value(), why) == RefreshRows(before, filters, from, to, i)
      {
        why := RefreshRecord(i, filters, from, to);
        if why.Some? {
          StopsHere(before, filters, from, to, i + 1, |records|);
          return;
        }
      }
    }

    /** Get or create one day's row; only a new row is derived. */
    method EnsureDayRecord(employee: Id, date: Date) returns (why: Option<Refusal>)
      modifies this`records
      ensures Batch(Value(), why) == EnsureInto(Batch(old(Value()), None), employee, date)
    {
      if !Person(world, employee).active {
        return Some(InactiveEmployee);
      }
      if exists i :: 0 <= i < |records| && records[i].employee == employee && records[i].date == date {
        return None;
      }
      var derived := Rederive(world, BlankRecord(employee, date));
      RederivedDay(world, employee, date);
      var sealed := IsSealed(derived);
      if guarded && sealed {
        return Some(PeriodIsClosed);
      }
      records := records + [derived];
      return None;
    }

    /** Creates the missing rows of a date range; existing rows are left as they are. */
    method EnsureRecords(employee: Id, from: Date, to: Date) returns (why: Option<Refusal>)
      modifies this`records
      ensures Batch(Value(), why) == EnsureRange(old(Value()), employee, from, to)
    {
      hide EnsureInto;
      why := None;
      if !Person(world, employee).active {
        return;
      }
      ghost var before := Value();
      var current := from as int;
      while current <= to
        invariant from <= current && (current <= to + 1 || current == from)
        invariant why.None? && Batch(Value(), why) == EnsureDays(before, employee, from, current - from)
      {
        why := EnsureDayRecord(employee, current);
        if why.Some? {
          EnsureStopsHere(before, employee, from, current - from + 1, to - from + 1);
          return;
        }
        current := current + 1;
      }
    }
  }

  // ------------------------------------------------------------------ lemmas

  lemma RederivedDay(w: World, employee: Id, date: Date)
    ensures var derived := Rederive(w, BlankRecord(employee, date));
            derived.employee == employee && derived.date == date && !derived.locked && !derived.regularized
  {
  }

  lemma {:induction false} StopsHere(s: State, filters: seq<ScopeFilter>, from: Date, to: Date, n: nat, m: nat)
    requires n <= m && RefreshRows(s, filters, from, to, n).why.Some?
    ensures RefreshRows(s, filters, from, to, m) == RefreshRows(s, filters, from, to, n)
    decreases m
  {
    if n < m {
      hide RefreshOne;
      StopsHere(s, filters, from, to, n, m - 1);
    }
  }

  lemma {:induction false} EnsureStopsHere(s: State, employee: Id, from: Date, n: nat, m: nat)
    requires n <= m && from + m <= DATE_MAX + 1 && EnsureDays(s, employee, from, n).why.Some?
    ensures EnsureDays(s, employee, from, m) == EnsureDays(s, employee, from, n)
    decreases m
  {
    if n < m {
      hide Ensure;
      EnsureStopsHere(s, employee, from, n, m - 1);
    }
  }

  /** No row the refresh may write lies in a CLOSED period the guard protects. */
  ghost predicate RefreshUnhindered(s: State) {
    s.guarded ==> forall i :: 0 <= i < |s.records| && Sealed(s, s.records[i]) ==> s.records[i].locked
  }

  lemma {:induction false} RefreshRowsMeaning(s: State, filters: seq<ScopeFilter>, from: Date, to: Date, n: nat)
    requires RefreshUnhindered(s) && n <= |s.records|
    ensures var b := RefreshRows(s, filters, from, to, n);
            && b.why.None? && b.state == s.(records := b.state.records) && |b.state.records| == |s.records|
            && (forall i :: 0 <= i < n ==> b.state.records[i] == RefreshedRow(s.world, filters, from, to, s.records[i]))
            && (forall i :: n <= i < |s.records| ==> b.state.records[i] == s.records[i])
  {
    hide RefreshInto, RefreshedRow, Sealed;
    if n > 0 {
      RefreshRowsMeaning(s, filters, from, to, n - 1);
      var b := RefreshRows(s, filters, from, to, n - 1);
      CloseSafety.SealedByKey(s, b.state, s.records[n - 1], b.state.records[n - 1]);
      RefreshIntoMeaning(b, filters, from, to, n - 1);
    }
  }

  lemma RefreshIntoMeaning(b: Batch, filters: seq<ScopeFilter>, from: Date, to: Date, i: nat)
    requires b.why.None? && i < |b.state.records|
    requires b.state.guarded && Sealed(b.state, b.state.records[i]) ==> b.state.records[i].locked
    ensures var r := b.state.records[i];
            RefreshInto(b, filters, from, to, i)
              == Batch(PutRecord(b.state, i, RefreshedRow(b.state.world, filters, from, to, r)), None)
  {
    assert b.state.records[i := b.state.records[i]] == b.state.records;
  }

  /**
   In every reachable state the row-by-row refresh completes and leaves exactly the declarative
   refresh of the store, guard or no guard.
   */
  lemma RefreshAlwaysCompletes(states: seq<State>, steps: seq<Step>, n: nat, filters: seq<ScopeFilter>, from: Date,
      to: Date)
    requires IsServiceRun(states, steps) && Initial(states[0]) && n < |states|
    ensures var s := states[n];
            RefreshRows(s, filters, from, to, |s.records|)
              == Batch(s.(records := RefreshedRows(s.world, filters, from, to, s.records)), None)
  {
    hide Next;
    CloseSafety.RunIsSafe(states, steps, n);
    RefreshRowsMeaning(states[n], filters, from, to, |states[n].records|);
    assert RefreshRows(states[n], filters, from, to, |states[n].records|).state.records
        == RefreshedRows(states[n].world, filters, from, to, states[n].records);
  }

  lemma EnsuredDayExists(b: Batch, employee: Id, date: Date)
    ensures var c := EnsureInto(b, employee, date);
            && b.state.records <= c.state.records && c.state == b.state.(records := c.state.records)
            && (c.why.None? ==> b.why.None? && HasDay(c.state.records, employee, date))
            && |c.state.records| <= |b.state.records| + 1
            && (|c.state.records| > |b.state.records| ==>
                 FreshDay(c.state.world, c.state.records[|b.state.records|], employee, date, 1))
  {
    RederivedDay(b.state.world, employee, date);
    RederiveTwice(b.state.world, BlankRecord(employee, date));
    var o := Ensure(b.state, employee, date);
    if o.Done? && !HasDay(b.state.records, employee, date) {
      var last := o.next.records[|b.state.records|];
      assert last.employee == employee && last.date == date;
    }
  }

  /** A row of the employee within the range, unlocked and up to date with the configuration. */
  predicate FreshDay(w: World, r: Record, employee: Id, from: Date, days: nat) {
    r.employee == employee && from <= r.date < from + days && !r.locked && Rederive(w, r) == r
  }

  ghost predicate DaysPresent(records: seq<Record>, employee: Id, from: Date, days: nat) {
    forall d: Date :: from <= d < from + days ==> HasDay(records, employee, d)
  }

  lemma OneMoreDay(before: seq<Record>, after: seq<Record>, employee: Id, from: Date, days: nat)
    requires days > 0 && from + days <= DATE_MAX + 1 && before <= after
    requires DaysPresent(before, employee, from, days - 1) && HasDay(after, employee, from + days - 1)
    ensures DaysPresent(after, employee, from, days)
  {
    forall d: Date | from <= d < from + days - 1
      ensures HasDay(after, employee, d)
    {
      assert HasDay(before, employee, d);
      var i :| 0 <= i < |before| && before[i].employee == employee && before[i].date == d;
      assert after[i] == before[i];
    }
  }

  /** The batch extends `s` only by derived rows of the range, and if it completed, the range is present. */
  ghost predicate Ensured(s: State, b: Batch, employee: Id, from: Date, days: nat) {
    && s.records <= b.state.records
    && b.state == s.(records := b.state.records)
    && (b.why.None? ==> DaysPresent(b.state.records, employee, from, days))
    && (forall i :: |s.records| <= i < |b.state.records| ==>
         FreshDay(s.world, b.state.records[i], employee, from, days))
  }

  lemma EnsureOneMore(s: State, b: Batch, employee: Id, from: Date, days: nat)
    requires days > 0 && from + days <= DATE_MAX + 1
    requires Ensured(s, b, employee, from, days - 1)
    ensures Ensured(s, EnsureInto(b, employee, from + days - 1), employee, from, days)
  {
    hide EnsureInto, HasDay, Rederive;
    var last: Date := from + days - 1;
    var c := EnsureInto(b, employee, last);
    EnsuredDayExists(b, employee, last);
    if c.why.None? {
      OneMoreDay(b.state.records, c.state.records, employee, from, days);
    }
  }

  /**
   A completed ensure has a row for every day of the range, with the existing rows untouched and the
   new ones derived.
   */
  lemma {:induction false} EnsuredDaysExist(s: State, employee: Id, from: Date, days: nat)
    requires from + days <= DATE_MAX + 1
    ensures Ensured(s, EnsureDays(s, employee, from, days), employee, from, days)
  {
    hide EnsureInto;
    if days > 0 {
      EnsuredDaysExist(s, employee, from, days - 1);
      EnsureOneMore(s, EnsureDays(s, employee, from, days - 1), employee, from, days);
    }
  }

  /**
   A completed ensure over a range has a row for every day of it, both ends included; for an inactive
   employee or a reversed range it does nothing.
   */
  lemma EnsuredRangeExists(s: State, employee: Id, from: Date, to: Date)
    ensures var b := EnsureRange(s, employee, from, to);
            && (Person(s.world, employee).active && b.why.None? ==>
                 forall d: Date :: from <= d <= to ==> HasDay(b.state.records, employee, d))
            && (!Person(s.world, employee).active || to < from ==> b == Batch(s, None))
  {
    hide HasDay, EnsureDays;
    if Person(s.world, employee).active && from <= to {
      EnsuredDaysExist(s, employee, from, to - from + 1);
    }
  }
}
