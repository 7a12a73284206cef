/**
 Exactly when locks and CLOSED periods coincide over whole runs, with the runs in which they come
 apart and the runs in which a version gets stuck.
 */
module CloseExactness {
  import opened Basics
  import opened Domain
  import opened Derivation
  import opened Batch
  import opened CloseSnapshot
  import opened PeriodClose
  import opened CloseSafety
  import opened CloseVersions

  // ------------------------------------------------------------ runs of any length

  ghost predicate ExactThrough(states: seq<State>, n: nat) {
    forall k :: 0 <= k <= n && k < |states| ==> LocksExact(states[k])
  }

  ghost predicate NeverSeparates(states: seq<State>, steps: seq<Step>, n: nat) {
    forall k :: 0 <= k < n && k < |steps| && k < |states| ==> !SeparatesLocks(states[k], steps[k])
  }

  /**
   With or without the write guard, locks are exact in every state of a service run up to any point
   if and only if no step before it creates a row inside a CLOSED period or reopens rows that
   another CLOSED version covers.
   */
  lemma {:induction false} LocksStayExact(states: seq<State>, steps: seq<Step>, n: nat)
    requires IsServiceRun(states, steps) && Initial(states[0]) && n < |states|
    ensures ExactThrough(states, n) <==> NeverSeparates(states, steps, n)
    decreases n
  {
    hide Next, SeparatesLocks, Sealed;
    RunIsSafe(states, steps, n);
    if n == 0 {
      NothingSealedAtFirst(states[0]);
    } else {
      LocksStayExact(states, steps, n - 1);
      RunIsSafe(states, steps, n - 1);
      StepIsSafe(states[n - 1], steps[n - 1]);
      assert ExactThrough(states, n) <==> ExactThrough(states, n - 1) && LocksExact(states[n]);
      assert NeverSeparates(states, steps, n)
        <==> NeverSeparates(states, steps, n - 1) && !SeparatesLocks(states[n - 1], steps[n - 1]);
      assert ExactThrough(states, n - 1) ==> LocksExact(states[n - 1]);
      ExactIsSealsLocked(states[n - 1]);
      ExactIsSealsLocked(states[n]);
    }
  }

  lemma NothingSealedAtFirst(s: State)
    requires Initial(s)
    ensures LocksExact(s)
  {
  }

  // ------------------------------------------------------------- latest versions

  lemma {:induction false} VersionIsListed(closes: seq<Close>, c: nat) returns (k: nat)
    requires c < |closes|
    ensures k < |Versions(closes, closes[c].scope)| && Versions(closes, closes[c].scope)[k] == c
    decreases |closes|
  {
    var n := |closes| - 1;
    if c == n {
      k := |Versions(closes, closes[c].scope)| - 1;
    } else {
      k := VersionIsListed(closes[..n], c);
    }
  }

  lemma OpenVersionIsLatest(s: State, c: nat)
    requires Orderly(s) && c < |s.closes| && !s.closes[c].status.Reopened?
    ensures Latest(s.closes, s.closes[c].scope) == Some(c)
  {
    var scope := s.closes[c].scope;
    var k := VersionIsListed(s.closes, c);
    assert Chained(s.closes, scope);
    assert LinkSound(s.closes, Versions(s.closes, scope), k);
    ChainedIsNumbered(s.closes, scope);
    LatestIsLast(s.closes, scope);
  }

  /** In every reachable state a CLOSED version is the latest of its scope. */
  lemma ClosedVersionIsLatest(states: seq<State>, steps: seq<Step>, n: nat, c: nat)
    requires IsRun(states, steps) && Initial(states[0]) && n < |states|
    requires c < |states[n].closes| && states[n].closes[c].status.Closed?
    ensures Latest(states[n].closes, states[n].closes[c].scope) == Some(c)
  {
    RunIsOrderly(states, steps, n);
    OpenVersionIsLatest(states[n], c);
  }

  // ------------------------------------------------------------- disjoint scopes

  /** No employee-day lies in both scopes. */
  predicate Apart(p: PeriodScope, q: PeriodScope) {
    p.entity != q.entity || p.until < q.from || q.until < p.from
  }

  ghost predicate ScopesDisjoint(closes: seq<Close>) {
    forall c, o :: 0 <= c < |closes| && 0 <= o < |closes| ==>
      closes[c].scope == closes[o].scope || Apart(closes[c].scope, closes[o].scope)
  }

  predicate Creates(step: Step) {
    step.CreateRecord? || step.EnsureDay?
  }

  /** The step creates a row inside a CLOSED period. */
  predicate CreatesInside(s: State, step: Step) {
    Creates(step) && SeparatesLocks(s, step)
  }

  ghost predicate NeverCreatesInside(states: seq<State>, steps: seq<Step>, n: nat) {
    forall k :: 0 <= k < n && k < |steps| && k < |states| ==> !CreatesInside(states[k], steps[k])
  }

  /** Two versions CLOSED at once never share a row when scopes are disjoint. */
  lemma DisjointScopesDoNotShare(s: State, c: nat)
    requires Orderly(s) && ScopesDisjoint(s.closes)
    requires c < |s.closes| && s.closes[c].status.Closed?
    ensures !SealedElsewhere(s, c)
  {
    forall i, o | 0 <= i < |s.records| && 0 <= o < |s.closes| && o != c
      ensures !SharesRow(s, i, c, o)
    {
      if s.closes[o].status.Closed? {
        OpenVersionIsLatest(s, c);
        OpenVersionIsLatest(s, o);
        assert Apart(s.closes[c].scope, s.closes[o].scope);
      }
    }
  }

  lemma DisjointBefore(states: seq<State>, steps: seq<Step>, k: nat, n: nat)
    requires IsRun(states, steps) && k <= n < |states| && ScopesDisjoint(states[n].closes)
    ensures ScopesDisjoint(states[k].closes)
  {
    hide Next;
    LogIsAppendOnly(states, steps, k, n);
  }

  lemma DisjointNeverSeparates(states: seq<State>, steps: seq<Step>, n: nat)
    requires IsServiceRun(states, steps) && Initial(states[0]) && n < |states|
    requires ScopesDisjoint(states[n].closes) && NeverCreatesInside(states, steps, n)
    ensures NeverSeparates(states, steps, n)
  {
    hide Next;
    forall k | 0 <= k < n
      ensures !SeparatesLocks(states[k], steps[k])
    {
      RunIsOrderly(states, steps, k);
      DisjointBefore(states, steps, k, n);
      assert !CreatesInside(states[k], steps[k]);
      OnlyReopensOrCreates(states[k], steps[k]);
    }
  }

  lemma OnlyReopensOrCreates(s: State, step: Step)
    requires Orderly(s) && ScopesDisjoint(s.closes) && !CreatesInside(s, step)
    ensures !SeparatesLocks(s, step)
  {
    if step.Transition? && step.close < |s.closes| && s.closes[step.close].status.Closed? {
      DisjointScopesDoNotShare(s, step.close);
    }
  }

  /**
   With or without the guard: if the scopes ever closed over are pairwise disjoint and no row is
   created inside a CLOSED period, a row is locked exactly when the latest version of its scope is
   CLOSED, in every state of every service run.
   */
  lemma LocksFollowTheLatestVersion(states: seq<State>, steps: seq<Step>, n: nat, p: PeriodScope, i: nat)
    requires IsServiceRun(states, steps) && Initial(states[0]) && n < |states|
    requires ScopesDisjoint(states[n].closes) && NeverCreatesInside(states, steps, n)
    requires i < |states[n].records| && InScope(states[n].world, states[n].records[i], p)
    requires forall c :: 0 <= c < |states[n].closes| ==>
               states[n].closes[c].scope == p || Apart(states[n].closes[c].scope, p)
    ensures var s := states[n];
            var latest := Latest(s.closes, p);
            s.records[i].locked <==> latest.Some? && s.closes[latest.value].status.Closed?
  {
    hide Next, SeparatesLocks, CreatesInside;
    var s := states[n];
    DisjointNeverSeparates(states, steps, n);
    LocksStayExact(states, steps, n);
    assert LocksExact(s);
    RunIsOrderly(states, steps, n);
    if s.records[i].locked {
      var c :| 0 <= c < |s.closes| && ClosedOver(s.world, s.closes[c], s.records[i]);
      OpenVersionIsLatest(s, c);
    }
    var latest := Latest(s.closes, p);
    if latest.Some? && s.closes[latest.value].status.Closed? {
      assert ClosedOver(s.world, s.closes[latest.value], s.records[i]);
    }
  }

  // --------------------------------------------------------------- replayed steps

  function Replay(s: State, steps: seq<Step>): State
    decreases |steps|
  {
    if steps == [] then s else Replay(Next(s, steps[0]), steps[1..])
  }

  function Trace(s: State, steps: seq<Step>): (states: seq<State>)
    ensures |states| == |steps| + 1 && states[0] == s
    decreases |steps|
  {
    if steps == [] then [s] else [s] + Trace(Next(s, steps[0]), steps[1..])
  }

  /** Steps of the services that leave the configuration alone. */
  ghost predicate ServiceSteps(steps: seq<Step>) {
    forall k :: 0 <= k < |steps| ==> !steps[k].Configure? && !ByHand(steps[k])
  }

  lemma ServiceStepsAppended(first: seq<Step>, second: seq<Step>)
    requires ServiceSteps(first) && ServiceSteps(second)
    ensures ServiceSteps(first + second)
  {
  }

  lemma {:induction false} TraceIsRun(s: State, steps: seq<Step>)
    requires ServiceSteps(steps)
    ensures IsServiceRun(Trace(s, steps), steps)
    ensures Trace(s, steps)[|steps|] == Replay(s, steps)
    decreases |steps|
  {
    hide Next;
    if steps != [] {
      var rest := Trace(Next(s, steps[0]), steps[1..]);
      TraceIsRun(Next(s, steps[0]), steps[1..]);
      var states := Trace(s, steps);
      forall k | 0 <= k < |steps|
        ensures Allowed(states[k], steps[k]) && states[k + 1] == Next(states[k], steps[k])
      {
        if k > 0 {
          assert states[k] == rest[k - 1] && states[k + 1] == rest[k - 1 + 1] && steps[k] == steps[1..][k - 1];
        }
      }
    }
  }

  lemma {:induction false} ReplayInTwo(s: State, first: seq<Step>, second: seq<Step>)
    ensures Replay(s, first + second) == Replay(Replay(s, first), second)
    decreases |first|
  {
    hide Next;
    if first == [] {
      assert first + second == second;
    } else {
      assert (first + second)[1..] == first[1..] + second;
      ReplayInTwo(Next(s, first[0]), first[1..], second);
    }
  }

  /** The period is new, ordered, the tenant's and free of blockers, and the key is fresh. */
  ghost predicate Closable(s: State, p: PeriodScope, key: string) {
    && !s.guarded && p.entity in s.entities && p.from <= p.until
    && KeyOwner(s.closes, key).None? && Latest(s.closes, p).None?
    && Blockers(SnapshotOf(s.world, s.records, s.regs, p)) == 0
  }

  function FirstVersion(s: State, p: PeriodScope, key: string, status: CloseStatus): Close {
    var snapshot := SnapshotOf(s.world, s.records, s.regs, p);
    Close(p, 1, status, None, key, snapshot, Blockers(snapshot))
  }

  function ApprovalSteps(p: PeriodScope, key: string, c: nat): seq<Step> {
    [Reconcile(p, key), Transition(c, DoSubmit, ""), Transition(c, DoApprove, "")]
  }

  function ClosingSteps(p: PeriodScope, key: string, c: nat): seq<Step> {
    ApprovalSteps(p, key, c) + [Transition(c, DoClose, "")]
  }

  lemma ClosingIsService(p: PeriodScope, key: string, c: nat)
    ensures ServiceSteps(ApprovalSteps(p, key, c)) && ServiceSteps(ClosingSteps(p, key, c))
  {
  }

  lemma ReplayOne(s: State, a: Step)
    ensures Replay(s, [a]) == Next(s, a)
  {
    hide Next;
    assert [a][1..] == [];
  }

  lemma ReplayThree(s: State, a: Step, b: Step, c: Step)
    ensures Replay(s, [a, b, c]) == Next(Next(Next(s, a), b), c)
  {
    hide Next;
    assert [a, b, c][1..] == [b, c];
    assert [b, c][1..] == [c];
    assert Replay(s, [a, b, c]) == Replay(Next(s, a), [b, c]);
    assert Replay(Next(s, a), [b, c]) == Replay(Next(Next(s, a), b), [c]);
    ReplayOne(Next(Next(s, a), b), c);
  }

  lemma PeriodIsReconciled(s: State, p: PeriodScope, key: string)
    requires Closable(s, p, key)
    ensures var t := Next(s, Reconcile(p, key));
            && t == s.(closes := t.closes, events := t.events)
            && t.closes == s.closes + [FirstVersion(s, p, key, Draft)]
  {
    hide SnapshotOf;
  }

  lemma VersionMoves(s: State, c: nat, a: Action)
    requires c < |s.closes| && !a.Unsupported? && !a.DoReopen? && !s.guarded
    requires s.closes[c].status == SourceStatus(a) && s.closes[c].blockers == 0
    requires a.DoClose? ==> SnapshotOf(s.world, s.records, s.regs, s.closes[c].scope) == s.closes[c].snapshot
    ensures Next(s, Transition(c, a, "")) == Moved(s, c, a, "")
  {
    hide SnapshotOf;
  }

  /** Reconcile, submit and approve take a closable period to an approved version. */
  lemma PeriodIsApproved(s: State, p: PeriodScope, key: string)
    requires Closable(s, p, key)
    ensures var t := Replay(s, ApprovalSteps(p, key, |s.closes|));
            && t == s.(closes := t.closes, events := t.events)
            && t.closes == s.closes + [FirstVersion(s, p, key, CloseApproved)]
  {
    hide Next, SnapshotOf, Replay;
    var c := |s.closes|;
    ReplayThree(s, Reconcile(p, key), Transition(c, DoSubmit, ""), Transition(c, DoApprove, ""));
    PeriodIsReconciled(s, p, key);
    var a := Next(s, Reconcile(p, key));
    VersionMoves(a, c, DoSubmit);
    VersionMoves(Moved(a, c, DoSubmit, ""), c, DoApprove);
  }

  /** And closing it locks its rows. */
  lemma PeriodIsClosed(s: State, p: PeriodScope, key: string)
    requires Closable(s, p, key)
    ensures var steps := ClosingSteps(p, key, |s.closes|);
            var t := Replay(s, steps);
            && t == s.(closes := t.closes, events := t.events, records := LockScope(s.world, s.records, p, true))
            && t.closes == s.closes + [FirstVersion(s, p, key, Closed)]
  {
    hide Next, SnapshotOf, Replay, ApprovalSteps;
    var c := |s.closes|;
    PeriodIsApproved(s, p, key);
    ReplayInTwo(s, ApprovalSteps(p, key, c), [Transition(c, DoClose, "")]);
    var a := Replay(s, ApprovalSteps(p, key, c));
    ReplayOne(a, Transition(c, DoClose, ""));
    VersionMoves(a, c, DoClose);
  }

  // -------------------------------------------------- runs where locks come apart

  const SITE := World([], [], map[], [], map[7 := Employee(7, "E7", true, NO_SCOPE.(legalEntity := Some(1)))], map[])
  const FIRST_PERIOD := PeriodScope(1, 1, 31)
  const SECOND_PERIOD := PeriodScope(1, 15, 45)

  function RowWith(status: Status): Record {
    Record(7, 20, status, System, None, None, None, None, 0, 0, 0, 0, false, false)
  }

  function Opening(records: seq<Record>): State {
    State(false, {1}, SITE, records, [], [], [])
  }

  lemma EmptyPeriodIsClosable()
    ensures Closable(Opening([]), FIRST_PERIOD, "first")
  {
  }

  predicate IsReopen(step: Step) {
    step.Transition? && step.action.DoReopen?
  }

  /** The row is unlocked in a period whose version is CLOSED. */
  predicate LeftUnlocked(s: State, i: nat) {
    i < |s.records| && !s.records[i].locked && Sealed(s, s.records[i])
  }

  /** A row created where there was none. */
  lemma FirstRowCreated(t: State, r: Record)
    requires !t.guarded && t.records == [] && !r.locked && !r.regularized
    ensures Next(t, CreateRecord(r)) == t.(records := [r])
  {
  }

  lemma CreatedInside(s: State, p: PeriodScope, r: Record)
    requires Closable(s, p, "first") && s.closes == [] && s.records == []
    requires InScope(s.world, r, p) && !r.locked && !r.regularized
    ensures LeftUnlocked(Replay(s, ClosingSteps(p, "first", 0) + [CreateRecord(r)]), 0)
  {
    assert !s.guarded;
    hide Next, SnapshotOf, Replay, Closable, ApprovalSteps, FirstVersion;
    PeriodIsClosed(s, p, "first");
    ReplayInTwo(s, ClosingSteps(p, "first", 0), [CreateRecord(r)]);
    var t := Replay(s, ClosingSteps(p, "first", 0));
    ReplayOne(t, CreateRecord(r));
    FirstRowCreated(t, r);
    FirstVersionIsIt(s, p, "first", Closed);
    var u := Next(t, CreateRecord(r));
    assert ClosedOver(u.world, u.closes[0], u.records[0]);
  }

  lemma SampleRowInScope()
    ensures InScope(SITE, RowWith(Absent), FIRST_PERIOD)
  {
  }

  lemma FirstVersionIsIt(s: State, p: PeriodScope, key: string, status: CloseStatus)
    ensures FirstVersion(s, p, key, status).scope == p && FirstVersion(s, p, key, status).status == status
    ensures FirstVersion(s, p, key, status).key == key
  {
  }

  /** Without the guard a service run can end with a row created, unlocked, inside a CLOSED period. */
  lemma CreationSeparates() returns (states: seq<State>, steps: seq<Step>)
    ensures IsServiceRun(states, steps) && Initial(states[0]) && !states[0].guarded
    ensures LeftUnlocked(states[|steps|], 0)
    ensures |steps| == 5 && steps[4].CreateRecord? && forall k :: 0 <= k < 5 ==> !IsReopen(steps[k])
  {
    hide Next, SnapshotOf, Replay, Closable, IsServiceRun, LeftUnlocked, InScope;
    var create := CreateRecord(RowWith(Absent));
    steps := ClosingSteps(FIRST_PERIOD, "first", 0) + [create];
    states := Trace(Opening([]), steps);
    SampleRowInScope();
    EmptyPeriodIsClosable();
    ClosingIsService(FIRST_PERIOD, "first", 0);
    ServiceStepsAppended(ClosingSteps(FIRST_PERIOD, "first", 0), [create]);
    TraceIsRun(Opening([]), steps);
    CreatedInside(Opening([]), FIRST_PERIOD, RowWith(Absent));
  }

  lemma SingleRowBlockers(r: Record, p: PeriodScope)
    requires r.employee == 7 && p.entity == 1 && p.from <= r.date <= p.until
    ensures Blockers(SnapshotOf(SITE, [r], [], p)) == if r.status.Unknown? then 1 else 0
    ensures |SnapshotOf(SITE, [r], [], p).rows| == 1
  {
    hide ContextUnits;
    var ctx := ForRecords(SITE, Page(SITE, [r], p));
    assert [r][..0] == [] && RowsOf(SITE, ctx, [], p) == [];
    assert InScope(SITE, r, p);
    var row := RowFor(SITE, ctx, 0, r);
    assert RowsOf(SITE, ctx, [r], p) == [row];
    assert [row][..0] == [] && UnknownCount([row]) == if r.status.Unknown? then 1 else 0;
  }

  lemma LatestOfOther(close: Close, p: PeriodScope)
    requires close.scope != p
    ensures Latest([close], p).None?
  {
    assert [close][..0] == [];
  }

  lemma KeyOfOther(close: Close, key: string)
    requires close.key != key
    ensures KeyOwner([close], key).None?
  {
    assert [close][..0] == [];
  }

  lemma ReopenedUnderAnother()
    ensures var one, two := ClosingSteps(FIRST_PERIOD, "first", 0), ClosingSteps(SECOND_PERIOD, "second", 1);
            LeftUnlocked(Replay(Opening([RowWith(Absent)]), one + (two + [Transition(0, DoReopen, "fix")])), 0)
  {
    hide SnapshotOf, ClosingSteps, Replay;
    var r := RowWith(Absent);
    var s := Opening([r]);
    var one, two := ClosingSteps(FIRST_PERIOD, "first", 0), ClosingSteps(SECOND_PERIOD, "second", 1);
    var three := [Transition(0, DoReopen, "fix")];
    ReplayInTwo(s, one, two + three);
    ReplayInTwo(Replay(s, one), two, three);
    SingleRowBlockers(r, FIRST_PERIOD);
    PeriodIsClosed(s, FIRST_PERIOD, "first");
    var t := Replay(s, one);
    assert t.records == [r.(locked := true)];
    SingleRowBlockers(r.(locked := true), SECOND_PERIOD);
    LatestOfOther(t.closes[0], SECOND_PERIOD);
    KeyOfOther(t.closes[0], "second");
    PeriodIsClosed(t, SECOND_PERIOD, "second");
    hide Next;
    var u := Replay(t, two);
    assert u.records == [r.(locked := true)];
    var v := Next(u, Transition(0, DoReopen, "fix"));
    ReplayOne(u, Transition(0, DoReopen, "fix"));
    ReopenedByReason(u);
    assert ClosedOver(v.world, v.closes[1], v.records[0]);
  }

  /** Without the guard a service run can reopen one version and leave a row unlocked under another CLOSED one. */
  lemma ReopenSeparates() returns (states: seq<State>, steps: seq<Step>)
    ensures IsServiceRun(states, steps) && Initial(states[0]) && !states[0].guarded
    ensures LeftUnlocked(states[|steps|], 0)
    ensures |steps| == 9 && IsReopen(steps[8]) && forall k :: 0 <= k < 9 ==> !Creates(steps[k])
  {
    hide Next, SnapshotOf, Replay, IsServiceRun, LeftUnlocked;
    var one, two := ClosingSteps(FIRST_PERIOD, "first", 0), ClosingSteps(SECOND_PERIOD, "second", 1);
    steps := one + (two + [Transition(0, DoReopen, "fix")]);
    states := Trace(Opening([RowWith(Absent)]), steps);
    TraceIsRun(Opening([RowWith(Absent)]), steps);
    ReopenedUnderAnother();
  }

  lemma ReopenedByReason(u: State)
    requires |u.closes| == 2 && u.closes[0].status.Closed? && !u.guarded
    requires |u.records| == 1 && InScope(u.world, u.records[0], u.closes[0].scope)
    ensures var v := Next(u, Transition(0, DoReopen, "fix"));
            v.records == [u.records[0].(locked := false)] && v.closes[1] == u.closes[1] && v.world == u.world
              && |v.closes| == 2
  {
    assert Strip("fix") == "fix";
  }

  // ------------------------------------------------------- runs that get stuck

  /** A run can reach a draft with blockers that is the latest version of its scope. */
  lemma BlockedDraftIsReachable() returns (states: seq<State>, steps: seq<Step>)
    ensures IsServiceRun(states, steps) && Initial(states[0])
    ensures var s := states[|steps|];
            |s.closes| == 1 && IsLatest(s, FIRST_PERIOD, 0) && s.closes[0].status.Draft? && s.closes[0].blockers > 0
  {
    var r := RowWith(Unknown);
    var s := Opening([r]);
    steps := [Reconcile(FIRST_PERIOD, "first")];
    states := Trace(s, steps);
    TraceIsRun(s, steps);
    SingleRowBlockers(r, FIRST_PERIOD);
    hide SnapshotOf;
    var t := Next(s, steps[0]);
    assert Replay(s, steps) == t;
    assert t.closes == [FirstVersion(s, FIRST_PERIOD, "first", Draft)] && t.closes[..0] == [];
  }

  lemma CreatedAfterApproval(s: State, p: PeriodScope, r: Record)
    requires Closable(s, p, "first") && s.closes == [] && s.records == [] && !r.locked && !r.regularized
    ensures Replay(s, ApprovalSteps(p, "first", 0) + [CreateRecord(r)]).records == [r]
    ensures var u := Replay(s, ApprovalSteps(p, "first", 0) + [CreateRecord(r)]);
            u.world == s.world && u.regs == s.regs && u.closes == [FirstVersion(s, p, "first", CloseApproved)]
  {
    assert !s.guarded;
    hide Next, SnapshotOf, Replay, Closable, ApprovalSteps, FirstVersion;
    PeriodIsApproved(s, p, "first");
    ReplayInTwo(s, ApprovalSteps(p, "first", 0), [CreateRecord(r)]);
    var t := Replay(s, ApprovalSteps(p, "first", 0));
    ReplayOne(t, CreateRecord(r));
    FirstRowCreated(t, r);
  }

  /** A run can reach an approved version, the latest of its scope, whose evidence has changed. */
  lemma StaleApprovalIsReachable() returns (states: seq<State>, steps: seq<Step>)
    ensures IsServiceRun(states, steps) && Initial(states[0])
    ensures var s := states[|steps|];
            |s.closes| == 1 && IsLatest(s, FIRST_PERIOD, 0) && s.closes[0].status.CloseApproved?
              && Stale(s, s.closes[0])
  {
    hide Next, SnapshotOf, Replay, Closable, IsServiceRun, ApprovalSteps;
    var create := CreateRecord(RowWith(Absent));
    steps := ApprovalSteps(FIRST_PERIOD, "first", 0) + [create];
    states := Trace(Opening([]), steps);
    EmptyPeriodIsClosable();
    EvidenceChanges();
    ClosingIsService(FIRST_PERIOD, "first", 0);
    ServiceStepsAppended(ApprovalSteps(FIRST_PERIOD, "first", 0), [create]);
    TraceIsRun(Opening([]), steps);
    CreatedAfterApproval(Opening([]), FIRST_PERIOD, RowWith(Absent));
    assert states[|steps|].closes[..0] == [];
  }

  lemma EvidenceChanges()
    ensures SnapshotOf(SITE, [RowWith(Absent)], [], FIRST_PERIOD) != SnapshotOf(SITE, [], [], FIRST_PERIOD)
  {
    SingleRowBlockers(RowWith(Absent), FIRST_PERIOD);
    assert |SnapshotOf(SITE, [], [], FIRST_PERIOD).rows| == 0;
  }
}
