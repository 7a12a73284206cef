/** Close versions and their audit log over every run of the protocol. */
module CloseVersions {
  import opened Basics
  import opened CloseSnapshot
  import opened PeriodClose

  // ------------------------------------------------------------------ versions

  /** Table positions of a scope's versions, oldest first. */
  function Versions(closes: seq<Close>, scope: PeriodScope): (v: seq<nat>)
    ensures forall k :: 0 <= k < |v| ==> v[k] < |closes| && closes[v[k]].scope == scope
  {
    if closes == [] then []
    else
      var n := |closes| - 1;
      var init := Versions(closes[..n], scope);
      if closes[n].scope == scope then init + [n] else init
  }

  /** The k-th version is numbered k + 1, points at its predecessor, and only the last may be anything but REOPENED. */
  ghost predicate Chained(closes: seq<Close>, scope: PeriodScope) {
    var v := Versions(closes, scope);
    forall k :: 0 <= k < |v| ==> LinkSound(closes, v, k)
  }

  predicate LinkSound(closes: seq<Close>, v: seq<nat>, k: nat)
    requires k < |v| && forall i :: 0 <= i < |v| ==> v[i] < |closes|
  {
    && closes[v[k]].version == k + 1
    && closes[v[k]].previous == (if k == 0 then None else Some(v[k - 1]))
    && (k + 1 < |v| ==> closes[v[k]].status.Reopened?)
  }

  lemma {:induction false} VersionsAfterStatusChange(closes: seq<Close>, c: nat, status: CloseStatus,
      scope: PeriodScope)
    requires c < |closes|
    ensures Versions(closes[c := closes[c].(status := status)], scope) == Versions(closes, scope)
    decreases |closes|
  {
    var n := |closes| - 1;
    var changed := closes[c := closes[c].(status := status)];
    if c < n {
      assert changed[..n] == closes[..n][c := closes[..n][c].(status := status)];
      VersionsAfterStatusChange(closes[..n], c, status, scope);
    } else {
      assert changed[..n] == closes[..n];
    }
  }

  lemma VersionsAfterAppend(closes: seq<Close>, close: Close, scope: PeriodScope)
    ensures Versions(closes + [close], scope)
            == Versions(closes, scope) + (if close.scope == scope then [|closes|] else [])
  {
    assert (closes + [close])[..|closes|] == closes;
  }

  ghost predicate Numbered(closes: seq<Close>, scope: PeriodScope) {
    var v := Versions(closes, scope);
    forall k {:trigger v[k]} :: 0 <= k < |v| ==> closes[v[k]].version == k + 1
  }

  lemma ChainedIsNumbered(closes: seq<Close>, scope: PeriodScope)
    requires Chained(closes, scope)
    ensures Numbered(closes, scope)
  {
    var v := Versions(closes, scope);
    forall k | 0 <= k < |v|
      ensures closes[v[k]].version == k + 1
    {
      assert LinkSound(closes, v, k);
    }
  }

  /** In a numbered chain the version with the highest number is the last one. */
  lemma {:induction false} LatestIsLast(closes: seq<Close>, scope: PeriodScope)
    requires Numbered(closes, scope)
    ensures var v := Versions(closes, scope);
            Latest(closes, scope) == if v == [] then None else Some(v[|v| - 1])
    decreases |closes|
  {
    if closes != [] {
      var n := |closes| - 1;
      var init := closes[..n];
      var v := Versions(closes, scope);
      var u := Versions(init, scope);
      assert u <= v;
      forall k | 0 <= k < |u|
        ensures init[u[k]].version == k + 1
      {
        assert u[k] == v[k];
        assert closes[v[k]].version == k + 1;
      }
      LatestIsLast(init, scope);
      if closes[n].scope == scope {
        assert v[|u|] == n && closes[v[|u|]].version == |u| + 1;
        if u != [] {
          assert closes[v[|u| - 1]].version == |u|;
        }
      }
    }
  }

  // ----------------------------------------------------------------- audit log

  datatype LogEntry = LogEntry(kind: EventKind, status: CloseStatus, version: nat, snapshot: Snapshot)

  /** The entries of one version, in order. */
  function LogOf(events: seq<Event>, c: nat): seq<LogEntry> {
    if events == [] then []
    else
      var n := |events| - 1;
      var init := LogOf(events[..n], c);
      if events[n].close == c
      then init + [LogEntry(events[n].kind, events[n].status, events[n].version, events[n].snapshot)] else init
  }

  function Stage(status: CloseStatus): nat {
    match status
    case Draft => 0
    case Submitted => 1
    case CloseApproved => 2
    case Closed => 3
    case Reopened => 4
  }

  /** "Reconciled" followed by the path to `status`. */
  function Path(status: CloseStatus, version: nat, snapshot: Snapshot): seq<LogEntry>
    decreases Stage(status)
  {
    match status
    case Draft => [LogEntry(Reconciled, Draft, version, snapshot)]
    case Submitted => Path(Draft, version, snapshot) + [LogEntry(DidSubmit, Submitted, version, snapshot)]
    case CloseApproved => Path(Submitted, version, snapshot) + [LogEntry(DidApprove, CloseApproved, version, snapshot)]
    case Closed => Path(CloseApproved, version, snapshot) + [LogEntry(DidClose, Closed, version, snapshot)]
    case Reopened => Path(Closed, version, snapshot) + [LogEntry(DidReopen, Reopened, version, snapshot)]
  }

  predicate LogSound(s: State, c: nat)
    requires c < |s.closes|
  {
    var close := s.closes[c];
    LogOf(s.events, c) == Path(close.status, close.version, close.snapshot)
  }

  lemma LogAfterAppend(events: seq<Event>, e: Event, c: nat)
    ensures LogOf(events + [e], c)
            == LogOf(events, c) + (if e.close == c then [LogEntry(e.kind, e.status, e.version, e.snapshot)] else [])
  {
    assert (events + [e])[..|events|] == events;
  }

  lemma {:induction false} NoLogYet(events: seq<Event>, c: nat)
    requires forall k :: 0 <= k < |events| ==> events[k].close != c
    ensures LogOf(events, c) == []
  {
    if events != [] {
      NoLogYet(events[..|events| - 1], c);
    }
  }

  // ----------------------------------------------------------------- invariant

  ghost predicate KeysUnique(closes: seq<Close>) {
    forall i, j :: 0 <= i < j < |closes| ==> closes[i].key != closes[j].key
  }

  ghost predicate Orderly(s: State) {
    && (forall scope: PeriodScope {:trigger Chained(s.closes, scope)} :: Chained(s.closes, scope))
    && (forall k :: 0 <= k < |s.events| ==> s.events[k].close < |s.closes|)
    && (forall c :: 0 <= c < |s.closes| ==> LogSound(s, c) && BlockersMeanDraft(s.closes[c]))
    && KeysUnique(s.closes)
  }

  lemma {:induction false} KeyOwnerFinds(closes: seq<Close>, key: string)
    ensures var o := KeyOwner(closes, key);
            && (o.None? <==> forall i :: 0 <= i < |closes| ==> closes[i].key != key)
            && (o.Some? ==> o.value < |closes| && closes[o.value].key == key)
  {
    if closes != [] {
      KeyOwnerFinds(closes[..|closes| - 1], key);
    }
  }

  /** The version follows its scope's latest one, which must be REOPENED. */
  ghost predicate Successor(closes: seq<Close>, close: Close) {
    var l := Latest(closes, close.scope);
    && (l.Some? ==> closes[l.value].status.Reopened?)
    && close.version == (if l.Some? then closes[l.value].version + 1 else 1)
    && close.previous == l
  }

  lemma ChainedAfterAppend(closes: seq<Close>, close: Close, scope: PeriodScope)
    requires Chained(closes, scope) && Successor(closes, close)
    ensures Chained(closes + [close], scope)
  {
    VersionsAfterAppend(closes, close, scope);
    var v, w := Versions(closes, scope), Versions(closes + [close], scope);
    ChainedIsNumbered(closes, scope);
    LatestIsLast(closes, scope);
    forall k | 0 <= k < |w|
      ensures LinkSound(closes + [close], w, k)
    {
      if k < |v| {
        assert LinkSound(closes, v, k) && w[k] == v[k];
      }
    }
  }

  /** A new draft with its opening event. */
  ghost predicate Drafted(s: State, t: State, close: Close) {
    && t.closes == s.closes + [close]
    && t.events == s.events + [EventFor(|s.closes|, Reconciled, "", close)]
    && close.status.Draft?
  }

  lemma DraftKeepsLogs(s: State, t: State, close: Close, c: nat)
    requires Drafted(s, t, close) && c <= |s.closes|
    requires forall k :: 0 <= k < |s.events| ==> s.events[k].close < |s.closes|
    requires c < |s.closes| ==> LogSound(s, c)
    ensures LogSound(t, c)
  {
    LogAfterAppend(s.events, EventFor(|s.closes|, Reconciled, "", close), c);
    if c == |s.closes| {
      NoLogYet(s.events, c);
    }
  }

  lemma DraftIsOrderly(s: State, t: State, close: Close)
    requires Orderly(s) && Drafted(s, t, close)
    requires forall i :: 0 <= i < |s.closes| ==> s.closes[i].key != close.key
    requires Successor(s.closes, close)
    ensures Orderly(t)
  {
    forall p: PeriodScope
      ensures Chained(t.closes, p)
    {
      ChainedAfterAppend(s.closes, close, p);
    }
    forall c | 0 <= c < |t.closes|
      ensures LogSound(t, c) && BlockersMeanDraft(t.closes[c])
    {
      assert c < |s.closes| ==> LogSound(s, c) && BlockersMeanDraft(s.closes[c]);
      DraftKeepsLogs(s, t, close, c);
    }
  }

  lemma ReconcileIsOrderly(s: State, scope: PeriodScope, key: string)
    requires Orderly(s) && ReconcileOutcome(s, scope, key).Done?
    ensures Orderly(ReconcileOutcome(s, scope, key).next)
  {
    var t := ReconcileOutcome(s, scope, key).next;
    KeyOwnerFinds(s.closes, key);
    if KeyOwner(s.closes, key).None? {
      var close := t.closes[|s.closes|];
      assert Drafted(s, t, close) && Successor(s.closes, close);
      hide Orderly, ReconcileOutcome;
      DraftIsOrderly(s, t, close);
    }
  }

  lemma ChainedAfterMove(closes: seq<Close>, c: nat, status: CloseStatus, scope: PeriodScope)
    requires c < |closes| && Chained(closes, scope) && !closes[c].status.Reopened?
    ensures Chained(closes[c := closes[c].(status := status)], scope)
  {
    VersionsAfterStatusChange(closes, c, status, scope);
    var v := Versions(closes, scope);
    var changed := closes[c := closes[c].(status := status)];
    forall k | 0 <= k < |v|
      ensures LinkSound(changed, v, k)
    {
      assert LinkSound(closes, v, k);
    }
  }

  lemma MoveIsOrderly(s: State, c: nat, a: Action, reason: string)
    requires Orderly(s) && c < |s.closes| && !a.Unsupported?
    requires s.closes[c].status == SourceStatus(a) && (s.closes[c].blockers == 0 || a.DoReopen?)
    ensures Orderly(Moved(s, c, a, reason))
  {
    var t := Moved(s, c, a, reason);
    forall p: PeriodScope
      ensures Chained(t.closes, p)
    {
      ChainedAfterMove(s.closes, c, TargetStatus(a), p);
    }
    forall o | 0 <= o < |t.closes|
      ensures LogSound(t, o) && BlockersMeanDraft(t.closes[o])
    {
      LogAfterAppend(s.events, EventFor(c, KindFor(a), reason, t.closes[c]), o);
      assert LogSound(s, o) && BlockersMeanDraft(s.closes[o]);
    }
  }

  lemma QuietStepIsOrderly(s: State, t: State)
    requires Orderly(s) && t.closes == s.closes && t.events == s.events
    ensures Orderly(t)
  {
    assert forall c :: 0 <= c < |s.closes| ==> LogSound(s, c) && BlockersMeanDraft(s.closes[c]);
  }

  lemma StepIsOrderly(s: State, step: Step)
    requires Orderly(s)
    ensures Orderly(Next(s, step))
  {
    match step
    case Reconcile(scope, key) =>
      if Apply(s, step).Done? {
        ReconcileIsOrderly(s, scope, key);
      }
    case Transition(c, a, note) =>
      if Apply(s, step).Done? && s.closes[c].status != TargetStatus(a) {
        MoveIsOrderly(s, c, a, note);
      }
    case _ =>
      OtherStepsAreQuiet(s, step);
      hide Next;
      QuietStepIsOrderly(s, Next(s, step));
  }

  lemma OtherStepsAreQuiet(s: State, step: Step)
    requires !step.Reconcile? && !step.Transition?
    ensures Next(s, step).closes == s.closes && Next(s, step).events == s.events
  {
  }

  lemma {:induction false} RunIsOrderly(states: seq<State>, steps: seq<Step>, k: nat)
    requires IsRun(states, steps) && Initial(states[0]) && k < |states|
    ensures Orderly(states[k])
    decreases k
  {
    if k == 0 {
      assert forall scope: PeriodScope {:trigger Chained([], scope)} :: Chained([], scope);
    } else {
      RunIsOrderly(states, steps, k - 1);
      StepIsOrderly(states[k - 1], steps[k - 1]);
    }
  }

  // -------------------------------------------------------------- main results

  /**
   Over all runs the versions of a scope are exactly 1..n, each linked to its predecessor, with
   all but the last REOPENED, and the latest one is the one the code looks up.
   */
  lemma VersionsFormAChain(states: seq<State>, steps: seq<Step>, n: nat, scope: PeriodScope, k: nat)
    requires IsRun(states, steps) && Initial(states[0]) && n < |states|
    requires k < |Versions(states[n].closes, scope)|
    ensures var closes := states[n].closes;
            var v := Versions(closes, scope);
            && closes[v[k]].version == k + 1
            && closes[v[k]].previous == (if k == 0 then None else Some(v[k - 1]))
            && (k + 1 < |v| ==> closes[v[k]].status.Reopened?)
            && Latest(closes, scope) == Some(v[|v| - 1])
  {
    RunIsOrderly(states, steps, n);
    var closes := states[n].closes;
    var v := Versions(closes, scope);
    assert Chained(closes, scope);
    assert LinkSound(closes, v, k);
    ChainedIsNumbered(closes, scope);
    LatestIsLast(closes, scope);
  }

  /**
   Every version's log is exactly "reconciled" followed by the path to its status, carrying one and the
   same evidence.
   */
  lemma LogIsThePath(states: seq<State>, steps: seq<Step>, n: nat, c: nat)
    requires IsRun(states, steps) && Initial(states[0]) && n < |states| && c < |states[n].closes|
    ensures var close := states[n].closes[c];
            && LogOf(states[n].events, c) == Path(close.status, close.version, close.snapshot)
            && (close.blockers > 0 ==> close.status.Draft?)
  {
    RunIsOrderly(states, steps, n);
    assert LogSound(states[n], c) && BlockersMeanDraft(states[n].closes[c]);
  }

  /** The log only ever grows at its end, and a version's identity and evidence never change. */
  lemma {:induction false} LogIsAppendOnly(states: seq<State>, steps: seq<Step>, n: nat, m: nat)
    requires IsRun(states, steps) && n <= m < |states|
    ensures states[n].events <= states[m].events
    ensures |states[n].closes| <= |states[m].closes|
    ensures forall c :: 0 <= c < |states[n].closes| ==>
              states[m].closes[c] == states[n].closes[c].(status := states[m].closes[c].status)
    decreases m
  {
    hide Next;
    if n < m {
      LogIsAppendOnly(states, steps, n, m - 1);
      StepAppends(states[m - 1], steps[m - 1]);
    }
  }

  lemma StepAppends(s: State, step: Step)
    ensures var t := Next(s, step);
            && s.events <= t.events && |s.closes| <= |t.closes|
            && forall c :: 0 <= c < |s.closes| ==> t.closes[c] == s.closes[c].(status := t.closes[c].status)
  {
  }

  /**
   How any step can change a version's status: along the four moves only, never past blockers,
   closing only on unchanged evidence and reopening only with a reason.
   */
  lemma EveryStatusChange(s: State, step: Step, c: nat)
    requires c < |s.closes| && c < |Next(s, step).closes| && Next(s, step).closes[c].status != s.closes[c].status
    ensures var before, after := s.closes[c], Next(s, step).closes[c];
            && (before.status, after.status) in
                 {(Draft, Submitted), (Submitted, CloseApproved), (CloseApproved, Closed), (Closed, Reopened)}
            && (!after.status.Reopened? ==> before.blockers == 0)
            && (after.status.Closed? ==> SnapshotOf(s.world, s.records, s.regs, before.scope) == before.snapshot)
            && (after.status.Reopened? ==> step.Transition? && !IsBlank(step.note))
            && (s.guarded && after.status in {Closed, Reopened} ==> !SealedElsewhere(s, c))
  {
  }

  /** What a status change logs: one event of that version, with the note it was given and the new status. */
  lemma EveryStatusChangeIsLogged(s: State, step: Step, c: nat)
    requires c < |s.closes| && c < |Next(s, step).closes| && Next(s, step).closes[c].status != s.closes[c].status
    ensures var t := Next(s, step);
            && |t.events| == |s.events| + 1 && t.events[..|s.events|] == s.events
            && var e := t.events[|s.events|];
            && e.close == c && e.status == t.closes[c].status && e.version == s.closes[c].version
            && e.snapshot == s.closes[c].snapshot && step.Transition? && e.reason == step.note
  {
    hide SnapshotOf, LockScope;
  }

  /**
   What reconciling stores: a draft of the asked scope and key with the period's evidence as it
   stands, logged without a reason.
   */
  lemma WhatReconcilingStores(s: State, scope: PeriodScope, key: string)
    requires Next(s, Reconcile(scope, key)).closes != s.closes
    ensures var t := Next(s, Reconcile(scope, key));
            var n := |s.closes|;
            && |t.closes| == n + 1 && t.closes[..n] == s.closes && |t.events| == |s.events| + 1
            && t.closes[n].scope == scope && t.closes[n].key == key && t.closes[n].status.Draft?
            && t.closes[n].snapshot == SnapshotOf(s.world, s.records, s.regs, scope)
            && t.closes[n].blockers == t.closes[n].snapshot.pending + t.closes[n].snapshot.unknown
            && t.events[|s.events|].close == n && t.events[|s.events|].reason == ""
            && Apply(s, Reconcile(scope, key)).Done? && Apply(s, Reconcile(scope, key)).row == n
            && (t.records, t.regs, t.world) == (s.records, s.regs, s.world)
  {
    hide SnapshotOf;
  }

  /** Why reconciling is refused, in the order of the checks. */
  lemma WhyReconcilingIsRefused(s: State, scope: PeriodScope, key: string)
    requires forall c :: 0 <= c < |s.closes| ==> s.closes[c].key != key
    ensures var o := ReconcileOutcome(s, scope, key);
            var l := Latest(s.closes, scope);
            var active := l.Some? && !s.closes[l.value].status.Reopened?;
            && (o == Refused(ForeignEntity) <==> scope.entity !in s.entities)
            && (o == Refused(ActiveVersionExists) <==> scope.entity in s.entities && active)
            && (o == Refused(ReversedPeriod) <==> scope.entity in s.entities && !active && scope.until < scope.from)
            && (o.Refused? ==> o.why in {ForeignEntity, ActiveVersionExists, ReversedPeriod})
  {
    KeyOwnerFinds(s.closes, key);
    hide SnapshotOf;
  }

  /** Why a transition is refused, in the order of the checks. */
  lemma WhyTransitionsAreRefused(s: State, c: nat, a: Action, note: string)
    requires c < |s.closes| && !a.Unsupported? && s.closes[c].status != TargetStatus(a)
    ensures var o := TransitionOutcome(s, c, a, note);
            var close := s.closes[c];
            var stale := a.DoClose? && SnapshotOf(s.world, s.records, s.regs, close.scope) != close.snapshot;
            var outOfTurn := close.status != SourceStatus(a);
            var blocked := !a.DoReopen? && close.blockers != 0;
            var unreasoned := a.DoReopen? && IsBlank(note);
            && (o == Refused(WrongStatus) <==> outOfTurn)
            && (o == Refused(HasBlockers) <==> !outOfTurn && blocked)
            && (o == Refused(ReasonRequired) <==> !outOfTurn && unreasoned)
            && (o == Refused(StaleEvidence) <==> !outOfTurn && !blocked && stale)
            && (o == Refused(PeriodIsClosed) ==> s.guarded && SealedElsewhere(s, c))
            && (o.Refused? ==> o.why in {WrongStatus, HasBlockers, ReasonRequired, StaleEvidence, PeriodIsClosed})
            && (o.Done? ==> o.row == c && c < |o.next.closes| && o.next.closes[c].status == TargetStatus(a))
  {
    hide SnapshotOf, LockScope, SealedElsewhere;
  }

  /** A replayed key, or an action whose target is already reached, returns its version and changes nothing. */
  lemma ReplaysChangeNothing(s: State, scope: PeriodScope, key: string, c: nat, a: Action, note: string)
    requires c < |s.closes|
    ensures s.closes[c].key == key && KeysUnique(s.closes) ==> ReconcileOutcome(s, scope, key) == Done(s, c)
    ensures !a.Unsupported? && s.closes[c].status == TargetStatus(a) ==> TransitionOutcome(s, c, a, note) == Done(s, c)
  {
    KeyOwnerFinds(s.closes, key);
  }

  // ------------------------------------------------------------ stuck versions

  /** The scope's latest version is `c`. */
  ghost predicate IsLatest(s: State, scope: PeriodScope, c: nat) {
    var v := Versions(s.closes, scope);
    v != [] && v[|v| - 1] == c
  }

  /** What a step can do to the versions: nothing, add a draft to a scope that admits one, or move one version. */
  ghost predicate Untouched(s: State, t: State) {
    t.closes == s.closes && t.events == s.events
  }

  ghost predicate AddsDraft(s: State, t: State) {
    && |t.closes| == |s.closes| + 1 && t.closes[..|s.closes|] == s.closes
    && (var l := Latest(s.closes, t.closes[|s.closes|].scope); l.Some? ==> s.closes[l.value].status.Reopened?)
    && |t.events| == |s.events| + 1 && t.events[..|s.events|] == s.events && t.events[|s.events|].close == |s.closes|
  }

  ghost predicate MovesVersion(s: State, t: State, o: nat) {
    && o < |s.closes| == |t.closes| && t.closes == s.closes[o := s.closes[o].(status := t.closes[o].status)]
    && t.closes[o].status != s.closes[o].status
    && (s.closes[o].blockers > 0 ==> !s.closes[o].status.Draft?)
    && |t.events| == |s.events| + 1 && t.events[..|s.events|] == s.events && t.events[|s.events|].close == o
  }

  lemma StepShape(s: State, step: Step)
    ensures var t := Next(s, step);
            Untouched(s, t) || AddsDraft(s, t) || (step.Transition? && MovesVersion(s, t, step.close))
  {
  }

  lemma StuckWhenAdding(s: State, t: State, scope: PeriodScope, c: nat)
    requires AddsDraft(s, t) && Latest(s.closes, scope) == Some(c) && !s.closes[c].status.Reopened?
    ensures Versions(t.closes, scope) == Versions(s.closes, scope)
    ensures c < |t.closes| && t.closes[c] == s.closes[c] && LogOf(t.events, c) == LogOf(s.events, c)
  {
    var added, e := t.closes[|s.closes|], t.events[|s.events|];
    assert t.closes == s.closes + [added] && t.events == s.events + [e];
    VersionsAfterAppend(s.closes, added, scope);
    LogAfterAppend(s.events, e, c);
  }

  lemma StuckWhenMoving(s: State, t: State, scope: PeriodScope, c: nat, o: nat)
    requires MovesVersion(s, t, o) && c < |s.closes| && o != c
    ensures Versions(t.closes, scope) == Versions(s.closes, scope)
    ensures c < |t.closes| && t.closes[c] == s.closes[c] && LogOf(t.events, c) == LogOf(s.events, c)
  {
    var e := t.events[|s.events|];
    assert t.events == s.events + [e];
    VersionsAfterStatusChange(s.closes, o, t.closes[o].status, scope);
    LogAfterAppend(s.events, e, c);
  }

  /** From `s` to `t` the scope's versions, version `c` and its log have not moved. */
  ghost predicate StuckSince(s: State, t: State, scope: PeriodScope, c: nat) {
    && Versions(t.closes, scope) == Versions(s.closes, scope)
    && c < |t.closes| && c < |s.closes| && t.closes[c] == s.closes[c]
    && LogOf(t.events, c) == LogOf(s.events, c)
  }

  /** A step that does not move the scope's latest, not yet reopened version leaves the whole scope alone. */
  lemma HeldStep(first: State, s: State, step: Step, t: State, scope: PeriodScope, c: nat)
    requires Orderly(s) && t == Next(s, step)
    requires IsLatest(first, scope, c) && StuckSince(first, s, scope, c) && !first.closes[c].status.Reopened?
    requires c < |t.closes| && t.closes[c] == s.closes[c]
    ensures StuckSince(first, t, scope, c)
  {
    StepShape(s, step);
    hide Next;
    ChainedIsNumbered(s.closes, scope);
    LatestIsLast(s.closes, scope);
    if AddsDraft(s, t) {
      StuckWhenAdding(s, t, scope, c);
    } else if !Untouched(s, t) {
      StuckWhenMoving(s, t, scope, c, step.close);
    }
  }

  lemma StuckAtFirst(s: State, scope: PeriodScope, c: nat)
    requires c < |s.closes|
    ensures StuckSince(s, s, scope, c)
  {
  }

  /** Blockers refuse every move but a reopen, which a draft does not admit. */
  lemma BlockedDoesNotMove(s: State, step: Step, c: nat)
    requires c < |s.closes| && s.closes[c].blockers > 0 && s.closes[c].status.Draft?
    ensures c < |Next(s, step).closes| && Next(s, step).closes[c] == s.closes[c]
  {
  }

  /** Changed evidence refuses the close, and an approved version admits no other move. */
  lemma StaleDoesNotMove(s: State, step: Step, c: nat)
    requires c < |s.closes| && s.closes[c].status.CloseApproved?
    requires Stale(s, s.closes[c])
    ensures c < |Next(s, step).closes| && Next(s, step).closes[c] == s.closes[c]
  {
    StepShape(s, step);
    if step.Transition? && step.close == c {
      StaleTransition(s, c, step.action, step.note);
    }
    hide Next, Stale;
  }

  lemma StaleTransition(s: State, c: nat, a: Action, note: string)
    requires c < |s.closes| && s.closes[c].status.CloseApproved? && Stale(s, s.closes[c])
    ensures Next(s, Transition(c, a, note)) == s
  {
  }

  /**
   A version reconciled with blockers never leaves DRAFT and its scope never gets another
   version, whatever is resolved afterwards: reconciling "again" is impossible in every later state.
   */
  lemma {:induction false} BlockedVersionIsStuck(
    states: seq<State>, steps: seq<Step>, n: nat, m: nat, scope: PeriodScope, c: nat)
    requires IsRun(states, steps) && Initial(states[0]) && n <= m < |states|
    requires IsLatest(states[n], scope, c) && c < |states[n].closes| && states[n].closes[c].blockers > 0
    ensures StuckSince(states[n], states[m], scope, c) && states[m].closes[c].status.Draft?
    decreases m
  {
    hide Next, Initial, LogOf, Versions;
    RunIsOrderly(states, steps, n);
    assert BlockersMeanDraft(states[n].closes[c]);
    if n == m {
      StuckAtFirst(states[n], scope, c);
    } else {
      BlockedVersionIsStuck(states, steps, n, m - 1, scope, c);
      RunIsOrderly(states, steps, m - 1);
      BlockedDoesNotMove(states[m - 1], steps[m - 1], c);
      HeldStep(states[n], states[m - 1], steps[m - 1], states[m], scope, c);
    }
  }

  /**
   An approved version whose evidence has changed stays approved, and its scope gets no new
   version, for as long as the evidence differs, although the refusal asks to reconcile again.
   */
  lemma {:induction false} StaleVersionIsStuck(
    states: seq<State>, steps: seq<Step>, n: nat, m: nat, scope: PeriodScope, c: nat)
    requires IsRun(states, steps) && Initial(states[0]) && n <= m < |states|
    requires IsLatest(states[n], scope, c) && c < |states[n].closes| && states[n].closes[c].status.CloseApproved?
    requires forall t :: n <= t < m ==> Stale(states[t], states[n].closes[c])
    ensures StuckSince(states[n], states[m], scope, c)
    decreases m
  {
    hide Next, Initial, LogOf, Versions;
    if n == m {
      StuckAtFirst(states[n], scope, c);
    } else {
      StaleVersionIsStuck(states, steps, n, m - 1, scope, c);
      RunIsOrderly(states, steps, m - 1);
      assert Stale(states[m - 1], states[n].closes[c]);
      StaleDoesNotMove(states[m - 1], steps[m - 1], c);
      HeldStep(states[n], states[m - 1], steps[m - 1], states[m], scope, c);
    }
  }

  /** The evidence of the version's period is no longer what was reconciled. */
  predicate Stale(s: State, close: Close) {
    SnapshotOf(s.world, s.records, s.regs, close.scope) != close.snapshot
  }

  lemma ReconcileAddsWhen(s: State, scope: PeriodScope, key: string)
    ensures var l := Latest(s.closes, scope);
            |Next(s, Reconcile(scope, key)).closes| > |s.closes| <==>
              && KeyOwner(s.closes, key).None? && scope.entity in s.entities && scope.from <= scope.until
              && (l.Some? ==> s.closes[l.value].status.Reopened?)
  {
  }

  /**
   A scope gets a new version in a step exactly when a fresh key asks for it, the entity is the
   tenant's, the period is ordered and its latest version, if any, is REOPENED.
   */
  lemma WhenAVersionIsAdded(s: State, scope: PeriodScope, key: string)
    requires Orderly(s)
    ensures var v := Versions(s.closes, scope);
            |Next(s, Reconcile(scope, key)).closes| > |s.closes| <==>
              && (forall c :: 0 <= c < |s.closes| ==> s.closes[c].key != key)
              && scope.entity in s.entities && scope.from <= scope.until
              && (v != [] ==> s.closes[v[|v| - 1]].status.Reopened?)
  {
    hide Next;
    ReconcileAddsWhen(s, scope, key);
    KeyOwnerFinds(s.closes, key);
    ChainedIsNumbered(s.closes, scope);
    LatestIsLast(s.closes, scope);
  }
}
