/** The failure breaker of the profiler client (pkg/amdgpu/rocprofiler/rocpclient.go).

    Three failures in a row or one crash disable the profiler; a reset enables it again.
    Each locked operation is one atomic step. The class carries the operations as they are;
    the state machine below interleaves them with any number of concurrent fetches. */
module ProfilerBreaker {
  const FAIL_THRESHOLD: nat := 3

  /** The text kept while the profiler is disabled; NoReason is the empty text. */
  datatype DisabledReason = NoReason | ConsecutiveFailures | CoreDumped

  datatype Breaker = Breaker(failures: nat, fatal: bool, reason: DisabledReason)

  const CLOSED := Breaker(0, false, NoReason)

  predicate Disabled(b: Breaker) {
    b.fatal || b.failures >= FAIL_THRESHOLD
  }

  /** A disabled profiler has a reason and an enabled one has none. */
  predicate Consistent(b: Breaker) {
    Disabled(b) <==> b.reason != NoReason
  }

  function Inc(b: Breaker): Breaker {
    var n := b.failures + 1;
    Breaker(n, b.fatal, if n == FAIL_THRESHOLD then ConsecutiveFailures else b.reason)
  }

  function Crash(b: Breaker): Breaker {
    Breaker(b.failures, true, CoreDumped)
  }

  // ------------------------------------------------------------- the locked operations

  class ROCProfilerClient {
    var consecutiveFailures: nat
    var fatalFailure: bool
    var disabledReason: DisabledReason
    /** The events handed to the registered emitter. */
    var emitted: seq<DisabledReason>

    ghost function State(): Breaker
      reads this
    {
      Breaker(consecutiveFailures, fatalFailure, disabledReason)
    }

    constructor ()
      ensures State() == CLOSED && emitted == []
    {
      consecutiveFailures, fatalFailure, disabledReason, emitted := 0, false, NoReason, [];
    }

    method ResetFailureCount()
      modifies this
      ensures State() == CLOSED && emitted == old(emitted)
      ensures consecutiveFailures == 0 && !fatalFailure && disabledReason == NoReason
    {
      consecutiveFailures := 0;
      fatalFailure := false;
      disabledReason := NoReason;
    }

    method IncFailureCount()
      modifies this
      ensures State() == Inc(old(State()))
      ensures consecutiveFailures == old(consecutiveFailures) + 1 && fatalFailure == old(fatalFailure)
      ensures disabledReason == if consecutiveFailures == 3 then ConsecutiveFailures else old(disabledReason)
      ensures emitted ==
              old(emitted) + if consecutiveFailures == FAIL_THRESHOLD then [ConsecutiveFailures] else []
    {
      var emitReason := NoReason;
      consecutiveFailures := consecutiveFailures + 1;
      if consecutiveFailures == FAIL_THRESHOLD {
        emitReason := ConsecutiveFailures;
        disabledReason := emitReason;
      }
      if emitReason != NoReason {
        emitted := emitted + [emitReason];
      }
    }

    method SetFatalFailureState()
      modifies this
      ensures State() == Crash(old(State()))
      ensures fatalFailure && disabledReason == CoreDumped && consecutiveFailures == old(consecutiveFailures)
      ensures emitted == old(emitted) + if old(fatalFailure) then [] else [CoreDumped]
    {
      var alreadyFatal := fatalFailure;
      fatalFailure := true;
      disabledReason := CoreDumped;
      if alreadyFatal {
        return;
      }
      emitted := emitted + [CoreDumped];
    }

    method IsDisabledOnFailure() returns (disabled: bool)
      ensures disabled == Disabled(State())
      ensures disabled <==> fatalFailure || consecutiveFailures >= 3
    {
      disabled := fatalFailure || consecutiveFailures >= FAIL_THRESHOLD;
    }

    /** getMetrics without concurrent callers; the command runs only when enabled and there
        are fields to fetch. */
    method GetMetrics(hasFields: bool, outcome: Outcome) returns (ran: bool)
      requires Consistent(State())
      modifies this
      ensures Consistent(State())
      ensures ran == (hasFields && !Disabled(old(State())))
      ensures State() == if ran then Finish(old(State()), outcome) else old(State())
      ensures |emitted| - |old(emitted)| == if ran && Disabled(State()) then 1 else 0
    {
      var disabled := IsDisabledOnFailure();
      if disabled {
        return false;
      }
      if !hasFields {
        return false;
      }
      ran := true;
      Conclude(outcome);
    }

    /** What getMetrics does when its command has ended; other fetches may have changed the
        breaker since it began. */
    method Conclude(outcome: Outcome)
      modifies this
      ensures State() == Finish(old(State()), outcome)
      ensures |emitted| == |old(emitted)| + Count(Emits(old(State()), outcome))
      ensures outcome in {TimedOut, CommandFailed, BadOutput} ==>
                consecutiveFailures == old(consecutiveFailures) + 1 && fatalFailure == old(fatalFailure)
      ensures outcome == Dumped ==> fatalFailure && consecutiveFailures == old(consecutiveFailures)
      ensures outcome == Cancelled ==> State() == old(State()) && emitted == old(emitted)
      ensures outcome == Succeeded ==>
                consecutiveFailures == 0 && !fatalFailure && disabledReason == NoReason && emitted == old(emitted)
    {
      match outcome
      case TimedOut | CommandFailed | BadOutput => IncFailureCount();
      case Dumped => SetFatalFailureState();
      case Cancelled =>
      case Succeeded => ResetFailureCount();
    }
  }

  // ------------------------------------------------------------- concurrent fetches

  /** How a command can end. */
  datatype Outcome = TimedOut | Cancelled | CommandFailed | Dumped | BadOutput | Succeeded

  function Finish(b: Breaker, outcome: Outcome): Breaker {
    match outcome
    case TimedOut | CommandFailed | BadOutput => Inc(b)
    case Dumped => Crash(b)
    case Cancelled => b
    case Succeeded => CLOSED
  }

  /** Whether ending a command this way emits an event. */
  predicate Emits(b: Breaker, outcome: Outcome) {
    match outcome
    case TimedOut | CommandFailed | BadOutput => b.failures + 1 == FAIL_THRESHOLD
    case Dumped => !b.fatal
    case Cancelled | Succeeded => false
  }

  type Fetch = nat

  /** The breaker, the fetches whose command is running, and three history counters: events
      emitted, events since the breaker was last closed, and enabled-to-disabled transitions. */
  datatype Machine = Machine(b: Breaker, running: set<Fetch>, events: nat, eventsSinceClosed: nat, transitions: nat)

  const START := Machine(CLOSED, {}, 0, 0, 0)

  datatype Action = Begin(f: Fetch) | End(f: Fetch, outcome: Outcome) | ExplicitReset

  function Count(b: bool): nat {
    if b then 1 else 0
  }

  ghost predicate Step(m: Machine, a: Action, m': Machine) {
    match a
    case Begin(f) =>
      f !in m.running && !Disabled(m.b) && m' == m.(running := m.running + {f})
    case End(f, outcome) =>
      var b' := Finish(m.b, outcome);
      f in m.running &&
      m' == Machine(b', m.running - {f},
                    m.events + Count(Emits(m.b, outcome)),
                    if outcome == Succeeded then 0 else m.eventsSinceClosed + Count(Emits(m.b, outcome)),
                    m.transitions + Count(!Disabled(m.b) && Disabled(b')))
    case ExplicitReset =>
      m' == m.(b := CLOSED, eventsSinceClosed := 0)
  }

  ghost predicate IsRun(run: seq<Machine>, actions: seq<Action>) {
    && |run| == |actions| + 1 && run[0] == START
    && forall i {:trigger actions[i]} :: 0 <= i < |actions| ==> Step(run[i], actions[i], run[i + 1])
  }

  ghost predicate Inv(m: Machine) {
    && Consistent(m.b)
    && m.eventsSinceClosed == Count(m.b.failures >= FAIL_THRESHOLD) + Count(m.b.fatal)
    && m.transitions <= m.events
    && m.events + (if Disabled(m.b) then 2 - m.eventsSinceClosed else 0) <= 2 * m.transitions
  }

  lemma InvStep(m: Machine, a: Action, m': Machine)
    requires Inv(m) && Step(m, a, m')
    ensures Inv(m')
  {
  }

  /** Under any interleaving of any number of fetches and resets the profiler is disabled
      exactly when it has a reason, the events emitted since the breaker was last closed are
      one for reaching the failure threshold plus one for a crash, and every transition to
      disabled emits at least one event and at most two. */
  lemma {:induction false} AnyInterleaving(run: seq<Machine>, actions: seq<Action>)
    requires IsRun(run, actions)
    ensures forall i :: 0 <= i < |run| ==> Inv(run[i])
    decreases |actions|
  {
    if actions != [] {
      var n := |actions| - 1;
      AnyInterleaving(run[..n + 1], actions[..n]);
      assert run[..n + 1][n] == run[n];
      InvStep(run[n], actions[n], run[n + 1]);
      forall i | 0 <= i < |run| ensures Inv(run[i]) {
        if i <= n { assert run[..n + 1][i] == run[i]; }
      }
    }
  }

  // ------------------------------------------------------------- the breaker in terms of the history

  /** A step that closes the breaker. */
  predicate Closes(a: Action) {
    a == ExplicitReset || (a.End? && a.outcome == Succeeded)
  }

  predicate Fails(a: Action) {
    a.End? && (a.outcome == TimedOut || a.outcome == CommandFailed || a.outcome == BadOutput)
  }

  predicate Crashes(a: Action) {
    a.End? && a.outcome == Dumped
  }

  /** The failed commands since the breaker was last closed, and whether one crashed since. */
  function FailuresSince(actions: seq<Action>): nat {
    if actions == [] || Closes(actions[|actions| - 1]) then 0
    else FailuresSince(actions[..|actions| - 1]) + Count(Fails(actions[|actions| - 1]))
  }

  ghost predicate CrashedSince(actions: seq<Action>) {
    exists i :: 0 <= i < |actions| && Crashes(actions[i]) && forall j :: i < j < |actions| ==> !Closes(actions[j])
  }

  lemma CrashedSinceSnoc(actions: seq<Action>)
    requires actions != []
    ensures var last := actions[|actions| - 1];
            CrashedSince(actions) <==> Crashes(last) || (CrashedSince(actions[..|actions| - 1]) && !Closes(last))
  {
    var head, n := actions[..|actions| - 1], |actions| - 1;
    if Crashes(actions[n]) {
      assert CrashedSince(actions);
    }
    if CrashedSince(head) && !Closes(actions[n]) {
      var i :| 0 <= i < |head| && Crashes(head[i]) && forall j :: i < j < |head| ==> !Closes(head[j]);
      assert forall j :: i < j < n ==> !Closes(head[j]) && actions[j] == head[j];
      assert Crashes(actions[i]);
    }
    if CrashedSince(actions) && !Crashes(actions[n]) {
      var i :| 0 <= i < |actions| && Crashes(actions[i]) && forall j :: i < j < |actions| ==> !Closes(actions[j]);
      assert head[i] == actions[i] && forall j :: i < j < n ==> head[j] == actions[j];
    }
  }

  lemma BreakerStep(m: Machine, a: Action, m': Machine)
    requires Step(m, a, m')
    ensures m'.b.failures == if Closes(a) then 0 else m.b.failures + Count(Fails(a))
    ensures m'.b.fatal <==> Crashes(a) || (m.b.fatal && !Closes(a))
  {
  }

  /** Under any interleaving the profiler is disabled exactly when, since the last successful
      command or reset, three commands failed or one crashed. A cancelled command changes
      nothing, and a reset always enables. */
  lemma {:induction false} DisabledIff(run: seq<Machine>, actions: seq<Action>)
    requires IsRun(run, actions)
    ensures var b := run[|actions|].b;
            && b.failures == FailuresSince(actions) && (b.fatal <==> CrashedSince(actions))
            && (Disabled(b) <==> FailuresSince(actions) >= 3 || CrashedSince(actions))
    decreases |actions|
  {
    if actions != [] {
      var n := |actions| - 1;
      DisabledIff(run[..n + 1], actions[..n]);
      BreakerStep(run[n], actions[n], run[n + 1]);
      CrashedSinceSnoc(actions);
    }
  }

  /** While the breaker is closed, an ending command emits an event exactly when it opens it. */
  lemma EventMatchesTransition(b: Breaker, outcome: Outcome)
    requires !Disabled(b)
    ensures Emits(b, outcome) <==> Disabled(Finish(b, outcome))
  {
  }

  // ------------------------------------------------------------- the three guarantees

  /** No command is running while the profiler is disabled. */
  ghost predicate RunsOnlyEnabled(run: seq<Machine>) {
    forall i :: 0 <= i < |run| && run[i].running != {} ==> !Disabled(run[i].b)
  }

  /** One event per enabled-to-disabled transition and no other event. */
  ghost predicate OneEventPerTransition(run: seq<Machine>) {
    forall i :: 0 <= i < |run| ==> run[i].events == run[i].transitions
  }

  /** Only an explicit reset enables a disabled profiler. */
  ghost predicate OnlyResetEnables(run: seq<Machine>, actions: seq<Action>)
    requires |run| == |actions| + 1
  {
    forall i :: 0 <= i < |actions| && Disabled(run[i].b) && !Disabled(run[i + 1].b) ==> actions[i] == ExplicitReset
  }

  /** At most k commands are in flight at any time. */
  ghost predicate BoundedBy(run: seq<Machine>, k: nat) {
    forall i :: 0 <= i < |run| ==> |run[i].running| <= k
  }

  ghost predicate SerialInv(m: Machine) {
    && (m.running != {} ==> !Disabled(m.b))
    && m.events == m.transitions
  }

  lemma SerialStep(m: Machine, a: Action, m': Machine)
    requires SerialInv(m) && Step(m, a, m') && |m.running| <= 1
    ensures SerialInv(m')
    ensures Disabled(m.b) && !Disabled(m'.b) ==> a == ExplicitReset
  {
    if a.End? {
      EventMatchesTransition(m.b, a.outcome);
      OnlyOne(m.running, a.f);
    }
  }

  lemma OnlyOne(running: set<Fetch>, f: Fetch)
    requires f in running && |running| <= 1
    ensures running - {f} == {}
  {
    assert |running - {f}| == |running| - 1;
  }

  /** With serialized fetches and resets at any time all three guarantees hold. */
  lemma {:induction false} SerializedFetches(run: seq<Machine>, actions: seq<Action>)
    requires IsRun(run, actions) && BoundedBy(run, 1)
    ensures RunsOnlyEnabled(run) && OneEventPerTransition(run) && OnlyResetEnables(run, actions)
    decreases |actions|
  {
    if actions != [] {
      var n := |actions| - 1;
      var run', actions' := run[..n + 1], actions[..n];
      SerializedFetches(run', actions');
      assert run'[n] == run[n];
      SerialStep(run[n], actions[n], run[n + 1]);
      forall i | 0 <= i < |run| ensures SerialInv(run[i]) {
        if i <= n { assert run'[i] == run[i]; }
      }
      forall i | 0 <= i < |actions| && Disabled(run[i].b) && !Disabled(run[i + 1].b)
        ensures actions[i] == ExplicitReset
      {
        if i < n { assert run'[i] == run[i] && run'[i + 1] == run[i + 1] && actions'[i] == actions[i]; }
      }
    }
  }

  /** Two failed fetches, then two overlapping ones of which the first fails as well: the
      profiler is disabled while the second command runs, which then ends as given. */
  ghost function OverlapActions(outcome: Outcome): seq<Action> {
    [Begin(0), End(0, TimedOut), Begin(0), End(0, TimedOut), Begin(0), Begin(1), End(0, TimedOut), End(1, outcome)]
  }

  ghost function OverlapRun(outcome: Outcome): seq<Machine> {
    var b1, b2, b3 := Inc(CLOSED), Inc(Inc(CLOSED)), Inc(Inc(Inc(CLOSED)));
    var events := 1 + Count(Emits(b3, outcome));
    [START, Machine(CLOSED, {0}, 0, 0, 0), Machine(b1, {}, 0, 0, 0), Machine(b1, {0}, 0, 0, 0),
     Machine(b2, {}, 0, 0, 0), Machine(b2, {0}, 0, 0, 0), Machine(b2, {0, 1}, 0, 0, 0),
     Machine(b3, {1}, 1, 1, 1),
     Machine(Finish(b3, outcome), {}, events, if outcome == Succeeded then 0 else events, 1)]
  }

  lemma OverlapIsRun(outcome: Outcome)
    ensures IsRun(OverlapRun(outcome), OverlapActions(outcome)) && BoundedBy(OverlapRun(outcome), 2)
  {
    var run, actions := OverlapRun(outcome), OverlapActions(outcome);
    assert forall i :: 0 <= i < |actions| ==> Step(run[i], actions[i], run[i + 1]);
  }

  ghost predicate AllRunOnlyEnabled(k: nat) {
    forall run: seq<Machine>, actions: seq<Action> :: IsRun(run, actions) && BoundedBy(run, k) ==> RunsOnlyEnabled(run)
  }

  ghost predicate AllEmitOnce(k: nat) {
    forall run: seq<Machine>, actions: seq<Action> ::
      IsRun(run, actions) && BoundedBy(run, k) ==> OneEventPerTransition(run)
  }

  ghost predicate AllNeedReset(k: nat) {
    forall run: seq<Machine>, actions: seq<Action> ::
      IsRun(run, actions) && BoundedBy(run, k) ==> OnlyResetEnables(run, actions)
  }

  /** Each of the three guarantees holds in every run with at most k commands in flight if
      and only if k is at most one. */
  lemma GuaranteedIff(k: nat)
    ensures AllRunOnlyEnabled(k) <==> k <= 1
    ensures AllEmitOnce(k) <==> k <= 1
    ensures AllNeedReset(k) <==> k <= 1
  {
    if k <= 1 {
      forall run: seq<Machine>, actions: seq<Action> | IsRun(run, actions) && BoundedBy(run, k)
        ensures RunsOnlyEnabled(run) && OneEventPerTransition(run) && OnlyResetEnables(run, actions)
      {
        SerializedFetches(run, actions);
      }
    } else {
      OverlapBreaksAll(k);
    }
  }

  lemma OverlapBreaksAll(k: nat)
    requires k >= 2
    ensures !AllRunOnlyEnabled(k) && !AllEmitOnce(k) && !AllNeedReset(k)
  {
    var run, run' := OverlapRun(Dumped), OverlapRun(Succeeded);
    OverlapIsRun(Dumped);
    OverlapIsRun(Succeeded);
    assert BoundedBy(run, k) && BoundedBy(run', k);
    assert run[7].running == {1} && Disabled(run[7].b);
    assert run[8].events == 2;
    assert Disabled(run'[7].b) && !Disabled(run'[8].b) && OverlapActions(Succeeded)[7] == End(1, Succeeded);
  }

  /** How many commands ended with an event although the profiler was disabled already. */
  ghost function LateEvents(run: seq<Machine>, actions: seq<Action>): nat
    requires |run| == |actions| + 1
  {
    if actions == [] then 0 else
      var n := |actions| - 1;
      LateEvents(run[..n + 1], actions[..n]) +
      Count(actions[n].End? && Disabled(run[n].b) && Emits(run[n].b, actions[n].outcome))
  }

  /** The exact account of every run: the events beyond one per transition are those emitted
      by commands that ended while the profiler was disabled already. */
  lemma {:induction false} EventsAccountedFor(run: seq<Machine>, actions: seq<Action>)
    requires IsRun(run, actions)
    ensures run[|actions|].events == run[|actions|].transitions + LateEvents(run, actions)
    decreases |actions|
  {
    if actions != [] {
      var n := |actions| - 1;
      EventsAccountedFor(run[..n + 1], actions[..n]);
      if actions[n].End? && !Disabled(run[n].b) {
        EventMatchesTransition(run[n].b, actions[n].outcome);
      }
    }
  }
}
