/** The automatic test trigger as a state machine over the status database
    (pkg/testrunner/testrunner.go: watchGPUState, testGPU, cleanupHealthyGPUTestStatus,
    updateStatusDBAfterTestRun).

    A poll hands unhealthy devices to a new goroutine and then cleans up the healthy ones;
    goroutines start, finish or are interrupted at any time; the process may stop between any
    two steps and start again with other device ID maps. Each load-modify-save of the database
    is one step. */
module AutoTestRunner {
  import opened StatusDb
  import opened StatusMigration
  import opened Wrappers

  /** What happened since the process started. */
  datatype Event =
    | Started(test: nat, ids: seq<string>, isRerun: bool)
    | Finished(test: nat)
    | Polled(healthy: seq<string>)
    | Cleaned(healthy: seq<string>)

  datatype Phase = Down | Booted(maps: IdMaps) | Up

  /** The database survives a stop; everything else belongs to one process life. waiting are
      the device lists of goroutines that have not reached the database yet, rerun the list of
      the rerun goroutine, cleanup the healthy devices of the poll being processed, tests the
      tests in flight with their devices. */
  datatype Runner = Runner(
    db: Statuses,
    phase: Phase,
    waiting: seq<seq<string>>,
    rerun: Option<seq<string>>,
    cleanup: Option<seq<string>>,
    tests: map<nat, seq<string>>,
    next: nat,
    log: seq<Event>)

  function Fresh(db: Statuses, phase: Phase): Runner {
    Runner(db, phase, [], None, None, map[], 0, [])
  }

  datatype Action =
    | Boot(maps: IdMaps, order: seq<string>) | Watch(ids: seq<string>)
    | Poll(healthy: seq<string>, unhealthy: seq<string>) | Cleanup
    | StartFresh(k: nat) | StartRerun
    | Finish(t: nat) | Signal(t: nat) | Crash

  function WithTest(s: Runner, ids: seq<string>, isRerun: bool): Runner {
    s.(db := MarkAll(s.db, ids, Running), tests := s.tests[s.next := ids], next := s.next + 1,
       log := s.log + [Started(s.next, ids, isRerun)])
  }

  ghost predicate Step(s: Runner, a: Action, s': Runner) {
    match a
    case Boot(maps, order) =>
      s.phase == Down && Lockstep(maps) && Enumerates(order, s.db.Keys) &&
      s' == Fresh(Migrate(maps, s.db, order), Booted(maps))
    case Watch(ids) =>
      s.phase.Booted? && Enumerates(ids, RunningOf(Swept(s.phase.maps, s.db))) &&
      s' == Fresh(Swept(s.phase.maps, s.db), Up).(rerun := if ids == [] then None else Some(ids))
    case Poll(healthy, unhealthy) =>
      s.phase == Up && s.cleanup == None &&
      s' == s.(cleanup := Some(healthy), log := s.log + [Polled(healthy)],
               waiting := s.waiting + if unhealthy == [] then [] else [unhealthy])
    case Cleanup =>
      s.phase == Up && s.cleanup.Some? &&
      s' == s.(db := CleanedUp(s.db, s.cleanup.value), cleanup := None, log := s.log + [Cleaned(s.cleanup.value)])
    case StartFresh(k) =>
      s.phase == Up && k < |s.waiting| &&
      var valid := ValidIds(s.db, s.waiting[k], false);
      var rest := s.(waiting := s.waiting[..k] + s.waiting[k + 1..]);
      s' == if valid == [] then rest else WithTest(rest, valid, false)
    case StartRerun =>
      s.phase == Up && s.rerun.Some? && s' == WithTest(s.(rerun := None), s.rerun.value, true)
    case Finish(t) =>
      s.phase == Up && t in s.tests &&
      s' == s.(db := MarkAll(s.db, s.tests[t], Completed), tests := s.tests - {t}, log := s.log + [Finished(t)])
    case Signal(t) =>
      s.phase == Up && t in s.tests && s' == Fresh(MarkAll(s.db, s.tests[t], Running), Down)
    case Crash =>
      s.phase != Down && s' == Fresh(s.db, Down)
  }

  ghost predicate IsRun(run: seq<Runner>, actions: seq<Action>) {
    && |run| == |actions| + 1 && run[0] == Fresh(run[0].db, Down)
    && forall i :: 0 <= i < |actions| ==> Step(run[i], actions[i], run[i + 1])
  }

  // ------------------------------------------------------------- devices under test

  predicate AllRunning(db: Statuses, ids: seq<string>) {
    forall id :: id in ids ==> id in db && db[id] == Running
  }

  predicate Disjoint(a: seq<string>, b: seq<string>) {
    forall id :: id in a ==> id !in b
  }

  /** Every device with a test in flight or a rerun pending is marked running, and no device
      belongs to two of them. */
  ghost predicate DeviceInv(s: Runner) {
    && (s.phase != Up ==> s == Fresh(s.db, s.phase))
    && (forall t :: t in s.tests ==> t < s.next && s.tests[t] != [] && AllRunning(s.db, s.tests[t]))
    && (s.rerun.Some? ==> s.rerun.value != [] && AllRunning(s.db, s.rerun.value))
    && (forall t, u :: t in s.tests && u in s.tests && t != u ==> Disjoint(s.tests[t], s.tests[u]))
    && (forall t :: t in s.tests && s.rerun.Some? ==> Disjoint(s.tests[t], s.rerun.value))
  }

  lemma StartKeepsDevices(s: Runner, ids: seq<string>, isRerun: bool)
    requires s.phase == Up && DeviceInv(s) && ids != []
    requires forall t :: t in s.tests ==> Disjoint(s.tests[t], ids)
    requires s.rerun.Some? ==> Disjoint(ids, s.rerun.value)
    ensures DeviceInv(WithTest(s, ids, isRerun))
  {
  }

  lemma NewDevicesAreFree(s: Runner, ids: seq<string>)
    requires DeviceInv(s) && forall id :: id in ids ==> id !in s.db
    ensures forall t :: t in s.tests ==> Disjoint(s.tests[t], ids)
    ensures s.rerun.Some? ==> Disjoint(ids, s.rerun.value)
  {
  }

  lemma DeviceStep(s: Runner, a: Action, s': Runner)
    requires DeviceInv(s) && Step(s, a, s')
    ensures DeviceInv(s')
  {
    match a
    case StartFresh(k) =>
      var valid := ValidIds(s.db, s.waiting[k], false);
      var rest := s.(waiting := s.waiting[..k] + s.waiting[k + 1..]);
      if valid != [] {
        NewDevicesAreFree(s, valid);
        StartKeepsDevices(rest, valid, false);
      }
    case StartRerun => StartKeepsDevices(s.(rerun := None), s.rerun.value, true);
    case _ =>
  }

  // ------------------------------------------------------------- the life of a device

  predicate IsFreshStart(e: Event, d: string) {
    e.Started? && !e.isRerun && d in e.ids
  }

  predicate CleansUp(e: Event, d: string) {
    e.Cleaned? && d in e.healthy
  }

  predicate FinishedBy(log: seq<Event>, i: int, m: int) {
    0 <= i < m < |log| && log[i].Started? && log[m] == Finished(log[i].test)
  }

  /** After its start at position i the test finished, and after that the device was cleaned up
      as healthy, both before position j. */
  ghost predicate Recovered(log: seq<Event>, i: int, j: int, d: string) {
    exists m, n :: FinishedBy(log, i, m) && m < n < j && n < |log| && CleansUp(log[n], d)
  }

  ghost predicate FinishedLater(log: seq<Event>, i: int) {
    exists m :: FinishedBy(log, i, m)
  }

  /** What follows a fresh start: the test is in flight, or it has finished and the device is
      still on record, or the device has recovered. */
  ghost predicate Progress(s: Runner, i: int, d: string)
    requires 0 <= i < |s.log| && s.log[i].Started?
  {
    || (s.log[i].test in s.tests && d in s.tests[s.log[i].test])
    || (d in s.db && FinishedLater(s.log, i))
    || Recovered(s.log, i, |s.log|, d)
  }

  ghost predicate ProgressInv(s: Runner) {
    forall i, d :: 0 <= i < |s.log| && IsFreshStart(s.log[i], d) ==> Progress(s, i, d)
  }

  ghost predicate PairInv(log: seq<Event>) {
    forall i, j, d :: 0 <= i < j < |log| && IsFreshStart(log[i], d) && IsFreshStart(log[j], d) ==>
                        Recovered(log, i, j, d)
  }

  /** At position n the poll at position p is the last one and has not been cleaned up yet. */
  ghost predicate OpenPollAt(log: seq<Event>, n: int, p: int) {
    0 <= p < n <= |log| && log[p].Polled? && forall q :: p < q < n ==> !log[q].Polled? && !log[q].Cleaned?
  }

  ghost predicate OpenPoll(log: seq<Event>, n: int, healthy: seq<string>) {
    exists p :: OpenPollAt(log, n, p) && log[p] == Polled(healthy)
  }

  /** Every cleanup belongs to the last poll before it and no poll is cleaned up twice; the
      pending cleanup is that of the open poll. */
  ghost predicate PollInv(s: Runner) {
    && (s.cleanup.Some? ==> OpenPoll(s.log, |s.log|, s.cleanup.value))
    && (forall p :: OpenPollAt(s.log, |s.log|, p) ==> s.cleanup == Some(s.log[p].healthy))
    && (forall n :: 0 <= n < |s.log| && s.log[n].Cleaned? ==> OpenPoll(s.log, n, s.log[n].healthy))
  }

  /** A test ends at most once and is not in flight afterwards. */
  ghost predicate EndInv(s: Runner) {
    && (forall m :: 0 <= m < |s.log| && s.log[m].Finished? ==> s.log[m].test < s.next && s.log[m].test !in s.tests)
    && (forall m, m' :: 0 <= m < m' < |s.log| && s.log[m].Finished? && s.log[m'].Finished? ==>
          s.log[m].test != s.log[m'].test)
  }

  lemma LogGrows(log: seq<Event>, e: Event, i: int, j: int, d: string)
    requires j <= |log|
    ensures Recovered(log, i, j, d) ==> Recovered(log + [e], i, j, d)
    ensures Recovered(log, i, |log|, d) ==> Recovered(log + [e], i, |log| + 1, d)
    ensures FinishedLater(log, i) ==> FinishedLater(log + [e], i)
  {
    var more := log + [e];
    if FinishedLater(log, i) {
      var m :| FinishedBy(log, i, m);
      assert FinishedBy(more, i, m);
    }
    if Recovered(log, i, j, d) {
      var m, n :| FinishedBy(log, i, m) && m < n < j && n < |log| && CleansUp(log[n], d);
      assert FinishedBy(more, i, m) && CleansUp(more[n], d);
    }
    if Recovered(log, i, |log|, d) {
      var m, n :| FinishedBy(log, i, m) && m < n < |log| && CleansUp(log[n], d);
      assert FinishedBy(more, i, m) && CleansUp(more[n], d);
    }
  }

  lemma FinishProgress(s: Runner, t: nat, s': Runner, i: int, d: string)
    requires DeviceInv(s) && Step(s, Finish(t), s') && 0 <= i < |s.log| && s.log[i].Started? && Progress(s, i, d)
    ensures Progress(s', i, d)
  {
    LogGrows(s.log, Finished(t), i, |s.log|, d);
    if s.log[i].test == t && d in s.tests[t] {
      assert FinishedBy(s'.log, i, |s.log|);
    }
  }

  lemma CleanupProgress(s: Runner, s': Runner, i: int, d: string)
    requires DeviceInv(s) && Step(s, Cleanup, s') && 0 <= i < |s.log| && s.log[i].Started? && Progress(s, i, d)
    ensures Progress(s', i, d)
  {
    var e := Cleaned(s.cleanup.value);
    LogGrows(s.log, e, i, |s.log|, d);
    if d in s.db && d !in s'.db && FinishedLater(s.log, i) {
      var m :| FinishedBy(s.log, i, m);
      assert FinishedBy(s'.log, i, m) && CleansUp(s'.log[|s.log|], d);
    }
  }

  lemma OldProgress(s: Runner, a: Action, s': Runner, i: int, d: string)
    requires DeviceInv(s) && Step(s, a, s') && s'.phase == Up && s.phase == Up
    requires 0 <= i < |s.log| && s.log[i].Started? && Progress(s, i, d)
    ensures |s.log| <= |s'.log| && s'.log[i] == s.log[i] && Progress(s', i, d)
  {
    if a.Finish? {
      FinishProgress(s, a.t, s', i, d);
    } else if a.Cleanup? {
      CleanupProgress(s, s', i, d);
    } else if a.Poll? || a.StartFresh? || a.StartRerun? {
      if |s'.log| > |s.log| {
        var e := s'.log[|s.log|];
        assert s'.log == s.log + [e];
        LogGrows(s.log, e, i, |s.log|, d);
      }
    }
  }

  lemma ProgressStep(s: Runner, a: Action, s': Runner)
    requires DeviceInv(s) && ProgressInv(s) && Step(s, a, s')
    ensures ProgressInv(s')
  {
    if s.phase == Up && s'.phase == Up {
      forall i, d | 0 <= i < |s'.log| && IsFreshStart(s'.log[i], d) ensures Progress(s', i, d) {
        if i < |s.log| {
          assert s'.log[i] == s.log[i];
          OldProgress(s, a, s', i, d);
        }
      }
    }
  }

  lemma PairStep(s: Runner, a: Action, s': Runner)
    requires DeviceInv(s) && ProgressInv(s) && PairInv(s.log) && Step(s, a, s')
    ensures PairInv(s'.log)
  {
    if s.phase == Up && s'.phase == Up && |s'.log| > |s.log| {
      var e, k := s'.log[|s.log|], |s.log|;
      assert s'.log == s.log + [e];
      forall i, j, d | 0 <= i < j < |s'.log| && IsFreshStart(s'.log[i], d) && IsFreshStart(s'.log[j], d)
        ensures Recovered(s'.log, i, j, d)
      {
        assert s'.log[i] == s.log[i];
        LogGrows(s.log, e, i, if j < k then j else k, d);
        if j == k {
          assert d !in s.db;
          assert Progress(s, i, d);
        } else {
          assert s'.log[j] == s.log[j];
        }
      }
    }
  }

  lemma PollStep(s: Runner, a: Action, s': Runner)
    requires DeviceInv(s) && PollInv(s) && Step(s, a, s')
    ensures PollInv(s')
  {
    if s.phase == Up && s'.phase == Up {
      CleanedStep(s, a, s');
      if a.Poll? {
        assert OpenPollAt(s'.log, |s'.log|, |s.log|);
      } else if a.Cleanup? {
        assert s'.log[|s.log|].Cleaned?;
      } else {
        assert forall q :: |s.log| <= q < |s'.log| ==> !s'.log[q].Polled? && !s'.log[q].Cleaned?;
        SameOpenPoll(s.log, s'.log);
      }
    }
  }

  lemma CleanedStep(s: Runner, a: Action, s': Runner)
    requires PollInv(s) && Step(s, a, s') && s.phase == Up && s'.phase == Up
    ensures s.log <= s'.log
    ensures forall n :: 0 <= n < |s'.log| && s'.log[n].Cleaned? ==> OpenPoll(s'.log, n, s'.log[n].healthy)
  {
    forall n | 0 <= n < |s'.log| && s'.log[n].Cleaned? ensures OpenPoll(s'.log, n, s'.log[n].healthy) {
      assert n < |s.log| ==> s'.log[n] == s.log[n];
      var p :| OpenPollAt(s.log, n, p) && s.log[p] == Polled(s'.log[n].healthy);
      assert OpenPollAt(s'.log, n, p);
    }
  }

  /** Appending neither polls nor cleanups leaves the open poll as it is. */
  lemma SameOpenPoll(log: seq<Event>, log': seq<Event>)
    requires log <= log' && forall q :: |log| <= q < |log'| ==> !log'[q].Polled? && !log'[q].Cleaned?
    ensures forall p :: OpenPollAt(log, |log|, p) ==> OpenPollAt(log', |log'|, p) && log'[p] == log[p]
    ensures forall p :: OpenPollAt(log', |log'|, p) ==> OpenPollAt(log, |log|, p) && log'[p] == log[p]
  {
  }

  lemma EndStep(s: Runner, a: Action, s': Runner)
    requires DeviceInv(s) && EndInv(s) && Step(s, a, s')
    ensures EndInv(s')
  {
  }

  ghost predicate Inv(s: Runner) {
    DeviceInv(s) && ProgressInv(s) && PairInv(s.log) && PollInv(s) && EndInv(s)
  }

  lemma {:induction false} InvOfRun(run: seq<Runner>, actions: seq<Action>)
    requires IsRun(run, actions)
    ensures forall i :: 0 <= i < |run| ==> Inv(run[i])
    decreases |actions|
  {
    if actions != [] {
      var n := |actions| - 1;
      InvOfRun(run[..n + 1], actions[..n]);
      var s, s' := run[n], run[n + 1];
      assert run[..n + 1][n] == s;
      DeviceStep(s, actions[n], s');
      ProgressStep(s, actions[n], s');
      PairStep(s, actions[n], s');
      PollStep(s, actions[n], s');
      EndStep(s, actions[n], s');
      forall i | 0 <= i < |run| ensures Inv(run[i]) {
        if i <= n { assert run[..n + 1][i] == run[i]; }
      }
    }
  }

  // ------------------------------------------------------------- guarantees within a process life

  /** In every run a device with a test in flight or a rerun pending is marked running. */
  lemma UnderTestIsRunning(run: seq<Runner>, actions: seq<Action>, i: nat, d: string)
    requires IsRun(run, actions) && i < |run|
    ensures (forall t :: t in run[i].tests && d in run[i].tests[t] ==> d in run[i].db && run[i].db[d] == Running)
    ensures run[i].rerun.Some? && d in run[i].rerun.value ==> d in run[i].db && run[i].db[d] == Running
  {
    InvOfRun(run, actions);
    assert Inv(run[i]);
  }

  /** No device ever has two tests in flight. */
  lemma OneTestPerDevice(run: seq<Runner>, actions: seq<Action>, i: nat, t: nat, u: nat, d: string)
    requires IsRun(run, actions) && i < |run| && t in run[i].tests && u in run[i].tests
    requires d in run[i].tests[t] && d in run[i].tests[u]
    ensures t == u
  {
    InvOfRun(run, actions);
    assert Inv(run[i]);
  }

  /** A cleanup erases no device that is under test or about to be rerun, even if a poll
      reported it healthy. */
  lemma CleanupSparesTests(run: seq<Runner>, actions: seq<Action>, i: nat, d: string)
    requires IsRun(run, actions) && i < |actions| && actions[i] == Cleanup
    requires (exists t :: t in run[i].tests && d in run[i].tests[t]) || (run[i].rerun.Some? && d in run[i].rerun.value)
    ensures d in run[i + 1].db && run[i + 1].db[d] == Running
  {
    UnderTestIsRunning(run, actions, i, d);
    assert Step(run[i], actions[i], run[i + 1]);
  }

  /** The update at the end of a test always finds a status map to write into, so the process
      does not end there; see StatusDb.StatusFile.UpdateAfterTestRun. */
  lemma FinishFindsStatus(run: seq<Runner>, actions: seq<Action>, i: nat)
    requires IsRun(run, actions) && i < |actions| && (actions[i].Finish? || actions[i].Signal?)
    ensures run[i].db != map[]
  {
    InvOfRun(run, actions);
    assert Inv(run[i]) && Step(run[i], actions[i], run[i + 1]);
    var ids := run[i].tests[actions[i].t];
    assert ids[0] in ids && ids[0] in run[i].db;
  }

  /** Between two fresh starts on the same device in one process life, the first test finished
      and afterwards a cleanup for a poll that had reported the device healthy took place. */
  lemma RetestNeedsRecovery(run: seq<Runner>, actions: seq<Action>, k: nat, i: nat, j: nat, d: string)
    returns (m: nat, n: nat)
    requires IsRun(run, actions) && k < |run| && i < j < |run[k].log|
    requires IsFreshStart(run[k].log[i], d) && IsFreshStart(run[k].log[j], d)
    ensures i < m < n < j && run[k].log[m] == Finished(run[k].log[i].test) && CleansUp(run[k].log[n], d)
    ensures OpenPoll(run[k].log, n, run[k].log[n].healthy)
  {
    assert Inv(run[k]) by { InvOfRun(run, actions); }
    m, n := RecoveryBetween(run[k], i, j, d);
  }

  lemma RecoveryBetween(s: Runner, i: nat, j: nat, d: string) returns (m: nat, n: nat)
    requires PairInv(s.log) && PollInv(s) && i < j < |s.log| && IsFreshStart(s.log[i], d) && IsFreshStart(s.log[j], d)
    ensures i < m < n < j && FinishedBy(s.log, i, m) && CleansUp(s.log[n], d)
    ensures OpenPoll(s.log, n, s.log[n].healthy)
  {
    var log := s.log;
    assert Recovered(log, i, j, d);
    m, n :| FinishedBy(log, i, m) && m < n < j && n < |log| && CleansUp(log[n], d);
    assert log[n].Cleaned?;
  }

  // ------------------------------------------------------------- when the healthy poll follows the end

  predicate HealthyPollBetween(log: seq<Event>, m: int, j: int, d: string) {
    exists p :: 0 <= m < p < j <= |log| && log[p].Polled? && d in log[p].healthy
  }

  /** When the event at position m happens, a poll that reported the device healthy has not been
      cleaned up yet. */
  ghost predicate Pending(log: seq<Event>, m: int, d: string) {
    exists p :: OpenPollAt(log, m, p) && d in log[p].healthy
  }

  lemma HealthyPollFollows(log: seq<Event>, m: nat, n: nat, d: string)
    requires m < n < |log| && !log[m].Polled? && CleansUp(log[n], d) && OpenPoll(log, n, log[n].healthy)
    requires !Pending(log, m, d)
    ensures HealthyPollBetween(log, m, n, d)
  {
    var p :| OpenPollAt(log, n, p) && log[p] == Polled(log[n].healthy);
    assert p < m ==> OpenPollAt(log, m, p);
  }

  /** If no cleanup for the device is pending when its test ends, every later fresh start on it
      is preceded by a poll that reports it healthy after that end. */
  lemma RetestNeedsHealthyPoll(s: Runner, i: nat, m: nat, j: nat, d: string)
    requires Inv(s) && i < m < j < |s.log| && s.log[i].Started? && s.log[m] == Finished(s.log[i].test)
    requires IsFreshStart(s.log[i], d) && IsFreshStart(s.log[j], d) && !Pending(s.log, m, d)
    ensures HealthyPollBetween(s.log, m, j, d)
  {
    var m', n := RecoveryBetween(s, i, j, d);
    assert m' == m;
    HealthyPollFollows(s.log, m, n, d);
    var p :| 0 <= m < p < n <= |s.log| && s.log[p].Polled? && d in s.log[p].healthy;
  }

  ghost predicate Reachable(s: Runner) {
    exists run, actions :: IsRun(run, actions) && run[|actions|] == s
  }

  lemma ReachStep(s: Runner, a: Action, s': Runner)
    requires Reachable(s) && Step(s, a, s')
    ensures Reachable(s')
  {
    var run, actions :| IsRun(run, actions) && run[|actions|] == s;
    var run', actions' := run + [s'], actions + [a];
    assert IsRun(run', actions') && run'[|actions'|] == s';
  }

  lemma ReachableInv(s: Runner)
    requires Reachable(s)
    ensures Inv(s)
  {
    var run, actions :| IsRun(run, actions) && run[|actions|] == s;
    InvOfRun(run, actions);
  }

  /** Test t of device d, started fresh at position i, is in flight. */
  ghost predicate InFlight(s: Runner, i: nat, t: nat, d: string) {
    s.phase == Up && i < |s.log| && IsFreshStart(s.log[i], d) && s.log[i].test == t && t in s.tests && d in s.tests[t]
  }

  /** A reachable history that continues the given one and starts the device afresh at j. */
  ghost predicate Retest(before: seq<Event>, s: Runner, j: nat, d: string) {
    Reachable(s) && before <= s.log && |before| <= j < |s.log| && IsFreshStart(s.log[j], d)
  }

  /** After the test of a device in state s has ended, no fresh start on the device comes without
      a poll that reports it healthy in between. */
  ghost predicate EveryRetestFollowsHealthyPoll(s: Runner, t: nat, d: string) {
    forall s', j: nat :: Retest(s.log + [Finished(t)], s', j, d) ==> HealthyPollBetween(s'.log, |s.log|, j, d)
  }

  lemma EndThenCleanup(s: Runner, t: nat, d: string) returns (s': Runner)
    requires Reachable(s) && s.phase == Up && t in s.tests && d in s.tests[t] && s.cleanup.Some? && d in s.cleanup.value
    ensures Reachable(s') && s'.phase == Up && s'.cleanup == None && d !in s'.db
    ensures s'.log == s.log + [Finished(t)] + [Cleaned(s.cleanup.value)]
  {
    var h := s.cleanup.value;
    var s1 := s.(db := MarkAll(s.db, s.tests[t], Completed), tests := s.tests - {t}, log := s.log + [Finished(t)]);
    ReachStep(s, Finish(t), s1);
    s' := s1.(db := CleanedUp(s1.db, h), cleanup := None, log := s1.log + [Cleaned(h)]);
    ReachStep(s1, Cleanup, s');
  }

  lemma OneValid(db: Statuses, d: string)
    requires d !in db
    ensures ValidIds(db, [d], false) == [d]
  {
    assert [d][..0] == [] && Select(db, [], false) == [];
    assert Select(db, [d], false) == [] + [d];
  }

  lemma StartsLast(s: Runner, earlier: seq<seq<string>>, d: string)
    requires Reachable(s) && s.phase == Up && s.waiting == earlier + [[d]] && d !in s.db
    ensures Reachable(WithTest(s.(waiting := earlier), [d], false))
  {
    var k := |earlier|;
    OneValid(s.db, d);
    assert s.waiting[..k] + s.waiting[k + 1..] == earlier;
    ReachStep(s, StartFresh(k), WithTest(s.(waiting := earlier), [d], false));
  }

  lemma PollAndStart(s: Runner, d: string) returns (s': Runner)
    requires Reachable(s) && s.phase == Up && s.cleanup == None && d !in s.db
    ensures Reachable(s') && s'.log == s.log + [Polled([])] + [Started(s.next, [d], false)]
    ensures s'.phase == Up && s'.cleanup == Some([]) && s.next in s'.tests && s'.tests[s.next] == [d]
  {
    var s1 := s.(cleanup := Some([]), log := s.log + [Polled([])], waiting := s.waiting + [[d]]);
    ReachStep(s, Poll([], [d]), s1);
    StartsLast(s1, s.waiting, d);
    s' := WithTest(s1.(waiting := s.waiting), [d], false);
  }

  lemma RetestWhileCleanupPending(s: Runner, t: nat, d: string) returns (s': Runner, j: nat)
    requires Reachable(s) && s.phase == Up && t in s.tests && d in s.tests[t] && s.cleanup.Some? && d in s.cleanup.value
    ensures Retest(s.log + [Finished(t)], s', j, d) && !HealthyPollBetween(s'.log, |s.log|, j, d)
  {
    var s2 := EndThenCleanup(s, t, d);
    s' := PollAndStart(s2, d);
    j := |s.log| + 3;
    assert s'.log == s.log + [Finished(t), Cleaned(s.cleanup.value), Polled([]), Started(s2.next, [d], false)];
  }

  /** Exactly when the documented order holds: from the end of a test on, every retest of the
      device follows a poll that reports it healthy, if and only if at that end no cleanup that
      lists the device is pending. */
  lemma HealthyPollIff(s: Runner, i: nat, t: nat, d: string)
    requires Reachable(s) && InFlight(s, i, t, d)
    ensures EveryRetestFollowsHealthyPoll(s, t, d) <==> !(s.cleanup.Some? && d in s.cleanup.value)
  {
    if s.cleanup.Some? && d in s.cleanup.value {
      var s', j := RetestWhileCleanupPending(s, t, d);
    } else {
      forall s', j: nat | Retest(s.log + [Finished(t)], s', j, d) ensures HealthyPollBetween(s'.log, |s.log|, j, d) {
        NotPendingLater(s, t, s', d);
        ReachableInv(s');
        assert s'.log[i] == s.log[i] && s'.log[|s.log|] == Finished(t);
        RetestNeedsHealthyPoll(s', i, |s.log|, j, d);
      }
    }
  }

  lemma NotPendingLater(s: Runner, t: nat, s': Runner, d: string)
    requires Reachable(s) && s.log + [Finished(t)] <= s'.log && !(s.cleanup.Some? && d in s.cleanup.value)
    ensures !Pending(s'.log, |s.log|, d)
  {
    assert PollInv(s) by { ReachableInv(s); }
    assert forall q :: 0 <= q < |s.log| ==> s'.log[q] == s.log[q];
    assert forall p :: OpenPollAt(s'.log, |s.log|, p) ==> OpenPollAt(s.log, |s.log|, p);
  }

  /** That case occurs: a device can be reported healthy while its test is still running, and the
      cleanup of that poll can come after the end of the test. */
  lemma HealthyPollMayPrecedeEnd() returns (s: Runner, i: nat, t: nat, s': Runner, j: nat)
    ensures Reachable(s) && InFlight(s, i, t, "0") && s.cleanup == Some(["0"])
    ensures Retest(s.log + [Finished(t)], s', j, "0") && !HealthyPollBetween(s'.log, |s.log|, j, "0")
  {
    UpIsReachable();
    var s1 := PollAndStart(Fresh(map[], Up), "0");
    assert Fresh(map[], Up).log + [Polled([])] + [Started(0, ["0"], false)] == [Polled([]), Started(0, ["0"], false)];
    var s2 := s1.(db := CleanedUp(s1.db, []), cleanup := None, log := s1.log + [Cleaned([])]);
    ReachStep(s1, Cleanup, s2);
    s := s2.(cleanup := Some(["0"]), log := s2.log + [Polled(["0"])]);
    assert s2.waiting + [] == s2.waiting;
    ReachStep(s2, Poll(["0"], []), s);
    i, t := 1, 0;
    s', j := RetestWhileCleanupPending(s, t, "0");
  }

  lemma UpIsReachable()
    ensures Reachable(Fresh(map[], Up))
  {
    var maps, none: Statuses := IdMaps(map[], map[]), map[];
    var s0, s1, s2 := Fresh(none, Down), Fresh(none, Booted(maps)), Fresh(none, Up);
    var run, actions: seq<Action> := [s0], [];
    assert IsRun(run, actions) && run[|actions|] == s0;
    ReachStep(s0, Boot(maps, []), s1);
    assert Swept(maps, none) == none && RunningOf(none) == {};
    ReachStep(s1, Watch([]), s2);
  }

  // ------------------------------------------------------------- every reported device is tried

  predicate Stops(a: Action) {
    a.Crash? || a.Signal?
  }

  /** The device is on the list of a goroutine that has not reached the database yet. */
  ghost predicate Waits(s: Runner, d: string) {
    exists w :: 0 <= w < |s.waiting| && d in s.waiting[w]
  }

  /** The step puts the device under a new test. */
  ghost predicate StartsTestOf(s: Runner, s': Runner, d: string) {
    s.next in s'.tests && d in s'.tests[s.next] && d in s'.db && s'.db[d] == Running
  }

  /** A goroutine that has the device on its list reaches the database: the device has an entry
      already or is tested. */
  ghost predicate Tried(s: Runner, a: Action, s': Runner, d: string) {
    a.StartFresh? && a.k < |s.waiting| && d in s.waiting[a.k] && (d in s.db || StartsTestOf(s, s', d))
  }

  lemma WaitStep(s: Runner, a: Action, s': Runner, d: string)
    requires s.phase == Up && Waits(s, d) && Step(s, a, s') && !Stops(a)
    ensures s'.phase == Up && (Waits(s', d) || Tried(s, a, s', d))
  {
    var w :| 0 <= w < |s.waiting| && d in s.waiting[w];
    if a.StartFresh? {
      if w < a.k {
        assert s'.waiting[w] == s.waiting[w];
      } else if w > a.k {
        assert s'.waiting[w - 1] == s.waiting[w];
      }
    } else {
      assert s'.waiting[w] == s.waiting[w];
    }
  }

  /** A test keeps its devices until it finishes, unless the process stops first. */
  lemma {:induction false} TestLastsUntilFinish(run: seq<Runner>, actions: seq<Action>, i: nat, k: nat, t: nat)
    requires IsRun(run, actions) && i <= k < |run| && t in run[i].tests
    requires forall m :: i <= m < k ==> !Stops(actions[m]) && actions[m] != Finish(t)
    ensures run[k].phase == Up && t in run[k].tests && run[k].tests[t] == run[i].tests[t]
  {
    assert Inv(run[i]) by { InvOfRun(run, actions); }
    if i < k {
      TestLastsUntilFinish(run, actions, i, k - 1, t);
      assert Inv(run[k - 1]) by { InvOfRun(run, actions); }
      assert Step(run[k - 1], actions[k - 1], run[k]) && !Stops(actions[k - 1]) && actions[k - 1] != Finish(t);
    }
  }

  /** In every run a device that a poll reports unhealthy stays on the list of a goroutine until
      that goroutine finds an entry for it or tests it, unless the process stops first. */
  lemma {:induction false} UnhealthyDeviceIsTried(run: seq<Runner>, actions: seq<Action>, i: nat, k: nat, d: string)
    requires IsRun(run, actions) && i < k < |run| && actions[i].Poll? && d in actions[i].unhealthy
    requires forall m :: i < m < k ==> !Stops(actions[m])
    ensures run[k].phase == Up
    ensures Waits(run[k], d) || exists j :: i < j < k && Tried(run[j], actions[j], run[j + 1], d)
  {
    var s, a := run[k - 1], actions[k - 1];
    assert Step(s, a, run[k]);
    if i == k - 1 {
      assert run[k].waiting[|s.waiting|] == a.unhealthy;
    } else {
      UnhealthyDeviceIsTried(run, actions, i, k - 1, d);
      if Waits(s, d) {
        WaitStep(s, a, run[k], d);
      } else {
        assert s.phase == Up && !Stops(a);
      }
    }
  }

  ghost predicate Reported(actions: seq<Action>, k: nat, d: string)
    requires k <= |actions|
  {
    exists i :: 0 <= i < k && actions[i].Poll? && d in actions[i].unhealthy
  }

  lemma {:induction false} WaitingWasReported(run: seq<Runner>, actions: seq<Action>, k: nat, d: string)
    requires IsRun(run, actions) && k < |run| && Waits(run[k], d)
    ensures Reported(actions, k, d)
  {
    if k > 0 {
      var s, a, s' := run[k - 1], actions[k - 1], run[k];
      assert Step(s, a, s');
      var w :| 0 <= w < |s'.waiting| && d in s'.waiting[w];
      if a.Poll? && w == |s.waiting| {
        assert d in a.unhealthy;
      } else {
        assert exists v :: 0 <= v < |s.waiting| && s.waiting[v] == s'.waiting[w] by {
          var v := if a.StartFresh? && w >= a.k then w + 1 else w;
          assert s.waiting[v] == s'.waiting[w];
        }
        WaitingWasReported(run, actions, k - 1, d);
      }
    }
  }

  /** A fresh test covers only devices that a poll reported unhealthy and that had no entry. */
  lemma FreshTestWasReported(run: seq<Runner>, actions: seq<Action>, k: nat, d: string)
    requires IsRun(run, actions) && k < |actions| && actions[k].StartFresh?
    requires run[k].next in run[k + 1].tests && d in run[k + 1].tests[run[k].next]
    ensures Reported(actions, k, d) && d !in run[k].db
  {
    var s, a := run[k], actions[k];
    assert Inv(s) by { InvOfRun(run, actions); }
    assert Step(s, a, run[k + 1]);
    assert d in s.waiting[a.k] && d !in s.db;
    WaitingWasReported(run, actions, k, d);
  }

  // ------------------------------------------------------------- guarantees across a restart

  /** A restart reruns exactly the interrupted tests of the devices that are still known, and
      its sweep for unknown devices finds nothing to remove. */
  lemma RestartReruns(run: seq<Runner>, actions: seq<Action>, i: nat)
    requires IsRun(run, actions) && i + 1 < |actions| && actions[i].Boot? && actions[i + 1].Watch?
    requires NoMixedCollision(actions[i].maps, run[i].db)
    ensures forall x :: x in actions[i + 1].ids <==> x in Interrupted(actions[i].maps, run[i].db)
    ensures run[i + 2].db == run[i + 1].db
    ensures run[i + 2].rerun == if actions[i + 1].ids == [] then None else Some(actions[i + 1].ids)
  {
    var maps, order, db := actions[i].maps, actions[i].order, run[i].db;
    assert Step(run[i], actions[i], run[i + 1]) && Step(run[i + 1], actions[i + 1], run[i + 2]);
    MigratedKeysAreIndices(maps, db, order);
    RerunsInterrupted(maps, db, order);
    assert Swept(maps, run[i + 1].db) == run[i + 1].db;
  }

  /** No interrupted test is lost: a device under test, or waiting to be rerun, when the process
      stops is rerun after the restart under the index it then has. */
  lemma InterruptedTestIsRerun(run: seq<Runner>, actions: seq<Action>, i: nat, d: string)
    requires IsRun(run, actions) && i + 2 < |actions|
    requires (actions[i] == Crash || actions[i].Signal?) && actions[i + 1].Boot? && actions[i + 2].Watch?
    requires NoMixedCollision(actions[i + 1].maps, run[i + 1].db)
    requires (exists t :: t in run[i].tests && d in run[i].tests[t]) || (run[i].rerun.Some? && d in run[i].rerun.value)
    requires Resolve(actions[i + 1].maps, d).Some?
    ensures Resolve(actions[i + 1].maps, d).value in actions[i + 2].ids
  {
    UnderTestIsRunning(run, actions, i, d);
    assert Step(run[i], actions[i], run[i + 1]);
    assert d in run[i + 1].db && run[i + 1].db[d] == Running;
    RestartReruns(run, actions, i + 1);
    assert Resolve(actions[i + 1].maps, d).value in Interrupted(actions[i + 1].maps, run[i + 1].db);
  }

  /** The same on the listing the new process reads: the device is rerun under its own index, or
      under the index of the last entry listed with it as KFD ID. */
  lemma RerunUnderListedIndex(run: seq<Runner>, actions: seq<Action>, i: nat, d: string,
                              listing: seq<(string, string)>, index: string)
    requires IsRun(run, actions) && i + 2 < |actions|
    requires (actions[i] == Crash || actions[i].Signal?) && actions[i + 1].Boot? && actions[i + 2].Watch?
    requires actions[i + 1].maps == ListedMaps(NO_MAPS, listing) && NoMixedCollision(actions[i + 1].maps, run[i + 1].db)
    requires (exists t :: t in run[i].tests && d in run[i].tests[t]) || (run[i].rerun.Some? && d in run[i].rerun.value)
    requires StandsFor(listing, d, index)
    ensures index in actions[i + 2].ids
  {
    ResolveMeans(listing, d, index);
    InterruptedTestIsRerun(run, actions, i, d);
  }

  ghost predicate ToRerun(s: Runner, d: string) {
    s.rerun.Some? && d in s.rerun.value
  }

  lemma RerunStep(s: Runner, a: Action, s': Runner, d: string)
    requires s.phase == Up && ToRerun(s, d) && Step(s, a, s') && !Stops(a)
    ensures s'.phase == Up && (ToRerun(s', d) || (a.StartRerun? && StartsTestOf(s, s', d)))
  {
  }

  /** Every collected device stays to be rerun until one step puts it under test again, unless
      the process stops first. */
  lemma {:induction false} CollectedDeviceIsTested(run: seq<Runner>, actions: seq<Action>, i: nat, k: nat, d: string)
    requires IsRun(run, actions) && i < k < |run| && actions[i].Watch? && d in actions[i].ids
    requires forall m :: i < m < k ==> !Stops(actions[m])
    ensures run[k].phase == Up
    ensures ToRerun(run[k], d) ||
            exists j :: i < j < k && actions[j].StartRerun? && StartsTestOf(run[j], run[j + 1], d)
  {
    var s, a := run[k - 1], actions[k - 1];
    assert Step(s, a, run[k]);
    if i < k - 1 {
      CollectedDeviceIsTested(run, actions, i, k - 1, d);
      if ToRerun(s, d) {
        RerunStep(s, a, run[k], d);
      } else {
        assert s.phase == Up && !Stops(a);
      }
    }
  }
}
