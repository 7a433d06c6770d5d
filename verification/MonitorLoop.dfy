/** The health poll loop and its exit on repeated agent failures
    (pkg/amdgpu/gpuagent/gpuagent.go, StartMonitor). */
module MonitorLoop {
  import opened Wrappers

  const MAX_CONSECUTIVE_FAILURES: nat := 3

  datatype Config = Config(exitOnAgentDown: bool, enableGpuMonitoring: bool, exitOnRocpctlError: bool)

  datatype ValidationError = ErrAgentUnreachable | ErrZeroGpus | OtherError

  /** What one poll tick meets: whether the clients were active, whether a reconnect would
      succeed, the result of the health validation, and whether the profiler is disabled. */
  datatype Tick = Tick(active: bool, reconnectOk: bool, validation: Option<ValidationError>, profilerDisabled: bool)

  datatype Reason = AgentUnreachable | HealthValidationFailed | ZeroGpusDetected | RocpctlFatalExit

  datatype Exit = Exit(tick: nat, reason: Reason)

  predicate IsRestartable(err: ValidationError) {
    err == ErrAgentUnreachable || err == ErrZeroGpus
  }

  // ------------------------------------------------------------- specification

  predicate ConnectionFails(t: Tick) {
    !t.active && !t.reconnectOk
  }

  /** A tick counts as an agent failure: no connection, or a restartable validation error. */
  predicate AgentFails(cfg: Config, t: Tick) {
    ConnectionFails(t) || (cfg.enableGpuMonitoring && t.validation.Some? && IsRestartable(t.validation.value))
  }

  /** Length of the run of agent failures that ends the first n ticks. */
  function Streak(cfg: Config, ticks: seq<Tick>, n: nat): (k: nat)
    requires n <= |ticks|
    ensures k <= n
  {
    if n == 0 || !AgentFails(cfg, ticks[n - 1]) then 0 else 1 + Streak(cfg, ticks, n - 1)
  }

  /** The last k of the first n ticks all failed and the tick before them, if any, did not. */
  ghost predicate EndsWithFailures(cfg: Config, ticks: seq<Tick>, n: nat, k: nat)
    requires n <= |ticks|
  {
    && k <= n
    && (forall i :: n - k <= i < n ==> AgentFails(cfg, ticks[i]))
    && (k < n ==> !AgentFails(cfg, ticks[n - k - 1]))
  }

  lemma {:induction false} StreakIsSuffix(cfg: Config, ticks: seq<Tick>, n: nat, k: nat)
    requires n <= |ticks|
    ensures Streak(cfg, ticks, n) == k <==> EndsWithFailures(cfg, ticks, n, k)
  {
    if n > 0 {
      if AgentFails(cfg, ticks[n - 1]) {
        if k > 0 {
          StreakIsSuffix(cfg, ticks, n - 1, k - 1);
        }
      } else {
        var last := ticks[n - 1];
        assert EndsWithFailures(cfg, ticks, n, k) && k > 0 ==> AgentFails(cfg, last);
      }
    }
  }

  /** Three agent failures in a row end at tick i, and the exit is switched on. */
  predicate AgentExitAt(cfg: Config, ticks: seq<Tick>, i: nat)
    requires i < |ticks|
  {
    cfg.exitOnAgentDown && i >= 2 &&
    AgentFails(cfg, ticks[i - 2]) && AgentFails(cfg, ticks[i - 1]) && AgentFails(cfg, ticks[i])
  }

  predicate ProfilerExitAt(cfg: Config, ticks: seq<Tick>, i: nat)
    requires i < |ticks|
  {
    cfg.exitOnRocpctlError && cfg.enableGpuMonitoring && !AgentFails(cfg, ticks[i]) && ticks[i].profilerDisabled
  }

  function AgentReason(t: Tick): Reason {
    if ConnectionFails(t) then AgentUnreachable
    else if t.validation == Some(ErrZeroGpus) then ZeroGpusDetected
    else HealthValidationFailed
  }

  predicate ExitsAt(cfg: Config, ticks: seq<Tick>, i: nat)
    requires i < |ticks|
  {
    AgentExitAt(cfg, ticks, i) || ProfilerExitAt(cfg, ticks, i)
  }

  lemma StreakReachesThree(cfg: Config, ticks: seq<Tick>, i: nat)
    requires i < |ticks|
    ensures AgentExitAt(cfg, ticks, i) <==> cfg.exitOnAgentDown && Streak(cfg, ticks, i + 1) >= MAX_CONSECUTIVE_FAILURES
  {
    var k := Streak(cfg, ticks, i + 1);
    StreakIsSuffix(cfg, ticks, i + 1, k);
    if k < MAX_CONSECUTIVE_FAILURES && k < i + 1 {
      assert !AgentFails(cfg, ticks[i - k]);
    }
  }

  // ------------------------------------------------------------- the loop

  /** One tick: the new failure count and the exit it causes, if any. */
  method PollTick(cfg: Config, t: Tick, failures: nat) returns (failures': nat, exit: Option<Reason>)
    ensures failures' == if AgentFails(cfg, t) then failures + 1 else 0
    ensures !t.active && !t.reconnectOk ==> failures' == failures + 1
    ensures (t.active || t.reconnectOk) && cfg.enableGpuMonitoring &&
            (t.validation == Some(ErrZeroGpus) || t.validation == Some(ErrAgentUnreachable)) ==>
              failures' == failures + 1
    ensures (t.active || t.reconnectOk) && (!cfg.enableGpuMonitoring || t.validation in {None, Some(OtherError)}) ==>
              failures' == 0
    ensures cfg.exitOnAgentDown && failures >= 2 && !t.active && !t.reconnectOk ==> exit == Some(AgentUnreachable)
    ensures cfg.exitOnAgentDown && failures >= 2 && (t.active || t.reconnectOk) && cfg.enableGpuMonitoring ==>
              && (t.validation == Some(ErrZeroGpus) ==> exit == Some(ZeroGpusDetected))
              && (t.validation == Some(ErrAgentUnreachable) ==> exit == Some(HealthValidationFailed))
    ensures AgentFails(cfg, t) ==>
              exit == if cfg.exitOnAgentDown && failures + 1 >= MAX_CONSECUTIVE_FAILURES
                      then Some(AgentReason(t)) else None
    ensures !AgentFails(cfg, t) ==>
              exit == if cfg.exitOnRocpctlError && cfg.enableGpuMonitoring && t.profilerDisabled
                      then Some(RocpctlFatalExit) else None
  {
    failures', exit := failures, None;
    if !t.active {
      if !t.reconnectOk {
        failures' := failures' + 1;
        if cfg.exitOnAgentDown && failures' >= MAX_CONSECUTIVE_FAILURES {
          exit := Some(AgentUnreachable);
        }
        return;
      }
    }
    if cfg.enableGpuMonitoring {
      if t.validation.Some? {
        if IsRestartable(t.validation.value) {
          failures' := failures' + 1;
          if cfg.exitOnAgentDown && failures' >= MAX_CONSECUTIVE_FAILURES {
            var reason := HealthValidationFailed;
            if t.validation.value == ErrZeroGpus {
              reason := ZeroGpusDetected;
            }
            exit := Some(reason);
          }
          return;
        }
      }
    }
    failures' := 0;
    if cfg.exitOnRocpctlError && cfg.enableGpuMonitoring {
      if t.profilerDisabled {
        exit := Some(RocpctlFatalExit);
      }
    }
  }

  /** StartMonitor over any finite sequence of ticks: the process exits at the first tick that
      ends three agent failures in a row (with the exit switched on) or meets a disabled
      profiler (with that exit switched on), and at no other; the failure count is the length
      of the current run of agent failures and never passes three while that exit is on. */
  method Monitor(cfg: Config, ticks: seq<Tick>) returns (exit: Option<Exit>, polled: nat, failures: nat)
    ensures polled <= |ticks| && failures == Streak(cfg, ticks, polled)
    ensures cfg.exitOnAgentDown ==> failures <= MAX_CONSECUTIVE_FAILURES
    ensures cfg.exitOnAgentDown && exit.None? ==> failures < MAX_CONSECUTIVE_FAILURES
    ensures exit.None? ==> polled == |ticks| && forall i :: 0 <= i < |ticks| ==> !ExitsAt(cfg, ticks, i)
    ensures exit.Some? ==>
              && polled == exit.value.tick + 1 && ExitsAt(cfg, ticks, exit.value.tick)
              && (forall i :: 0 <= i < exit.value.tick ==> !ExitsAt(cfg, ticks, i))
              && exit.value.reason == (if AgentExitAt(cfg, ticks, exit.value.tick)
                                       then AgentReason(ticks[exit.value.tick]) else RocpctlFatalExit)
  {
    exit, polled, failures := None, 0, 0;
    while polled < |ticks|
      invariant polled <= |ticks| && failures == Streak(cfg, ticks, polled)
      invariant cfg.exitOnAgentDown ==> failures < MAX_CONSECUTIVE_FAILURES
      invariant forall i :: 0 <= i < polled ==> !ExitsAt(cfg, ticks, i)
    {
      var reason;
      StreakReachesThree(cfg, ticks, polled);
      failures, reason := PollTick(cfg, ticks[polled], failures);
      polled := polled + 1;
      if reason.Some? {
        exit := Some(Exit(polled - 1, reason.value));
        return;
      }
    }
  }

  /** A tick with a non-restartable validation error, like a successful one, ends the run. */
  lemma OtherErrorBreaksStreak(cfg: Config, ticks: seq<Tick>, n: nat, m: nat)
    requires n < m <= |ticks| && !ConnectionFails(ticks[n])
    requires ticks[n].validation == None || ticks[n].validation == Some(OtherError)
    ensures Streak(cfg, ticks, n + 1) == 0 && Streak(cfg, ticks, m) < m - n
  {
    var k := Streak(cfg, ticks, m);
    StreakIsSuffix(cfg, ticks, m, k);
    assert k >= m - n ==> AgentFails(cfg, ticks[n]);
  }
}
