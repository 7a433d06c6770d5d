/** The worker pool that queries the GPUs of a node in parallel
    (pkg/amdgpu/gpuagent/worker.go, NewWokerRequest).

    One sender puts a job per GPU into a bounded channel, the workers take jobs from it and
    write the response of job i into result slot i. A failed query ends its worker and
    cancels the context the other workers look at. Every step of every goroutine is a step
    here, in any order. */
module WorkerPool {
  import opened Wrappers

  const MAX_WORKERS: nat := 5
  const MAX_JOB_QUEUE: nat := 16

  type GpuId = seq<nat>

  /** One worker per core and GPU, at most five. */
  function TotalWorkers(numCores: nat, gpus: nat): (w: nat)
    ensures w <= numCores && w <= gpus && w <= 5 && (w == numCores || w == gpus || w == 5)
  {
    var w := if numCores < MAX_WORKERS then numCores else MAX_WORKERS;
    if gpus < w then gpus else w
  }

  /** A response carries the request it answers. */
  datatype Response = Response(request: GpuId, payload: int)

  /** Working: job taken, context not yet looked at. Calling: query under way. Failed: the
      worker returned the error of its last job. Exited: it left the drained closed channel. */
  datatype Worker = Idle | Working(job: nat) | Calling(job: nat) | Failed(job: nat) | Exited

  predicate HasJob(w: Worker) {
    w.Working? || w.Calling? || w.Failed?
  }

  predicate Holds(w: Worker, j: nat) {
    HasJob(w) && w.job == j
  }

  /** The pool; taken counts the jobs received from the channel, writes the stores into each
      result slot, and parentCancelled tells whether the caller's context was cancelled. */
  datatype Pool = Pool(
    sent: nat,
    taken: nat,
    queue: seq<nat>,
    closed: bool,
    workers: seq<Worker>,
    results: seq<Option<Response>>,
    writes: seq<nat>,
    failed: bool,
    parentCancelled: bool)

  datatype Params = Params(ids: seq<GpuId>, numCores: nat) {
    function Jobs(): nat { |ids| }
    function Workers(): nat { TotalWorkers(numCores, |ids|) }
  }

  function Start(p: Params): Pool {
    Pool(0, 0, [], false, seq(p.Workers(), i => Idle), seq(p.Jobs(), i => None), seq(p.Jobs(), i => 0), false, false)
  }

  datatype Action =
    | Send | Close | ParentCancel
    | Take(w: nat) | Look(w: nat) | Answer(w: nat, payload: int) | Fail(w: nat) | Leave(w: nat)

  predicate Cancelled(s: Pool) {
    s.failed || s.parentCancelled
  }

  ghost predicate Step(p: Params, s: Pool, a: Action, s': Pool) {
    match a
    case Send =>
      s.sent < p.Jobs() && |s.queue| < MAX_JOB_QUEUE &&
      s' == s.(queue := s.queue + [s.sent], sent := s.sent + 1)
    case Close =>
      s.sent == p.Jobs() && !s.closed && s' == s.(closed := true)
    case ParentCancel =>
      s' == s.(parentCancelled := true)
    case Take(w) =>
      w < |s.workers| && s.workers[w] == Idle && s.queue != [] &&
      s' == s.(workers := s.workers[w := Working(s.queue[0])], queue := s.queue[1..], taken := s.taken + 1)
    case Look(w) =>
      w < |s.workers| && s.workers[w].Working? &&
      s' == s.(workers := s.workers[w := if Cancelled(s) then Idle else Calling(s.workers[w].job)])
    case Answer(w, payload) =>
      w < |s.workers| && s.workers[w].Calling? &&
      var j := s.workers[w].job;
      j < |p.ids| && j < |s.results| && j < |s.writes| &&
      s' == s.(workers := s.workers[w := Idle], results := s.results[j := Some(Response(p.ids[j], payload))],
               writes := s.writes[j := s.writes[j] + 1])
    case Fail(w) =>
      w < |s.workers| && s.workers[w].Calling? &&
      s' == s.(workers := s.workers[w := Failed(s.workers[w].job)], failed := true)
    case Leave(w) =>
      w < |s.workers| && s.workers[w] == Idle && s.queue == [] && s.closed &&
      s' == s.(workers := s.workers[w := Exited])
  }

  ghost predicate IsRun(p: Params, run: seq<Pool>, actions: seq<Action>) {
    && |run| == |actions| + 1 && run[0] == Start(p)
    && forall i {:trigger actions[i]} :: 0 <= i < |actions| ==> Step(p, run[i], actions[i], run[i + 1])
  }

  ghost predicate Reachable(p: Params, s: Pool) {
    exists run, actions :: IsRun(p, run, actions) && run[|actions|] == s
  }

  // ------------------------------------------------------------- the invariant

  /** The channel holds the jobs sent and not yet taken, in order. */
  ghost predicate ChannelInv(p: Params, s: Pool) {
    && s.taken <= s.sent <= p.Jobs() && s.sent - s.taken <= MAX_JOB_QUEUE
    && s.queue == seq(s.sent - s.taken, i => s.taken + i)
    && (s.closed ==> s.sent == p.Jobs())
  }

  /** No job is held by two workers, and every held job was taken from the channel. */
  ghost predicate HoldInv(p: Params, s: Pool) {
    && |s.workers| == p.Workers()
    && DistinctJobs(s.workers, s.taken)
    && (s.failed <==> AnyFailed(s.workers))
    && (forall w :: 0 <= w < |s.workers| && s.workers[w] == Exited ==> s.closed && s.queue == [])
  }

  predicate DistinctJobs(ws: seq<Worker>, taken: nat) {
    && (forall w :: 0 <= w < |ws| && HasJob(ws[w]) ==> ws[w].job < taken)
    && (forall v, w :: 0 <= v < w < |ws| && HasJob(ws[v]) && HasJob(ws[w]) ==> ws[v].job != ws[w].job)
  }

  predicate AnyFailed(ws: seq<Worker>) {
    exists w :: 0 <= w < |ws| && ws[w].Failed?
  }

  /** A slot is written at most once, with the response to its own request, by a worker that
      has let go of the job. */
  ghost predicate SlotInv(p: Params, s: Pool) {
    && |s.results| == |s.writes| == p.Jobs()
    && forall j :: 0 <= j < p.Jobs() ==>
         && s.writes[j] == (if s.results[j].Some? then 1 else 0)
         && (s.results[j].Some? ==> s.results[j].value.request == p.ids[j] && j < s.taken && !Held(s, j))
  }

  predicate Held(s: Pool, j: nat) {
    exists w :: 0 <= w < |s.workers| && Holds(s.workers[w], j)
  }

  /** Without a failure or cancellation every taken job is being worked on or answered. */
  ghost predicate CoverInv(p: Params, s: Pool)
    requires SlotInv(p, s)
  {
    !Cancelled(s) ==> forall j :: 0 <= j < s.taken && j < p.Jobs() ==> s.results[j].Some? || Held(s, j)
  }

  ghost predicate Inv(p: Params, s: Pool) {
    ChannelInv(p, s) && HoldInv(p, s) && SlotInv(p, s) && CoverInv(p, s)
  }

  lemma StartInv(p: Params)
    ensures Inv(p, Start(p))
  {
  }

  /** Which jobs are held after one worker changes. */
  lemma HeldAfter(s: Pool, s': Pool, w: nat, j: nat)
    requires w < |s.workers| == |s'.workers| && s'.workers == s.workers[w := s'.workers[w]]
    ensures Held(s', j) ==> Held(s, j) || Holds(s'.workers[w], j)
    ensures Held(s, j) && !Holds(s.workers[w], j) ==> Held(s', j)
    ensures Holds(s'.workers[w], j) ==> Held(s', j)
  {
    if v :| 0 <= v < |s.workers| && Holds(s.workers[v], j) && v != w {
      assert s'.workers[v] == s.workers[v];
    }
    if v :| 0 <= v < |s'.workers| && Holds(s'.workers[v], j) && v != w {
      assert s'.workers[v] == s.workers[v];
    }
  }

  lemma ChannelStep(p: Params, s: Pool, a: Action, s': Pool)
    requires Inv(p, s) && Step(p, s, a, s')
    ensures ChannelInv(p, s')
  {
  }

  /** A worker that keeps its job, drops it or takes the next one keeps the jobs distinct. */
  lemma WorkerChange(ws: seq<Worker>, w: nat, x: Worker, taken: nat, taken': nat)
    requires w < |ws| && DistinctJobs(ws, taken) && taken <= taken'
    requires HasJob(x) ==> (HasJob(ws[w]) && x.job == ws[w].job) || taken <= x.job < taken'
    ensures DistinctJobs(ws[w := x], taken')
    ensures !ws[w].Failed? ==> (AnyFailed(ws[w := x]) <==> AnyFailed(ws) || x.Failed?)
  {
    var ws' := ws[w := x];
    if v :| 0 <= v < |ws| && ws[v].Failed? && v != w {
      assert ws'[v].Failed?;
    }
    if x.Failed? {
      assert ws'[w].Failed?;
    }
  }

  lemma HoldStep(p: Params, s: Pool, a: Action, s': Pool)
    requires Inv(p, s) && Step(p, s, a, s')
    ensures HoldInv(p, s')
  {
    if a.Take? || a.Look? || a.Answer? || a.Fail? || a.Leave? {
      assert a.Take? ==> s.queue[0] == s.taken;
      WorkerChange(s.workers, a.w, s'.workers[a.w], s.taken, s'.taken);
    }
  }

  lemma SlotStep(p: Params, s: Pool, a: Action, s': Pool)
    requires Inv(p, s) && Step(p, s, a, s')
    ensures SlotInv(p, s')
  {
    if a.Answer? {
      AnswerStep(p, s, a, s');
    } else {
      forall j | 0 <= j < p.Jobs() && s.results[j].Some? ensures !Held(s', j) {
        if a.Take? || a.Look? || a.Fail? || a.Leave? {
          HeldAfter(s, s', a.w, j);
        }
      }
    }
  }

  lemma AnswerStep(p: Params, s: Pool, a: Action, s': Pool)
    requires Inv(p, s) && a.Answer? && Step(p, s, a, s')
    ensures SlotInv(p, s')
  {
    var k := s.workers[a.w].job;
    assert Holds(s.workers[a.w], k);
    assert Held(s, k) && s.results[k].None?;
    forall j | 0 <= j < p.Jobs() && s'.results[j].Some? ensures !Held(s', j) {
      HeldAfter(s, s', a.w, j);
      if j == k {
        assert forall v :: 0 <= v < |s'.workers| && v != a.w ==> s'.workers[v] == s.workers[v];
      }
    }
  }

  lemma CoverStep(p: Params, s: Pool, a: Action, s': Pool)
    requires Inv(p, s) && Step(p, s, a, s') && SlotInv(p, s')
    ensures CoverInv(p, s')
  {
    if !Cancelled(s') {
      forall j | 0 <= j < s'.taken && j < p.Jobs() ensures s'.results[j].Some? || Held(s', j) {
        if a.Take? || a.Look? || a.Answer? || a.Leave? {
          HeldAfter(s, s', a.w, j);
          assert a.Take? ==> s.queue[0] == s.taken;
        } else {
          assert s'.workers == s.workers;
        }
      }
    }
  }

  lemma {:induction false} InvOfRun(p: Params, run: seq<Pool>, actions: seq<Action>)
    requires IsRun(p, run, actions)
    ensures forall i :: 0 <= i < |run| ==> Inv(p, run[i])
    decreases |actions|
  {
    if actions == [] {
      StartInv(p);
    } else {
      var n := |actions| - 1;
      InvOfRun(p, run[..n + 1], actions[..n]);
      assert run[..n + 1][n] == run[n];
      ChannelStep(p, run[n], actions[n], run[n + 1]);
      HoldStep(p, run[n], actions[n], run[n + 1]);
      SlotStep(p, run[n], actions[n], run[n + 1]);
      CoverStep(p, run[n], actions[n], run[n + 1]);
      forall i | 0 <= i < |run| ensures Inv(p, run[i]) {
        if i <= n { assert run[..n + 1][i] == run[i]; }
      }
    }
  }

  lemma ReachableInv(p: Params, s: Pool)
    requires Reachable(p, s)
    ensures Inv(p, s)
  {
    var run, actions :| IsRun(p, run, actions) && run[|actions|] == s;
    InvOfRun(p, run, actions);
  }

  // ------------------------------------------------------------- safety

  /** Each result slot is written at most once and only with the answer to its own request. */
  lemma SlotsHoldOwnAnswers(p: Params, s: Pool, j: nat)
    requires Reachable(p, s) && j < p.Jobs()
    ensures |s.writes| == |s.results| == p.Jobs() && s.writes[j] <= 1
    ensures s.results[j].Some? <==> s.writes[j] == 1
    ensures s.results[j].Some? ==> s.results[j].value.request == p.ids[j]
  {
    ReachableInv(p, s);
  }

  lemma {:induction false} TakenGrows(p: Params, run: seq<Pool>, actions: seq<Action>, i: nat, k: nat)
    requires IsRun(p, run, actions) && i <= k < |run|
    ensures run[i].taken <= run[k].taken
  {
    if i < k {
      TakenGrows(p, run, actions, i, k - 1);
      assert Step(p, run[k - 1], actions[k - 1], run[k]);
    }
  }

  /** In every run no job is taken twice, by the same or by different workers. */
  lemma NoJobTakenTwice(p: Params, run: seq<Pool>, actions: seq<Action>, i: nat, k: nat)
    requires IsRun(p, run, actions) && i < k < |actions| && actions[i].Take? && actions[k].Take?
    ensures run[i].queue != [] && run[k].queue != [] && run[i].queue[0] != run[k].queue[0]
  {
    InvOfRun(p, run, actions);
    assert Step(p, run[i], actions[i], run[i + 1]) && Step(p, run[k], actions[k], run[k + 1]);
    assert Inv(p, run[i]) && Inv(p, run[k]);
    TakenGrows(p, run, actions, i + 1, k);
  }

  /** After a failure or a cancellation no query starts: whoever is in a query later was in that
      very query then. */
  lemma {:induction false} NoQueryAfterCancel(p: Params, run: seq<Pool>, actions: seq<Action>, i: nat, k: nat, w: nat)
    requires IsRun(p, run, actions) && i <= k < |run| && Cancelled(run[i])
    requires w < |run[k].workers| && run[k].workers[w].Calling?
    ensures Cancelled(run[k]) && w < |run[i].workers| && run[i].workers[w] == run[k].workers[w]
  {
    if i < k {
      StaysCancelled(p, run, actions, i, k - 1);
      CancelledStep(p, run[k - 1], actions[k - 1], run[k], w);
      NoQueryAfterCancel(p, run, actions, i, k - 1, w);
    }
  }

  /** The failure of a query and a cancellation by the caller both stop new queries. */
  lemma CancelStopsQueries(p: Params, run: seq<Pool>, actions: seq<Action>, i: nat, k: nat, w: nat)
    requires IsRun(p, run, actions) && i < k < |run| && (actions[i] == ParentCancel || actions[i].Fail?)
    requires w < |run[k].workers| && run[k].workers[w].Calling?
    ensures w < |run[i + 1].workers| && run[i + 1].workers[w] == run[k].workers[w]
  {
    assert Step(p, run[i], actions[i], run[i + 1]);
    NoQueryAfterCancel(p, run, actions, i + 1, k, w);
  }

  lemma CancelledStep(p: Params, s: Pool, a: Action, s': Pool, w: nat)
    requires Cancelled(s) && Step(p, s, a, s') && w < |s'.workers| && s'.workers[w].Calling?
    ensures Cancelled(s') && w < |s.workers| && s.workers[w] == s'.workers[w]
  {
  }

  lemma {:induction false} StaysCancelled(p: Params, run: seq<Pool>, actions: seq<Action>, i: nat, k: nat)
    requires IsRun(p, run, actions) && i <= k < |run| && Cancelled(run[i])
    ensures Cancelled(run[k])
  {
    if i < k {
      StaysCancelled(p, run, actions, i, k - 1);
      assert Step(p, run[k - 1], actions[k - 1], run[k]);
    }
  }

  predicate Finished(s: Pool) {
    s.closed && forall w :: 0 <= w < |s.workers| ==> s.workers[w] == Exited || s.workers[w].Failed?
  }

  /** When the pool returns without an error and the caller did not cancel, every GPU has its
      answer. */
  lemma AllSlotsFilled(p: Params, s: Pool, j: nat)
    requires p.numCores > 0 && Reachable(p, s) && Finished(s) && !s.failed && !s.parentCancelled && j < p.Jobs()
    ensures |s.results| == p.Jobs() && s.results[j].Some?
  {
    ReachableInv(p, s);
    assert p.Workers() > 0;
    assert s.workers[0] == Exited;
    assert |s.queue| == s.sent - s.taken;
    assert !AnyFailed(s.workers);
    assert forall v :: 0 <= v < |s.workers| ==> s.workers[v] == Exited;
    assert !Held(s, j);
  }

  // ------------------------------------------------------------- blocking

  /** With at most sixteen jobs the sender always finds room in the channel. */
  lemma SenderNeverBlocks(p: Params, s: Pool)
    requires Reachable(p, s) && p.Jobs() <= MAX_JOB_QUEUE && s.sent < p.Jobs()
    ensures |s.queue| < MAX_JOB_QUEUE
  {
    ReachableInv(p, s);
    assert |s.queue| == s.sent - s.taken;
  }

  /** The sender waits on a full channel that nobody will ever receive from: every worker has
      returned its error. */
  predicate Stuck(p: Params, s: Pool) {
    s.sent < p.Jobs() && |s.queue| >= MAX_JOB_QUEUE && forall w :: 0 <= w < |s.workers| ==> s.workers[w].Failed?
  }

  ghost predicate CanStep(p: Params, s: Pool) {
    exists a, s' :: Step(p, s, a, s') && a != ParentCancel
  }

  /** Every reachable pool has finished, can move on, or is stuck on the full channel. */
  lemma NoOtherDeadlock(p: Params, s: Pool)
    requires Reachable(p, s) && !Finished(s) && !Stuck(p, s)
    ensures CanStep(p, s)
  {
    ReachableInv(p, s);
    if w :| 0 <= w < |s.workers| && (s.workers[w].Working? || s.workers[w].Calling?) {
      WorkerMoves(p, s, w);
    } else if s.sent < p.Jobs() && |s.queue| < MAX_JOB_QUEUE {
      assert Step(p, s, Send, s.(queue := s.queue + [s.sent], sent := s.sent + 1));
    } else if s.sent == p.Jobs() && !s.closed {
      assert Step(p, s, Close, s.(closed := true));
    } else {
      var w :| 0 <= w < |s.workers| && s.workers[w] == Idle;
      if s.queue == [] {
        assert Step(p, s, Leave(w), s.(workers := s.workers[w := Exited]));
      } else {
        var ws := s.workers[w := Working(s.queue[0])];
        assert Step(p, s, Take(w), s.(workers := ws, queue := s.queue[1..], taken := s.taken + 1));
      }
    }
  }

  lemma WorkerMoves(p: Params, s: Pool, w: nat)
    requires Inv(p, s) && w < |s.workers| && (s.workers[w].Working? || s.workers[w].Calling?)
    ensures CanStep(p, s)
  {
    var j := s.workers[w].job;
    if s.workers[w].Working? {
      assert Step(p, s, Look(w), s.(workers := s.workers[w := if Cancelled(s) then Idle else Calling(j)]));
    } else {
      assert Step(p, s, Fail(w), s.(workers := s.workers[w := Failed(j)], failed := true));
    }
  }

  // ------------------------------------------------------------- every schedule ends

  function WorkerCost(w: Worker): nat {
    match w
    case Idle => 1
    case Working(_) => 3
    case Calling(_) => 2
    case Failed(_) | Exited => 0
  }

  function Cost(ws: seq<Worker>): nat {
    if ws == [] then 0 else Cost(ws[..|ws| - 1]) + WorkerCost(ws[|ws| - 1])
  }

  lemma {:induction false} CostAfter(ws: seq<Worker>, w: nat, x: Worker)
    requires w < |ws|
    ensures Cost(ws[w := x]) == Cost(ws) - WorkerCost(ws[w]) + WorkerCost(x)
  {
    var n := |ws| - 1;
    if w == n {
      assert ws[w := x][..n] == ws[..n];
    } else {
      assert ws[w := x][..n] == ws[..n][w := x];
      CostAfter(ws[..n], w, x);
    }
  }

  lemma {:induction false} CostOfIdle(ws: seq<Worker>)
    requires forall w :: 0 <= w < |ws| ==> ws[w] == Idle
    ensures Cost(ws) == |ws|
  {
    if ws != [] {
      CostOfIdle(ws[..|ws| - 1]);
    }
  }

  /** How many steps the pool can still make. */
  function StepsLeft(p: Params, s: Pool): int {
    4 * (p.Jobs() - s.sent) + 3 * |s.queue| + Cost(s.workers) + if s.closed then 0 else 1
  }

  lemma StepTakesOne(p: Params, s: Pool, a: Action, s': Pool)
    requires Step(p, s, a, s')
    ensures StepsLeft(p, s') <= StepsLeft(p, s)
    ensures a != ParentCancel ==> StepsLeft(p, s') < StepsLeft(p, s)
  {
    if a.Take? || a.Look? || a.Answer? || a.Fail? || a.Leave? {
      CostAfter(s.workers, a.w, s'.workers[a.w]);
    }
  }

  /** The steps of a run other than cancellations by the caller. */
  function PoolSteps(actions: seq<Action>): nat {
    if actions == [] then 0
    else PoolSteps(actions[..|actions| - 1]) + if actions[|actions| - 1] == ParentCancel then 0 else 1
  }

  /** No schedule makes more than four steps per GPU and one per worker, plus one; when no
      step is left and the channel and the workers can absorb all jobs, the pool has finished. */
  lemma {:induction false} EveryScheduleEnds(p: Params, run: seq<Pool>, actions: seq<Action>)
    requires IsRun(p, run, actions)
    ensures PoolSteps(actions) + StepsLeft(p, run[|actions|]) <= 4 * p.Jobs() + p.Workers() + 1
    ensures PoolSteps(actions) <= 4 * p.Jobs() + p.Workers() + 1
    ensures !CanStep(p, run[|actions|]) && p.Jobs() <= MAX_JOB_QUEUE + p.Workers() ==> Finished(run[|actions|])
    decreases |actions|
  {
    if actions == [] {
      CostOfIdle(Start(p).workers);
    } else {
      var n := |actions| - 1;
      EveryScheduleEnds(p, run[..n + 1], actions[..n]);
      StepTakesOne(p, run[n], actions[n], run[n + 1]);
    }
    InvOfRun(p, run, actions);
    assert Inv(p, run[|actions|]);
    if !CanStep(p, run[|actions|]) {
      EndIsFinishedOrStuck(p, run, actions);
    }
  }

  lemma EndIsFinishedOrStuck(p: Params, run: seq<Pool>, actions: seq<Action>)
    requires IsRun(p, run, actions) && !CanStep(p, run[|actions|])
    ensures Finished(run[|actions|]) || p.Jobs() > MAX_JOB_QUEUE + p.Workers()
  {
    var s := run[|actions|];
    assert Reachable(p, s);
    if Stuck(p, s) {
      StuckNeedsJobs(p, s);
    } else if !Finished(s) {
      NoOtherDeadlock(p, s);
    }
  }

  // ------------------------------------------------------------- exactly when it can get stuck

  /** The jobs below n. */
  ghost function Upto(n: nat): (r: set<nat>)
    ensures |r| == n && forall i: nat :: i in r <==> i < n
  {
    if n == 0 then {} else Upto(n - 1) + {n - 1}
  }

  ghost function JobSet(ws: seq<Worker>): set<nat>
    requires forall w :: 0 <= w < |ws| ==> HasJob(ws[w])
  {
    if ws == [] then {}
    else
      var last := ws[|ws| - 1];
      assert HasJob(last);
      JobSet(ws[..|ws| - 1]) + {last.job}
  }

  lemma {:induction false} DistinctJobsSize(ws: seq<Worker>, taken: nat)
    requires DistinctJobs(ws, taken) && forall w :: 0 <= w < |ws| ==> HasJob(ws[w])
    ensures |JobSet(ws)| == |ws| && JobSet(ws) <= Upto(taken)
    ensures forall j :: j in JobSet(ws) ==> exists w :: 0 <= w < |ws| && ws[w].job == j
  {
    if ws != [] {
      var head, last := ws[..|ws| - 1], ws[|ws| - 1];
      DistinctJobsSize(head, taken);
      forall j | j in JobSet(head) ensures exists w :: 0 <= w < |ws| - 1 && ws[w].job == j {
        var w :| 0 <= w < |head| && head[w].job == j;
        assert ws[w].job == j;
      }
      assert last.job !in JobSet(head);
      assert ws[|ws| - 1].job == last.job;
    }
  }

  lemma SubsetSize<T>(a: set<T>, b: set<T>)
    requires a <= b
    ensures |a| <= |b|
  {
    assert b == a + (b - a);
  }

  lemma StuckNeedsJobs(p: Params, s: Pool)
    requires Reachable(p, s) && Stuck(p, s)
    ensures p.Jobs() > MAX_JOB_QUEUE + p.Workers()
  {
    ReachableInv(p, s);
    DistinctJobsSize(s.workers, s.taken);
    SubsetSize(JobSet(s.workers), Upto(s.taken));
    assert |s.queue| == s.sent - s.taken;
  }

  lemma ReachStep(p: Params, s: Pool, a: Action, s': Pool)
    requires Reachable(p, s) && Step(p, s, a, s')
    ensures Reachable(p, s')
  {
    var run, actions :| IsRun(p, run, actions) && run[|actions|] == s;
    var run', actions' := run + [s'], actions + [a];
    assert IsRun(p, run', actions');
    assert run'[|actions'|] == s';
  }

  /** k workers are in the middle of their first query. */
  function AllCalling(p: Params, k: nat): Pool {
    Start(p).(sent := k, taken := k,
              workers := seq(p.Workers(), i requires 0 <= i => if i < k then Calling(i) else Idle))
  }

  /** The first k of the workers have failed on their first query. */
  function SomeFailed(p: Params, k: nat): Pool {
    AllCalling(p, p.Workers()).(
      failed := k > 0, workers := seq(p.Workers(), i requires 0 <= i => if i < k then Failed(i) else Calling(i)))
  }

  /** All workers have failed and m jobs wait in the channel. */
  function Filling(p: Params, m: nat): Pool {
    var w := p.Workers();
    SomeFailed(p, w).(sent := w + m, queue := seq(m, i => w + i))
  }

  lemma {:induction false} ReachCalling(p: Params, k: nat)
    requires k <= p.Workers()
    ensures Reachable(p, AllCalling(p, k))
  {
    if k == 0 {
      assert AllCalling(p, 0) == Start(p);
      var run, actions: seq<Action> := [Start(p)], [];
      assert IsRun(p, run, actions) && run[|actions|] == Start(p);
    } else {
      ReachCalling(p, k - 1);
      var s0 := AllCalling(p, k - 1);
      var s1 := s0.(queue := [k - 1], sent := k);
      var s2 := s1.(workers := s1.workers[k - 1 := Working(k - 1)], queue := [], taken := k);
      assert s0.queue + [k - 1] == [k - 1];
      ReachStep(p, s0, Send, s1);
      assert s1.queue[1..] == [];
      ReachStep(p, s1, Take(k - 1), s2);
      assert s2.workers[k - 1 := Calling(k - 1)] == AllCalling(p, k).workers;
      ReachStep(p, s2, Look(k - 1), AllCalling(p, k));
    }
  }

  lemma {:induction false} ReachFailed(p: Params, k: nat)
    requires k <= p.Workers()
    ensures Reachable(p, SomeFailed(p, k))
  {
    if k == 0 {
      ReachCalling(p, p.Workers());
      assert SomeFailed(p, 0).workers == AllCalling(p, p.Workers()).workers;
    } else {
      ReachFailed(p, k - 1);
      assert SomeFailed(p, k - 1).workers[k - 1 := Failed(k - 1)] == SomeFailed(p, k).workers;
      ReachStep(p, SomeFailed(p, k - 1), Fail(k - 1), SomeFailed(p, k));
    }
  }

  lemma {:induction false} ReachFilling(p: Params, m: nat)
    requires m <= MAX_JOB_QUEUE && p.Workers() + m <= p.Jobs()
    ensures Reachable(p, Filling(p, m))
  {
    if m == 0 {
      ReachFailed(p, p.Workers());
      assert Filling(p, 0).queue == [];
    } else {
      ReachFilling(p, m - 1);
      assert Filling(p, m - 1).queue + [p.Workers() + m - 1] == Filling(p, m).queue;
      ReachStep(p, Filling(p, m - 1), Send, Filling(p, m));
    }
  }

  // ------------------------------------------------------------- the hang

  ghost predicate IsContinuation(p: Params, s: Pool, run: seq<Pool>, actions: seq<Action>) {
    && |run| == |actions| + 1 && run[0] == s
    && forall i :: 0 <= i < |actions| ==> Step(p, run[i], actions[i], run[i + 1])
  }

  /** Whatever happens from here on, cancellation by the caller included, the pool does not
      finish. */
  ghost predicate NeverReturns(p: Params, s: Pool) {
    forall run: seq<Pool>, actions: seq<Action> ::
      IsContinuation(p, s, run, actions) ==> !Finished(run[|actions|])
  }

  /** Only a cancellation by the caller is possible in a stuck pool, and it does not help. */
  lemma StuckStep(p: Params, s: Pool, a: Action, s': Pool)
    requires Stuck(p, s) && !s.closed && Step(p, s, a, s')
    ensures a == ParentCancel && Stuck(p, s') && !s'.closed
  {
  }

  lemma {:induction false} StuckForever(p: Params, s: Pool, run: seq<Pool>, actions: seq<Action>)
    requires Stuck(p, s) && !s.closed && IsContinuation(p, s, run, actions)
    ensures Stuck(p, run[|actions|]) && !run[|actions|].closed
    decreases |actions|
  {
    if actions != [] {
      var n := |actions| - 1;
      StuckForever(p, s, run[..n + 1], actions[..n]);
      StuckStep(p, run[n], actions[n], run[n + 1]);
    }
  }

  lemma StuckNeverReturns(p: Params, s: Pool)
    requires Reachable(p, s) && Stuck(p, s)
    ensures NeverReturns(p, s)
  {
    ReachableInv(p, s);
    forall run: seq<Pool>, actions: seq<Action> | IsContinuation(p, s, run, actions)
      ensures !Finished(run[|actions|])
    {
      StuckForever(p, s, run, actions);
    }
  }

  /** From every reachable pool some schedule leads to a finished or a stuck one. */
  lemma {:induction false} SomeEnding(p: Params, s: Pool) returns (run: seq<Pool>, actions: seq<Action>)
    requires Reachable(p, s)
    ensures IsContinuation(p, s, run, actions) && Reachable(p, run[|actions|])
    ensures Finished(run[|actions|]) || Stuck(p, run[|actions|])
    decreases StepsLeft(p, s)
  {
    ReachableInv(p, s);
    if Finished(s) || Stuck(p, s) {
      run, actions := [s], [];
    } else {
      NoOtherDeadlock(p, s);
      var a, s' :| Step(p, s, a, s') && a != ParentCancel;
      ReachStep(p, s, a, s');
      StepTakesOne(p, s, a, s');
      var run', actions' := SomeEnding(p, s');
      run, actions := [s] + run', [a] + actions';
    }
  }

  /** The pool can hang for ever exactly when there are more jobs than the channel and the
      workers together can absorb, and then it is stuck on the full channel. */
  lemma CanGetStuckIff(p: Params)
    ensures (exists s :: Reachable(p, s) && NeverReturns(p, s)) <==> p.Jobs() > MAX_JOB_QUEUE + p.Workers()
    ensures (exists s :: Reachable(p, s) && Stuck(p, s)) <==> p.Jobs() > MAX_JOB_QUEUE + p.Workers()
  {
    if s :| Reachable(p, s) && NeverReturns(p, s) {
      var run, actions := SomeEnding(p, s);
      StuckNeedsJobs(p, run[|actions|]);
    }
    if s :| Reachable(p, s) && Stuck(p, s) {
      StuckNeedsJobs(p, s);
    }
    if p.Jobs() > MAX_JOB_QUEUE + p.Workers() {
      var s := Filling(p, MAX_JOB_QUEUE);
      ReachFilling(p, MAX_JOB_QUEUE);
      assert Stuck(p, s);
      StuckNeverReturns(p, s);
    }
  }
}
