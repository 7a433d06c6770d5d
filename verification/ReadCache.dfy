/** The timed read cache with double-checked locking
    (pkg/amdgpu/gpuagent/gpuagent_gpu.go, cacheRead).

    Any number of readers run the function at the same time. A reader first looks at the
    cache under the read lock, using the time taken when the call began; if that misses it
    takes the write lock, looks again, and queries the backend while holding the lock. Time
    passes between any two steps. */
module ReadCache {
  import opened Wrappers

  /** The cache period, 15 seconds, in nanoseconds. */
  const CACHE_TIMER: int := 15_000_000_000

  /** A backend response, with the time its query completed. */
  datatype Response = Response(payload: int, fetchedAt: int)

  /** Where a reader is; began is the time its call began. Checking, Missed and Querying hold
      the write lock. */
  datatype Reader =
    | Started(began: int)
    | Waiting(began: int)
    | Checking(began: int)
    | Missed(began: int)
    | Querying(began: int)
    | Returned(began: int, result: Option<Response>)

  predicate HoldsLock(r: Reader) {
    r.Checking? || r.Missed? || r.Querying?
  }

  /** The shared state; fetched lists the responses of all successful queries so far. */
  datatype System = System(
    now: int,
    lastResponse: Option<Response>,
    lastTimestamp: int,
    lock: Option<nat>,
    readers: map<nat, Reader>,
    fetched: seq<Response>)

  ghost predicate Init(s: System) {
    s.lastResponse == None && s.lock == None && s.readers == map[] && s.fetched == [] && s.lastTimestamp <= s.now
  }

  datatype Action =
    | Tick(d: nat) | Call(r: nat) | FastPath(r: nat) | Acquire(r: nat) | DoubleCheck(r: nat)
    | Begin(r: nat) | Complete(r: nat, answer: Option<int>)

  function At(s: System, r: nat, reader: Reader): System {
    s.(readers := s.readers[r := reader])
  }

  predicate Fresh(s: System, at: int) {
    s.lastResponse.Some? && at - s.lastTimestamp < CACHE_TIMER
  }

  ghost predicate Step(s: System, a: Action, s': System) {
    match a
    case Tick(d) => s' == s.(now := s.now + d)
    case Call(r) =>
      (r in s.readers ==> s.readers[r].Returned?) && s' == At(s, r, Started(s.now))
    case FastPath(r) =>
      r in s.readers && s.readers[r].Started? && s.lock == None &&
      var began := s.readers[r].began;
      s' == At(s, r, if Fresh(s, began) then Returned(began, s.lastResponse) else Waiting(began))
    case Acquire(r) =>
      r in s.readers && s.readers[r].Waiting? && s.lock == None &&
      s' == At(s, r, Checking(s.readers[r].began)).(lock := Some(r))
    case DoubleCheck(r) =>
      r in s.readers && s.readers[r].Checking? &&
      var began := s.readers[r].began;
      s' == if Fresh(s, s.now) then At(s, r, Returned(began, s.lastResponse)).(lock := None)
            else At(s, r, Missed(began))
    case Begin(r) =>
      r in s.readers && s.readers[r].Missed? && s' == At(s, r, Querying(s.readers[r].began))
    case Complete(r, answer) =>
      r in s.readers && s.readers[r].Querying? &&
      var response := if answer.Some? then Some(Response(answer.value, s.now)) else None;
      s' == At(s, r, Returned(s.readers[r].began, response))
            .(lock := None, lastTimestamp := s.now, lastResponse := response,
              fetched := s.fetched + if response.Some? then [response.value] else [])
  }

  ghost predicate IsRun(run: seq<System>, actions: seq<Action>) {
    && |run| == |actions| + 1 && Init(run[0])
    && forall i {:trigger actions[i]} :: 0 <= i < |actions| ==> Step(run[i], actions[i], run[i + 1])
  }

  // ------------------------------------------------------------- the invariant

  /** The cache holds the last fetched response with its completion time; when it is empty
      the last successful query is at least a cache period old. */
  ghost predicate CacheInv(s: System) {
    && s.lastTimestamp <= s.now
    && (forall i :: 0 <= i < |s.fetched| ==> s.fetched[i].fetchedAt <= s.now)
    && (s.lastResponse.Some? ==>
          && |s.fetched| > 0 && s.lastResponse.value == s.fetched[|s.fetched| - 1]
          && s.lastTimestamp == s.lastResponse.value.fetchedAt)
    && (s.lastResponse.None? ==> Aged(s))
  }

  /** Every successful query completed at least a cache period ago. */
  ghost predicate Aged(s: System) {
    forall i :: 0 <= i < |s.fetched| ==> s.now >= s.fetched[i].fetchedAt + CACHE_TIMER
  }

  /** Completion times never go back. */
  ghost predicate Ordered(fetched: seq<Response>) {
    forall i, j :: 0 <= i < j < |fetched| ==> fetched[i].fetchedAt <= fetched[j].fetchedAt
  }

  ghost predicate ReaderInv(s: System, r: nat)
    requires r in s.readers
  {
    var reader := s.readers[r];
    && reader.began <= s.now
    && (HoldsLock(reader) <==> s.lock == Some(r))
    && (reader.Missed? || reader.Querying? ==> Aged(s))
    && (reader.Returned? && reader.result.Some? ==>
          reader.result.value in s.fetched && reader.result.value.fetchedAt > reader.began - CACHE_TIMER)
  }

  ghost predicate Inv(s: System) {
    && CacheInv(s) && Ordered(s.fetched)
    && (s.lock.Some? ==> s.lock.value in s.readers)
    && (forall r :: r in s.readers ==> ReaderInv(s, r))
  }

  lemma CacheStep(s: System, a: Action, s': System)
    requires Inv(s) && Step(s, a, s')
    ensures CacheInv(s') && Ordered(s'.fetched) && (s'.lock.Some? ==> s'.lock.value in s'.readers)
  {
    if a.Complete? {
      assert ReaderInv(s, a.r);
    }
  }

  lemma OlderThanLast(s: System)
    requires CacheInv(s) && Ordered(s.fetched) && !Fresh(s, s.now)
    ensures Aged(s)
  {
    if s.lastResponse.Some? {
      var n := |s.fetched| - 1;
      forall i | 0 <= i < |s.fetched| ensures s.now >= s.fetched[i].fetchedAt + CACHE_TIMER {
        assert i < n ==> s.fetched[i].fetchedAt <= s.fetched[n].fetchedAt;
      }
    }
  }

  lemma ReaderStep(s: System, a: Action, s': System, r: nat)
    requires Inv(s) && Step(s, a, s') && r in s'.readers
    ensures ReaderInv(s', r)
  {
    if a.Tick? || a.r != r {
      assert ReaderInv(s, r);
      if !a.Tick? && a.r in s.readers {
        assert ReaderInv(s, a.r);
      }
    } else if a.Call? {
      if r in s.readers { assert ReaderInv(s, r); }
    } else {
      assert ReaderInv(s, r);
      if a.DoubleCheck? && !Fresh(s, s.now) {
        OlderThanLast(s);
      }
      if a.Complete? && a.answer.Some? {
        assert s'.fetched[|s.fetched|] == Response(a.answer.value, s.now);
      }
    }
  }

  lemma {:induction false} InvOfRun(run: seq<System>, actions: seq<Action>, k: nat)
    requires IsRun(run, actions) && k < |run|
    ensures Inv(run[k])
  {
    if k > 0 {
      var s, a, s' := run[k - 1], actions[k - 1], run[k];
      InvOfRun(run, actions, k - 1);
      CacheStep(s, a, s');
      forall r | r in s'.readers ensures ReaderInv(s', r) {
        ReaderStep(s, a, s', r);
      }
    }
  }

  // ------------------------------------------------------------- the guarantees

  lemma {:induction false} FetchedGrows(run: seq<System>, actions: seq<Action>, i: nat, k: nat)
    requires IsRun(run, actions) && i <= k < |run|
    ensures run[i].fetched <= run[k].fetched && run[i].now <= run[k].now
  {
    if i < k {
      FetchedGrows(run, actions, i, k - 1);
      assert Step(run[k - 1], actions[k - 1], run[k]);
    }
  }

  /** In every interleaving a query starts at least one cache period after every earlier
      successful query completed. */
  lemma QueriesAreSpaced(run: seq<System>, actions: seq<Action>, i: nat, k: nat)
    requires IsRun(run, actions) && i < k < |actions|
    requires actions[i].Complete? && actions[i].answer.Some? && actions[k].Begin?
    ensures run[k].now >= run[i].now + CACHE_TIMER
  {
    InvOfRun(run, actions, k);
    assert Step(run[i], actions[i], run[i + 1]) && Step(run[k], actions[k], run[k + 1]);
    FetchedGrows(run, actions, i + 1, k);
    var n := |run[i].fetched|;
    assert run[i + 1].fetched[n].fetchedAt == run[i].now;
    assert run[k].fetched[n] == run[i + 1].fetched[n];
    assert ReaderInv(run[k], actions[k].r);
  }

  /** A response that is returned was fetched by a successful query that completed later than
      one cache period before the call began. */
  lemma ReturnsAreFresh(run: seq<System>, actions: seq<Action>, i: nat, r: nat)
    requires IsRun(run, actions) && i < |run|
    requires r in run[i].readers && run[i].readers[r].Returned? && run[i].readers[r].result.Some?
    ensures var response := run[i].readers[r].result.value;
            response in run[i].fetched && response.fetchedAt > run[i].readers[r].began - CACHE_TIMER
  {
    InvOfRun(run, actions, i);
    assert ReaderInv(run[i], r);
  }

  /** At most one query is under way, and nobody reads the cache while it is. */
  lemma OneQueryAtATime(run: seq<System>, actions: seq<Action>, i: nat, q: nat, r: nat)
    requires IsRun(run, actions) && i < |run| && q in run[i].readers && r in run[i].readers
    requires run[i].readers[q].Querying? && HoldsLock(run[i].readers[r])
    ensures q == r
    ensures i < |actions| ==> !actions[i].FastPath? && !actions[i].Acquire?
  {
    InvOfRun(run, actions, i);
    assert ReaderInv(run[i], q) && ReaderInv(run[i], r);
    if i < |actions| {
      assert Step(run[i], actions[i], run[i + 1]);
    }
  }

  predicate Succeeds(a: Action) {
    a.Complete? && a.answer.Some?
  }

  /** After a failed query nothing is cached until a query succeeds again: every reader that
      looks at the cache before then misses. */
  lemma {:induction false} FailureLeavesNothing(run: seq<System>, actions: seq<Action>, i: nat, k: nat)
    requires IsRun(run, actions) && i < k < |run| && actions[i].Complete? && actions[i].answer.None?
    requires forall m :: i < m < k ==> !Succeeds(actions[m])
    ensures run[k].lastResponse == None
    ensures k < |actions| && (actions[k].FastPath? || actions[k].DoubleCheck?) ==>
              actions[k].r in run[k + 1].readers && !run[k + 1].readers[actions[k].r].Returned?
  {
    assert Step(run[k - 1], actions[k - 1], run[k]);
    if i < k - 1 {
      FailureLeavesNothing(run, actions, i, k - 1);
      assert !Succeeds(actions[k - 1]);
    }
    if k < |actions| {
      assert Step(run[k], actions[k], run[k + 1]);
    }
  }

  // ------------------------------------------------------------- the cache in terms of the history

  /** What a completed query gave, with the time it completed. */
  function AnswerOf(answer: Option<int>, at: int): Option<Response> {
    if answer.Some? then Some(Response(answer.value, at)) else None
  }

  /** The answer of the last query completed in the first k steps; None without one. */
  ghost function LastAnswer(run: seq<System>, actions: seq<Action>, k: nat): Option<Response>
    requires k <= |actions| && |run| == |actions| + 1
  {
    if k == 0 then None
    else if actions[k - 1].Complete? then AnswerOf(actions[k - 1].answer, run[k - 1].now)
    else LastAnswer(run, actions, k - 1)
  }

  lemma {:induction false} CacheIsLastAnswer(run: seq<System>, actions: seq<Action>, k: nat)
    requires IsRun(run, actions) && k < |run|
    ensures run[k].lastResponse == LastAnswer(run, actions, k)
    ensures run[k].lastResponse.Some? ==> run[k].lastTimestamp == run[k].lastResponse.value.fetchedAt
  {
    if k > 0 {
      CacheIsLastAnswer(run, actions, k - 1);
      assert Step(run[k - 1], actions[k - 1], run[k]);
    }
  }

  /** Every reader under way or returned was called, and its start time is that of its last call. */
  lemma {:induction false} CalledAt(run: seq<System>, actions: seq<Action>, k: nat, r: nat) returns (i: nat)
    requires IsRun(run, actions) && k < |run| && r in run[k].readers
    ensures i < k && actions[i] == Call(r) && run[k].readers[r].began == run[i].now
    ensures forall m :: i < m < k ==> actions[m] != Call(r)
  {
    assert Step(run[k - 1], actions[k - 1], run[k]);
    if actions[k - 1] == Call(r) {
      i := k - 1;
    } else {
      i := CalledAt(run, actions, k - 1, r);
    }
  }

  /** Each look at the cache in full: it returns the answer of the last completed query exactly
      when that succeeded less than fifteen seconds before the call began (first look) or before
      now (second look), and otherwise goes on to query. */
  lemma LookAtCache(run: seq<System>, actions: seq<Action>, k: nat)
    requires IsRun(run, actions) && k < |actions| && (actions[k].FastPath? || actions[k].DoubleCheck?)
    ensures var r, last := actions[k].r, LastAnswer(run, actions, k);
            && r in run[k].readers && r in run[k + 1].readers
            && var began := run[k].readers[r].began;
               var at := if actions[k].FastPath? then began else run[k].now;
               run[k + 1].readers[r] ==
               if last.Some? && at < last.value.fetchedAt + 15_000_000_000 then Returned(began, last)
               else if actions[k].FastPath? then Waiting(began)
               else Missed(began)
  {
    assert Step(run[k], actions[k], run[k + 1]);
    CacheIsLastAnswer(run, actions, k);
  }

  /** Where a result comes from: the reader's own query, or a look at the cache that found the
      response of the last successful query at that time. */
  ghost predicate Origin(run: seq<System>, actions: seq<Action>, j: nat, r: nat, result: Option<Response>)
    requires j < |actions| && |run| == |actions| + 1
  {
    || (exists answer :: actions[j] == Complete(r, answer) && result == AnswerOf(answer, run[j].now))
    || ((actions[j] == FastPath(r) || actions[j] == DoubleCheck(r)) &&
        |run[j].fetched| > 0 && result == Some(run[j].fetched[|run[j].fetched| - 1]))
  }

  lemma OriginStep(run: seq<System>, actions: seq<Action>, k: nat, r: nat)
    requires IsRun(run, actions) && k < |actions| && r in run[k + 1].readers && run[k + 1].readers[r].Returned?
    ensures || Origin(run, actions, k, r, run[k + 1].readers[r].result)
            || (r in run[k].readers && run[k].readers[r] == run[k + 1].readers[r] && actions[k] != Call(r))
  {
    InvOfRun(run, actions, k);
    assert Step(run[k], actions[k], run[k + 1]);
    if actions[k].Complete? && actions[k].r == r {
      assert actions[k] == Complete(r, actions[k].answer);
    }
  }

  /** Every return in every run: in particular a reader returns without a response only if its
      own query failed after its last call. */
  lemma {:induction false} ReturnOrigin(run: seq<System>, actions: seq<Action>, k: nat, r: nat) returns (j: nat)
    requires IsRun(run, actions) && k < |run| && r in run[k].readers && run[k].readers[r].Returned?
    ensures j < k && Origin(run, actions, j, r, run[k].readers[r].result)
    ensures forall m :: j <= m < k ==> actions[m] != Call(r)
    ensures run[k].readers[r].result.None? ==> actions[j] == Complete(r, None)
  {
    assert run[k].readers != map[] && k > 0;
    OriginStep(run, actions, k - 1, r);
    if Origin(run, actions, k - 1, r, run[k].readers[r].result) {
      j := k - 1;
    } else {
      j := ReturnOrigin(run, actions, k - 1, r);
    }
  }

  ghost predicate CanStep(s: System) {
    exists a, s' :: Step(s, a, s') && !a.Tick? && !a.Call?
  }

  /** As long as some call has not returned, some call can go on: the lock is never lost. */
  lemma NeverStuck(run: seq<System>, actions: seq<Action>, k: nat, r: nat)
    requires IsRun(run, actions) && k < |run| && r in run[k].readers && !run[k].readers[r].Returned?
    ensures CanStep(run[k])
  {
    var s := run[k];
    InvOfRun(run, actions, k);
    var q := if s.lock.Some? then s.lock.value else r;
    assert ReaderInv(s, q) && ReaderInv(s, r);
    var began := s.readers[q].began;
    match s.readers[q]
    case Started(_) =>
      var reader := if Fresh(s, began) then Returned(began, s.lastResponse) else Waiting(began);
      assert Step(s, FastPath(q), At(s, q, reader));
    case Waiting(_) => assert Step(s, Acquire(q), At(s, q, Checking(began)).(lock := Some(q)));
    case Checking(_) =>
      var hit := At(s, q, Returned(began, s.lastResponse)).(lock := None);
      assert Step(s, DoubleCheck(q), if Fresh(s, s.now) then hit else At(s, q, Missed(began)));
    case Missed(_) => assert Step(s, Begin(q), At(s, q, Querying(began)));
    case Querying(_) =>
      var failed := At(s, q, Returned(began, None)).(lock := None, lastTimestamp := s.now, lastResponse := None);
      assert s.fetched + [] == s.fetched;
      assert Step(s, Complete(q, None), failed);
    case Returned(_, _) =>
  }
}
