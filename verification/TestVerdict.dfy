/** The overall result of a test run (pkg/testrunner/testrunner.go, getOverallResult). */
module TestVerdict {

  datatype TestResult = Success | Failure | Skipped | Cancelled | Timedout | Queued | Unrecognized(text: string)

  datatype CommandStatus = TestRunning | TestCompleted | TestNotStarted | TestTimedOut

  type ActionResults = map<string, TestResult>

  /** One iteration: for each GPU the result of each test action. */
  datatype Iteration = Iteration(number: nat, suites: map<string, ActionResults>, status: CommandStatus)

  // ------------------------------------------------------------- the verdict

  function ResultsOf(it: Iteration): set<TestResult> {
    (set gpu, action | gpu in it.suites && action in it.suites[gpu] :: it.suites[gpu][action])
  }

  /** What an iteration contributes: its action results, and a timeout when it timed out. */
  function Contribution(it: Iteration): set<TestResult> {
    ResultsOf(it) + if it.status == TestTimedOut then {Timedout} else {}
  }

  function Seen(its: seq<Iteration>): set<TestResult> {
    if its == [] then {} else Seen(its[..|its| - 1]) + Contribution(its[|its| - 1])
  }

  /** An iteration that did not time out and has no result at all. */
  predicate NoResult(it: Iteration) {
    it.status != TestTimedOut && it.suites == map[]
  }

  predicate AnyNoResult(its: seq<Iteration>) {
    exists i :: 0 <= i < |its| && NoResult(its[i])
  }

  function Verdict(its: seq<Iteration>): TestResult {
    if Failure in Seen(its) || AnyNoResult(its) then Failure
    else if Timedout in Seen(its) then Timedout
    else if Queued in Seen(its) then Queued
    else if Skipped in Seen(its) && Success !in Seen(its) then Skipped
    else Success
  }

  // ------------------------------------------------------------- the in-place filling

  function FailedSuites(ids: seq<string>): map<string, ActionResults> {
    map id | id in ids :: map["result" := Failure]
  }

  function Fill(it: Iteration, ids: seq<string>): Iteration {
    if NoResult(it) then it.(suites := FailedSuites(ids)) else it
  }

  /** The index of the first iteration with a failed action: the scan returns there and
      leaves the later iterations as they are. */
  function FirstFailing(its: seq<Iteration>): (n: nat)
    ensures n <= |its|
    ensures n < |its| ==> Failure in ResultsOf(its[n])
    ensures forall i :: 0 <= i < n ==> Failure !in ResultsOf(its[i])
  {
    if its == [] || Failure in ResultsOf(its[0]) then 0 else 1 + FirstFailing(its[1..])
  }

  function FillFirst(its: seq<Iteration>, n: nat, ids: seq<string>): seq<Iteration>
    requires n <= |its|
  {
    seq(|its|, i requires 0 <= i < |its| => if i < n then Fill(its[i], ids) else its[i])
  }

  // ------------------------------------------------------------- the scan

  datatype Flags = Flags(timedout: bool, skipped: bool, passed: bool, queued: bool)

  function FlagsOf(seen: set<TestResult>): Flags {
    Flags(Timedout in seen, Skipped in seen, Success in seen, Queued in seen)
  }

  /** Scans the actions of one GPU in an arbitrary order. */
  method ScanActions(actions: ActionResults, flags: Flags, ghost seen: set<TestResult>)
    returns (failed: bool, flags': Flags)
    requires flags == FlagsOf(seen)
    ensures failed <==> Failure in actions.Values
    ensures !failed ==> flags' == FlagsOf(seen + actions.Values)
  {
    flags' := flags;
    ghost var found: set<TestResult> := {};
    var todo := actions.Keys;
    while todo != {}
      invariant todo <= actions.Keys
      invariant found == (set a | a in actions && a !in todo :: actions[a])
      invariant Failure !in found && flags' == FlagsOf(seen + found)
      decreases |todo|
    {
      var action :| action in todo;
      match actions[action] {
        case Failure => return true, flags';
        case Timedout => flags' := flags'.(timedout := true);
        case Skipped => flags' := flags'.(skipped := true);
        case Success => flags' := flags'.(passed := true);
        case Queued => flags' := flags'.(queued := true);
        case _ =>
      }
      todo := todo - {action};
      found := found + {actions[action]};
    }
    assert found == actions.Values;
    failed := false;
  }

  /** Scans the GPUs of one iteration in an arbitrary order. */
  method ScanSuites(it: Iteration, flags: Flags, ghost seen: set<TestResult>)
    returns (failed: bool, flags': Flags)
    requires flags == FlagsOf(seen)
    ensures failed <==> Failure in ResultsOf(it)
    ensures !failed ==> flags' == FlagsOf(seen + ResultsOf(it))
  {
    flags' := flags;
    ghost var found: set<TestResult> := {};
    var todo := it.suites.Keys;
    while todo != {}
      invariant todo <= it.suites.Keys
      invariant found == ResultsOf(it.(suites := it.suites - todo))
      invariant Failure !in found && flags' == FlagsOf(seen + found)
      decreases |todo|
    {
      var gpu :| gpu in todo;
      failed, flags' := ScanActions(it.suites[gpu], flags', seen + found);
      assert it.suites[gpu].Values <= ResultsOf(it);
      if failed {
        return;
      }
      OneMoreGpu(it, todo, gpu);
      found := found + it.suites[gpu].Values;
      todo := todo - {gpu};
      assert flags' == FlagsOf(seen + found);
    }
    assert it.suites - todo == it.suites;
    failed := false;
  }

  lemma OneMoreGpu(it: Iteration, todo: set<string>, gpu: string)
    requires gpu in todo && todo <= it.suites.Keys
    ensures ResultsOf(it.(suites := it.suites - (todo - {gpu}))) ==
            ResultsOf(it.(suites := it.suites - todo)) + it.suites[gpu].Values
  {
    var less, more := it.(suites := it.suites - todo), it.(suites := it.suites - (todo - {gpu}));
    assert more.suites == less.suites[gpu := it.suites[gpu]];
    forall r ensures r in ResultsOf(more) <==> r in ResultsOf(less) || r in it.suites[gpu].Values {
      if r in ResultsOf(more) {
        var g, a :| g in more.suites && a in more.suites[g] && more.suites[g][a] == r;
        if g != gpu { assert g in less.suites && less.suites[g] == more.suites[g]; }
      }
      if r in ResultsOf(less) {
        var g, a :| g in less.suites && a in less.suites[g] && less.suites[g][a] == r;
        assert g in more.suites && more.suites[g] == less.suites[g];
      }
      if r in it.suites[gpu].Values {
        var a :| a in it.suites[gpu] && it.suites[gpu][a] == r;
        assert gpu in more.suites && more.suites[gpu][a] == r;
      }
    }
  }

  lemma {:induction false} SeenHolds(its: seq<Iteration>, r: TestResult)
    ensures r in Seen(its) <==> exists i :: 0 <= i < |its| && r in Contribution(its[i])
  {
    if its != [] {
      var head := its[..|its| - 1];
      SeenHolds(head, r);
      if r in Seen(its) && r in Seen(head) {
        var i :| 0 <= i < |head| && r in Contribution(head[i]);
        assert its[i] == head[i];
      }
      if i :| 0 <= i < |its| && r in Contribution(its[i]) && i < |head| {
        assert head[i] == its[i];
      }
    }
  }

  lemma PrefixStep(its: seq<Iteration>, i: nat)
    requires i < |its|
    ensures Seen(its[..i + 1]) == Seen(its[..i]) + Contribution(its[i])
    ensures AnyNoResult(its[..i + 1]) <==> AnyNoResult(its[..i]) || NoResult(its[i])
  {
    assert its[..i + 1][..i] == its[..i];
    NoResultSnoc(its[..i], its[i]);
    assert its[..i] + [its[i]] == its[..i + 1];
  }

  lemma NoResultSnoc(head: seq<Iteration>, last: Iteration)
    ensures AnyNoResult(head + [last]) <==> AnyNoResult(head) || NoResult(last)
  {
    var its := head + [last];
    if k :| 0 <= k < |head| && NoResult(head[k]) {
      assert NoResult(its[k]);
    }
    if NoResult(last) {
      assert NoResult(its[|head|]);
    }
  }

  lemma FillStep(its: seq<Iteration>, i: nat, ids: seq<string>)
    requires i < |its|
    ensures FillFirst(its, i, ids)[i] == its[i]
    ensures FillFirst(its, i + 1, ids) == FillFirst(its, i, ids)[i := Fill(its[i], ids)]
    ensures Fill(its[i], ids) == its[i] ==> FillFirst(its, i + 1, ids) == FillFirst(its, i, ids)
    ensures |its[i].suites| == 0 <==> its[i].suites == map[]
  {
  }

  lemma FirstFailingIs(its: seq<Iteration>, n: nat)
    requires n <= |its| && forall i :: 0 <= i < n ==> Failure !in ResultsOf(its[i])
    requires n < |its| ==> Failure in ResultsOf(its[n])
    ensures FirstFailing(its) == n
  {
  }

  /** The decision after the scan. */
  function Decide(foundEmpty: bool, flags: Flags): TestResult {
    if foundEmpty then Failure
    else if flags.timedout then Timedout
    else if flags.queued then Queued
    else if !flags.passed && flags.skipped then Skipped
    else Success
  }

  /** getOverallResult. The verdict is a function of the results alone, whatever order the
      maps are walked in, and the iterations are left filled up to the first failing one. */
  method GetOverallResult(result: array<Iteration>, validIDs: seq<string>) returns (verdict: TestResult)
    modifies result
    ensures verdict == Verdict(old(result[..]))
    ensures result[..] == FillFirst(old(result[..]), FirstFailing(old(result[..])), validIDs)
  {
    ghost var its := result[..];
    var foundEmpty, flags := false, Flags(false, false, false, false);
    for i := 0 to result.Length
      invariant forall k :: 0 <= k < i ==> Failure !in ResultsOf(its[k])
      invariant result[..] == FillFirst(its, i, validIDs)
      invariant flags == FlagsOf(Seen(its[..i])) && foundEmpty == AnyNoResult(its[..i])
    {
      var it := result[i];
      assert it == result[..][i];
      var failed;
      failed, flags := ScanSuites(it, flags, Seen(its[..i]));
      if failed {
        FirstFailingIs(its, i);
        NoFailureSeen(its);
        return Failure;
      }
      PrefixStep(its, i);
      FillStep(its, i, validIDs);
      if it.status == TestTimedOut {
        flags := flags.(timedout := true);
      } else if |it.suites| == 0 {
        foundEmpty := true;
        result[i] := it.(suites := FailedSuites(validIDs));
      }
    }
    assert its[..|its|] == its;
    FirstFailingIs(its, |its|);
    NoFailureSeen(its);
    return Decide(foundEmpty, flags);
  }

  lemma NoFailureSeen(its: seq<Iteration>)
    ensures FirstFailing(its) == |its| <==> Failure !in Seen(its)
  {
    SeenHolds(its, Failure);
    if FirstFailing(its) < |its| {
      assert Failure in Contribution(its[FirstFailing(its)]);
    }
  }

  // ------------------------------------------------------------- calling twice

  lemma FillWithoutEmpty(its: seq<Iteration>, n: nat, ids: seq<string>)
    requires n <= |its| && !AnyNoResult(its)
    ensures FillFirst(its, n, ids) == its
  {
  }

  /** A second call on the filled iterations returns the same verdict. */
  lemma SecondCallAgrees(its: seq<Iteration>, ids: seq<string>)
    ensures Verdict(FillFirst(its, FirstFailing(its), ids)) == Verdict(its)
  {
    var n := FirstFailing(its);
    var filled := FillFirst(its, n, ids);
    if n < |its| {
      SeenHolds(its, Failure);
      SeenHolds(filled, Failure);
      assert Failure in Contribution(its[n]);
      assert filled[n] == its[n];
    } else if AnyNoResult(its) {
      var i :| 0 <= i < |its| && NoResult(its[i]);
      if ids == [] {
        assert filled[i].suites == map[];
        assert NoResult(filled[i]);
      } else {
        assert filled[i].suites[ids[0]]["result"] == Failure;
        assert Failure in Contribution(filled[i]);
        SeenHolds(filled, Failure);
      }
    } else {
      FillWithoutEmpty(its, n, ids);
    }
  }

  /** The verdict does not depend on the order of the iterations either. */
  lemma VerdictOfPermutation(a: seq<Iteration>, b: seq<Iteration>)
    requires multiset(a) == multiset(b)
    ensures Verdict(a) == Verdict(b)
  {
    forall r: TestResult ensures r in Seen(a) <==> r in Seen(b) {
      SeenMember(a, b, r);
      SeenMember(b, a, r);
    }
    NoResultMember(a, b);
    NoResultMember(b, a);
  }

  lemma SeenMember(a: seq<Iteration>, b: seq<Iteration>, r: TestResult)
    requires multiset(a) == multiset(b)
    ensures r in Seen(a) ==> r in Seen(b)
  {
    SeenHolds(a, r);
    SeenHolds(b, r);
    if i :| 0 <= i < |a| && r in Contribution(a[i]) {
      assert a[i] in multiset(b);
      var j :| 0 <= j < |b| && b[j] == a[i];
    }
  }

  lemma NoResultMember(a: seq<Iteration>, b: seq<Iteration>)
    requires multiset(a) == multiset(b)
    ensures AnyNoResult(a) ==> AnyNoResult(b)
  {
    if i :| 0 <= i < |a| && NoResult(a[i]) {
      assert a[i] in multiset(b);
      var j :| 0 <= j < |b| && b[j] == a[i];
    }
  }

  // ------------------------------------------------------------- the verdict in terms of the results

  /** Some action of some GPU in some iteration has this result. */
  ghost predicate HasResult(its: seq<Iteration>, r: TestResult) {
    exists i, gpu, action :: 0 <= i < |its| && gpu in its[i].suites && action in its[i].suites[gpu] &&
                             its[i].suites[gpu][action] == r
  }

  /** An iteration ended without a timeout and without any result. */
  ghost predicate HasEmpty(its: seq<Iteration>) {
    exists i :: 0 <= i < |its| && its[i].suites == map[] && its[i].status != TestTimedOut
  }

  ghost predicate HasTimeout(its: seq<Iteration>) {
    exists i :: 0 <= i < |its| && its[i].status == TestTimedOut
  }

  lemma SeenMeans(its: seq<Iteration>, r: TestResult)
    ensures r in Seen(its) <==> HasResult(its, r) || (r == Timedout && HasTimeout(its))
  {
    SeenHolds(its, r);
    if r in Seen(its) {
      var i :| 0 <= i < |its| && r in Contribution(its[i]);
      if r in ResultsOf(its[i]) {
        var gpu, action :| gpu in its[i].suites && action in its[i].suites[gpu] && its[i].suites[gpu][action] == r;
      } else {
        assert its[i].status == TestTimedOut;
      }
    }
    if HasResult(its, r) {
      var i, gpu, action :| 0 <= i < |its| && gpu in its[i].suites && action in its[i].suites[gpu] &&
                            its[i].suites[gpu][action] == r;
      assert r in ResultsOf(its[i]) && r in Contribution(its[i]);
    }
    if HasTimeout(its) {
      var i :| 0 <= i < |its| && its[i].status == TestTimedOut;
      assert Timedout in Contribution(its[i]);
    }
  }

  /** The verdict on the results themselves: a failure or an empty iteration wins over a timeout,
      a timeout over a queued result, a queued result over the rest, and a skipped result counts
      only when nothing passed. */
  lemma VerdictMeans(its: seq<Iteration>)
    ensures var failed := HasResult(its, Failure) || HasEmpty(its);
            var timedOut := HasResult(its, Timedout) || HasTimeout(its);
            && (Verdict(its) == Failure <==> failed)
            && (Verdict(its) == Timedout <==> !failed && timedOut)
            && (Verdict(its) == Queued <==> !failed && !timedOut && HasResult(its, Queued))
            && (Verdict(its) == Skipped <==>
                !failed && !timedOut && !HasResult(its, Queued) && HasResult(its, Skipped) && !HasResult(its, Success))
            && Verdict(its) in {Failure, Timedout, Queued, Skipped, Success}
  {
    SeenMeans(its, Failure);
    SeenMeans(its, Timedout);
    SeenMeans(its, Queued);
    SeenMeans(its, Skipped);
    SeenMeans(its, Success);
    assert AnyNoResult(its) <==> HasEmpty(its) by {
      assert forall i :: 0 <= i < |its| ==>
                (NoResult(its[i]) <==> its[i].suites == map[] && its[i].status != TestTimedOut);
    }
  }

  /** What a call leaves in the iterations: an empty one that did not time out, before the first
      failing one, records a failure for every tested device; all others stay as they were. */
  lemma FilledMeans(its: seq<Iteration>, ids: seq<string>, i: nat)
    requires i < |its|
    ensures var it, filled := its[i], FillFirst(its, FirstFailing(its), ids)[i];
            && filled.number == it.number && filled.status == it.status
            && if it.suites == map[] && it.status != TestTimedOut &&
                  (forall k, gpu, action :: 0 <= k < i && gpu in its[k].suites && action in its[k].suites[gpu] ==>
                     its[k].suites[gpu][action] != Failure)
               then
                 && (forall id :: id in filled.suites <==> id in ids)
                 && (forall id :: id in ids ==> filled.suites[id] == map["result" := Failure])
               else filled == it
  {
    var n := FirstFailing(its);
    assert its[i].suites == map[] ==> ResultsOf(its[i]) == {};
    if i < n {
      forall k, gpu, action | 0 <= k < i && gpu in its[k].suites && action in its[k].suites[gpu]
        ensures its[k].suites[gpu][action] != Failure
      {
        assert its[k].suites[gpu][action] in ResultsOf(its[k]);
      }
    } else if n < i {
      var gpu, action :| gpu in its[n].suites && action in its[n].suites[gpu] && its[n].suites[gpu][action] == Failure;
    }
  }
}
