/** One event service: a bounded queue, a single dispatcher, asynchronous and synchronous
    emitters (pkg/events/service.go).

    Every channel operation is one step and the steps of all goroutines interleave freely.
    An emitter that obtained the service earlier may still use it after it was stopped. */
module EventDispatcher {
  import Sequences

  const QUEUE_SIZE: nat := 64

  /** A queued event; a synchronous one carries a reply channel of capacity one. */
  datatype Envelope = Envelope(id: nat, sync: bool)

  /** Selecting waits for an event or the stop signal; Draining empties the queue after it. */
  datatype Dispatcher = Selecting | Delivering(env: Envelope, draining: bool) | Draining | Exited

  /** The one execution of fatal: it emits its event synchronously, waits for the reply or the
      timeout, runs the cleanup and calls the exit function. */
  datatype FatalCall =
    | NotCalled
    | Entered
    | Waiting(id: nat)
    | Answered(id: nat, timedOut: bool)
    | CleanedUp(id: nat, timedOut: bool)
    | Gone(id: nat, timedOut: bool)

  predicate HasEvent(f: FatalCall) {
    f.Waiting? || f.Answered? || f.CleanedUp? || f.Gone?
  }

  predicate IsAnswered(f: FatalCall) {
    f.Answered? || f.CleanedUp? || f.Gone?
  }

  /** A service. The histories: used are the identifiers handed out, accepted the events that
      entered the queue in order, dispatched the events the dispatcher delivered in order,
      dropped the discarded asynchronous events, direct the synchronous events being delivered
      by their own emitter and directDone those so delivered, replies and received the sends to
      and receives from each reply channel, closes the number of closes of the stop channel,
      atStop the number of events accepted before the first of them, cleanups and exits the
      calls of the cleanup and of the exit function. */
  datatype Service = Service(
    queue: seq<Envelope>,
    stopped: bool,
    dispatcher: Dispatcher,
    fatal: FatalCall,
    used: set<nat>,
    accepted: seq<Envelope>,
    dispatched: seq<Envelope>,
    dropped: seq<nat>,
    direct: set<nat>,
    directDone: set<nat>,
    replies: multiset<nat>,
    received: multiset<nat>,
    closes: nat,
    atStop: nat,
    cleanups: nat,
    exits: nat)

  const NEW_SERVICE :=
    Service([], false, Selecting, NotCalled, {}, [], [], [], {}, {}, multiset{}, multiset{}, 0, 0, 0, 0)

  datatype Action =
    | EmitAsync(id: nat) | EmitSync(id: nat)
    | DirectDeliver(id: nat)
    | Receive | SeeStop | DrainReceive | DrainEnd | Delivered
    | CallerReceives(id: nat)
    | EnterFatal | FatalEmit(id: nat) | FatalReceives | FatalTimesOut | FatalCleanup | ExitProcess

  predicate IsDispatch(a: Action) {
    a.Receive? || a.SeeStop? || a.DrainReceive? || a.DrainEnd? || a.Delivered?
  }

  /** A reply channel has room when its single slot is empty. */
  predicate ReplyHasRoom(s: Service, id: nat) {
    s.replies[id] < s.received[id] + 1
  }

  function Enqueue(s: Service, env: Envelope): Service {
    s.(queue := s.queue + [env], accepted := s.accepted + [env], used := s.used + {env.id})
  }

  /** A synchronous event enters the queue or, when that is full, is delivered by its emitter. */
  function SyncEmit(s: Service, id: nat): Service {
    if |s.queue| < QUEUE_SIZE then Enqueue(s, Envelope(id, true))
    else s.(direct := s.direct + {id}, used := s.used + {id})
  }

  ghost predicate Step(s: Service, a: Action, s': Service) {
    match a
    case EmitAsync(id) =>
      id !in s.used &&
      s' == if |s.queue| < QUEUE_SIZE then Enqueue(s, Envelope(id, false))
            else s.(dropped := s.dropped + [id], used := s.used + {id})
    case EmitSync(id) =>
      id !in s.used && s' == SyncEmit(s, id)
    case DirectDeliver(id) =>
      id in s.direct && ReplyHasRoom(s, id) &&
      s' == s.(direct := s.direct - {id}, directDone := s.directDone + {id}, replies := s.replies + multiset{id})
    case Receive =>
      s.dispatcher == Selecting && s.queue != [] &&
      s' == s.(dispatcher := Delivering(s.queue[0], false), queue := s.queue[1..])
    case SeeStop =>
      s.dispatcher == Selecting && s.stopped && s' == s.(dispatcher := Draining)
    case DrainReceive =>
      s.dispatcher == Draining && s.queue != [] &&
      s' == s.(dispatcher := Delivering(s.queue[0], true), queue := s.queue[1..])
    case DrainEnd =>
      s.dispatcher == Draining && s.queue == [] && s' == s.(dispatcher := Exited)
    case Delivered =>
      s.dispatcher.Delivering? && (s.dispatcher.env.sync ==> ReplyHasRoom(s, s.dispatcher.env.id)) &&
      s' == s.(dispatcher := if s.dispatcher.draining then Draining else Selecting,
               dispatched := s.dispatched + [s.dispatcher.env],
               replies := s.replies + if s.dispatcher.env.sync then multiset{s.dispatcher.env.id} else multiset{})
    case CallerReceives(id) =>
      s.replies[id] > s.received[id] && !(HasEvent(s.fatal) && s.fatal.id == id) &&
      s' == s.(received := s.received + multiset{id})
    case EnterFatal =>
      s.fatal == NotCalled && s' == s.(fatal := Entered)
    case FatalEmit(id) =>
      s.fatal == Entered && id !in s.used && s' == SyncEmit(s, id).(fatal := Waiting(id))
    case FatalReceives =>
      s.fatal.Waiting? && s.fatal.id !in s.direct && s.replies[s.fatal.id] > s.received[s.fatal.id] &&
      s' == s.(received := s.received + multiset{s.fatal.id}, fatal := Answered(s.fatal.id, false))
    case FatalTimesOut =>
      s.fatal.Waiting? && s.fatal.id !in s.direct && s' == s.(fatal := Answered(s.fatal.id, true))
    case FatalCleanup =>
      s.fatal.Answered? &&
      s' == s.(fatal := CleanedUp(s.fatal.id, s.fatal.timedOut), cleanups := s.cleanups + 1)
    case ExitProcess =>
      s.fatal.CleanedUp? && s' == s.(fatal := Gone(s.fatal.id, s.fatal.timedOut), exits := s.exits + 1)
  }

  /** stop closes the stop channel. */
  function CloseStop(s: Service): Service {
    s.(stopped := true, closes := s.closes + 1, atStop := if s.stopped then s.atStop else |s.accepted|)
  }

  // ------------------------------------------------------------- the invariant

  function InDelivery(s: Service): seq<Envelope> {
    if s.dispatcher.Delivering? then [s.dispatcher.env] else []
  }

  predicate DistinctIds(envs: seq<Envelope>) {
    forall i, j :: 0 <= i < j < |envs| ==> envs[i].id != envs[j].id
  }

  /** The events that entered the queue are, in order, the delivered ones, the one being
      delivered and the waiting ones. */
  ghost predicate QueueInv(s: Service) {
    && |s.queue| <= QUEUE_SIZE
    && s.accepted == s.dispatched + InDelivery(s) + s.queue
    && DistinctIds(s.accepted)
    && (forall i :: 0 <= i < |s.accepted| ==> s.accepted[i].id in s.used && s.accepted[i].id !in s.direct)
    && s.direct <= s.used
  }

  /** The event entered the queue. */
  predicate Queued(s: Service, id: nat) {
    exists k :: 0 <= k < |s.accepted| && s.accepted[k].id == id
  }

  /** Every event handed to the service entered the queue, was dropped, or is or was delivered
      by its own emitter, and only one of these. */
  ghost predicate AccountInv(s: Service) {
    && (forall id :: id in s.used <==> Queued(s, id) || id in s.dropped || id in s.direct || id in s.directDone)
    && (forall id :: id in s.dropped ==> !Queued(s, id))
    && (forall id :: id in s.direct ==> !Queued(s, id) && id !in s.dropped)
    && (forall id :: id in s.directDone ==> !Queued(s, id) && id !in s.dropped && id !in s.direct)
  }

  /** The synchronous event was delivered, by the dispatcher or by its own emitter. */
  predicate SyncDelivered(s: Service, id: nat) {
    id in s.directDone || exists k :: 0 <= k < |s.dispatched| && s.dispatched[k] == Envelope(id, true)
  }

  /** A reply was sent exactly for the synchronous events whose delivery is over, once each. */
  ghost predicate ReplyInv(s: Service) {
    && (forall id :: s.received[id] <= s.replies[id] <= 1)
    && (forall id :: id in s.replies <==> SyncDelivered(s, id))
  }

  ghost predicate StopInv(s: Service) {
    && (s.stopped ==> s.atStop <= |s.accepted|)
    && (s.dispatcher == Draining || s.dispatcher == Exited || (s.dispatcher.Delivering? && s.dispatcher.draining)
        ==> s.stopped)
    && (s.dispatcher == Exited ==> s.atStop <= |s.dispatched|)
  }

  /** The event of fatal was emitted, and without a timeout it was delivered before the cleanup;
      cleanup and exit come once each and in this order. */
  ghost predicate FatalInv(s: Service) {
    && s.cleanups == (if s.fatal.CleanedUp? || s.fatal.Gone? then 1 else 0)
    && s.exits == (if s.fatal.Gone? then 1 else 0)
    && (HasEvent(s.fatal) ==> s.fatal.id in s.used && s.fatal.id !in s.dropped)
    && (IsAnswered(s.fatal) && !s.fatal.timedOut ==> s.fatal.id in s.replies)
  }

  ghost predicate Inv(s: Service) {
    QueueInv(s) && AccountInv(s) && ReplyInv(s) && StopInv(s) && FatalInv(s)
  }

  lemma TakeHead(s: Service, s': Service)
    requires QueueInv(s) && !s.dispatcher.Delivering? && s.queue != []
    requires s'.dispatcher.Delivering? && s'.dispatcher.env == s.queue[0] && s'.queue == s.queue[1..]
    ensures s.dispatched + InDelivery(s') + s'.queue == s.accepted
  {
    assert s.queue == [s.queue[0]] + s.queue[1..];
  }

  lemma EnqueueStep(s: Service, env: Envelope)
    requires QueueInv(s) && |s.queue| < QUEUE_SIZE && env.id !in s.used
    ensures QueueInv(Enqueue(s, env))
  {
    Sequences.Regroup(s.dispatched + InDelivery(s), s.queue, [env]);
  }

  lemma QueueStep(s: Service, a: Action, s': Service)
    requires QueueInv(s) && Step(s, a, s')
    ensures QueueInv(s')
  {
    if a.EmitAsync? || a.EmitSync? || a.FatalEmit? {
      if |s.queue| < QUEUE_SIZE {
        EnqueueStep(s, Envelope(a.id, !a.EmitAsync?));
      }
    } else if a.Receive? || a.DrainReceive? {
      TakeHead(s, s');
    } else if a.Delivered? {
      Sequences.Regroup(s.dispatched + [s.dispatcher.env], [], s.queue);
    }
  }

  lemma QueuedSnoc(s: Service, s': Service, env: Envelope, id: nat)
    requires s'.accepted == s.accepted + [env]
    ensures Queued(s', id) <==> Queued(s, id) || id == env.id
  {
    if k :| 0 <= k < |s.accepted| && s.accepted[k].id == id {
      assert s'.accepted[k].id == id;
    }
    assert s'.accepted[|s.accepted|] == env;
  }

  lemma AccountOfEnqueue(s: Service, env: Envelope)
    requires AccountInv(s) && env.id !in s.used
    ensures AccountInv(Enqueue(s, env))
  {
    var s' := Enqueue(s, env);
    forall id ensures Queued(s', id) <==> Queued(s, id) || id == env.id {
      QueuedSnoc(s, s', env, id);
    }
  }

  lemma AccountStep(s: Service, a: Action, s': Service)
    requires AccountInv(s) && Step(s, a, s')
    ensures AccountInv(s')
  {
    if (a.EmitAsync? || a.EmitSync? || a.FatalEmit?) && |s.queue| < QUEUE_SIZE {
      var s1 := Enqueue(s, Envelope(a.id, !a.EmitAsync?));
      AccountOfEnqueue(s, Envelope(a.id, !a.EmitAsync?));
      assert s' == s1.(fatal := s'.fatal);
      assert forall id :: Queued(s', id) <==> Queued(s1, id);
    } else {
      assert s'.accepted == s.accepted;
      assert forall id :: Queued(s', id) <==> Queued(s, id);
    }
  }

  lemma DispatchedSnoc(s: Service, s': Service, env: Envelope, id: nat)
    requires s'.dispatched == s.dispatched + [env] && s'.directDone == s.directDone
    ensures SyncDelivered(s', id) <==> SyncDelivered(s, id) || env == Envelope(id, true)
  {
    if k :| 0 <= k < |s.dispatched| && s.dispatched[k] == Envelope(id, true) {
      assert s'.dispatched[k] == s.dispatched[k];
    }
    assert s'.dispatched[|s.dispatched|] == env;
  }

  /** The event in delivery and the events being delivered directly have no reply yet. */
  lemma NoReplyYet(s: Service)
    requires QueueInv(s) && AccountInv(s) && ReplyInv(s)
    ensures s.dispatcher.Delivering? ==> s.dispatcher.env.id !in s.replies
    ensures forall id :: id in s.direct ==> id !in s.replies
  {
    if s.dispatcher.Delivering? {
      var n, env := |s.dispatched|, s.dispatcher.env;
      assert s.accepted[n] == env && Queued(s, env.id);
      assert forall k :: 0 <= k < n ==> s.dispatched[k] == s.accepted[k] && s.accepted[k].id != s.accepted[n].id;
    }
    forall id | id in s.direct ensures id !in s.replies {
      assert forall k :: 0 <= k < |s.dispatched| ==> s.dispatched[k] == s.accepted[k];
    }
  }

  lemma ReplyStep(s: Service, a: Action, s': Service)
    requires QueueInv(s) && AccountInv(s) && ReplyInv(s) && Step(s, a, s')
    ensures ReplyInv(s')
  {
    NoReplyYet(s);
    if a.Delivered? {
      DeliveredStep(s, s');
    } else if a.DirectDeliver? {
      DirectStep(s, a.id, s');
    } else {
      assert s'.replies == s.replies && s'.dispatched == s.dispatched && s'.directDone == s.directDone;
      assert forall id :: SyncDelivered(s', id) <==> SyncDelivered(s, id);
    }
  }

  lemma DirectStep(s: Service, e: nat, s': Service)
    requires ReplyInv(s) && Step(s, DirectDeliver(e), s') && e !in s.replies
    ensures ReplyInv(s')
  {
    assert forall id :: SyncDelivered(s', id) <==> SyncDelivered(s, id) || id == e;
  }

  lemma DeliveredStep(s: Service, s': Service)
    requires ReplyInv(s) && Step(s, Delivered, s') && s.dispatcher.env.id !in s.replies
    ensures ReplyInv(s')
  {
    forall id ensures SyncDelivered(s', id) <==> SyncDelivered(s, id) || s.dispatcher.env == Envelope(id, true) {
      DispatchedSnoc(s, s', s.dispatcher.env, id);
    }
  }

  lemma StopStep(s: Service, a: Action, s': Service)
    requires QueueInv(s) && StopInv(s) && Step(s, a, s')
    ensures StopInv(s')
  {
  }

  lemma FatalStep(s: Service, a: Action, s': Service)
    requires FatalInv(s) && AccountInv(s) && Step(s, a, s')
    ensures FatalInv(s')
  {
  }

  /** No step but stop itself touches the stop channel. */
  lemma StopOnlyByStop(s: Service, a: Action, s': Service)
    requires Step(s, a, s')
    ensures s'.closes == s.closes && s'.stopped == s.stopped
  {
  }

  lemma InvStep(s: Service, a: Action, s': Service)
    requires Inv(s) && Step(s, a, s')
    ensures Inv(s')
  {
    QueueStep(s, a, s');
    AccountStep(s, a, s');
    ReplyStep(s, a, s');
    StopStep(s, a, s');
    FatalStep(s, a, s');
  }

  lemma CloseKeepsInv(s: Service)
    requires Inv(s)
    ensures Inv(CloseStop(s))
  {
  }

  // ------------------------------------------------------------- consequences

  /** A delivery never waits on the reply channel, whether or not its caller still listens. */
  lemma ReplyNeverBlocks(s: Service)
    requires Inv(s)
    ensures s.dispatcher.Delivering? ==> ReplyHasRoom(s, s.dispatcher.env.id)
    ensures forall id :: id in s.direct ==> ReplyHasRoom(s, id)
  {
    NoReplyYet(s);
  }

  /** Whatever was queued when the stop signal was given has been delivered, once each and in
      order, when the dispatcher has exited. */
  lemma DrainedAtExit(s: Service)
    requires Inv(s) && s.dispatcher == Exited
    ensures s.stopped && s.atStop <= |s.dispatched| <= |s.accepted|
    ensures s.dispatched[..s.atStop] == s.accepted[..s.atStop] && DistinctIds(s.dispatched)
  {
    assert s.dispatched == s.accepted[..|s.dispatched|];
  }

  lemma NothingAfterExit(s: Service, a: Action, s': Service)
    requires Step(s, a, s') && s.dispatcher == Exited
    ensures s'.dispatcher == Exited && s'.dispatched == s.dispatched && s.queue <= s'.queue
    ensures !IsDispatch(a) && |s.accepted| <= |s'.accepted|
  {
  }

  lemma DroppedOnlyWhenFull(s: Service, a: Action, s': Service, e: nat)
    requires QueueInv(s) && Step(s, a, s') && e in s'.dropped
    ensures e in s.dropped || (a == EmitAsync(e) && |s.queue| == QUEUE_SIZE)
  {
  }

  ghost predicate CanDispatch(s: Service) {
    exists a, s' :: Step(s, a, s') && IsDispatch(a)
  }

  /** Once the stop signal is given the dispatcher can always take a step until it exits, so
      waiting for it cannot deadlock. */
  lemma StopMakesProgress(s: Service)
    requires Inv(s) && s.stopped && s.dispatcher != Exited
    ensures CanDispatch(s)
  {
    ReplyNeverBlocks(s);
    match s.dispatcher
    case Selecting =>
      assert Step(s, SeeStop, s.(dispatcher := Draining));
    case Draining =>
      if s.queue == [] {
        assert Step(s, DrainEnd, s.(dispatcher := Exited));
      } else {
        assert Step(s, DrainReceive, s.(dispatcher := Delivering(s.queue[0], true), queue := s.queue[1..]));
      }
    case Delivering(env, draining) =>
      assert Step(s, Delivered,
                  s.(dispatcher := if draining then Draining else Selecting, dispatched := s.dispatched + [env],
                     replies := s.replies + if env.sync then multiset{env.id} else multiset{}));
  }

  // ------------------------------------------------------------- what is kept

  /** The histories only grow, and what was accepted before a stop signal counts as such. */
  ghost predicate KeptSince(s: Service, s': Service) {
    && s.accepted <= s'.accepted && s.dispatched <= s'.dispatched
    && (forall e :: e in s.dropped ==> e in s'.dropped)
    && (forall e :: e in s.direct || e in s.directDone ==> e in s'.direct || e in s'.directDone)
    && (s.stopped ==> s'.stopped && s'.atStop == s.atStop)
    && (!s.stopped && s'.stopped ==> |s.accepted| <= s'.atStop)
  }

  lemma StepKeeps(s: Service, a: Action, s': Service)
    requires Step(s, a, s')
    ensures KeptSince(s, s')
  {
  }

  lemma KeptTransitive(s0: Service, s: Service, s': Service)
    requires KeptSince(s0, s) && KeptSince(s, s')
    ensures KeptSince(s0, s')
  {
  }

  // ------------------------------------------------------------- how long a stop takes

  /** The dispatcher steps left until a stopped service exits if nothing more is queued. */
  function Remaining(s: Service): nat {
    match s.dispatcher
    case Exited => 0
    case Draining => 2 * |s.queue| + 1
    case Selecting => 2 * |s.queue| + 2
    case Delivering(_, draining) => 2 * |s.queue| + if draining then 2 else 3
  }

  /** Each dispatcher step uses up exactly one, each queued event costs exactly two, and no other
      step matters. */
  lemma RemainingStep(s: Service, a: Action, s': Service)
    requires Step(s, a, s') && s.stopped && s.dispatcher != Exited
    ensures |s.accepted| <= |s'.accepted| && s'.stopped
    ensures Remaining(s') + (if IsDispatch(a) then 1 else 0) ==
            Remaining(s) + 2 * (|s'.accepted| - |s.accepted|)
  {
  }
}

/** The package-level singleton (pkg/events/events.go). Init and Stop hold the mutex while the
    old service drains; emitters read the singleton under it and may keep the service they
    read for any length of time, so every service ever created can still receive events. */
module EventLifecycle {
  import opened Wrappers
  import D = EventDispatcher

  /** The mutex: free, or held by an Init or Stop that waits for a service to drain and will
      then install the next singleton, if any. */
  datatype Mutex = Free | Waiting(old_: nat, next: Option<nat>)

  datatype System = System(services: map<nat, D.Service>, current: Option<nat>, mu: Mutex)

  const START := System(map[], None, Free)

  datatype Action =
    | Init(id: nat) | Stop | StopReturns
    | OnService(id: nat, a: D.Action)

  ghost predicate Step(s: System, a: Action, s': System) {
    match a
    case Init(id) =>
      s.mu == Free && id !in s.services &&
      (match s.current
       case None => s' == s.(services := s.services[id := D.NEW_SERVICE], current := Some(id))
       case Some(c) =>
         c in s.services &&
         s' == s.(services := s.services[c := D.CloseStop(s.services[c])], mu := Waiting(c, Some(id))))
    case Stop =>
      s.mu == Free &&
      (match s.current
       case None => s' == s
       case Some(c) =>
         c in s.services &&
         s' == s.(services := s.services[c := D.CloseStop(s.services[c])], mu := Waiting(c, None)))
    case StopReturns =>
      s.mu.Waiting? && s.mu.old_ in s.services && s.services[s.mu.old_].dispatcher == D.Exited &&
      s' == System(if s.mu.next.Some? then s.services[s.mu.next.value := D.NEW_SERVICE] else s.services,
                   s.mu.next, Free)
    case OnService(id, a) =>
      id in s.services && id in s'.services && D.Step(s.services[id], a, s'.services[id]) &&
      s' == s.(services := s.services[id := s'.services[id]])
  }

  ghost predicate StepAt(run: seq<System>, actions: seq<Action>, i: nat) {
    i < |actions| && i + 1 < |run| && Step(run[i], actions[i], run[i + 1])
  }

  ghost predicate IsRun(run: seq<System>, actions: seq<Action>) {
    && |run| == |actions| + 1 && run[0] == START
    && forall i :: 0 <= i < |actions| ==> StepAt(run, actions, i)
  }

  predicate ClosedOnce(service: D.Service, closed: bool) {
    service.stopped == closed && service.closes == if closed then 1 else 0
  }

  /** A service is open while it is the singleton and nobody is replacing it; every other
      service was stopped exactly once. */
  ghost predicate OpenInv(s: System) {
    && (forall id :: id in s.services ==> ClosedOnce(s.services[id], !(s.current == Some(id) && s.mu == Free)))
    && (s.current.Some? ==> s.current.value in s.services)
    && (s.mu.Waiting? ==>
          s.current == Some(s.mu.old_) && (s.mu.next.Some? ==> s.mu.next.value !in s.services))
  }

  ghost predicate Inv(s: System) {
    && OpenInv(s)
    && (forall id :: id in s.services ==> D.Inv(s.services[id]))
  }

  lemma OpenStep(s: System, a: Action, s': System)
    requires Inv(s) && Step(s, a, s')
    ensures OpenInv(s')
  {
    if a.OnService? {
      D.StopOnlyByStop(s.services[a.id], a.a, s'.services[a.id]);
      UnrelatedChange(s, a.id, s'.services[a.id]);
    }
  }

  lemma UnrelatedChange(s: System, id: nat, service: D.Service)
    requires OpenInv(s) && id in s.services
    requires service.closes == s.services[id].closes && service.stopped == s.services[id].stopped
    ensures OpenInv(s.(services := s.services[id := service]))
  {
  }

  lemma ServicesStep(s: System, a: Action, s': System, id: nat)
    requires Inv(s) && Step(s, a, s') && id in s'.services
    ensures D.Inv(s'.services[id])
  {
    if id in s.services {
      assert D.Inv(s.services[id]);
      ServiceChange(s, a, s', id);
      if a.OnService? && a.id == id {
        D.InvStep(s.services[id], a.a, s'.services[id]);
      } else {
        D.CloseKeepsInv(s.services[id]);
      }
    } else {
      assert s'.services[id] == D.NEW_SERVICE;
    }
  }

  lemma InvStep(s: System, a: Action, s': System)
    requires Inv(s) && Step(s, a, s')
    ensures Inv(s')
  {
    OpenStep(s, a, s');
    forall id | id in s'.services ensures D.Inv(s'.services[id]) {
      ServicesStep(s, a, s', id);
    }
  }

  lemma {:induction false} InvOfRun(run: seq<System>, actions: seq<Action>, k: nat)
    requires IsRun(run, actions) && k < |run|
    ensures Inv(run[k])
  {
    if k > 0 {
      InvOfRun(run, actions, k - 1);
      InvStepOfRun(run, actions, k - 1);
    }
  }

  lemma InvStepOfRun(run: seq<System>, actions: seq<Action>, k: nat)
    requires StepAt(run, actions, k) && Inv(run[k])
    ensures Inv(run[k + 1])
  {
    InvStep(run[k], actions[k], run[k + 1]);
  }

  /** In every run each service's stop channel is closed at most once, its exit function is
      called at most once and its queue never exceeds its capacity. */
  lemma ClosedAndExitedAtMostOnce(run: seq<System>, actions: seq<Action>, i: nat, id: nat)
    requires IsRun(run, actions) && i < |run| && id in run[i].services
    ensures run[i].services[id].closes <= 1 && run[i].services[id].exits <= 1
    ensures |run[i].services[id].queue| <= D.QUEUE_SIZE
  {
    InvOfRun(run, actions, i);
    assert D.Inv(run[i].services[id]);
  }

  lemma {:induction false} HistoryKept(run: seq<System>, actions: seq<Action>, i: nat, k: nat, id: nat)
    requires IsRun(run, actions) && i <= k < |run| && id in run[i].services
    ensures id in run[k].services && D.KeptSince(run[i].services[id], run[k].services[id])
  {
    if i < k {
      HistoryKept(run, actions, i, k - 1, id);
      HistoryStep(run, actions, k - 1, id);
      D.KeptTransitive(run[i].services[id], run[k - 1].services[id], run[k].services[id]);
    }
  }

  lemma HistoryStep(run: seq<System>, actions: seq<Action>, k: nat, id: nat)
    requires IsRun(run, actions) && k < |actions| && id in run[k].services
    ensures id in run[k + 1].services && D.KeptSince(run[k].services[id], run[k + 1].services[id])
  {
    var s, a, s' := run[k], actions[k], run[k + 1];
    assert StepAt(run, actions, k);
    InvOfRun(run, actions, k);
    ServiceChange(s, a, s', id);
    if a.OnService? && a.id == id {
      D.StepKeeps(s.services[id], a.a, s'.services[id]);
    }
  }

  /** An asynchronous event that meets a queue with room enters it for good; one that meets a full
      queue is dropped. */
  lemma AsyncEventEnters(run: seq<System>, actions: seq<Action>, i: nat, k: nat, id: nat, e: nat)
    requires IsRun(run, actions) && i < k < |run| && actions[i] == OnService(id, D.EmitAsync(e))
    ensures id in run[i].services && id in run[k].services
    ensures |run[i].services[id].queue| < 64 ==> D.Envelope(e, false) in run[k].services[id].accepted
    ensures |run[i].services[id].queue| >= 64 ==> e in run[k].services[id].dropped
  {
    assert StepAt(run, actions, i);
    var s := run[i + 1].services[id];
    HistoryKept(run, actions, i + 1, k, id);
    if |run[i].services[id].queue| < 64 {
      assert s.accepted[|s.accepted| - 1] == D.Envelope(e, false);
      assert run[k].services[id].accepted[|s.accepted| - 1] == D.Envelope(e, false);
    } else {
      assert s.dropped[|s.dropped| - 1] == e;
    }
  }

  /** A synchronous event is never dropped: it enters the queue if there is room, and otherwise
      its own emitter delivers it. */
  lemma SyncEventIsKept(run: seq<System>, actions: seq<Action>, i: nat, k: nat, id: nat, e: nat)
    requires IsRun(run, actions) && i < k < |run|
    requires actions[i] == OnService(id, D.EmitSync(e)) || actions[i] == OnService(id, D.FatalEmit(e))
    ensures id in run[i].services && id in run[k].services
    ensures |run[i].services[id].queue| < 64 ==> D.Envelope(e, true) in run[k].services[id].accepted
    ensures |run[i].services[id].queue| >= 64 ==>
              e in run[k].services[id].direct || e in run[k].services[id].directDone
  {
    assert StepAt(run, actions, i);
    var s := run[i + 1].services[id];
    HistoryKept(run, actions, i + 1, k, id);
    if |run[i].services[id].queue| < 64 {
      assert s.accepted[|s.accepted| - 1] == D.Envelope(e, true);
      assert run[k].services[id].accepted[|s.accepted| - 1] == D.Envelope(e, true);
    }
  }

  /** Every event is accounted for: it entered the queue, was dropped, or is or was delivered by
      its own emitter; a reply was sent exactly for the synchronous events that were delivered. */
  lemma EventsAreAccountedFor(run: seq<System>, actions: seq<Action>, k: nat, id: nat, e: nat)
    requires IsRun(run, actions) && k < |run| && id in run[k].services
    ensures var s := run[k].services[id];
            && (e in s.used <==> D.Queued(s, e) || e in s.dropped || e in s.direct || e in s.directDone)
            && (e in s.dropped ==> !D.Queued(s, e) && e !in s.direct && e !in s.directDone)
            && (e in s.replies <==> e in s.directDone || D.Envelope(e, true) in s.dispatched)
            && s.received[e] <= s.replies[e] <= 1
  {
    InvOfRun(run, actions, k);
    var s := run[k].services[id];
    assert D.Inv(s);
    assert D.Envelope(e, true) in s.dispatched <==>
           exists j :: 0 <= j < |s.dispatched| && s.dispatched[j] == D.Envelope(e, true);
  }

  /** An event emitted before the stop signal into a queue with room has been delivered when Stop
      or a replacing Init returns. */
  lemma EmittedBeforeStopIsDelivered(run: seq<System>, actions: seq<Action>, i: nat, k: nat, id: nat, e: nat)
    requires IsRun(run, actions) && i < k < |actions| && actions[i] == OnService(id, D.EmitAsync(e))
    requires id in run[i].services && |run[i].services[id].queue| < 64 && !run[i].services[id].stopped
    requires actions[k] == StopReturns && run[k].mu.Waiting? && run[k].mu.old_ == id
    ensures id in run[k].services && D.Envelope(e, false) in run[k].services[id].dispatched
  {
    assert StepAt(run, actions, i) && StepAt(run, actions, k);
    HistoryKept(run, actions, i + 1, k, id);
    InvOfRun(run, actions, k);
    var s, s' := run[i + 1].services[id], run[k].services[id];
    D.DrainedAtExit(s');
    var n := |s.accepted| - 1;
    assert s.accepted[n] == D.Envelope(e, false) && !s.stopped;
    assert s'.accepted[n] == s.accepted[n] && s'.dispatched[..s'.atStop][n] == s'.accepted[..s'.atStop][n];
  }

  /** Init without a service installs an open, empty one at once; Init with a service stops that
      one and installs the new one when it has drained; Stop leaves none. */
  lemma InitInstalls(run: seq<System>, actions: seq<Action>, i: nat)
    requires IsRun(run, actions) && i < |actions|
    ensures actions[i].Init? && run[i].current.None? ==>
              run[i + 1].current == Some(actions[i].id) && Serves(run[i + 1], actions[i].id)
    ensures actions[i].Init? && run[i].current.Some? ==>
              run[i + 1].mu == Waiting(run[i].current.value, Some(actions[i].id))
    ensures actions[i] == Stop && run[i].current.Some? ==> run[i + 1].mu == Waiting(run[i].current.value, None)
    ensures actions[i] == StopReturns ==>
              && run[i].mu.Waiting? && run[i + 1].current == run[i].mu.next
              && (run[i].mu.next.Some? ==> Serves(run[i + 1], run[i].mu.next.value))
    ensures actions[i].OnService? ==> run[i + 1].current == run[i].current && run[i + 1].mu == run[i].mu
  {
    assert StepAt(run, actions, i);
  }

  /** The service is open, empty and its dispatcher is running. */
  predicate Serves(s: System, id: nat) {
    && s.mu == Free && id in s.services && !s.services[id].stopped
    && s.services[id].queue == [] && s.services[id].dispatcher == D.Selecting
  }

  /** When Stop or a replacing Init returns, the old service has delivered every event that
      was queued before the stop signal, once each and in queue order. */
  lemma StopDelivers(run: seq<System>, actions: seq<Action>, i: nat)
    requires IsRun(run, actions) && i < |actions| && actions[i].StopReturns?
    ensures var s := run[i];
            && s.mu.Waiting? && s.mu.old_ in s.services
            && var old_ := s.services[s.mu.old_];
               && old_.atStop <= |old_.dispatched| <= |old_.accepted|
               && old_.dispatched[..old_.atStop] == old_.accepted[..old_.atStop]
               && D.DistinctIds(old_.dispatched)
  {
    InvOfRun(run, actions, i);
    assert StepAt(run, actions, i);
    D.DrainedAtExit(run[i].services[run[i].mu.old_]);
  }

  /** In every run the reply to a synchronous event never waits, even when its caller has given
      up: neither the dispatcher nor a directly delivering emitter can block on it. */
  lemma RepliesNeverBlock(run: seq<System>, actions: seq<Action>, i: nat, id: nat)
    requires IsRun(run, actions) && i < |run| && id in run[i].services
    ensures var s := run[i].services[id];
            && (s.dispatcher.Delivering? ==> D.ReplyHasRoom(s, s.dispatcher.env.id))
            && (forall e :: e in s.direct ==> D.ReplyHasRoom(s, e))
  {
    InvOfRun(run, actions, i);
    D.ReplyNeverBlocks(run[i].services[id]);
  }

  /** A service that exists stays, and only its own steps and a stop change it. */
  lemma ServiceChange(s: System, a: Action, s': System, id: nat)
    requires Inv(s) && Step(s, a, s') && id in s.services
    ensures id in s'.services
    ensures s'.services[id] == s.services[id] || s'.services[id] == D.CloseStop(s.services[id]) ||
            (a.OnService? && a.id == id)
    ensures a.OnService? && a.id == id ==> D.Step(s.services[id], a.a, s'.services[id])
    ensures s.services[id].stopped && !(a.OnService? && a.id == id) ==> s'.services[id] == s.services[id]
  {
  }

  lemma DropStep(s: System, a: Action, s': System, id: nat, e: nat)
    requires Inv(s) && Step(s, a, s') && id in s'.services && e in s'.services[id].dropped
    ensures id in s.services
    ensures e in s.services[id].dropped ||
            (a == OnService(id, D.EmitAsync(e)) && |s.services[id].queue| == D.QUEUE_SIZE)
  {
    if id in s.services {
      ServiceChange(s, a, s', id);
      if a.OnService? && a.id == id {
        assert D.Inv(s.services[id]);
        D.DroppedOnlyWhenFull(s.services[id], a.a, s'.services[id], e);
      }
    }
  }

  ghost predicate MetFullQueue(s: System, a: Action, id: nat, e: nat) {
    a == OnService(id, D.EmitAsync(e)) && id in s.services && |s.services[id].queue| == D.QUEUE_SIZE
  }

  /** In every run an event that was dropped was an asynchronous one that met a full queue. */
  lemma {:induction false} DroppedMetFullQueue(run: seq<System>, actions: seq<Action>, k: nat, id: nat, e: nat)
    requires IsRun(run, actions) && k < |run| && id in run[k].services && e in run[k].services[id].dropped
    ensures exists i :: 0 <= i < k && MetFullQueue(run[i], actions[i], id, e)
  {
    if k > 0 {
      InvOfRun(run, actions, k - 1);
      assert StepAt(run, actions, k - 1);
      DropStep(run[k - 1], actions[k - 1], run[k], id, e);
      if e in run[k - 1].services[id].dropped {
        DroppedMetFullQueue(run, actions, k - 1, id, e);
      } else {
        assert MetFullQueue(run[k - 1], actions[k - 1], id, e);
      }
    }
  }

  ghost predicate FrozenSince(s: System, s': System, id: nat) {
    && id in s.services && id in s'.services && s'.services[id].dispatcher == D.Exited
    && s'.services[id].dispatched == s.services[id].dispatched && s.services[id].queue <= s'.services[id].queue
  }

  lemma ExitStep(s0: System, s: System, a: Action, s': System, id: nat)
    requires Inv(s) && Step(s, a, s') && FrozenSince(s0, s, id)
    ensures FrozenSince(s0, s', id)
  {
    ServiceChange(s, a, s', id);
    if a.OnService? && a.id == id {
      D.NothingAfterExit(s.services[id], a.a, s'.services[id]);
    }
  }

  /** Once a dispatcher has exited its service delivers nothing more: an event queued by an
      emitter that obtained the service before the stop stays in the queue for ever. */
  lemma {:induction false} NothingDeliveredAfterExit(run: seq<System>, actions: seq<Action>, i: nat, k: nat, id: nat)
    requires IsRun(run, actions) && i <= k < |run|
    requires id in run[i].services && run[i].services[id].dispatcher == D.Exited
    ensures FrozenSince(run[i], run[k], id)
  {
    if i < k {
      var s, a := run[k - 1], actions[k - 1];
      NothingDeliveredAfterExit(run, actions, i, k - 1, id);
      InvOfRun(run, actions, k - 1);
      assert StepAt(run, actions, k - 1);
      ExitStep(run[i], s, a, run[k], id);
    }
  }

  /** Init or Stop can return, or the dispatcher they wait for can take a step. */
  ghost predicate WaitAdvances(s: System)
    requires s.mu.Waiting?
  {
    exists a, s' :: Step(s, a, s') && (a.StopReturns? || (a.OnService? && a.id == s.mu.old_ && D.IsDispatch(a.a)))
  }

  /** An Init or Stop that waits for the old service never waits in vain: it can return, or the
      dispatcher it waits for can move, by a bounded number of steps (StopIsBounded). */
  lemma StopCannotHang(run: seq<System>, actions: seq<Action>, i: nat)
    requires IsRun(run, actions) && i < |run| && run[i].mu.Waiting?
    ensures WaitAdvances(run[i])
  {
    var s := run[i];
    InvOfRun(run, actions, i);
    var id := s.mu.old_;
    var service := s.services[id];
    assert D.Inv(service);
    if service.dispatcher == D.Exited {
      var next := s.mu.next;
      var services := if next.Some? then s.services[next.value := D.NEW_SERVICE] else s.services;
      assert Step(s, StopReturns, System(services, next, Free));
    } else {
      D.StopMakesProgress(service);
      var a, service' :| D.Step(service, a, service') && D.IsDispatch(a);
      var s' := s.(services := s.services[id := service']);
      assert s'.services[id] == service';
      assert Step(s, OnService(id, a), s');
    }
  }

  predicate DispatchesOn(a: Action, id: nat) {
    a.OnService? && a.id == id && D.IsDispatch(a.a)
  }

  /** The dispatcher steps of one service among the actions from i to k. */
  function Dispatches(actions: seq<Action>, i: nat, k: nat, id: nat): nat
    requires k <= |actions|
  {
    if k <= i then 0 else Dispatches(actions, i, k - 1, id) + if DispatchesOn(actions[k - 1], id) then 1 else 0
  }

  /** After n dispatcher steps a stopped service has used up n of the steps it needs; every
      event queued meanwhile costs two more. */
  ghost predicate Bounded(s: D.Service, s': D.Service, n: nat) {
    && s'.stopped && |s.accepted| <= |s'.accepted|
    && n + D.Remaining(s') <= D.Remaining(s) + 2 * (|s'.accepted| - |s.accepted|)
    && (s'.dispatcher != D.Exited ==> n + D.Remaining(s') == D.Remaining(s) + 2 * (|s'.accepted| - |s.accepted|))
  }

  lemma BoundedStep(s0: D.Service, n: nat, s: System, a: Action, s': System, id: nat)
    requires Inv(s) && Step(s, a, s') && id in s.services && Bounded(s0, s.services[id], n)
    ensures id in s'.services && Bounded(s0, s'.services[id], n + if DispatchesOn(a, id) then 1 else 0)
  {
    ServiceChange(s, a, s', id);
    if a.OnService? && a.id == id {
      D.StopOnlyByStop(s.services[id], a.a, s'.services[id]);
      if s.services[id].dispatcher == D.Exited {
        D.NothingAfterExit(s.services[id], a.a, s'.services[id]);
      } else {
        D.RemainingStep(s.services[id], a.a, s'.services[id]);
      }
    }
  }

  /** The count between two points of a run. */
  ghost predicate BoundedBetween(run: seq<System>, actions: seq<Action>, i: nat, k: nat, id: nat)
    requires i <= k <= |actions| < |run|
  {
    && id in run[i].services && id in run[k].services
    && Bounded(run[i].services[id], run[k].services[id], Dispatches(actions, i, k, id))
  }

  lemma BoundedNext(run: seq<System>, actions: seq<Action>, i: nat, k: nat, id: nat)
    requires IsRun(run, actions) && i <= k < |actions| && BoundedBetween(run, actions, i, k, id)
    ensures BoundedBetween(run, actions, i, k + 1, id)
  {
    InvOfRun(run, actions, k);
    assert StepAt(run, actions, k);
    BoundedStep(run[i].services[id], Dispatches(actions, i, k, id), run[k], actions[k], run[k + 1], id);
  }

  /** In every run, after the stop signal the dispatcher exits within a number of its own steps
      bounded by what was queued at that time and what is queued later; as long as it has not
      exited the count is exact. */
  lemma {:induction false} StopIsBounded(run: seq<System>, actions: seq<Action>, i: nat, k: nat, id: nat)
    requires IsRun(run, actions) && i <= k < |run| && id in run[i].services && run[i].services[id].stopped
    ensures BoundedBetween(run, actions, i, k, id)
  {
    if i < k {
      StopIsBounded(run, actions, i, k - 1, id);
      BoundedNext(run, actions, i, k - 1, id);
    }
  }

  /** In every run the exit function is called only after the cleanup, once each, and after the
      fatal event was emitted and either delivered or waited for until the timeout. */
  lemma ExitAfterFatalEvent(run: seq<System>, actions: seq<Action>, i: nat, id: nat)
    requires IsRun(run, actions) && i < |run| && id in run[i].services && run[i].services[id].exits > 0
    ensures var s := run[i].services[id];
            && s.exits == 1 && s.cleanups == 1 && s.fatal.Gone? && s.fatal.id in s.used
            && (s.fatal.timedOut || D.SyncDelivered(s, s.fatal.id))
  {
    InvOfRun(run, actions, i);
    assert D.Inv(run[i].services[id]);
  }
}
