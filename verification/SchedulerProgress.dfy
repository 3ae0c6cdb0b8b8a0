/** Nothing accepted is ever stuck: the steps that serve accepted jobs are always possible and finitely many. */
module SchedulerProgress {
  import opened SchedulerInvariant
  import opened SchedulerModel
  import opened SchedulerSafety

  /** Steps the scheduler itself takes: whoever holds the lock, the worker, and the owner's notification. */
  predicate Serves(a: Action) {
    match a
    case RefuseStopped(_) => true
    case Push(_) => true
    case Count(_) => true
    case Notify(_) => true
    case WorkerLock => true
    case Pop => true
    case CountPop => true
    case Exit => true
    case Sleep => true
    case StartJob => true
    case Announce => true
    case Decode(_) => true
    case Check => true
    case AcknowledgeJob => true
    case FailJob => true
    case Send => true
    case LockToStop => true
    case Drain => true
    case CountDrained => true
    case ClearNext => true
    case OwnerStop => true
    case OwnerNotify => true
    case _ => false
  }

  /** The next serving step in a state whose lock holder, worker and owner are as they are. */
  function NextServing(s: State): Action {
    match s.lock
    case ByCaller(k) =>
      if k >= |s.jobs| then Sleep
      else if s.jobs[k].call.Counting? then Count(k)
      else if s.jobs[k].call.Notifying? then Notify(k)
      else if s.queue.stopped then RefuseStopped(k) else Push(k)
    case ByOwner => OwnerStop
    case _ =>
      match s.worker
      case Idle => WorkerLock
      case Picking => if s.queue.ticks != [] || s.queue.windows != [] then Pop else if s.queue.stopped then Exit
        else Sleep
      case Popped(_) => CountPop
      case Starting(_) => StartJob
      case Announcing(_) => Announce
      case Decoding(_) => Decode(false)
      case Checking(_, _) => Check
      case AcknowledgingJob(_, _) => AcknowledgeJob
      case Failing(_, _, _) => FailJob
      case Sending(_, _, _) => Send
      case Stopping => LockToStop
      case Emptying => Drain
      case CountingDown(_) => CountDrained
      case Clearing(_) => ClearNext
      case _ => OwnerNotify
  }

  /** No deadlock and no lost wake-up: while an accepted job has no result, a serving step is possible. */
  lemma UnfinishedCanProceed(s: State, j: nat)
    requires Inv(s) && j < |s.jobs| && Accepted(s.jobs[j].call) && !Settled(s.jobs[j].sent)
    ensures Serves(NextServing(s)) && Enabled(s, NextServing(s))
  {
    hide Places, InboxOk, SentInOrder, Counted, InOrder, Logged, Withdrawn, QueuedSilent;
    assert JobKept(s, j);
    PlacesOfJob(s, j);
    if s.lock.ByCaller? {
      assert HoldsLock(s, s.lock.job);
      assert JobKept(s, s.lock.job);
    }
    HeldKnown(s);
  }

  lemma HeldKnown(s: State)
    requires JobsKept(s)
    ensures forall j :: j in Held(s.worker) ==> Known(s, j)
  {
    hide InboxOk, SentInOrder;
    forall j | j in Held(s.worker) ensures Known(s, j) {
      assert JobKept(s, j);
      PlacesOfJob(s, j);
    }
  }

  // ---- How much serving is left -----------------------------------------------------

  function WorkerWork(worker: Worker): nat {
    match worker
    case Popped(_) => 12
    case Starting(_) => 11
    case Announcing(_) => 10
    case Decoding(_) => 9
    case Checking(_, _) => 8
    case AcknowledgingJob(_, _) => 7
    case Failing(_, _, _) => 6
    case Sending(_, _, _) => 5
    case Stopping => 4
    case Emptying => 3
    case Idle => 2
    case CountingDown(_) => 2
    case Picking => 1
    case Clearing(_) => 1
    case Asleep => 0
    case Exited => 0
  }

  function LockWork(s: State): nat {
    if s.lock.ByCaller? && s.lock.job < |s.jobs| then
      var call := s.jobs[s.lock.job].call;
      if call.Pushing? then 60 else if call.Counting? then 10 else if call.Notifying? then 5 else 0
    else 0
  }

  function OwnerWork(owner: Owner): nat {
    if owner.StoppingQueue? then 10 else if owner.ToNotify? then 5 else 0
  }

  /** A bound on the serving steps still to come. */
  function Work(s: State): nat {
    40 * (|s.queue.ticks| + |s.queue.windows|) + 20 * |Behind(s.worker)|
      + WorkerWork(s.worker) + LockWork(s) + OwnerWork(s.owner)
  }

  /** Steps by which new work arrives at the queue: a caller or the owner takes the lock, or the operating
      system wakes the worker for no reason. */
  predicate Arrives(a: Action) { a.Lock? || a.OwnerLock? || a.SpuriousWake? }

  lemma CallerWork(s: State, a: Action)
    requires Exclusive(s) && CallerEnabled(s, a)
    ensures Serves(a) ==> Work(CallerStep(s, a)) < Work(s)
    ensures !Serves(a) && !Arrives(a) ==> Work(CallerStep(s, a)) == Work(s)
  {
    assert HoldsLock(s, a.job) ==> s.lock == ByCaller(a.job);
  }

  lemma WaiterWork(s: State, a: Action)
    requires Exclusive(s) && WaiterEnabled(s, a)
    ensures !Serves(a) && Work(WaiterStep(s, a)) == Work(s)
  {
    assert s.lock.ByCaller? ==> HoldsLock(s, s.lock.job);
  }

  lemma WorkerWorks(s: State, a: Action)
    requires Exclusive(s) && WorkerEnabled(s, a)
    ensures Serves(a) ==> Work(WorkerStep(s, a)) < Work(s)
    ensures !Serves(a) ==> Arrives(a)
  {
  }

  lemma ExecutorWork(s: State, a: Action)
    requires ExecutorEnabled(s, a)
    ensures Serves(a) && Work(ExecutorStep(s, a)) < Work(s)
  {
  }

  lemma OtherWork(s: State, a: Action)
    requires Exclusive(s) && OtherEnabled(s, a)
    ensures Serves(a) ==> Work(OtherStep(s, a)) < Work(s)
    ensures !Serves(a) && !Arrives(a) ==> Work(OtherStep(s, a)) == Work(s)
  {
  }

  lemma StepWork(s: State, a: Action)
    requires Inv(s) && Enabled(s, a)
    ensures Serves(a) ==> Work(Apply(s, a)) < Work(s)
    ensures !Serves(a) && !Arrives(a) ==> Work(Apply(s, a)) == Work(s)
  {
    hide Work, Serves, Arrives, Exclusive, CallerStep, WaiterStep, WorkerStep, ExecutorStep, OtherStep;
    if CallerEnabled(s, a) {
      CallerWork(s, a);
    } else if WaiterEnabled(s, a) {
      WaiterWork(s, a);
    } else if WorkerEnabled(s, a) {
      WorkerWorks(s, a);
    } else if ExecutorEnabled(s, a) {
      ExecutorWork(s, a);
    } else {
      OtherWork(s, a);
    }
  }

  function Services(actions: seq<Action>): nat {
    if actions == [] then 0 else Services(actions[..|actions| - 1]) + if Serves(actions[|actions| - 1]) then 1 else 0
  }

  /** However the steps interleave, as long as nobody new takes the lock there are at most `Work` serving
      steps; and wherever a run has no serving step left to take, every accepted job has its result. */
  lemma {:induction false} EveryAcceptedJobFinishes(states: seq<State>, actions: seq<Action>, i: nat, k: nat)
    requires Run(states, actions) && i <= k < |states|
    ensures (forall n :: i <= n < k ==> !Arrives(actions[n])) ==>
      Services(actions[i..k]) + Work(states[k]) <= Work(states[i])
    ensures (forall a :: Enabled(states[k], a) ==> !Serves(a)) ==> AllFinished(states[k])
  {
    hide Work, Serves, Arrives, Inv, Apply, Enabled, AllFinished;
    if forall n :: i <= n < k ==> !Arrives(actions[n]) {
      WorkSpent(states, actions, i, k);
    }
    RunKeepsInv(states, actions, k);
    FinishedOrServable(states[k]);
  }

  /** Every accepted job has its one result. */
  ghost predicate AllFinished(s: State) {
    forall j :: 0 <= j < |s.jobs| && Accepted(s.jobs[j].call) ==> Finishes(s.jobs[j].sent) == 1
  }

  lemma FinishedOrServable(s: State)
    requires Inv(s)
    ensures AllFinished(s) || (Serves(NextServing(s)) && Enabled(s, NextServing(s)))
  {
    hide Serves, InboxOk, Enabled, Places, NextServing, Accepted;
    forall j | 0 <= j < |s.jobs| && Accepted(s.jobs[j].call) && Finishes(s.jobs[j].sent) != 1
      ensures Serves(NextServing(s)) && Enabled(s, NextServing(s))
    {
      assert JobKept(s, j);
      FinishesOnce(s.jobs[j].sent);
      UnfinishedCanProceed(s, j);
    }
  }

  /** A schedule that goes on from a state. */
  ghost predicate Continues(s: State, states: seq<State>, actions: seq<Action>) {
    && |states| == |actions| + 1 && states[0] == s
    && forall i :: 0 <= i < |actions| ==>
         Enabled(states[i], actions[i]) && states[i + 1] == Apply(states[i], actions[i])
  }

  /** From every state of every run at most `Work` serving steps, and no others, lead to a state in which every
      accepted job, those accepted so far included, has its result. */
  lemma {:induction false} ServedToTheEnd(s: State) returns (states: seq<State>, actions: seq<Action>)
    requires Inv(s)
    ensures Continues(s, states, actions)
    ensures |actions| <= Work(s) && forall i :: 0 <= i < |actions| ==> Serves(actions[i])
    ensures AllFinished(states[|actions|])
    ensures forall j :: 0 <= j < |s.jobs| && Accepted(s.jobs[j].call) ==>
      j < |states[|actions|].jobs| && Accepted(states[|actions|].jobs[j].call)
    decreases Work(s)
  {
    hide Work, Serves, Inv, Enabled, Apply, NextServing, Accepted, AllFinished;
    FinishedOrServable(s);
    states, actions := [s], [];
    if !AllFinished(s) {
      var a := NextServing(s);
      var next := Apply(s, a);
      InvKept(s, a);
      StepWork(s, a);
      var laterStates, laterActions := ServedToTheEnd(next);
      forall j | 0 <= j < |s.jobs| && Accepted(s.jobs[j].call) ensures j < |next.jobs| && Accepted(next.jobs[j].call) {
        AcceptedStays(s, a, j);
      }
      states, actions := [s] + laterStates, [a] + laterActions;
    }
  }

  lemma AcceptedStays(s: State, a: Action, j: nat)
    requires Enabled(s, a) && j < |s.jobs| && Accepted(s.jobs[j].call)
    ensures j < |Apply(s, a).jobs| && Accepted(Apply(s, a).jobs[j].call)
  {
    hide CallerStep, WaiterStep, WorkerStep, ExecutorStep, OtherStep, Accepted;
    if CallerEnabled(s, a) {
      CallerMovesCall(s, a, j);
    } else if WaiterEnabled(s, a) {
      WaiterKeepsAccepted(s, a, j);
    } else if WorkerEnabled(s, a) {
      WorkerKeepsCalls(s, a);
    } else if ExecutorEnabled(s, a) {
      ExecutorKeepsCalls(s, a, j);
    } else {
      OtherKeepsCalls(s, a, j);
    }
  }

  lemma WaiterKeepsAccepted(s: State, a: Action, j: nat)
    requires WaiterEnabled(s, a) && j < |s.jobs| && Accepted(s.jobs[j].call)
    ensures j < |WaiterStep(s, a).jobs| && Accepted(WaiterStep(s, a).jobs[j].call)
  {
  }

  lemma WorkerKeepsCalls(s: State, a: Action)
    requires WorkerEnabled(s, a)
    ensures WorkerStep(s, a).jobs == s.jobs
  {
  }

  lemma ExecutorKeepsCalls(s: State, a: Action, j: nat)
    requires ExecutorEnabled(s, a) && j < |s.jobs|
    ensures j < |ExecutorStep(s, a).jobs| && ExecutorStep(s, a).jobs[j].call == s.jobs[j].call
  {
  }

  lemma OtherKeepsCalls(s: State, a: Action, j: nat)
    requires OtherEnabled(s, a) && j < |s.jobs|
    ensures j < |OtherStep(s, a).jobs| && OtherStep(s, a).jobs[j].call == s.jobs[j].call
  {
  }

  lemma {:induction false} WorkSpent(states: seq<State>, actions: seq<Action>, i: nat, k: nat)
    requires Run(states, actions) && i <= k < |states|
    requires forall n :: i <= n < k ==> !Arrives(actions[n])
    ensures Services(actions[i..k]) + Work(states[k]) <= Work(states[i])
    decreases k
  {
    hide Work, Serves, Arrives, Inv, Apply, Enabled;
    if i < k {
      WorkSpent(states, actions, i, k - 1);
      RunKeepsInv(states, actions, k - 1);
      StepWork(states[k - 1], actions[k - 1]);
      assert actions[i..k][..k - i - 1] == actions[i..k - 1];
    }
  }
}
