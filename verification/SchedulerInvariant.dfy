/** What every reachable scheduler state keeps, whatever the interleaving. */
module SchedulerInvariant {
  import opened Execution
  import opened SchedulerModel

  // ---- Where a job is ---------------------------------------------------------------

  function Occurs(q: seq<nat>, j: nat): nat { multiset(q)[j] }

  /** How many times the queue and the worker together hold a job. */
  function Places(s: State, j: nat): nat {
    Occurs(s.queue.ticks, j) + Occurs(s.queue.windows, j) + Occurs(Held(s.worker), j)
  }

  lemma OccursLaws(q: seq<nat>, r: seq<nat>, x: nat, j: nat)
    ensures Occurs(q + r, j) == Occurs(q, j) + Occurs(r, j)
    ensures Occurs([x], j) == if x == j then 1 else 0
    ensures Occurs([], j) == 0
    ensures (j in q) == (Occurs(q, j) > 0)
    ensures q != [] ==> Occurs(q, j) == Occurs([q[0]], j) + Occurs(q[1..], j)
  {
    if q != [] {
      assert q == [q[0]] + q[1..];
    }
  }

  predicate Accepted(call: Call) {
    match call
    case Entering => false
    case Locking => false
    case Pushing => false
    case Returned(result) => !result.RefusedByControl? && !result.RefusedStopped?
    case _ => true
  }

  predicate Settled(sent: seq<Event>) { sent != [] && sent[|sent| - 1].Finished? }

  predicate SentInOrder(sent: seq<Event>) {
    || sent == []
    || (|sent| == 1)
    || (|sent| == 2 && sent[0].Started? && sent[1].Finished?)
  }

  /** What a call has consumed of what the worker sent. */
  predicate InboxOk(job: Job) {
    match job.call
    case Finishing => job.sent != [] && job.sent[0].Started? && job.inbox == job.sent[1..]
    case Draining => job.inbox == job.sent || (job.sent != [] && job.sent[0].Started? && job.inbox == job.sent[1..])
    case Acknowledging => Settled(job.sent)
    case Returned(result) =>
      && !result.Disconnected? && !result.DuplicateStart?
      && (Accepted(job.call) ==> Settled(job.sent))
      && (result.Value? ==> Finished(result.outcome) in job.sent)
    case _ => job.inbox == job.sent
  }

  predicate JobKept(s: State, j: nat) {
    if j < |s.jobs| then
      var job := s.jobs[j];
      && job.control < |s.controls|
      && SentInOrder(job.sent) && InboxOk(job)
      && (!Accepted(job.call) ==> job.sent == [])
      && Places(s, j) == (if Accepted(job.call) && !Settled(job.sent) then 1 else 0)
    else Places(s, j) == 0
  }

  ghost predicate JobsKept(s: State) { forall j: nat :: JobKept(s, j) }

  // ---- What has been sent on the channel of a job that is still held ----------------

  predicate Silent(s: State, j: nat) { j < |s.jobs| && s.jobs[j].sent == [] }

  predicate HeadSent(s: State) {
    match s.worker
    case Starting(j) => Silent(s, j)
    case Popped(j) => Silent(s, j)
    case Announcing(j) => Silent(s, j)
    case Checking(j, reason) => reason.DecodeReturned? || Silent(s, j)
    case Failing(_, outcome, _) => outcome.DecoderPanicked? || outcome.SchedulerStopped?
    case _ => true
  }

  /** The jobs held behind the one being dealt with. */
  function Behind(worker: Worker): seq<nat> {
    match worker
    case Checking(_, reason) => RestOf(reason)
    case AcknowledgingJob(_, reason) => RestOf(reason)
    case Failing(_, _, next) => Rest(next)
    case Sending(_, _, next) => Rest(next)
    case CountingDown(drained) => drained
    case Clearing(drained) => drained
    case _ => []
  }

  ghost predicate QueuedSilent(s: State) {
    && HeadSent(s)
    && forall j :: j in s.queue.ticks || j in s.queue.windows || j in Behind(s.worker) ==> Silent(s, j)
  }

  // ---- Who holds the lock -----------------------------------------------------------

  predicate InsideCall(call: Call) { call.Pushing? || call.Counting? || call.Notifying? }

  predicate InsideWorker(worker: Worker) {
    worker.Picking? || worker.Popped? || worker.Emptying? || worker.CountingDown?
  }

  predicate HoldsLock(s: State, j: nat) { j < |s.jobs| && InsideCall(s.jobs[j].call) }

  ghost predicate Exclusive(s: State) {
    && (forall j: nat :: HoldsLock(s, j) <==> s.lock == ByCaller(j))
    && (InsideWorker(s.worker) <==> s.lock.ByWorker?)
    && (s.owner.StoppingQueue? <==> s.lock.ByOwner?)
  }

  // ---- The pending counter ----------------------------------------------------------

  /** What the counter is off by while the lock holder is between two of its steps. */
  function Uncounted(s: State): int {
    if s.lock.ByCaller? && s.lock.job < |s.jobs| && s.jobs[s.lock.job].call.Counting? then -1
    else match s.worker
      case Popped(_) => 1
      case CountingDown(drained) => |drained|
      case _ => 0
  }

  predicate Counted(s: State) {
    && s.pending == |s.queue.ticks| + |s.queue.windows| + Uncounted(s)
    && (Uncounted(s) == -1 ==> |s.queue.ticks| + |s.queue.windows| > 0)
  }

  // ---- Stopping ---------------------------------------------------------------------

  /** The worker has drained the queue. */
  predicate Drained(worker: Worker) {
    match worker
    case CountingDown(_) => true
    case Clearing(_) => true
    case Checking(_, reason) => reason.Cleared?
    case AcknowledgingJob(_, reason) => reason.Cleared?
    case Failing(_, _, next) => next.ToClearing?
    case Sending(_, _, next) => next.ToClearing?
    case Exited => true
    case _ => false
  }

  predicate StoppedKept(s: State) {
    && (s.owner.ToNotify? || s.owner.Joining? ==> s.queue.stopped)
    && (Drained(s.worker) ==> s.queue.stopped && s.queue.ticks == [] && s.queue.windows == [])
    && (!Drained(s.worker) ==> s.tickLog.drained == [] && s.windowLog.drained == [])
    && (s.lock.ByCaller? && s.lock.job < |s.jobs| && s.jobs[s.lock.job].call.Counting? ==> !s.queue.stopped)
  }

  /** A sleeping worker has nothing to do, or someone is about to wake it. */
  predicate NoLostWakeup(s: State) {
    s.worker.Asleep? ==>
      && ((s.queue.ticks == [] && s.queue.windows == []) ||
          (s.lock.ByCaller? && s.lock.job < |s.jobs| &&
           (s.jobs[s.lock.job].call.Counting? || s.jobs[s.lock.job].call.Notifying?)))
      && (s.queue.stopped ==> s.owner.ToNotify?)
  }

  // ---- Order ------------------------------------------------------------------------

  predicate InOrder(s: State) {
    && s.tickLog.accepted == s.tickLog.taken + s.tickLog.drained + s.queue.ticks
    && s.windowLog.accepted == s.windowLog.taken + s.windowLog.drained + s.queue.windows
  }

  /** The logs record exactly the accepted jobs of their class, each once. */
  predicate LoggedOnce(s: State, j: nat) {
    var accepted := j < |s.jobs| && Accepted(s.jobs[j].call);
    && Occurs(s.tickLog.accepted, j) == (if accepted && s.jobs[j].priority.Tick? then 1 else 0)
    && Occurs(s.windowLog.accepted, j) == (if accepted && s.jobs[j].priority.Window? then 1 else 0)
  }

  ghost predicate Logged(s: State) { forall j: nat :: LoggedOnce(s, j) }

  // ---- Timeouts ---------------------------------------------------------------------

  predicate WithdrawnKept(s: State, j: nat) {
    Known(s, j) ==>
      && (s.jobs[j].call.Draining? || s.jobs[j].call.Acknowledging? ==> !ControlOf(s, j).Active())
      && (s.jobs[j].call == Returned(TimedOut) ==> ControlOf(s, j).Terminal())
  }

  ghost predicate Withdrawn(s: State) { forall j: nat :: WithdrawnKept(s, j) }

  ghost predicate Inv(s: State) {
    && JobsKept(s) && QueuedSilent(s) && Exclusive(s) && Counted(s)
    && StoppedKept(s) && NoLostWakeup(s) && InOrder(s) && Logged(s) && Withdrawn(s)
  }

  lemma InitiallyInv()
    ensures Inv(Initial())
  {
    forall j: nat ensures JobKept(Initial(), j) && LoggedOnce(Initial(), j) { OccursLaws([], [], j, j); }
  }


  lemma CallerKeepsLock(s: State, a: Action)
    requires Exclusive(s) && Counted(s) && CallerEnabled(s, a)
    ensures Exclusive(CallerStep(s, a)) && Counted(CallerStep(s, a))
  {
    hide EnqueueAccepts, EnqueueOutcome, FinishOutcome;
    assert HoldsLock(s, a.job) ==> s.lock == ByCaller(a.job);
  }

  lemma CallerKeepsStop(s: State, a: Action)
    requires Exclusive(s) && StoppedKept(s) && CallerEnabled(s, a)
    ensures StoppedKept(CallerStep(s, a))
  {
    hide EnqueueAccepts, EnqueueOutcome, FinishOutcome;
    assert HoldsLock(s, a.job) ==> s.lock == ByCaller(a.job);
  }

  lemma CallerKeepsOrder(s: State, a: Action)
    requires Exclusive(s) && StoppedKept(s) && NoLostWakeup(s) && InOrder(s) && CallerEnabled(s, a)
    ensures NoLostWakeup(CallerStep(s, a)) && InOrder(CallerStep(s, a))
  {
    hide EnqueueAccepts, EnqueueOutcome, FinishOutcome;
    assert HoldsLock(s, a.job) ==> s.lock == ByCaller(a.job);
  }

  lemma WorkerKeepsLock(s: State, a: Action)
    requires Exclusive(s) && Counted(s) && WorkerEnabled(s, a)
    ensures Exclusive(WorkerStep(s, a)) && Counted(WorkerStep(s, a))
  {
  }

  lemma WorkerKeepsStop(s: State, a: Action)
    requires Exclusive(s) && StoppedKept(s) && WorkerEnabled(s, a)
    ensures StoppedKept(WorkerStep(s, a))
  {
  }

  lemma WorkerKeepsWakeup(s: State, a: Action)
    requires Exclusive(s) && StoppedKept(s) && NoLostWakeup(s) && WorkerEnabled(s, a)
    ensures NoLostWakeup(WorkerStep(s, a))
  {
  }

  lemma WorkerKeepsOrder(s: State, a: Action)
    requires StoppedKept(s) && InOrder(s) && WorkerEnabled(s, a)
    ensures InOrder(WorkerStep(s, a))
  {
  }

  lemma ExecutorKeepsLock(s: State, a: Action)
    requires Exclusive(s) && Counted(s) && ExecutorEnabled(s, a)
    ensures Exclusive(ExecutorStep(s, a)) && Counted(ExecutorStep(s, a))
  {
    hide StartOutcome, FinishOutcome, AcknowledgeOutcome;
  }

  lemma ExecutorKeepsOrder(s: State, a: Action)
    requires Exclusive(s) && StoppedKept(s) && NoLostWakeup(s) && InOrder(s) && ExecutorEnabled(s, a)
    ensures StoppedKept(ExecutorStep(s, a)) && NoLostWakeup(ExecutorStep(s, a)) && InOrder(ExecutorStep(s, a))
  {
    hide StartOutcome, FinishOutcome, AcknowledgeOutcome;
  }

  lemma OtherKeepsLock(s: State, a: Action)
    requires Exclusive(s) && Counted(s) && OtherEnabled(s, a)
    ensures Exclusive(OtherStep(s, a)) && Counted(OtherStep(s, a))
  {
  }

  lemma OtherKeepsOrder(s: State, a: Action)
    requires Exclusive(s) && StoppedKept(s) && NoLostWakeup(s) && InOrder(s) && OtherEnabled(s, a)
    ensures StoppedKept(OtherStep(s, a)) && NoLostWakeup(OtherStep(s, a)) && InOrder(OtherStep(s, a))
  {
  }

  lemma CallerKeepsPlaces(s: State, a: Action, j: nat)
    requires CallerEnabled(s, a)
    ensures Places(CallerStep(s, a), j) == Places(s, j) + if a.Push? && a.job == j then 1 else 0
  {
    hide Occurs;
    OccursLaws(s.queue.ticks, [a.job], a.job, j);
    OccursLaws(s.queue.windows, [a.job], a.job, j);
    assert Held(CallerStep(s, a).worker) == Held(s.worker);
  }

  /** What getting into the queue does to a job: only its own call moves, towards waiting or a refusal. */
  predicate CallMoves(s: State, a: Action, step: State, j: nat) {
    && |step.jobs| == |s.jobs| && |step.controls| == |s.controls|
    && (j < |s.jobs| ==> step.jobs[j].control == s.jobs[j].control
                         && step.jobs[j].inbox == s.jobs[j].inbox && step.jobs[j].sent == s.jobs[j].sent)
    && (j < |s.jobs| && step.jobs[j].call != s.jobs[j].call ==>
          && InboxPlain(s.jobs[j].call) && !s.jobs[j].call.Returned? && InboxPlain(step.jobs[j].call)
          && Accepted(step.jobs[j].call) == (Accepted(s.jobs[j].call) || (a.Push? && a.job == j)))
    && (j < |s.jobs| && a.Push? && a.job == j ==> !Accepted(s.jobs[j].call) && Accepted(step.jobs[j].call))
  }

  /** Nothing of the result has been consumed: the inbox is all that was sent. */
  predicate InboxPlain(call: Call) {
    match call
    case Finishing => false
    case Draining => false
    case Acknowledging => false
    case Returned(result) => result.RefusedByControl? || result.RefusedStopped?
    case _ => true
  }

  lemma CallerMovesCall(s: State, a: Action, j: nat)
    requires CallerEnabled(s, a)
    ensures CallMoves(s, a, CallerStep(s, a), j)
  {
    hide EnqueueAccepts, EnqueueOutcome, FinishOutcome;
  }

  lemma CallerKeepsJob(s: State, a: Action, j: nat)
    requires JobKept(s, j) && CallerEnabled(s, a)
    ensures JobKept(CallerStep(s, a), j)
  {
    hide Places, CallerStep;
    CallerMovesCall(s, a, j);
    CallerKeepsPlaces(s, a, j);
  }

  /** A waiting call always has its result in the channel or its sender alive. */
  lemma NeverDisconnected(s: State, j: nat)
    requires JobKept(s, j)
    ensures !WaiterEnabled(s, Disconnect(j))
  {
    OccursLaws(s.queue.ticks, [], j, j);
    OccursLaws(s.queue.windows, [], j, j);
    OccursLaws(Held(s.worker), [], j, j);
  }

  lemma WorkerKeepsPlaces(s: State, a: Action, j: nat)
    requires WorkerEnabled(s, a)
    ensures Places(WorkerStep(s, a), j) == Places(s, j)
  {
    hide Occurs;
    OccursLaws(s.queue.ticks, s.queue.windows, 0, j);
    OccursLaws(s.queue.windows, [], 0, j);
    OccursLaws([], [], 0, j);
    assert a.ClearNext? ==> Held(WorkerStep(s, a).worker) == Held(s.worker);
  }

  lemma ExecutorKeepsPlaces(s: State, a: Action, j: nat)
    requires ExecutorEnabled(s, a)
    ensures Places(s, j) >= if s.worker.job == j then 1 else 0
    ensures Places(ExecutorStep(s, a), j) == Places(s, j) - if a.Send? && s.worker.job == j then 1 else 0
  {
    hide Occurs;
    var step := ExecutorStep(s, a);
    assert Held(s.worker) == [s.worker.job] + Behind(s.worker);
    assert Held(step.worker) == if a.Send? then Behind(s.worker) else Held(s.worker);
    OccursLaws([s.worker.job], Behind(s.worker), s.worker.job, j);
  }

  lemma ExecutorKeepsJob(s: State, a: Action, j: nat)
    requires JobKept(s, j) && ExecutorEnabled(s, a) && HeadSent(s)
    ensures JobKept(ExecutorStep(s, a), j)
  {
    hide Places;
    ExecutorKeepsPlaces(s, a, j);
  }

  lemma OtherKeepsJob(s: State, a: Action, j: nat)
    requires JobKept(s, j) && OtherEnabled(s, a)
    ensures JobKept(OtherStep(s, a), j)
  {
  }

  lemma CallerKeepsSilence(s: State, a: Action)
    requires CallerEnabled(s, a) && JobKept(s, a.job) && QueuedSilent(s)
    ensures QueuedSilent(CallerStep(s, a))
  {
    hide Places, InboxOk, SentInOrder, EnqueueAccepts, EnqueueOutcome, FinishOutcome;
  }

  lemma SilenceIsOfJobs(s: State, step: State, j: nat)
    requires s.jobs == step.jobs
    ensures Silent(s, j) == Silent(step, j)
  {
  }

  lemma WorkerKeepsSilence(s: State, a: Action)
    requires QueuedSilent(s) && WorkerEnabled(s, a)
    ensures QueuedSilent(WorkerStep(s, a))
  {
    hide Silent;
    var step := WorkerStep(s, a);
    assert forall j :: j in step.queue.ticks ==> j in s.queue.ticks;
    assert forall j :: j in step.queue.windows ==> j in s.queue.windows;
    assert a.Pop? ==> step.worker.job in s.queue.ticks || step.worker.job in s.queue.windows;
    assert a.ClearNext? && s.worker.drained != [] ==> step.worker.job in Behind(s.worker);
    assert forall j :: j in Behind(step.worker) ==> j in Behind(s.worker) || j in s.queue.ticks || j in s.queue.windows;
    forall j ensures Silent(step, j) == Silent(s, j) { SilenceIsOfJobs(s, step, j); }
  }

  /** The job being dealt with is nowhere else. */
  lemma ExecutorAlone(s: State, a: Action)
    requires ExecutorEnabled(s, a) && JobKept(s, s.worker.job)
    ensures s.worker.job !in s.queue.ticks && s.worker.job !in s.queue.windows && s.worker.job !in Behind(s.worker)
  {
    hide Occurs;
    var j := s.worker.job;
    assert Held(s.worker) == [j] + Behind(s.worker);
    OccursLaws([j], Behind(s.worker), j, j);
    OccursLaws(s.queue.ticks, [], j, j);
    OccursLaws(s.queue.windows, [], j, j);
    OccursLaws(Behind(s.worker), [], j, j);
  }

  lemma ExecutorKeepsSilence(s: State, a: Action)
    requires ExecutorEnabled(s, a) && JobKept(s, s.worker.job) && QueuedSilent(s)
    ensures QueuedSilent(ExecutorStep(s, a))
  {
    hide JobKept, StartOutcome, FinishOutcome, AcknowledgeOutcome, ControlOf;
    ExecutorAlone(s, a);
  }

  lemma OtherKeepsSilence(s: State, a: Action)
    requires QueuedSilent(s) && OtherEnabled(s, a)
    ensures QueuedSilent(OtherStep(s, a))
  {
  }

  lemma CallersClimb(s: State, a: Action, c: nat)
    requires CallerEnabled(s, a) && c < |s.controls|
    ensures c < |CallerStep(s, a).controls| && Climbs(s.controls[c], CallerStep(s, a).controls[c])
  {
  }

  lemma ExecutorClimbs(s: State, a: Action, c: nat)
    requires ExecutorEnabled(s, a) && c < |s.controls|
    ensures c < |ExecutorStep(s, a).controls| && Climbs(s.controls[c], ExecutorStep(s, a).controls[c])
  {
  }

  lemma OthersClimb(s: State, a: Action, c: nat)
    requires OtherEnabled(s, a) && c < |s.controls|
    ensures c < |OtherStep(s, a).controls| && Climbs(s.controls[c], OtherStep(s, a).controls[c])
  {
  }

  lemma ControlsClimb(s: State, a: Action, c: nat)
    requires Enabled(s, a) && c < |s.controls|
    ensures c < |Apply(s, a).controls| && Climbs(s.controls[c], Apply(s, a).controls[c])
  {
    hide CallerStep, WaiterStep, ExecutorStep, OtherStep, Climbs;
    if CallerEnabled(s, a) {
      CallersClimb(s, a, c);
    } else if WaiterEnabled(s, a) {
      WaitersClimb(s, a, c);
    } else if WorkerEnabled(s, a) {
      ClimbsFromItself(s.controls[c]);
    } else if ExecutorEnabled(s, a) {
      ExecutorClimbs(s, a, c);
    } else {
      OthersClimb(s, a, c);
    }
  }

  lemma ClimbsFromItself(state: ExecutionState)
    ensures Climbs(state, state)
  {
  }

  lemma CallerKeepsWithdrawn(s: State, a: Action, j: nat)
    requires WithdrawnKept(s, j) && CallerEnabled(s, a)
    ensures WithdrawnKept(CallerStep(s, a), j)
  {
  }

  lemma WorkerKeepsWithdrawn(s: State, a: Action, j: nat)
    requires WithdrawnKept(s, j) && WorkerEnabled(s, a)
    ensures WithdrawnKept(WorkerStep(s, a), j)
  {
  }

  lemma ExecutorKeepsWithdrawn(s: State, a: Action, j: nat)
    requires WithdrawnKept(s, j) && ExecutorEnabled(s, a)
    ensures WithdrawnKept(ExecutorStep(s, a), j)
  {
  }

  lemma OtherKeepsWithdrawn(s: State, a: Action, j: nat)
    requires (j < |s.jobs| ==> Known(s, j)) && WithdrawnKept(s, j) && OtherEnabled(s, a)
    ensures WithdrawnKept(OtherStep(s, a), j)
  {
  }

  lemma CallerKeepsLog(s: State, a: Action, j: nat)
    requires LoggedOnce(s, j) && CallerEnabled(s, a)
    ensures LoggedOnce(CallerStep(s, a), j)
  {
    hide Occurs;
    OccursLaws(s.tickLog.accepted, [a.job], a.job, j);
    OccursLaws(s.windowLog.accepted, [a.job], a.job, j);
  }

  lemma WorkerKeepsLog(s: State, a: Action, j: nat)
    requires LoggedOnce(s, j) && WorkerEnabled(s, a)
    ensures LoggedOnce(WorkerStep(s, a), j)
  {
    hide Occurs;
  }

  lemma ExecutorKeepsLog(s: State, a: Action, j: nat)
    requires LoggedOnce(s, j) && ExecutorEnabled(s, a)
    ensures LoggedOnce(ExecutorStep(s, a), j)
  {
    hide Occurs;
  }

  lemma OtherKeepsLog(s: State, a: Action, j: nat)
    requires LoggedOnce(s, j) && OtherEnabled(s, a)
    ensures LoggedOnce(OtherStep(s, a), j)
  {
    hide Occurs;
  }

  lemma WorkerKeepsJob(s: State, a: Action, j: nat)
    requires JobKept(s, j) && WorkerEnabled(s, a)
    ensures JobKept(WorkerStep(s, a), j)
  {
    hide Places;
    WorkerKeepsPlaces(s, a, j);
  }

  lemma KnownWhenKept(s: State, j: nat)
    requires JobKept(s, j) && j < |s.jobs|
    ensures Known(s, j)
  {
  }

  lemma CallerKeepsInv(s: State, a: Action)
    requires Inv(s) && CallerEnabled(s, a)
    ensures Inv(CallerStep(s, a))
  {
    hide JobKept, QueuedSilent, HeadSent, Exclusive, Counted, StoppedKept, NoLostWakeup, InOrder, LoggedOnce,
         WithdrawnKept, CallerStep;
    var step := CallerStep(s, a);
    forall j: nat ensures WithdrawnKept(step, j) && JobKept(step, j) && LoggedOnce(step, j) {
      CallerKeepsJob(s, a, j);
      CallerKeepsLog(s, a, j);
      CallerKeepsWithdrawn(s, a, j);
    }
    CallerKeepsSilence(s, a);
    CallerKeepsLock(s, a);
    CallerKeepsStop(s, a);
    CallerKeepsOrder(s, a);
  }

  lemma WorkerKeepsInv(s: State, a: Action)
    requires Inv(s) && WorkerEnabled(s, a)
    ensures Inv(WorkerStep(s, a))
  {
    hide JobKept, QueuedSilent, HeadSent, Exclusive, Counted, StoppedKept, NoLostWakeup, InOrder, LoggedOnce,
         WithdrawnKept, WorkerStep;
    var step := WorkerStep(s, a);
    forall j: nat ensures WithdrawnKept(step, j) && JobKept(step, j) && LoggedOnce(step, j) {
      WorkerKeepsJob(s, a, j);
      WorkerKeepsLog(s, a, j);
      WorkerKeepsWithdrawn(s, a, j);
    }
    WorkerKeepsSilence(s, a);
    WorkerKeepsLock(s, a);
    WorkerKeepsStop(s, a);
    WorkerKeepsWakeup(s, a);
    WorkerKeepsOrder(s, a);
  }

  lemma ExecutorKeepsInv(s: State, a: Action)
    requires Inv(s) && ExecutorEnabled(s, a)
    ensures Inv(ExecutorStep(s, a))
  {
    hide JobKept, HeadSent, Exclusive, Counted, StoppedKept, NoLostWakeup, InOrder, LoggedOnce, WithdrawnKept,
         ExecutorStep;
    var step := ExecutorStep(s, a);
    forall j: nat ensures WithdrawnKept(step, j) && JobKept(step, j) && LoggedOnce(step, j) {
      ExecutorKeepsJob(s, a, j);
      ExecutorKeepsLog(s, a, j);
      ExecutorKeepsWithdrawn(s, a, j);
    }
    ExecutorKeepsSilence(s, a);
    ExecutorKeepsLock(s, a);
    ExecutorKeepsOrder(s, a);
  }

  lemma OtherKeepsInv(s: State, a: Action)
    requires Inv(s) && OtherEnabled(s, a)
    ensures Inv(OtherStep(s, a))
  {
    hide JobKept, QueuedSilent, HeadSent, Exclusive, Counted, StoppedKept, NoLostWakeup, InOrder, LoggedOnce,
         WithdrawnKept, OtherStep;
    var step := OtherStep(s, a);
    forall j: nat ensures WithdrawnKept(step, j) && JobKept(step, j) && LoggedOnce(step, j) {
      if j < |s.jobs| { KnownWhenKept(s, j); }
      OtherKeepsJob(s, a, j);
      OtherKeepsLog(s, a, j);
      OtherKeepsWithdrawn(s, a, j);
    }
    OtherKeepsSilence(s, a);
    OtherKeepsLock(s, a);
    OtherKeepsOrder(s, a);
  }

  /** Waiting moves no call but its own, and only among the states that follow `Notifying`; the queue, the
      worker and the owner are left alone. */
  predicate WaiterMoves(s: State, a: Action, step: State, j: nat) {
    && |step.jobs| == |s.jobs| && |step.controls| == |s.controls|
    && step.queue == s.queue && step.pending == s.pending && step.lock == s.lock && step.worker == s.worker
    && step.owner == s.owner && step.tickLog == s.tickLog && step.windowLog == s.windowLog
    && (j < |s.jobs| && step.jobs[j] != s.jobs[j] ==> JobWaits(a, s.jobs[j], step.jobs[j]))
  }

  predicate JobWaits(a: Action, job: Job, next: Job) {
    && next.control == job.control && next.priority == job.priority && next.sent == job.sent
    && !InsideCall(job.call) && !InsideCall(next.call) && Accepted(job.call) && !job.call.Returned?
    && match a
       case Receive(_) =>
         && job.inbox != [] && (job.call.Waiting? || job.call.Finishing? || job.call.Draining?)
         && next.call == AfterEvent(job.call, job.inbox[0]) && next.inbox == job.inbox[1..]
       case TimeOut(_) => job.call.Waiting? && next.call.TimingOut? && next.inbox == job.inbox
       case CancelWait(_) => job.call.TimingOut? && next.call.Draining? && next.inbox == job.inbox
       case Acknowledge(_) => job.call.Acknowledging? && next.call == Returned(TimedOut) && next.inbox == job.inbox
       case _ => a.Disconnect?
  }

  lemma WaiterMovesCall(s: State, a: Action, j: nat)
    requires WaiterEnabled(s, a)
    ensures WaiterMoves(s, a, WaiterStep(s, a), j)
    ensures a.job != j && j < |s.jobs| ==> WaiterStep(s, a).jobs[j] == s.jobs[j]
  {
    hide CancelOutcome, AcknowledgeOutcome;
  }

  lemma WaiterKeepsLocks(s: State, a: Action)
    requires Exclusive(s) && WaiterEnabled(s, a)
    ensures Exclusive(WaiterStep(s, a))
  {
    hide WaiterStep, WaiterEnabled, JobWaits;
    var step := WaiterStep(s, a);
    WaiterMovesCall(s, a, 0);
    forall j: nat ensures HoldsLock(step, j) <==> HoldsLock(s, j) {
      WaiterKeepsHolder(s, a, j);
    }
  }

  lemma WaiterKeepsHolder(s: State, a: Action, j: nat)
    requires WaiterEnabled(s, a)
    ensures HoldsLock(WaiterStep(s, a), j) <==> HoldsLock(s, j)
    ensures HoldsLock(s, j) ==> WaiterStep(s, a).jobs[j].call == s.jobs[j].call
  {
    hide WaiterStep, WaiterEnabled;
    WaiterMovesCall(s, a, j);
  }

  lemma WaiterKeepsQueue(s: State, a: Action)
    requires Exclusive(s) && Counted(s) && StoppedKept(s) && WaiterEnabled(s, a)
    ensures Exclusive(WaiterStep(s, a)) && Counted(WaiterStep(s, a)) && StoppedKept(WaiterStep(s, a))
  {
    hide WaiterStep, WaiterEnabled, JobWaits, Drained;
    WaiterKeepsLocks(s, a);
    WaiterMovesCall(s, a, 0);
    if s.lock.ByCaller? {
      WaiterKeepsHolder(s, a, s.lock.job);
      assert HoldsLock(s, s.lock.job);
    }
  }

  lemma WaiterKeepsOrder(s: State, a: Action)
    requires Exclusive(s) && NoLostWakeup(s) && InOrder(s) && WaiterEnabled(s, a)
    ensures NoLostWakeup(WaiterStep(s, a)) && InOrder(WaiterStep(s, a))
  {
    hide WaiterStep, WaiterEnabled, JobWaits;
    WaiterMovesCall(s, a, 0);
    if s.lock.ByCaller? {
      WaiterKeepsHolder(s, a, s.lock.job);
      assert HoldsLock(s, s.lock.job);
    }
  }

  lemma WaiterKeepsPlaces(s: State, a: Action, j: nat)
    requires WaiterEnabled(s, a)
    ensures Places(WaiterStep(s, a), j) == Places(s, j)
  {
    hide WaiterStep, WaiterEnabled, JobWaits, Occurs;
    WaiterMovesCall(s, a, 0);
  }

  /** A waiting call consumes what was sent in the order it was sent. */
  lemma WaitingKeepsInbox(a: Action, job: Job, next: Job)
    requires JobWaits(a, job, next) && !a.Disconnect? && SentInOrder(job.sent) && InboxOk(job)
    ensures InboxOk(next) && Accepted(next.call)
  {
  }

  lemma WaiterKeepsJob(s: State, a: Action, j: nat)
    requires JobKept(s, j) && WaiterEnabled(s, a)
    ensures JobKept(WaiterStep(s, a), j)
  {
    hide Places, WaiterStep, WaiterEnabled, SentInOrder, InboxOk, Settled, JobWaits;
    WaiterMovesCall(s, a, j);
    WaiterKeepsPlaces(s, a, j);
    NeverDisconnected(s, j);
    var step := WaiterStep(s, a);
    if j < |s.jobs| && step.jobs[j] != s.jobs[j] {
      WaitingKeepsInbox(a, s.jobs[j], step.jobs[j]);
      WaitsAccepted(a, s.jobs[j], step.jobs[j]);
    }
  }

  lemma WaitsAccepted(a: Action, job: Job, next: Job)
    requires JobWaits(a, job, next)
    ensures Accepted(job.call) && next.control == job.control && next.priority == job.priority && next.sent == job.sent
  {
  }

  lemma WaiterKeepsSilence(s: State, a: Action)
    requires QueuedSilent(s) && WaiterEnabled(s, a)
    ensures QueuedSilent(WaiterStep(s, a))
  {
  }

  lemma WaiterKeepsLog(s: State, a: Action, j: nat)
    requires LoggedOnce(s, j) && WaiterEnabled(s, a) && JobKept(s, j)
    ensures LoggedOnce(WaiterStep(s, a), j)
  {
    hide Occurs, Places, WaiterStep, WaiterEnabled, SentInOrder, InboxOk, Settled, JobWaits;
    WaiterMovesCall(s, a, j);
    NeverDisconnected(s, j);
    var step := WaiterStep(s, a);
    if j < |s.jobs| && step.jobs[j] != s.jobs[j] {
      WaitingKeepsInbox(a, s.jobs[j], step.jobs[j]);
      WaitsAccepted(a, s.jobs[j], step.jobs[j]);
    }
  }

  lemma WaiterKeepsWithdrawn(s: State, a: Action, j: nat)
    requires WithdrawnKept(s, j) && WaiterEnabled(s, a)
    ensures WithdrawnKept(WaiterStep(s, a), j)
  {
  }

  lemma WaitersClimb(s: State, a: Action, c: nat)
    requires WaiterEnabled(s, a) && c < |s.controls|
    ensures c < |WaiterStep(s, a).controls| && Climbs(s.controls[c], WaiterStep(s, a).controls[c])
  {
  }

  lemma WaiterKeepsInv(s: State, a: Action)
    requires Inv(s) && WaiterEnabled(s, a)
    ensures Inv(WaiterStep(s, a))
  {
    hide JobKept, QueuedSilent, HeadSent, Exclusive, Counted, StoppedKept, NoLostWakeup, InOrder, LoggedOnce,
         WithdrawnKept, WaiterStep;
    var step := WaiterStep(s, a);
    forall j: nat ensures WithdrawnKept(step, j) && JobKept(step, j) && LoggedOnce(step, j) {
      WaiterKeepsJob(s, a, j);
      WaiterKeepsLog(s, a, j);
      WaiterKeepsWithdrawn(s, a, j);
    }
    WaiterKeepsSilence(s, a);
    WaiterKeepsQueue(s, a);
    WaiterKeepsOrder(s, a);
  }

  /** The invariant is inductive. */
  lemma InvKept(s: State, a: Action)
    requires Inv(s) && Enabled(s, a)
    ensures Inv(Apply(s, a))
  {
    hide Inv, CallerStep, WaiterStep, WorkerStep, ExecutorStep, OtherStep;
    if CallerEnabled(s, a) {
      CallerKeepsInv(s, a);
    } else if WaiterEnabled(s, a) {
      WaiterKeepsInv(s, a);
    } else if WorkerEnabled(s, a) {
      WorkerKeepsInv(s, a);
    } else if ExecutorEnabled(s, a) {
      ExecutorKeepsInv(s, a);
    } else {
      OtherKeepsInv(s, a);
    }
  }
}
