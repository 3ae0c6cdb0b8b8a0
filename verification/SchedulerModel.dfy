/** The recognition scheduler as a transition system.  Every critical-section step, exchange on a
    control, event send and event receive is one atomic action; callers, the worker thread, the
    dropping owner and the owners of the controls interleave freely. */
module SchedulerModel {
  import opened Execution

  datatype Priority = Tick | Window

  datatype Outcome = Refused | Decoded | DecodeCancelled | DecoderPanicked | SchedulerStopped

  datatype Event = Started | Finished(outcome: Outcome)

  datatype CallResult = RefusedByControl | RefusedStopped | Value(outcome: Outcome) | TimedOut | Disconnected
    | DuplicateStart

  /** Where a call to the scheduled decoder is. */
  datatype Call =
    | Entering        // about to enqueue on its control
    | Locking         // about to take the queue lock
    | Pushing         // holds the lock, about to look at `stopped`
    | Counting        // holds the lock, pushed
    | Notifying       // holds the lock, counted
    | Waiting         // in the bounded wait for its first event
    | Finishing       // saw the start, waits for the result
    | TimingOut       // the bounded wait elapsed
    | Draining        // requested cancellation, waits for the result
    | Acknowledging   // consumed the result after a timeout
    | Returned(result: CallResult)

  datatype Job = Job(control: nat, priority: Priority, call: Call, inbox: seq<Event>, sent: seq<Event>)

  /** Why the worker looks at a control's cancellation. */
  datatype Reason = StartRefused | DecodeReturned | Cleared(rest: seq<nat>)

  datatype Next = ToIdle | ToStopping | ToClearing(rest: seq<nat>)

  datatype Worker =
    | Idle | Picking | Asleep | Exited
    | Popped(job: nat)                       // holds the lock, popped but not yet counted down
    | Starting(job: nat)
    | Announcing(job: nat)
    | Decoding(job: nat)
    | Checking(job: nat, reason: Reason)
    | AcknowledgingJob(job: nat, reason: Reason)
    | Failing(job: nat, outcome: Outcome, next: Next)
    | Sending(job: nat, outcome: Outcome, next: Next)
    | Stopping                               // about to lock after a decoder panic
    | Emptying                               // holds the lock, about to stop and drain
    | CountingDown(drained: seq<nat>)        // holds the lock, drained
    | Clearing(drained: seq<nat>)

  datatype Lock = Free | ByCaller(job: nat) | ByWorker | ByOwner

  datatype Owner = Alive | StoppingQueue | ToNotify | Joining

  datatype Queue = Queue(ticks: seq<nat>, windows: seq<nat>, stopped: bool)

  /** History of one class: jobs in the order they were accepted, taken by the worker, or drained by a panic. */
  datatype Log = Log(accepted: seq<nat>, taken: seq<nat>, drained: seq<nat>)

  datatype State = State(
    jobs: seq<Job>, controls: seq<ExecutionState>, queue: Queue, pending: int,
    lock: Lock, worker: Worker, owner: Owner,
    tickLog: Log, windowLog: Log, decoded: set<nat>)

  function Initial(): State {
    State([], [], Queue([], [], false), 0, Free, Idle, Alive, Log([], [], []), Log([], [], []), {})
  }

  datatype Request = Cancel | Complete | Fail

  datatype Action =
    | NewControl
    | NewCall(control: nat, priority: Priority)
    | Outside(control: nat, request: Request)
    | Enter(job: nat) | Lock(job: nat) | RefuseStopped(job: nat) | Push(job: nat) | Count(job: nat) | Notify(job: nat)
    | Receive(job: nat) | TimeOut(job: nat) | CancelWait(job: nat) | Acknowledge(job: nat) | Disconnect(job: nat)
    | WorkerLock | Pop | CountPop | Exit | Sleep | SpuriousWake
    | StartJob | Announce | Decode(panics: bool) | Check | AcknowledgeJob | FailJob | Send
    | LockToStop | Drain | CountDrained | ClearNext
    | OwnerLock | OwnerStop | OwnerNotify

  function SetCall(s: State, j: nat, call: Call): State
    requires j < |s.jobs|
  {
    s.(jobs := s.jobs[j := s.jobs[j].(call := call)])
  }

  function SetControl(s: State, c: nat, state: ExecutionState): State
    requires c < |s.controls|
  {
    s.(controls := s.controls[c := state])
  }

  function SendEvent(s: State, j: nat, event: Event): State
    requires j < |s.jobs|
  {
    var job := s.jobs[j];
    s.(jobs := s.jobs[j := job.(inbox := job.inbox + [event], sent := job.sent + [event])])
  }

  function Wake(worker: Worker): Worker {
    if worker.Asleep? then Idle else worker
  }

  predicate Known(s: State, j: nat) {
    j < |s.jobs| && s.jobs[j].control < |s.controls|
  }

  function ControlOf(s: State, j: nat): ExecutionState
    requires Known(s, j)
  {
    s.controls[s.jobs[j].control]
  }

  /** The jobs whose event sender the worker owns. */
  function Held(worker: Worker): seq<nat> {
    match worker
    case Popped(j) => [j]
    case Starting(j) => [j]
    case Announcing(j) => [j]
    case Decoding(j) => [j]
    case Checking(j, reason) => [j] + RestOf(reason)
    case AcknowledgingJob(j, reason) => [j] + RestOf(reason)
    case Failing(j, _, next) => [j] + Rest(next)
    case Sending(j, _, next) => [j] + Rest(next)
    case CountingDown(drained) => drained
    case Clearing(drained) => drained
    case _ => []
  }

  function RestOf(reason: Reason): seq<nat> { if reason.Cleared? then reason.rest else [] }
  function Rest(next: Next): seq<nat> { if next.ToClearing? then next.rest else [] }

  /** Nobody can send on the job's channel any more. */
  predicate SenderGone(s: State, j: nat) {
    j !in s.queue.ticks && j !in s.queue.windows && j !in Held(s.worker)
  }

  // ---- Callers: getting into the queue, and waiting for the result -------------------

  predicate CallerEnabled(s: State, a: Action) {
    match a
    case Enter(j) => Known(s, j) && s.jobs[j].call.Entering?
    case Lock(j) => Known(s, j) && s.jobs[j].call.Locking? && s.lock.Free?
    case RefuseStopped(j) => Known(s, j) && s.jobs[j].call.Pushing? && s.queue.stopped
    case Push(j) => Known(s, j) && s.jobs[j].call.Pushing? && !s.queue.stopped
    case Count(j) => Known(s, j) && s.jobs[j].call.Counting?
    case Notify(j) => Known(s, j) && s.jobs[j].call.Notifying?
    case _ => false
  }

  predicate WaiterEnabled(s: State, a: Action) {
    match a
    case Receive(j) => Known(s, j) && s.jobs[j].inbox != [] &&
                       (s.jobs[j].call.Waiting? || s.jobs[j].call.Finishing? || s.jobs[j].call.Draining?)
    case TimeOut(j) => Known(s, j) && s.jobs[j].call.Waiting?
    case CancelWait(j) => Known(s, j) && s.jobs[j].call.TimingOut?
    case Acknowledge(j) => Known(s, j) && s.jobs[j].call.Acknowledging?
    case Disconnect(j) => Known(s, j) && s.jobs[j].inbox == [] && SenderGone(s, j) &&
                          (s.jobs[j].call.Waiting? || s.jobs[j].call.Finishing? || s.jobs[j].call.Draining?)
    case _ => false
  }

  /** What a waiting call does with the next event. */
  function AfterEvent(call: Call, event: Event): Call {
    match event
    case Started => if call.Waiting? then Finishing else if call.Draining? then Draining else Returned(DuplicateStart)
    case Finished(outcome) => if call.Draining? then Acknowledging else Returned(Value(outcome))
  }

  function CallerStep(s: State, a: Action): State
    requires CallerEnabled(s, a)
  {
    match a
    case Enter(j) =>
      var state := ControlOf(s, j);
      if EnqueueAccepts(state) then SetCall(SetControl(s, s.jobs[j].control, EnqueueOutcome(state)), j, Locking)
      else SetCall(s, j, Returned(RefusedByControl))
    case Lock(j) => SetCall(s, j, Pushing).(lock := ByCaller(j))
    case RefuseStopped(j) =>
      SetCall(SetControl(s, s.jobs[j].control, FinishOutcome(ControlOf(s, j), Failed)), j,
              Returned(RefusedStopped)).(lock := Free)
    case Push(j) =>
      var s' := SetCall(s, j, Counting);
      (match s.jobs[j].priority
       case Tick =>
         s'.(queue := s.queue.(ticks := s.queue.ticks + [j]),
             tickLog := s.tickLog.(accepted := s.tickLog.accepted + [j]))
       case Window =>
         s'.(queue := s.queue.(windows := s.queue.windows + [j]),
             windowLog := s.windowLog.(accepted := s.windowLog.accepted + [j])))
    case Count(j) => SetCall(s, j, Notifying).(pending := s.pending + 1)
    case Notify(j) => SetCall(s, j, Waiting).(lock := Free, worker := Wake(s.worker))
  }

  function WaiterStep(s: State, a: Action): State
    requires WaiterEnabled(s, a)
  {
    match a
    case Receive(j) =>
      var job := s.jobs[j];
      s.(jobs := s.jobs[j := job.(call := AfterEvent(job.call, job.inbox[0]), inbox := job.inbox[1..])])
    case TimeOut(j) => SetCall(s, j, TimingOut)
    case CancelWait(j) => SetCall(SetControl(s, s.jobs[j].control, CancelOutcome(ControlOf(s, j))), j, Call.Draining)
    case Acknowledge(j) =>
      SetCall(SetControl(s, s.jobs[j].control, AcknowledgeOutcome(ControlOf(s, j))), j, Returned(TimedOut))
    case Disconnect(j) => SetCall(s, j, Returned(Disconnected))
  }

  // ---- The worker: the queue, and one job at a time ----------------------------------

  predicate WorkerEnabled(s: State, a: Action) {
    match a
    case WorkerLock => s.worker.Idle? && s.lock.Free?
    case Pop => s.worker.Picking? && (s.queue.ticks != [] || s.queue.windows != [])
    case CountPop => s.worker.Popped?
    case Exit => s.worker.Picking? && s.queue.ticks == [] && s.queue.windows == [] && s.queue.stopped
    case Sleep => s.worker.Picking? && s.queue.ticks == [] && s.queue.windows == [] && !s.queue.stopped
    case SpuriousWake => s.worker.Asleep?
    case LockToStop => s.worker.Stopping? && s.lock.Free?
    case Drain => s.worker.Emptying?
    case CountDrained => s.worker.CountingDown?
    case ClearNext => s.worker.Clearing?
    case _ => false
  }

  predicate ExecutorEnabled(s: State, a: Action) {
    match a
    case StartJob => s.worker.Starting? && Known(s, s.worker.job)
    case Announce => s.worker.Announcing? && Known(s, s.worker.job)
    case Decode(_) => s.worker.Decoding? && Known(s, s.worker.job)
    case Check => s.worker.Checking? && Known(s, s.worker.job)
    case AcknowledgeJob => s.worker.AcknowledgingJob? && Known(s, s.worker.job)
    case FailJob => s.worker.Failing? && Known(s, s.worker.job)
    case Send => s.worker.Sending? && Known(s, s.worker.job)
    case _ => false
  }

  /** What follows once the cancellation flag has been read. */
  function AfterCheck(j: nat, reason: Reason, cancelled: bool): Worker {
    if cancelled then AcknowledgingJob(j, reason)
    else match reason
      case StartRefused => Sending(j, Refused, ToIdle)
      case DecodeReturned => Sending(j, Decoded, ToIdle)
      case Cleared(rest) => Failing(j, SchedulerStopped, ToClearing(rest))
  }

  function AfterAcknowledge(j: nat, reason: Reason): Worker {
    match reason
    case StartRefused => Sending(j, Refused, ToIdle)
    case DecodeReturned => Sending(j, DecodeCancelled, ToIdle)
    case Cleared(rest) => Sending(j, DecodeCancelled, ToClearing(rest))
  }

  function AfterSend(next: Next): Worker {
    match next
    case ToIdle => Idle
    case ToStopping => Stopping
    case ToClearing(rest) => Clearing(rest)
  }

  function WorkerStep(s: State, a: Action): State
    requires WorkerEnabled(s, a)
  {
    match a
    case WorkerLock => s.(lock := ByWorker, worker := Picking)
    case Pop =>
      if s.queue.ticks != [] then
        var j := s.queue.ticks[0];
        s.(worker := Popped(j), queue := s.queue.(ticks := s.queue.ticks[1..]),
           tickLog := s.tickLog.(taken := s.tickLog.taken + [j]))
      else
        var j := s.queue.windows[0];
        s.(worker := Popped(j), queue := s.queue.(windows := s.queue.windows[1..]),
           windowLog := s.windowLog.(taken := s.windowLog.taken + [j]))
    case CountPop => s.(lock := Free, worker := Starting(s.worker.job), pending := s.pending - 1)
    case Exit => s.(lock := Free, worker := Exited)
    case Sleep => s.(lock := Free, worker := Asleep)
    case SpuriousWake => s.(worker := Idle)
    case LockToStop => s.(lock := ByWorker, worker := Emptying)
    case Drain =>
      s.(queue := Queue([], [], true), worker := CountingDown(s.queue.ticks + s.queue.windows),
         tickLog := s.tickLog.(drained := s.tickLog.drained + s.queue.ticks),
         windowLog := s.windowLog.(drained := s.windowLog.drained + s.queue.windows))
    case CountDrained =>
      s.(lock := Free, pending := s.pending - |s.worker.drained|, worker := Clearing(s.worker.drained))
    case ClearNext =>
      if s.worker.drained == [] then s.(worker := Exited)
      else s.(worker := Checking(s.worker.drained[0], Cleared(s.worker.drained[1..])))
  }

  function ExecutorStep(s: State, a: Action): State
    requires ExecutorEnabled(s, a)
  {
    match a
    case StartJob =>
      var j := s.worker.job;
      var state := ControlOf(s, j);
      if state.Active() then SetControl(s, s.jobs[j].control, StartOutcome(state)).(worker := Announcing(j))
      else s.(worker := Checking(j, StartRefused))
    case Announce =>
      SendEvent(s, s.worker.job, Started).(worker := Decoding(s.worker.job), decoded := s.decoded + {s.worker.job})
    case Decode(panics) =>
      s.(worker := if panics then Failing(s.worker.job, DecoderPanicked, ToStopping)
         else Checking(s.worker.job, DecodeReturned))
    case Check => s.(worker := AfterCheck(s.worker.job, s.worker.reason, ControlOf(s, s.worker.job).CancellationWon()))
    case AcknowledgeJob =>
      SetControl(s, s.jobs[s.worker.job].control, AcknowledgeOutcome(ControlOf(s, s.worker.job)))
        .(worker := AfterAcknowledge(s.worker.job, s.worker.reason))
    case FailJob =>
      SetControl(s, s.jobs[s.worker.job].control, FinishOutcome(ControlOf(s, s.worker.job), Failed))
        .(worker := Sending(s.worker.job, s.worker.outcome, s.worker.next))
    case Send => SendEvent(s, s.worker.job, Finished(s.worker.outcome)).(worker := AfterSend(s.worker.next))
  }

  // ---- Everybody else ---------------------------------------------------------------

  predicate OtherEnabled(s: State, a: Action) {
    match a
    case NewControl => true
    case NewCall(c, _) => c < |s.controls|
    case Outside(c, _) => c < |s.controls|
    case OwnerLock => s.owner.Alive? && s.lock.Free?
    case OwnerStop => s.owner.StoppingQueue?
    case OwnerNotify => s.owner.ToNotify?
    case _ => false
  }

  function RequestOutcome(request: Request, state: ExecutionState): ExecutionState {
    match request
    case Cancel => CancelOutcome(state)
    case Complete => FinishOutcome(state, Completed)
    case Fail => FinishOutcome(state, Failed)
  }

  function OtherStep(s: State, a: Action): State
    requires OtherEnabled(s, a)
  {
    match a
    case NewControl => s.(controls := s.controls + [Ready])
    case NewCall(c, priority) => s.(jobs := s.jobs + [Job(c, priority, Entering, [], [])])
    case Outside(c, request) => SetControl(s, c, RequestOutcome(request, s.controls[c]))
    case OwnerLock => s.(lock := ByOwner, owner := StoppingQueue)
    case OwnerStop => s.(queue := s.queue.(stopped := true), lock := Free, owner := ToNotify)
    case OwnerNotify => s.(owner := Joining, worker := Wake(s.worker))
  }

  predicate Enabled(s: State, a: Action) {
    CallerEnabled(s, a) || WaiterEnabled(s, a) || WorkerEnabled(s, a) || ExecutorEnabled(s, a) || OtherEnabled(s, a)
  }

  function Apply(s: State, a: Action): State
    requires Enabled(s, a)
  {
    if CallerEnabled(s, a) then CallerStep(s, a)
    else if WaiterEnabled(s, a) then WaiterStep(s, a)
    else if WorkerEnabled(s, a) then WorkerStep(s, a)
    else if ExecutorEnabled(s, a) then ExecutorStep(s, a)
    else OtherStep(s, a)
  }
}
