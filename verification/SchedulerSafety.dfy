/** What holds over every run of the scheduler. */
module SchedulerSafety {
  import opened Execution
  import opened SchedulerInvariant
  import opened SchedulerModel

  ghost predicate Run(states: seq<State>, actions: seq<Action>) {
    && |states| == |actions| + 1
    && states[0] == Initial()
    && forall i :: 0 <= i < |actions| ==>
         Enabled(states[i], actions[i]) && states[i + 1] == Apply(states[i], actions[i])
  }

  lemma {:induction false} RunKeepsInv(states: seq<State>, actions: seq<Action>, i: nat)
    requires Run(states, actions) && i < |states|
    ensures Inv(states[i])
  {
    hide Inv, Apply, Enabled;
    if i == 0 {
      InitiallyInv();
    } else {
      RunKeepsInv(states, actions, i - 1);
      InvKept(states[i - 1], actions[i - 1]);
    }
  }

  // ---- One result per accepted job --------------------------------------------------

  function Finishes(events: seq<Event>): nat {
    if events == [] then 0 else Finishes(events[..|events| - 1]) + if events[|events| - 1].Finished? then 1 else 0
  }

  lemma FinishesOnce(sent: seq<Event>)
    requires SentInOrder(sent)
    ensures Finishes(sent) == if Settled(sent) then 1 else 0
  {
    assert sent == [] || Finishes(sent[..|sent| - 1]) == 0;
  }

  /** An accepted job gets at most one result, and exactly one by the time nobody holds it, in
      particular once the worker thread has ended; the caller is handed that result, and no call
      ever sees a closed channel or a second start. */
  lemma ExactlyOneFinished(states: seq<State>, actions: seq<Action>, i: nat, j: nat)
    requires Run(states, actions) && i < |states| && j < |states[i].jobs|
    ensures var s := states[i]; var job := s.jobs[j];
      && Finishes(job.sent) <= 1
      && (Accepted(job.call) ==> (Finishes(job.sent) == 1 <==> SenderGone(s, j)))
      && (Accepted(job.call) && s.worker.Exited? ==> Finishes(job.sent) == 1)
      && (!Accepted(job.call) ==> job.sent == [])
      && (job.call.Returned? ==> !job.call.result.Disconnected? && !job.call.result.DuplicateStart?)
      && (job.call.Returned? && job.call.result.Value? ==> Finished(job.call.result.outcome) in job.sent)
  {
    RunKeepsInv(states, actions, i);
    var s := states[i];
    assert JobKept(s, j);
    FinishesOnce(s.jobs[j].sent);
    PlacesOfJob(s, j);
  }

  lemma PlacesOfJob(s: State, j: nat)
    ensures SenderGone(s, j) <==> Places(s, j) == 0
  {
    OccursLaws(s.queue.ticks, [], j, j);
    OccursLaws(s.queue.windows, [], j, j);
    OccursLaws(Held(s.worker), [], j, j);
  }

  // ---- Stopping ---------------------------------------------------------------------

  /** How one step may move the queue's history. */
  predicate HistoryMoves(s: State, a: Action, step: State) {
    && (s.queue.stopped ==> step.queue.stopped)
    && (!(a.Push? && CallerEnabled(s, a)) ==>
        step.tickLog.accepted == s.tickLog.accepted && step.windowLog.accepted == s.windowLog.accepted)
    && (!(a.Pop? && WorkerEnabled(s, a)) ==>
        step.tickLog.taken == s.tickLog.taken && step.windowLog.taken == s.windowLog.taken)
    && (!(a.Announce? && ExecutorEnabled(s, a)) ==> step.decoded == s.decoded)
  }

  lemma CallerMoves(s: State, a: Action)
    requires CallerEnabled(s, a)
    ensures HistoryMoves(s, a, CallerStep(s, a))
  {
  }

  lemma WaiterMoves(s: State, a: Action)
    requires WaiterEnabled(s, a)
    ensures HistoryMoves(s, a, WaiterStep(s, a))
  {
  }

  lemma WorkerMoves(s: State, a: Action)
    requires WorkerEnabled(s, a)
    ensures HistoryMoves(s, a, WorkerStep(s, a))
  {
  }

  lemma ExecutorMoves(s: State, a: Action)
    requires ExecutorEnabled(s, a)
    ensures HistoryMoves(s, a, ExecutorStep(s, a))
  {
  }

  lemma OtherMoves(s: State, a: Action)
    requires OtherEnabled(s, a)
    ensures HistoryMoves(s, a, OtherStep(s, a))
  {
  }

  lemma StepMoves(s: State, a: Action)
    requires Enabled(s, a)
    ensures HistoryMoves(s, a, Apply(s, a))
  {
    hide HistoryMoves, CallerStep, WaiterStep, WorkerStep, ExecutorStep, OtherStep;
    if CallerEnabled(s, a) {
      CallerMoves(s, a);
    } else if WaiterEnabled(s, a) {
      WaiterMoves(s, a);
    } else if WorkerEnabled(s, a) {
      WorkerMoves(s, a);
    } else if ExecutorEnabled(s, a) {
      ExecutorMoves(s, a);
    } else {
      OtherMoves(s, a);
    }
  }

  /** Once the queue is stopped it stays stopped, and no job is accepted any more. */
  lemma {:induction false} StoppedAcceptsNothing(states: seq<State>, actions: seq<Action>, i: nat, k: nat)
    requires Run(states, actions) && i <= k < |states| && states[i].queue.stopped
    ensures states[k].queue.stopped
    ensures forall j :: 0 <= j < |states[k].jobs| && Accepted(states[k].jobs[j].call) ==>
      j < |states[i].jobs| && Accepted(states[i].jobs[j].call)
  {
    StoppedLogsFixed(states, actions, i, k);
    RunKeepsInv(states, actions, i);
    RunKeepsInv(states, actions, k);
    forall j | 0 <= j < |states[k].jobs| && Accepted(states[k].jobs[j].call)
      ensures j < |states[i].jobs| && Accepted(states[i].jobs[j].call)
    {
      assert LoggedOnce(states[k], j) && LoggedOnce(states[i], j);
    }
  }

  lemma {:induction false} StoppedLogsFixed(states: seq<State>, actions: seq<Action>, i: nat, k: nat)
    requires Run(states, actions) && i <= k < |states| && states[i].queue.stopped
    ensures states[k].queue.stopped
    ensures states[k].tickLog.accepted == states[i].tickLog.accepted
    ensures states[k].windowLog.accepted == states[i].windowLog.accepted
    decreases k
  {
    hide Apply, Enabled;
    if i < k {
      StoppedLogsFixed(states, actions, i, k - 1);
      StepMoves(states[k - 1], actions[k - 1]);
    }
  }

  /** The counter is exact whenever the queue lock is free, and never negative. */
  lemma PendingExact(states: seq<State>, actions: seq<Action>, i: nat)
    requires Run(states, actions) && i < |states|
    ensures var s := states[i];
      s.pending >= 0 && (s.lock.Free? ==> s.pending == |s.queue.ticks| + |s.queue.windows|)
  {
    RunKeepsInv(states, actions, i);
    hide JobsKept, QueuedSilent, Logged, Withdrawn;
  }

  // ---- Order ------------------------------------------------------------------------

  /** Each class is taken first in, first out, and a window is taken only when every tick accepted so
      far has already been taken. */
  lemma TicksBeforeWindows(states: seq<State>, actions: seq<Action>, i: nat)
    requires Run(states, actions) && i < |actions|
    ensures states[i].tickLog.taken <= states[i].tickLog.accepted
    ensures states[i].windowLog.taken <= states[i].windowLog.accepted
    ensures states[i + 1].windowLog.taken != states[i].windowLog.taken ==>
      && states[i].tickLog.taken == states[i].tickLog.accepted
      && |states[i].windowLog.taken| < |states[i].windowLog.accepted|
      && states[i + 1].windowLog.taken
           == states[i].windowLog.taken + [states[i].windowLog.accepted[|states[i].windowLog.taken|]]
  {
    hide JobsKept, QueuedSilent, Exclusive, Counted, NoLostWakeup, Logged, Withdrawn, Apply, CallerEnabled;
    RunKeepsInv(states, actions, i);
    StepMoves(states[i], actions[i]);
    if actions[i].Pop? && WorkerEnabled(states[i], actions[i]) {
      PopInOrder(states[i], actions[i]);
    }
  }

  lemma PopInOrder(s: State, a: Action)
    requires InOrder(s) && StoppedKept(s) && a.Pop? && WorkerEnabled(s, a)
    ensures Apply(s, a).windowLog.taken != s.windowLog.taken ==>
      && s.tickLog.taken == s.tickLog.accepted
      && |s.windowLog.taken| < |s.windowLog.accepted|
      && Apply(s, a).windowLog.taken == s.windowLog.taken + [s.windowLog.accepted[|s.windowLog.taken|]]
  {
  }

  // ---- Cancellation -----------------------------------------------------------------

  /** How one step may move one job: only the executor sends, what it is about to send on, and only a
      job that was given a start is decoded. */
  predicate JobMoves(s: State, a: Action, step: State, j: nat) {
    Known(s, j) ==>
      && Known(step, j) && step.jobs[j].control == s.jobs[j].control
      && (step.worker == Announcing(j) && s.worker != Announcing(j) ==> ControlOf(s, j).Active())
      && (j in step.decoded && j !in s.decoded ==> s.worker == Announcing(j))
      && (step.jobs[j].sent == s.jobs[j].sent ||
          step.jobs[j].sent == s.jobs[j].sent + [Started] ||
          (s.worker.Sending? && s.worker.job == j
           && step.jobs[j].sent == s.jobs[j].sent + [Finished(s.worker.outcome)]))
      && (step.worker.Sending? && step.worker.job == j && step.worker.outcome.Decoded? && step.worker != s.worker ==>
          s.worker.Checking? && s.worker.job == j && !ControlOf(s, j).CancellationWon())
  }

  lemma CallerMovesJob(s: State, a: Action, j: nat)
    requires CallerEnabled(s, a)
    ensures JobMoves(s, a, CallerStep(s, a), j)
  {
  }

  lemma WaiterMovesJob(s: State, a: Action, j: nat)
    requires WaiterEnabled(s, a)
    ensures JobMoves(s, a, WaiterStep(s, a), j)
  {
  }

  lemma WorkerMovesJob(s: State, a: Action, j: nat)
    requires WorkerEnabled(s, a)
    ensures JobMoves(s, a, WorkerStep(s, a), j)
  {
  }

  lemma ExecutorMovesJob(s: State, a: Action, j: nat)
    requires ExecutorEnabled(s, a) && HeadSent(s)
    ensures JobMoves(s, a, ExecutorStep(s, a), j)
  {
  }

  lemma OtherMovesJob(s: State, a: Action, j: nat)
    requires OtherEnabled(s, a)
    ensures JobMoves(s, a, OtherStep(s, a), j)
  {
  }

  lemma StepMovesJob(s: State, a: Action, j: nat)
    requires Enabled(s, a) && HeadSent(s)
    ensures JobMoves(s, a, Apply(s, a), j)
  {
    hide JobMoves, HeadSent, CallerStep, WaiterStep, WorkerStep, ExecutorStep, OtherStep;
    if CallerEnabled(s, a) {
      CallerMovesJob(s, a, j);
    } else if WaiterEnabled(s, a) {
      WaiterMovesJob(s, a, j);
    } else if WorkerEnabled(s, a) {
      WorkerMovesJob(s, a, j);
    } else if ExecutorEnabled(s, a) {
      ExecutorMovesJob(s, a, j);
    } else {
      OtherMovesJob(s, a, j);
    }
  }

  /** The control can no longer start, and the job's start is not under way. */
  predicate WillNotDecode(s: State, j: nat) {
    Known(s, j) && !ControlOf(s, j).Active() && j !in s.decoded && s.worker != Announcing(j)
  }

  /** A cancellation won while the job's result is not yet on its way. */
  predicate WillNotDeliver(s: State, j: nat) {
    && Known(s, j) && ControlOf(s, j).CancellationWon()
    && Finished(Decoded) !in s.jobs[j].sent
    && !(s.worker.Sending? && s.worker.job == j && s.worker.outcome.Decoded?)
  }

  lemma CancellationKept(s: State, a: Action, j: nat)
    requires Enabled(s, a) && HeadSent(s)
    ensures WillNotDecode(s, j) ==> WillNotDecode(Apply(s, a), j)
    ensures WillNotDeliver(s, j) ==> WillNotDeliver(Apply(s, a), j)
  {
    hide Enabled, Apply, HeadSent;
    if Known(s, j) {
      var step := Apply(s, a);
      StepMovesJob(s, a, j);
      ControlsClimb(s, a, s.jobs[j].control);
    }
  }

  /** The decoder never runs for a job whose control was cancelled or terminal before its start, and a
      result that comes back after a cancellation is never delivered. */
  lemma {:induction false} CancellationIsFinal(states: seq<State>, actions: seq<Action>, i: nat, k: nat, j: nat)
    requires Run(states, actions) && i <= k < |states|
    ensures WillNotDecode(states[i], j) ==> Known(states[k], j) && j !in states[k].decoded
    ensures WillNotDeliver(states[i], j) ==> Known(states[k], j) && Finished(Decoded) !in states[k].jobs[j].sent
  {
    CancellationLasts(states, actions, i, k, j);
  }

  lemma {:induction false} CancellationLasts(states: seq<State>, actions: seq<Action>, i: nat, k: nat, j: nat)
    requires Run(states, actions) && i <= k < |states|
    ensures WillNotDecode(states[i], j) ==> WillNotDecode(states[k], j)
    ensures WillNotDeliver(states[i], j) ==> WillNotDeliver(states[k], j)
    decreases k
  {
    hide Apply, Enabled, WillNotDecode, WillNotDeliver, HeadSent;
    if i < k {
      CancellationLasts(states, actions, i, k - 1, j);
      RunKeepsInv(states, actions, k - 1);
      CancellationKept(states[k - 1], actions[k - 1], j);
    }
  }

  /** A call that gave up waiting returns only after the worker's result, with its control terminal. */
  lemma TimeoutIsTerminal(states: seq<State>, actions: seq<Action>, i: nat, j: nat)
    requires Run(states, actions) && i < |states| && j < |states[i].jobs|
    requires states[i].jobs[j].call == Returned(TimedOut)
    ensures Known(states[i], j) && ControlOf(states[i], j).Terminal() && Finishes(states[i].jobs[j].sent) == 1
  {
    RunKeepsInv(states, actions, i);
    assert WithdrawnKept(states[i], j) && JobKept(states[i], j);
    FinishesOnce(states[i].jobs[j].sent);
  }

  /** In every run each control only climbs. */
  lemma {:induction false} ControlsOnlyClimb(states: seq<State>, actions: seq<Action>, i: nat, k: nat, c: nat)
    requires Run(states, actions) && i <= k < |states| && c < |states[i].controls|
    ensures c < |states[k].controls| && Climbs(states[i].controls[c], states[k].controls[c])
    decreases k
  {
    hide Apply, Enabled, Climbs;
    if i < k {
      ControlsOnlyClimb(states, actions, i, k - 1, c);
      ControlsClimb(states[k - 1], actions[k - 1], c);
      ClimbsIsMonotone(states[i].controls[c], states[k - 1].controls[c], states[k].controls[c]);
    } else {
      ClimbsFromItself(states[i].controls[c]);
    }
  }

  // ---- The way of a call ----------------------------------------------------------------

  predicate GaveUp(call: Call) {
    call.TimingOut? || call.Draining? || call.Acknowledging? || call == Returned(TimedOut)
  }

  /** What a call that waits can still become: one that saw its start waits for its result for as long as it takes,
      one that gave up never returns a result, and one that returned is over. */
  predicate Leads(from: Call, to: Call) {
    match from
    case Waiting => to.Waiting? || to.Finishing? || GaveUp(to) || (to.Returned? && to.result.Value?)
    case Finishing => to.Finishing? || (to.Returned? && to.result.Value?)
    case Returned(_) => to == from
    case _ => GaveUp(from) ==> GaveUp(to)
  }

  lemma LeadsOn(a: Call, b: Call, c: Call)
    ensures Leads(a, a)
    ensures Leads(a, b) && Leads(b, c) ==> Leads(a, c)
  {
  }

  lemma CallerLeads(s: State, a: Action, j: nat)
    requires CallerEnabled(s, a) && j < |s.jobs|
    ensures j < |CallerStep(s, a).jobs| && Leads(s.jobs[j].call, CallerStep(s, a).jobs[j].call)
  {
    hide EnqueueAccepts, EnqueueOutcome, FinishOutcome;
  }

  lemma WaiterLeads(s: State, a: Action, j: nat)
    requires WaiterEnabled(s, a) && j < |s.jobs| && JobKept(s, j)
    requires JobKept(WaiterStep(s, a), j)
    ensures j < |WaiterStep(s, a).jobs| && Leads(s.jobs[j].call, WaiterStep(s, a).jobs[j].call)
  {
    hide Places, CancelOutcome, AcknowledgeOutcome;
  }

  lemma OtherActorsLead(s: State, a: Action, j: nat)
    requires Enabled(s, a) && !CallerEnabled(s, a) && !WaiterEnabled(s, a) && j < |s.jobs|
    ensures j < |Apply(s, a).jobs| && Apply(s, a).jobs[j].call == s.jobs[j].call
  {
    hide StartOutcome, AcknowledgeOutcome, FinishOutcome;
  }

  /** Over every run. */
  lemma {:induction false} CallsProceed(states: seq<State>, actions: seq<Action>, i: nat, k: nat, j: nat)
    requires Run(states, actions) && i <= k < |states| && j < |states[i].jobs|
    ensures j < |states[k].jobs| && Leads(states[i].jobs[j].call, states[k].jobs[j].call)
    decreases k
  {
    hide Inv, Apply, Enabled, Leads, JobKept;
    if i < k {
      CallsProceed(states, actions, i, k - 1, j);
      RunKeepsInv(states, actions, k - 1);
      RunKeepsInv(states, actions, k);
      CallLeads(states[k - 1], actions[k - 1], j);
      LeadsOn(states[i].jobs[j].call, states[k - 1].jobs[j].call, states[k].jobs[j].call);
    } else {
      LeadsOn(states[i].jobs[j].call, states[i].jobs[j].call, states[i].jobs[j].call);
    }
  }

  lemma CallLeads(s: State, a: Action, j: nat)
    requires Enabled(s, a) && Inv(s) && Inv(Apply(s, a)) && j < |s.jobs|
    ensures j < |Apply(s, a).jobs| && Leads(s.jobs[j].call, Apply(s, a).jobs[j].call)
  {
    assert JobKept(s, j) && JobKept(Apply(s, a), j);
    LeadsOn(s.jobs[j].call, s.jobs[j].call, s.jobs[j].call);
    hide Inv, Leads, JobKept, CallerStep, WaiterStep, WorkerStep, ExecutorStep, OtherStep;
    if CallerEnabled(s, a) {
      CallerLeads(s, a, j);
    } else if WaiterEnabled(s, a) {
      WaiterLeads(s, a, j);
    } else {
      OtherActorsLead(s, a, j);
    }
  }
}
