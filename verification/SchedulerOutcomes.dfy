/** What each result means, over every run. */
module SchedulerOutcomes {
  import opened Execution
  import opened SchedulerInvariant
  import opened SchedulerModel
  import opened SchedulerSafety

  // ---- The meaning of a result --------------------------------------------------------

  /** The jobs whose decoding panicked in the first `k` steps. */
  ghost function Panicked(states: seq<State>, actions: seq<Action>, k: nat): set<nat>
    requires k <= |actions| < |states|
  {
    if k == 0 then {} else NowPanicked(Panicked(states, actions, k - 1), states[k - 1], actions[k - 1])
  }

  function NowPanicked(panicked: set<nat>, s: State, a: Action): set<nat> {
    if a == Decode(true) && s.worker.Decoding? then panicked + {s.worker.job} else panicked
  }

  /** The job was still queued when a panic emptied the queue. */
  predicate WasDrained(s: State, j: nat) { j in s.tickLog.drained || j in s.windowLog.drained }

  predicate OutcomeMeans(s: State, panicked: set<nat>, j: nat, outcome: Outcome) {
    && Known(s, j)
    && match outcome
       case Refused => j !in s.decoded && !ControlOf(s, j).Active()
       case Decoded => j in s.decoded && j !in panicked
       case DecodeCancelled =>
         (j in s.decoded || WasDrained(s, j)) && j !in panicked && ControlOf(s, j).Cancelled?
       case DecoderPanicked => j in panicked && ControlOf(s, j).Terminal()
       case SchedulerStopped => WasDrained(s, j) && j !in s.decoded && ControlOf(s, j).Terminal()
  }

  // ---- The invariant behind it ----------------------------------------------------------

  predicate AllDrained(s: State, jobs: seq<nat>) { forall i :: 0 <= i < |jobs| ==> WasDrained(s, jobs[i]) }

  /** Why the worker looks at the job's cancellation. */
  predicate ReasonMeans(s: State, panicked: set<nat>, j: nat, reason: Reason) {
    && Known(s, j)
    && match reason
       case StartRefused => j !in s.decoded && !ControlOf(s, j).Active()
       case DecodeReturned => j in s.decoded && j !in panicked
       case Cleared(rest) => WasDrained(s, j) && j !in s.decoded && AllDrained(s, rest)
  }

  predicate WorkerMeans(s: State, panicked: set<nat>) {
    match s.worker
    case Announcing(j) => Known(s, j) && Started(ControlOf(s, j))
    case Decoding(j) => Known(s, j) && j in s.decoded && j !in panicked
    case Checking(j, reason) => ReasonMeans(s, panicked, j, reason)
    case AcknowledgingJob(j, reason) => ReasonMeans(s, panicked, j, reason) && ControlOf(s, j).CancellationWon()
    case Failing(j, outcome, next) =>
      && Known(s, j) && AllDrained(s, Rest(next))
      && (outcome.DecoderPanicked? ==> j in panicked)
      && (outcome.SchedulerStopped? ==> WasDrained(s, j) && j !in s.decoded)
    case Sending(j, outcome, next) => OutcomeMeans(s, panicked, j, outcome) && AllDrained(s, Rest(next))
    case CountingDown(drained) => AllDrained(s, drained)
    case Clearing(drained) => AllDrained(s, drained)
    case _ => true
  }

  predicate BeganDecoding(s: State, j: nat) { j < |s.jobs| && s.jobs[j].sent != [] && s.jobs[j].sent[0].Started? }

  predicate Started(state: ExecutionState) { !state.Ready? && !state.Queued? }

  /** A call that has entered has queued its control, and a decoded job has started it; a refused call's control could
      not start any more, or the queue had stopped and the control is terminal. */
  predicate CallMeans(s: State, j: nat) {
    j < |s.jobs| ==>
      && (Known(s, j) && !s.jobs[j].call.Entering? ==> !ControlOf(s, j).Ready?)
      && (Known(s, j) && j in s.decoded ==> Started(ControlOf(s, j)))
      && (s.jobs[j].call == Returned(RefusedByControl) ==> Known(s, j) && !ControlOf(s, j).Active())
      && (s.jobs[j].call == Returned(RefusedStopped) ==>
            s.queue.stopped && Known(s, j) && ControlOf(s, j).Terminal())
  }

  ghost predicate JobMeans(s: State, panicked: set<nat>, j: nat) {
    && (j in s.decoded <==> BeganDecoding(s, j))
    && CallMeans(s, j)
    && (j < |s.jobs| ==> forall o :: Finished(o) in s.jobs[j].sent ==> OutcomeMeans(s, panicked, j, o))
  }

  ghost predicate Meanings(s: State, panicked: set<nat>) {
    && panicked <= s.decoded && WorkerMeans(s, panicked)
    && forall j: nat :: JobMeans(s, panicked, j)
  }

  // ---- How one step may move the histories ----------------------------------------------

  /** The worker is on its way out. */
  predicate PastPanic(worker: Worker) {
    match worker
    case Failing(_, _, next) => !next.ToIdle?
    case Sending(_, _, next) => !next.ToIdle?
    case Checking(_, reason) => reason.Cleared?
    case AcknowledgingJob(_, reason) => reason.Cleared?
    case Stopping => true
    case Emptying => true
    case CountingDown(_) => true
    case Clearing(_) => true
    case Exited => true
    case _ => false
  }

  predicate Grows(s: State, a: Action, step: State) {
    && s.tickLog.drained <= step.tickLog.drained && s.windowLog.drained <= step.windowLog.drained
    && s.decoded <= step.decoded
    && (forall j :: |s.jobs| <= j < |step.jobs| ==> step.jobs[j].sent == [])
    && (PastPanic(s.worker) || (a == Decode(true) && ExecutorEnabled(s, a)) ==>
          PastPanic(step.worker) && step.decoded == s.decoded)
  }

  /** Nobody but the worker moves it, except to wake it, and nobody else decodes. */
  predicate Passive(s: State, a: Action, step: State) {
    (step.worker == s.worker || (s.worker.Asleep? && step.worker.Idle?)) && step.decoded == s.decoded && !a.Decode?
  }

  lemma CallerGrows(s: State, a: Action)
    requires CallerEnabled(s, a)
    ensures Grows(s, a, CallerStep(s, a)) && Passive(s, a, CallerStep(s, a))
  {
    hide EnqueueAccepts, EnqueueOutcome, FinishOutcome;
  }

  lemma WaiterGrows(s: State, a: Action)
    requires WaiterEnabled(s, a)
    ensures Grows(s, a, WaiterStep(s, a)) && Passive(s, a, WaiterStep(s, a))
  {
    hide CancelOutcome, AcknowledgeOutcome;
  }

  lemma WorkerGrows(s: State, a: Action)
    requires WorkerEnabled(s, a)
    ensures Grows(s, a, WorkerStep(s, a))
  {
  }

  lemma ExecutorGrows(s: State, a: Action)
    requires ExecutorEnabled(s, a)
    ensures Grows(s, a, ExecutorStep(s, a))
  {
    hide StartOutcome, AcknowledgeOutcome, FinishOutcome;
  }

  lemma OtherGrows(s: State, a: Action)
    requires OtherEnabled(s, a)
    ensures Grows(s, a, OtherStep(s, a)) && Passive(s, a, OtherStep(s, a))
  {
    hide RequestOutcome;
  }

  lemma StepGrows(s: State, a: Action)
    requires Enabled(s, a)
    ensures Grows(s, a, Apply(s, a))
  {
    hide Grows, Passive, CallerStep, WaiterStep, WorkerStep, ExecutorStep, OtherStep;
    if CallerEnabled(s, a) {
      CallerGrows(s, a);
    } else if WaiterEnabled(s, a) {
      WaiterGrows(s, a);
    } else if WorkerEnabled(s, a) {
      WorkerGrows(s, a);
    } else if ExecutorEnabled(s, a) {
      ExecutorGrows(s, a);
    } else {
      OtherGrows(s, a);
    }
  }

  lemma DrainedMoves(s: State, a: Action, j: nat)
    requires Enabled(s, a)
    ensures WasDrained(s, j) ==> WasDrained(Apply(s, a), j)
  {
    hide Enabled, Apply, PastPanic;
    StepGrows(s, a);
  }

  // ---- What lasts -----------------------------------------------------------------------

  /** How one step may move what the meaning of a job's result depends on. */
  predicate Moved(s: State, panicked: set<nat>, step: State, after: set<nat>, j: nat) {
    && (WasDrained(s, j) ==> WasDrained(step, j))
    && (s.queue.stopped ==> step.queue.stopped)
    && (Known(s, j) ==>
          && Known(step, j) && Climbs(ControlOf(s, j), ControlOf(step, j))
          && (j in s.decoded ==> j in step.decoded)
          && (j in step.decoded && j !in s.decoded ==> s.worker == Announcing(j))
          && (j in panicked ==> j in after)
          && (j in after && j !in panicked ==> s.worker == Decoding(j)))
  }

  lemma OutcomeLasts(s: State, panicked: set<nat>, step: State, after: set<nat>, j: nat, outcome: Outcome)
    requires OutcomeMeans(s, panicked, j, outcome) && Moved(s, panicked, step, after, j)
    requires s.worker != Announcing(j) && s.worker != Decoding(j)
    ensures OutcomeMeans(step, after, j, outcome)
  {
  }

  lemma ReasonLasts(s: State, panicked: set<nat>, step: State, after: set<nat>, j: nat, reason: Reason)
    requires ReasonMeans(s, panicked, j, reason) && forall k: nat :: Moved(s, panicked, step, after, k)
    requires s.worker != Announcing(j) && s.worker != Decoding(j)
    ensures ReasonMeans(step, after, j, reason)
    ensures ControlOf(s, j).CancellationWon() ==> ControlOf(step, j).CancellationWon()
  {
    assert Moved(s, panicked, step, after, j);
    DrainedLasts(s, panicked, step, after, RestOf(reason));
  }

  lemma DrainedLasts(s: State, panicked: set<nat>, step: State, after: set<nat>, jobs: seq<nat>)
    requires AllDrained(s, jobs) && forall k: nat :: Moved(s, panicked, step, after, k)
    ensures AllDrained(step, jobs)
  {
    hide WasDrained;
    forall i | 0 <= i < |jobs| ensures WasDrained(step, jobs[i]) {
      assert Moved(s, panicked, step, after, jobs[i]);
    }
  }

  lemma StepMoved(s: State, panicked: set<nat>, a: Action, j: nat)
    requires Enabled(s, a) && HeadSent(s)
    ensures Moved(s, panicked, Apply(s, a), NowPanicked(panicked, s, a), j)
  {
    hide Enabled, Apply, HeadSent, Climbs, WasDrained;
    DrainedMoves(s, a, j);
    StepMoves(s, a);
    StepGrows(s, a);
    if Known(s, j) {
      StepMovesJob(s, a, j);
      ControlsClimb(s, a, s.jobs[j].control);
    }
  }

  // ---- One step -------------------------------------------------------------------------

  /** A settled job is not in the worker's hands. */
  lemma SettledIsElsewhere(s: State, j: nat)
    requires JobKept(s, j) && j < |s.jobs| && Settled(s.jobs[j].sent)
    ensures j !in Held(s.worker)
  {
    OccursLaws(Held(s.worker), [], j, j);
  }

  lemma FinishedSettles(s: State, j: nat, outcome: Outcome)
    requires JobKept(s, j) && j < |s.jobs| && Finished(outcome) in s.jobs[j].sent
    ensures Settled(s.jobs[j].sent)
  {
  }

  /** The results a step sends or leaves on a job's channel mean what they should. */
  lemma SentKeeps(s: State, panicked: set<nat>, a: Action, step: State, after: set<nat>, j: nat, outcome: Outcome)
    requires Enabled(s, a) && step == Apply(s, a) && after == NowPanicked(panicked, s, a)
    requires HeadSent(s) && JobKept(s, j) && WorkerMeans(s, panicked) && JobMeans(s, panicked, j)
    requires j < |s.jobs| && j < |step.jobs| && Finished(outcome) in step.jobs[j].sent
    ensures OutcomeMeans(step, after, j, outcome)
  {
    hide Enabled, Apply, HeadSent, JobKept, OutcomeMeans, ReasonMeans, AllDrained, Moved, NowPanicked, Settled;
    KnownWhenKept(s, j);
    StepMovesJob(s, a, j);
    StepMoved(s, panicked, a, j);
    if Finished(outcome) in s.jobs[j].sent {
      FinishedSettles(s, j, outcome);
      SettledIsElsewhere(s, j);
      OutcomeLasts(s, panicked, step, after, j, outcome);
    } else {
      assert s.worker.Sending? && s.worker.job == j && s.worker.outcome == outcome;
      OutcomeLasts(s, panicked, step, after, j, outcome);
    }
  }

  lemma CallerKeepsStart(s: State, a: Action, step: State, j: nat)
    requires CallerEnabled(s, a) && step == CallerStep(s, a) && CallMeans(s, j)
    ensures CallMeans(step, j) && BeganDecoding(step, j) == BeganDecoding(s, j) && step.decoded == s.decoded
  {
  }

  lemma WaiterKeepsStart(s: State, a: Action, step: State, j: nat)
    requires WaiterEnabled(s, a) && step == WaiterStep(s, a) && CallMeans(s, j)
    ensures CallMeans(step, j) && BeganDecoding(step, j) == BeganDecoding(s, j) && step.decoded == s.decoded
  {
  }

  lemma WorkerKeepsStart(s: State, a: Action, step: State, j: nat)
    requires WorkerEnabled(s, a) && step == WorkerStep(s, a) && CallMeans(s, j)
    ensures CallMeans(step, j) && BeganDecoding(step, j) == BeganDecoding(s, j) && step.decoded == s.decoded
  {
  }

  lemma OtherKeepsStart(s: State, a: Action, step: State, j: nat)
    requires OtherEnabled(s, a) && step == OtherStep(s, a) && CallMeans(s, j)
    requires (j < |s.jobs| ==> Known(s, j)) && (j in s.decoded ==> j < |s.jobs|)
    ensures CallMeans(step, j) && BeganDecoding(step, j) == BeganDecoding(s, j) && step.decoded == s.decoded
  {
  }

  lemma ExecutorKeepsStart(s: State, a: Action, step: State, j: nat)
    requires ExecutorEnabled(s, a) && step == ExecutorStep(s, a) && CallMeans(s, j) && HeadSent(s)
    requires s.worker.Announcing? ==> Known(s, s.worker.job) && Started(ControlOf(s, s.worker.job))
    requires j in s.decoded <==> BeganDecoding(s, j)
    ensures CallMeans(step, j) && (j in step.decoded <==> BeganDecoding(step, j))
  {
  }

  lemma BeganInside(s: State, j: nat)
    ensures BeganDecoding(s, j) ==> j < |s.jobs|
  {
  }

  lemma StartKept(s: State, a: Action, step: State, j: nat)
    requires Enabled(s, a) && step == Apply(s, a) && CallMeans(s, j) && HeadSent(s)
    requires j < |s.jobs| ==> Known(s, j)
    requires s.worker.Announcing? ==> Known(s, s.worker.job) && Started(ControlOf(s, s.worker.job))
    requires s.worker.Announcing? ==> Known(s, s.worker.job) && Started(ControlOf(s, s.worker.job))
    requires j in s.decoded <==> BeganDecoding(s, j)
    ensures CallMeans(step, j) && (j in step.decoded <==> BeganDecoding(step, j))
  {
    BeganInside(s, j);
    hide CallMeans, BeganDecoding, HeadSent, Started, CallerStep, WaiterStep, WorkerStep, ExecutorStep, OtherStep;
    if CallerEnabled(s, a) {
      CallerKeepsStart(s, a, step, j);
    } else if WaiterEnabled(s, a) {
      WaiterKeepsStart(s, a, step, j);
    } else if WorkerEnabled(s, a) {
      WorkerKeepsStart(s, a, step, j);
    } else if ExecutorEnabled(s, a) {
      ExecutorKeepsStart(s, a, step, j);
    } else {
      OtherKeepsStart(s, a, step, j);
    }
  }

  lemma WorkerStarted(s: State, panicked: set<nat>)
    requires WorkerMeans(s, panicked)
    ensures s.worker.Announcing? ==> Known(s, s.worker.job) && Started(ControlOf(s, s.worker.job))
  {
  }

  lemma JobKeeps(s: State, panicked: set<nat>, a: Action, step: State, after: set<nat>, j: nat)
    requires Enabled(s, a) && step == Apply(s, a) && after == NowPanicked(panicked, s, a)
    requires HeadSent(s) && JobKept(s, j) && WorkerMeans(s, panicked) && JobMeans(s, panicked, j)
    ensures JobMeans(step, after, j)
  {
    hide Enabled, Apply, HeadSent, JobKept, WorkerMeans, OutcomeMeans, CallMeans, BeganDecoding, NowPanicked;
    WorkerStarted(s, panicked);
    if j < |s.jobs| {
      KnownWhenKept(s, j);
    }
    StartKept(s, a, step, j);
    if j < |step.jobs| {
      if j >= |s.jobs| {
        StepGrows(s, a);
      }
      forall o | Finished(o) in step.jobs[j].sent ensures OutcomeMeans(step, after, j, o) {
        SentKeeps(s, panicked, a, step, after, j, o);
      }
    }
  }

  lemma PassiveKeeps(s: State, panicked: set<nat>, a: Action, step: State)
    requires WorkerMeans(s, panicked) && Passive(s, a, step)
    requires forall k: nat :: Moved(s, panicked, step, NowPanicked(panicked, s, a), k)
    ensures WorkerMeans(step, NowPanicked(panicked, s, a))
  {
    assert NowPanicked(panicked, s, a) == panicked;
    hide OutcomeMeans, ReasonMeans, AllDrained;
    if step.worker == s.worker {
      match s.worker
      case Announcing(j) => assert Moved(s, panicked, step, panicked, j);
      case Decoding(j) => assert Moved(s, panicked, step, panicked, j);
      case Checking(j, reason) => ReasonLasts(s, panicked, step, panicked, j, reason);
      case AcknowledgingJob(j, reason) => ReasonLasts(s, panicked, step, panicked, j, reason);
      case Failing(j, outcome, next) =>
        assert Moved(s, panicked, step, panicked, j);
        DrainedLasts(s, panicked, step, panicked, Rest(next));
      case Sending(j, outcome, next) =>
        assert Moved(s, panicked, step, panicked, j);
        OutcomeLasts(s, panicked, step, panicked, j, outcome);
        DrainedLasts(s, panicked, step, panicked, Rest(next));
      case CountingDown(drained) => DrainedLasts(s, panicked, step, panicked, drained);
      case Clearing(drained) => DrainedLasts(s, panicked, step, panicked, drained);
      case _ =>
    }
  }

  /** A drained job behind the worker was never decoded. */
  lemma SilentIsUndecoded(s: State, panicked: set<nat>, j: nat)
    requires Silent(s, j) && JobMeans(s, panicked, j) && JobKept(s, j)
    ensures Known(s, j) && j !in s.decoded
  {
  }

  lemma WorkerKeepsMeaning(s: State, panicked: set<nat>, a: Action)
    requires WorkerEnabled(s, a) && WorkerMeans(s, panicked) && QueuedSilent(s)
    requires forall j: nat :: Silent(s, j) ==> Known(s, j) && j !in s.decoded
    ensures WorkerMeans(WorkerStep(s, a), panicked)
  {
    hide HeadSent, Silent;
    assert a.ClearNext? && s.worker.drained != [] ==> s.worker.drained[0] in Behind(s.worker);
  }

  lemma ExecutorKeepsMeaning(s: State, panicked: set<nat>, a: Action)
    requires ExecutorEnabled(s, a) && WorkerMeans(s, panicked) && HeadSent(s) && panicked <= s.decoded
    requires forall j: nat :: Silent(s, j) ==> Known(s, j) && j !in s.decoded
    ensures WorkerMeans(ExecutorStep(s, a), NowPanicked(panicked, s, a))
  {
    hide Silent;
  }

  lemma InitiallyMeant()
    ensures Meanings(Initial(), {})
  {
  }

  lemma MeaningsKept(s: State, panicked: set<nat>, a: Action)
    requires Enabled(s, a) && Inv(s) && Meanings(s, panicked)
    ensures Meanings(Apply(s, a), NowPanicked(panicked, s, a))
  {
    hide Apply, Enabled, HeadSent, JobKept, WorkerMeans, JobMeans, Silent, Moved, Exclusive, Counted, StoppedKept,
         NoLostWakeup, InOrder, LoggedOnce, WithdrawnKept, CallerStep, WaiterStep, WorkerStep, ExecutorStep, OtherStep,
         CallerEnabled, WaiterEnabled, WorkerEnabled, ExecutorEnabled, OtherEnabled;
    var step, after := Apply(s, a), NowPanicked(panicked, s, a);
    forall j: nat ensures JobMeans(step, after, j) && Moved(s, panicked, step, after, j) {
      assert JobKept(s, j) && JobMeans(s, panicked, j);
      JobKeeps(s, panicked, a, step, after, j);
      StepMoved(s, panicked, a, j);
    }
    forall j: nat | Silent(s, j) ensures Known(s, j) && j !in s.decoded {
      assert JobKept(s, j) && JobMeans(s, panicked, j);
      SilentIsUndecoded(s, panicked, j);
    }
    WorkerMeaningKept(s, panicked, a);
    StepGrows(s, a);
    PanickedWasDecoding(s, panicked);
  }

  lemma PanickedWasDecoding(s: State, panicked: set<nat>)
    requires WorkerMeans(s, panicked)
    ensures s.worker.Decoding? ==> s.worker.job in s.decoded
  {
  }

  lemma WorkerMeaningKept(s: State, panicked: set<nat>, a: Action)
    requires Enabled(s, a) && WorkerMeans(s, panicked) && QueuedSilent(s) && panicked <= s.decoded
    requires forall j: nat :: Silent(s, j) ==> Known(s, j) && j !in s.decoded
    requires forall k: nat :: Moved(s, panicked, Apply(s, a), NowPanicked(panicked, s, a), k)
    ensures WorkerMeans(Apply(s, a), NowPanicked(panicked, s, a))
  {
    hide WorkerMeans, HeadSent, Silent, Moved, NowPanicked, CallerStep, WaiterStep, WorkerStep, ExecutorStep, OtherStep,
         CallerEnabled, WaiterEnabled, WorkerEnabled, ExecutorEnabled, OtherEnabled;
    if CallerEnabled(s, a) {
      CallerGrows(s, a);
      PassiveKeeps(s, panicked, a, Apply(s, a));
    } else if WaiterEnabled(s, a) {
      WaiterGrows(s, a);
      PassiveKeeps(s, panicked, a, Apply(s, a));
    } else if WorkerEnabled(s, a) {
      WorkerPanicsNothing(s, panicked, a);
      WorkerKeepsMeaning(s, panicked, a);
    } else if ExecutorEnabled(s, a) {
      ExecutorKeepsMeaning(s, panicked, a);
    } else {
      OtherGrows(s, a);
      PassiveKeeps(s, panicked, a, Apply(s, a));
    }
  }

  lemma WorkerPanicsNothing(s: State, panicked: set<nat>, a: Action)
    requires WorkerEnabled(s, a)
    ensures NowPanicked(panicked, s, a) == panicked
  {
  }

  // ---- Over every run -------------------------------------------------------------------

  lemma {:induction false} RunKeepsMeanings(states: seq<State>, actions: seq<Action>, i: nat)
    requires Run(states, actions) && i < |states|
    ensures Meanings(states[i], Panicked(states, actions, i))
  {
    hide Inv, Apply, Enabled, Meanings, NowPanicked;
    if i == 0 {
      InitiallyMeant();
    } else {
      RunKeepsMeanings(states, actions, i - 1);
      RunKeepsInv(states, actions, i - 1);
      MeaningsKept(states[i - 1], Panicked(states, actions, i - 1), actions[i - 1]);
    }
  }

  /** A decoding of the job panicked somewhere in the first `k` steps. */
  ghost predicate PanickedIn(states: seq<State>, actions: seq<Action>, k: nat, j: nat)
    requires k <= |actions| < |states|
  {
    exists i :: 0 <= i < k && actions[i] == Decode(true) && states[i].worker == Decoding(j)
  }

  lemma {:induction false} PanickedIsPanickedIn(states: seq<State>, actions: seq<Action>, k: nat, j: nat)
    requires k <= |actions| < |states|
    ensures j in Panicked(states, actions, k) <==> PanickedIn(states, actions, k, j)
  {
    if k > 0 {
      PanickedIsPanickedIn(states, actions, k - 1, j);
      if PanickedIn(states, actions, k - 1, j) {
        var i :| 0 <= i < k - 1 && actions[i] == Decode(true) && states[i].worker == Decoding(j);
      }
    }
  }

  /** In every run a job's result says what happened to it: refused only when its control could not start it and
      without a decoding, a decoding only when one ran and did not panic, a cancellation only with the control
      cancelled, no panic, and the job decoded or drained, a panic only after one in its own decoding, and a stop only
      for a job drained before any decoding; the last two leave the control terminal. */
  lemma ResultsMean(states: seq<State>, actions: seq<Action>, i: nat, j: nat, outcome: Outcome)
    requires Run(states, actions) && i < |states| && j < |states[i].jobs|
    requires Finished(outcome) in states[i].jobs[j].sent
    ensures Known(states[i], j)
    ensures var s := states[i];
      match outcome
      case Refused => j !in s.decoded && !ControlOf(s, j).Active()
      case Decoded => j in s.decoded && !PanickedIn(states, actions, i, j)
      case DecodeCancelled =>
        && (j in s.decoded || j in s.tickLog.drained || j in s.windowLog.drained)
        && !PanickedIn(states, actions, i, j) && ControlOf(s, j).Cancelled?
      case DecoderPanicked => PanickedIn(states, actions, i, j) && ControlOf(s, j).Terminal()
      case SchedulerStopped =>
        && (j in s.tickLog.drained || j in s.windowLog.drained)
        && j !in s.decoded && ControlOf(s, j).Terminal()
  {
    hide WorkerMeans, CallMeans, BeganDecoding, PanickedIn;
    RunKeepsMeanings(states, actions, i);
    PanickedIsPanickedIn(states, actions, i, j);
    assert JobMeans(states[i], Panicked(states, actions, i), j);
  }

  /** A job that was decoded without a panic gets its decoding unless its control is cancelled by then. */
  lemma DecodingsAreDelivered(states: seq<State>, actions: seq<Action>, i: nat, j: nat)
    requires Run(states, actions) && i < |states| && j < |states[i].jobs| && Known(states[i], j)
    requires j in states[i].decoded && !PanickedIn(states, actions, i, j) && !ControlOf(states[i], j).CancellationWon()
    requires Finishes(states[i].jobs[j].sent) == 1
    ensures Finished(Decoded) in states[i].jobs[j].sent
  {
    hide PanickedIn, JobKept, Run;
    var sent := states[i].jobs[j].sent;
    FinishIsThere(sent);
    var outcome :| Finished(outcome) in sent;
    ResultsMean(states, actions, i, j, outcome);
  }

  lemma {:induction false} FinishIsThere(sent: seq<Event>)
    requires Finishes(sent) > 0
    ensures exists outcome :: Finished(outcome) in sent
  {
    var n := |sent| - 1;
    if sent[n].Finished? {
      assert Finished(sent[n].outcome) == sent[n];
    } else {
      FinishIsThere(sent[..n]);
      var outcome :| Finished(outcome) in sent[..n];
      assert Finished(outcome) in sent;
    }
  }

  /** A call that has entered has queued its control, and a job is decoded only once its control has started; neither
      is ever taken back. */
  lemma ControlsFollow(states: seq<State>, actions: seq<Action>, i: nat, j: nat)
    requires Run(states, actions) && i < |states| && Known(states[i], j)
    ensures var s := states[i]; var control := ControlOf(s, j);
      && (!s.jobs[j].call.Entering? ==> !control.Ready?)
      && (j in s.decoded ==> !control.Ready? && !control.Queued?)
  {
    hide WorkerMeans, BeganDecoding, OutcomeMeans;
    RunKeepsMeanings(states, actions, i);
    assert JobMeans(states[i], Panicked(states, actions, i), j);
  }

  /** A call is turned away only because its control could not start, or with the queue stopped and its control
      terminal. */
  lemma RefusalsMean(states: seq<State>, actions: seq<Action>, i: nat, j: nat)
    requires Run(states, actions) && i < |states| && j < |states[i].jobs|
    ensures states[i].jobs[j].call == Returned(RefusedByControl) ==>
      Known(states[i], j) && !ControlOf(states[i], j).Active()
    ensures states[i].jobs[j].call == Returned(RefusedStopped) ==>
      states[i].queue.stopped && Known(states[i], j) && ControlOf(states[i], j).Terminal()
  {
    hide WorkerMeans, BeganDecoding, OutcomeMeans;
    RunKeepsMeanings(states, actions, i);
    assert JobMeans(states[i], Panicked(states, actions, i), j);
  }

  // ---- After a panic --------------------------------------------------------------------

  lemma OnlyTheWorkerDecodes(s: State, a: Action)
    requires Enabled(s, a) && a.Decode?
    ensures ExecutorEnabled(s, a)
  {
  }

  /** After a decoder panic no job is ever decoded again, and a worker that has ended leaves a stopped queue. */
  lemma {:induction false} PanicIsFinal(states: seq<State>, actions: seq<Action>, i: nat, k: nat)
    requires Run(states, actions) && i < |actions| && actions[i] == Decode(true) && i < k < |states|
    ensures PastPanic(states[k].worker) && states[k].decoded == states[i].decoded
    ensures states[k].worker.Exited? ==> states[k].queue.stopped
    decreases k
  {
    hide Apply, Enabled, PastPanic, HeadSent, JobsKept, Logged, Withdrawn, Counted, Exclusive, InOrder, NoLostWakeup;
    RunKeepsInv(states, actions, k - 1);
    RunKeepsInv(states, actions, k);
    StepGrows(states[k - 1], actions[k - 1]);
    OnlyTheWorkerDecodes(states[i], actions[i]);
    if i < k - 1 {
      PanicIsFinal(states, actions, i, k - 1);
    }
  }

  /** `last` ends `all`. */
  predicate Ends(all: seq<nat>, last: seq<nat>) { |last| <= |all| && last == all[|all| - |last|..] }

  lemma EndsLaws(all: seq<nat>, last: seq<nat>, a: seq<nat>, b: seq<nat>)
    ensures Ends(all, []) && Ends(([] + a) + ([] + b), a + b)
    ensures last != [] && Ends(all, last) ==> Ends(all, last[1..]) && [last[0]] + last[1..] == last
  {
    assert [] + a == a && [] + b == b;
  }

  /** The jobs a panic left unanswered are the last of those it drained, ticks before windows. */
  predicate DrainOrder(s: State) {
    Drained(s.worker) ==> Ends(s.tickLog.drained + s.windowLog.drained, Held(s.worker))
  }

  lemma CallerKeepsDrain(s: State, a: Action)
    requires CallerEnabled(s, a) && DrainOrder(s)
    ensures DrainOrder(CallerStep(s, a))
  {
    hide EnqueueAccepts, EnqueueOutcome, FinishOutcome;
  }

  lemma WaiterKeepsDrain(s: State, a: Action)
    requires WaiterEnabled(s, a) && DrainOrder(s)
    ensures DrainOrder(WaiterStep(s, a))
  {
    hide CancelOutcome, AcknowledgeOutcome;
  }

  lemma WorkerHolds(s: State, a: Action)
    requires WorkerEnabled(s, a)
    ensures var step := WorkerStep(s, a);
      if a.Drain? then
        && step.tickLog.drained == s.tickLog.drained + s.queue.ticks
        && step.windowLog.drained == s.windowLog.drained + s.queue.windows
        && Held(step.worker) == s.queue.ticks + s.queue.windows && !Drained(s.worker)
      else
        && step.tickLog.drained == s.tickLog.drained && step.windowLog.drained == s.windowLog.drained
        && (Drained(step.worker) ==>
              Held(step.worker) == [] || (Drained(s.worker) && Held(step.worker) == Held(s.worker)))
  {
    if a.ClearNext? && s.worker.drained != [] {
      assert [s.worker.drained[0]] + s.worker.drained[1..] == s.worker.drained;
    }
  }

  lemma WorkerKeepsDrain(s: State, a: Action)
    requires WorkerEnabled(s, a) && DrainOrder(s) && StoppedKept(s)
    ensures DrainOrder(WorkerStep(s, a))
  {
    WorkerHolds(s, a);
    UndrainedIsEmpty(s);
    EndsLaws(s.tickLog.drained + s.windowLog.drained, Held(s.worker), s.queue.ticks, s.queue.windows);
    hide Ends, WorkerStep, WorkerEnabled, Drained, Held, StoppedKept;
  }

  lemma UndrainedIsEmpty(s: State)
    requires StoppedKept(s)
    ensures !Drained(s.worker) ==> s.tickLog.drained == [] && s.windowLog.drained == []
  {
  }

  /** What the worker holds changes only when it sends. */
  lemma ExecutorHolds(s: State, a: Action)
    requires ExecutorEnabled(s, a)
    ensures var step := ExecutorStep(s, a);
      && step.tickLog == s.tickLog && step.windowLog == s.windowLog
      && Held(s.worker) == [s.worker.job] + Behind(s.worker)
      && Held(step.worker) == (if a.Send? then Behind(s.worker) else Held(s.worker))
      && (Drained(step.worker) ==> Drained(s.worker))
  {
    hide StartOutcome, AcknowledgeOutcome, FinishOutcome;
  }

  lemma ExecutorKeepsDrain(s: State, a: Action)
    requires ExecutorEnabled(s, a) && DrainOrder(s)
    ensures DrainOrder(ExecutorStep(s, a))
  {
    ExecutorHolds(s, a);
    EndsLaws(s.tickLog.drained + s.windowLog.drained, Held(s.worker), [], []);
    hide Ends, ExecutorStep, ExecutorEnabled, Drained, Held;
    if a.Send? {
      assert Held(s.worker)[1..] == Behind(s.worker);
    }
  }

  lemma OtherKeepsDrain(s: State, a: Action)
    requires OtherEnabled(s, a) && DrainOrder(s)
    ensures DrainOrder(OtherStep(s, a))
  {
    hide RequestOutcome;
  }

  /** In every run the jobs drained by a panic are answered in order, every tick before any window. */
  lemma {:induction false} DrainedInOrder(states: seq<State>, actions: seq<Action>, i: nat)
    requires Run(states, actions) && i < |states|
    ensures DrainOrder(states[i])
  {
    hide Inv, DrainOrder, CallerStep, WaiterStep, WorkerStep, ExecutorStep, OtherStep, CallerEnabled, WaiterEnabled,
         WorkerEnabled, ExecutorEnabled, OtherEnabled;
    if i == 0 {
      NothingDrained();
    } else {
      DrainedInOrder(states, actions, i - 1);
      RunKeepsInv(states, actions, i - 1);
      var s, a := states[i - 1], actions[i - 1];
      if CallerEnabled(s, a) {
        CallerKeepsDrain(s, a);
      } else if WaiterEnabled(s, a) {
        WaiterKeepsDrain(s, a);
      } else if WorkerEnabled(s, a) {
        InvStopped(s);
        WorkerKeepsDrain(s, a);
      } else if ExecutorEnabled(s, a) {
        ExecutorKeepsDrain(s, a);
      } else {
        OtherKeepsDrain(s, a);
      }
    }
  }

  lemma NothingDrained()
    ensures DrainOrder(Initial())
  {
  }

  lemma InvStopped(s: State)
    requires Inv(s)
    ensures StoppedKept(s)
  {
  }
}
