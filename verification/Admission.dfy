/** Two-phase permit admission, the drain, and the work owner that carries an HTTP permit, as a
    transition system: every semaphore operation, phase read, control exchange and drop is one step. */
module Admission {
  import opened Execution

  datatype Protocol = Http | Uploads | WebSocket

  datatype Phase = Running | Draining

  datatype Refusal = Overloaded | RefusedDraining

  datatype Semaphore = Semaphore(available: nat, closed: bool, capacity: nat)

  datatype Stage =
    | Asking                                   // about to read the phase
    | Acquiring                                // about to try the semaphore
    | Excusing(short: bool)                    // failed to acquire; `short` records that permits were lacking
    | Reserved                                 // owns its permits, about to read the phase again
    | Dropping                                 // lost the race with the drain, about to give its permits back
    | Refused(refusal: Refusal, short: bool)
    | Committed
    | Working(control: nat)                    // a work owner holds the permit and the control
    | Terminated(control: nat, succeeded: bool)  // the control was finished, the permit is about to return
    | Released
    | WorkReleased(control: nat, succeeded: bool)

  /** The HTTP side of admitted work. */
  datatype Waiter = NotWaiting | Waiting | GaveUp | Answered(ok: bool)

  datatype Request = Request(protocol: Protocol, permits: nat, stage: Stage, waiter: Waiter)

  datatype Pools = Pools(http: Semaphore, uploads: Semaphore, ws: Semaphore)

  datatype State = State(
    phase: Phase, closing: nat, began: nat, pools: Pools,
    requests: seq<Request>, controls: seq<ExecutionState>)

  function Initial(http: nat, uploads: nat, ws: nat): State {
    State(Phase.Running, 0, 0,
          Pools(Semaphore(http, false, http), Semaphore(uploads, false, uploads), Semaphore(ws, false, ws)), [], [])
  }

  function Get(pools: Pools, p: Protocol): Semaphore {
    match p
    case Http => pools.http
    case Uploads => pools.uploads
    case WebSocket => pools.ws
  }

  function Set(pools: Pools, p: Protocol, semaphore: Semaphore): Pools {
    match p
    case Http => pools.(http := semaphore)
    case Uploads => pools.(uploads := semaphore)
    case WebSocket => pools.(ws := semaphore)
  }

  function Pool(s: State, p: Protocol): Semaphore { Get(s.pools, p) }

  function SetPool(s: State, p: Protocol, semaphore: Semaphore): State { s.(pools := Set(s.pools, p, semaphore)) }

  lemma SetLaw(pools: Pools, p: Protocol, q: Protocol, semaphore: Semaphore)
    ensures Get(Set(pools, p, semaphore), q) == if p == q then semaphore else Get(pools, q)
  {
  }

  function SetStage(s: State, r: nat, stage: Stage): State
    requires r < |s.requests|
  {
    s.(requests := s.requests[r := s.requests[r].(stage := stage)])
  }

  function SetControl(s: State, c: nat, state: ExecutionState): State
    requires c < |s.controls|
  {
    s.(controls := s.controls[c := state])
  }

  // ---- The semaphore ----------------------------------------------------------------

  predicate Grants(semaphore: Semaphore, permits: nat) { !semaphore.closed && permits <= semaphore.available }

  function Take(semaphore: Semaphore, permits: nat): Semaphore
    requires Grants(semaphore, permits)
  {
    semaphore.(available := semaphore.available - permits)
  }

  function Release(semaphore: Semaphore, permits: nat): Semaphore {
    semaphore.(available := semaphore.available + permits)
  }

  // ---- Steps ------------------------------------------------------------------------

  datatype Action =
    | Arrive(protocol: Protocol, permits: nat)
    | ReadPhase(request: nat) | Acquire(request: nat) | Excuse(request: nat)
    | Commit(request: nat) | DropReserved(request: nat) | DropCommitted(request: nat)
    | StartWork(request: nat) | FinishWork(request: nat, terminal: ExecutionState) | ReturnPermit(request: nat)
    | GiveUp(request: nat) | Answer(request: nat)
    | MoveControl(control: nat, next: ExecutionState)
    | BeginDraining | CloseNext

  predicate Admits(s: State, a: Action) {
    match a
    case ReadPhase(r) => r < |s.requests| && s.requests[r].stage.Asking?
    case Acquire(r) => r < |s.requests| && s.requests[r].stage.Acquiring?
    case Excuse(r) => r < |s.requests| && s.requests[r].stage.Excusing?
    case Commit(r) => r < |s.requests| && s.requests[r].stage.Reserved?
    case DropReserved(r) => r < |s.requests| && s.requests[r].stage.Dropping?
    case DropCommitted(r) => r < |s.requests| && s.requests[r].stage.Committed?
    case _ => false
  }

  predicate Works(s: State, a: Action) {
    match a
    case StartWork(r) => r < |s.requests| && s.requests[r].stage.Committed? && s.requests[r].protocol.Http?
    case FinishWork(r, terminal) =>
      r < |s.requests| && s.requests[r].stage.Working? && s.requests[r].stage.control < |s.controls| &&
      (terminal.Completed? || terminal.Failed?)
    case ReturnPermit(r) => r < |s.requests| && s.requests[r].stage.Terminated?
    case GiveUp(r) => r < |s.requests| && s.requests[r].waiter.Waiting?
      && ControlIndex(s.requests[r].stage) < |s.controls|
    case Answer(r) => r < |s.requests| && s.requests[r].waiter.Waiting? && s.requests[r].stage.WorkReleased?
    case _ => false
  }

  /** The control of admitted work. */
  function ControlIndex(stage: Stage): nat {
    match stage
    case Working(c) => c
    case Terminated(c, _) => c
    case WorkReleased(c, _) => c
    case _ => 0
  }

  predicate Enabled(s: State, a: Action) {
    match a
    case Arrive(p, permits) => permits > 0 && (!p.WebSocket? ==> permits == 1)
    case MoveControl(c, next) => c < |s.controls| && Climbs(s.controls[c], next)
    case BeginDraining => true
    case CloseNext => s.phase.Draining? && s.closing < 3
    case _ => Admits(s, a) || Works(s, a)
  }

  function AdmitStep(s: State, a: Action): State
    requires Admits(s, a)
  {
    var r := a.request;
    var request := s.requests[r];
    var pool := Pool(s, request.protocol);
    match a
    case ReadPhase(_) => SetStage(s, r, if s.phase.Running? then Acquiring else Refused(RefusedDraining, false))
    case Acquire(_) =>
      if Grants(pool, request.permits) then
        SetPool(SetStage(s, r, Reserved), request.protocol, Take(pool, request.permits))
      else SetStage(s, r, Excusing(request.permits > pool.available))
    case Excuse(_) =>
      SetStage(s, r, Refused(if s.phase.Running? then Overloaded else RefusedDraining, request.stage.short))
    case Commit(_) => SetStage(s, r, if s.phase.Running? then Committed else Dropping)
    case DropReserved(_) =>
      SetPool(SetStage(s, r, Refused(RefusedDraining, false)), request.protocol, Release(pool, request.permits))
    case DropCommitted(_) => SetPool(SetStage(s, r, Released), request.protocol, Release(pool, request.permits))
  }

  function WorkStep(s: State, a: Action): State
    requires Works(s, a)
  {
    var r := a.request;
    var request := s.requests[r];
    match a
    case StartWork(_) =>
      s.(requests := s.requests[r := request.(stage := Working(|s.controls|), waiter := Waiting)],
         controls := s.controls + [Ready])
    case FinishWork(_, terminal) =>
      var c := request.stage.control;
      var final := FinishOutcome(s.controls[c], terminal);
      SetStage(SetControl(s, c, final), r, Terminated(c, terminal.Completed? && final.Completed?))
    case ReturnPermit(_) =>
      SetPool(SetStage(s, r, WorkReleased(request.stage.control, request.stage.succeeded)), request.protocol,
              Release(Pool(s, request.protocol), request.permits))
    case GiveUp(_) =>
      var c := ControlIndex(request.stage);
      SetControl(s.(requests := s.requests[r := request.(waiter := GaveUp)]), c, CancelOutcome(s.controls[c]))
    case Answer(_) => s.(requests := s.requests[r := request.(waiter := Answered(request.stage.succeeded))])
  }

  function Close(s: State): State
    requires s.closing < 3
  {
    match s.closing
    case 0 => s.(pools := s.pools.(http := s.pools.http.(closed := true)), closing := 1)
    case 1 => s.(pools := s.pools.(uploads := s.pools.uploads.(closed := true)), closing := 2)
    case _ => s.(pools := s.pools.(ws := s.pools.ws.(closed := true)), closing := 3)
  }

  function Apply(s: State, a: Action): State
    requires Enabled(s, a)
  {
    match a
    case Arrive(p, permits) => s.(requests := s.requests + [Request(p, permits, Asking, NotWaiting)])
    case MoveControl(c, next) => SetControl(s, c, next)
    case BeginDraining => if s.phase.Running? then s.(phase := Draining, began := s.began + 1) else s
    case CloseNext => Close(s)
    case _ => if Admits(s, a) then AdmitStep(s, a) else WorkStep(s, a)
  }

  // ---- Permits ----------------------------------------------------------------------

  /** A request owns all of its permits or none. */
  function Held(request: Request): nat {
    match request.stage
    case Reserved => request.permits
    case Dropping => request.permits
    case Committed => request.permits
    case Working(_) => request.permits
    case Terminated(_, _) => request.permits
    case _ => 0
  }

  function HeldOf(requests: seq<Request>, p: Protocol): nat {
    if requests == [] then 0
    else
      var last := requests[|requests| - 1];
      HeldOf(requests[..|requests| - 1], p) + if last.protocol == p then Held(last) else 0
  }

  function Share(request: Request, p: Protocol): nat {
    if request.protocol == p then Held(request) else 0
  }

  lemma {:induction false} HeldAfterUpdate(requests: seq<Request>, r: nat, request: Request, p: Protocol)
    requires r < |requests|
    ensures HeldOf(requests[r := request], p) == HeldOf(requests, p) - Share(requests[r], p) + Share(request, p)
  {
    var n := |requests| - 1;
    if r < n {
      HeldAfterUpdate(requests[..n], r, request, p);
      assert requests[r := request][..n] == requests[..n][r := request];
    } else {
      assert requests[r := request][..n] == requests[..n];
    }
  }

  predicate Balanced(s: State, p: Protocol) {
    Pool(s, p).available + HeldOf(s.requests, p) == Pool(s, p).capacity
  }

  predicate Touches(s: State, step: State, r: nat) {
    r < |s.requests| == |step.requests| && step.requests == s.requests[r := step.requests[r]]
  }

  lemma AdmitTouches(s: State, a: Action)
    requires Admits(s, a)
    ensures Touches(s, AdmitStep(s, a), a.request)
  {
    hide Pool, Grants;
  }

  /** A request's step moves permits between its own share and its pool, and touches no other request. */
  predicate Trades(s: State, step: State, r: nat, p: Protocol) {
    && Touches(s, step, r)
    && Pool(step, p).available + Share(step.requests[r], p) == Pool(s, p).available + Share(s.requests[r], p)
    && Pool(step, p).capacity == Pool(s, p).capacity && Pool(step, p).closed == Pool(s, p).closed
    && step.phase == s.phase && step.closing == s.closing && step.began == s.began
  }

  lemma AdmitTrades(s: State, a: Action, p: Protocol)
    requires Admits(s, a)
    ensures Trades(s, AdmitStep(s, a), a.request, p)
  {
    AdmitTouches(s, a);
    hide Get, Set, Touches;
    var request := s.requests[a.request];
    var pool := Pool(s, request.protocol);
    SetLaw(s.pools, request.protocol, p, Release(pool, request.permits));
    if Grants(pool, request.permits) {
      SetLaw(s.pools, request.protocol, p, Take(pool, request.permits));
    }
  }

  lemma WorkTrades(s: State, a: Action, p: Protocol)
    requires Works(s, a)
    ensures Trades(s, WorkStep(s, a), a.request, p)
  {
  }

  lemma TradeBalances(s: State, step: State, r: nat, p: Protocol)
    requires Trades(s, step, r, p) && Balanced(s, p)
    ensures Balanced(step, p) && Pool(step, p).capacity == Pool(s, p).capacity
  {
    hide Pool, Share;
    HeldAfterUpdate(s.requests, r, step.requests[r], p);
  }

  lemma StepBalances(s: State, a: Action, p: Protocol)
    requires Enabled(s, a) && Balanced(s, p)
    ensures Balanced(Apply(s, a), p) && Pool(Apply(s, a), p).capacity == Pool(s, p).capacity
  {
    hide AdmitStep, WorkStep, Trades;
    if Admits(s, a) {
      AdmitTrades(s, a, p);
      TradeBalances(s, AdmitStep(s, a), a.request, p);
    } else if Works(s, a) {
      WorkTrades(s, a, p);
      TradeBalances(s, WorkStep(s, a), a.request, p);
    } else if a.Arrive? {
      ArrivalHoldsNothing(s.requests, Request(a.protocol, a.permits, Asking, NotWaiting), p);
    }
  }

  lemma ArrivalHoldsNothing(requests: seq<Request>, request: Request, p: Protocol)
    requires Held(request) == 0
    ensures HeldOf(requests + [request], p) == HeldOf(requests, p)
  {
    assert (requests + [request])[..|requests|] == requests;
  }

  // ---- The invariant ----------------------------------------------------------------

  predicate DrainKept(s: State) {
    && s.began == (if s.phase.Draining? then 1 else 0)
    && (s.phase.Running? ==> s.closing == 0)
    && (s.pools.http.closed <==> s.closing >= 1) && (s.pools.uploads.closed <==> s.closing >= 2)
    && (s.pools.ws.closed <==> s.closing >= 3)
  }

  predicate RequestKept(s: State, r: nat) {
    r < |s.requests| ==>
      var request := s.requests[r];
      && request.permits > 0
      && match request.stage
         case Excusing(short) => short || s.phase.Draining?
         case Dropping => s.phase.Draining?
         case Refused(refusal, short) => if refusal.Overloaded? then short else s.phase.Draining?
         case Working(c) => c < |s.controls|
         case Terminated(c, succeeded) => c < |s.controls| && s.controls[c].Terminal()
           && (succeeded ==> s.controls[c].Completed?)
         case WorkReleased(c, succeeded) =>
           && c < |s.controls| && s.controls[c].Terminal() && (succeeded ==> s.controls[c].Completed?)
           && (request.waiter.Answered? ==> request.waiter.ok == succeeded)
         case _ => true
  }

  predicate WaiterKept(s: State, r: nat) {
    r < |s.requests| ==>
      var request := s.requests[r];
      match request.waiter
      case NotWaiting => !request.stage.Working? && !request.stage.Terminated? && !request.stage.WorkReleased?
      case Waiting => request.stage.Working? || request.stage.Terminated? || request.stage.WorkReleased?
      case GaveUp =>
        && (request.stage.Working? || request.stage.Terminated? || request.stage.WorkReleased?)
        && ControlIndex(request.stage) < |s.controls| && !s.controls[ControlIndex(request.stage)].Active()
      case Answered(_) => request.stage.WorkReleased?
  }

  ghost predicate Inv(s: State) {
    && Balanced(s, Http) && Balanced(s, Uploads) && Balanced(s, WebSocket)
    && DrainKept(s)
    && forall r: nat :: RequestKept(s, r) && WaiterKept(s, r)
  }

  lemma DrainStep(s: State, a: Action)
    requires Enabled(s, a) && DrainKept(s)
    ensures DrainKept(Apply(s, a))
  {
    hide AdmitStep, WorkStep, Share;
    if Admits(s, a) {
      AdmitTrades(s, a, Http);
      AdmitTrades(s, a, Uploads);
      AdmitTrades(s, a, WebSocket);
    } else if Works(s, a) {
      WorkTrades(s, a, Http);
      WorkTrades(s, a, Uploads);
      WorkTrades(s, a, WebSocket);
    }
  }

  lemma ControlsClimb(s: State, a: Action, c: nat)
    requires Enabled(s, a) && c < |s.controls|
    ensures c < |Apply(s, a).controls| && Climbs(s.controls[c], Apply(s, a).controls[c])
  {
  }

  lemma AdmitKeepsRequest(s: State, a: Action, r: nat)
    requires Admits(s, a) && DrainKept(s) && RequestKept(s, r) && WaiterKept(s, r)
    ensures RequestKept(AdmitStep(s, a), r) && WaiterKept(AdmitStep(s, a), r)
  {
    hide Set, Take, Release;
  }

  lemma WorkKeepsRequest(s: State, a: Action, r: nat)
    requires Works(s, a) && RequestKept(s, r) && WaiterKept(s, r)
    ensures RequestKept(WorkStep(s, a), r) && WaiterKept(WorkStep(s, a), r)
  {
  }

  lemma OtherKeepsRequest(s: State, a: Action, r: nat)
    requires Enabled(s, a) && !Admits(s, a) && !Works(s, a) && RequestKept(s, r) && WaiterKept(s, r)
    ensures RequestKept(Apply(s, a), r) && WaiterKept(Apply(s, a), r)
  {
  }

  lemma InvKept(s: State, a: Action)
    requires Inv(s) && Enabled(s, a)
    ensures Inv(Apply(s, a))
  {
    hide AdmitStep, WorkStep, DrainKept, Balanced, RequestKept, WaiterKept;
    StepBalances(s, a, Http);
    StepBalances(s, a, Uploads);
    StepBalances(s, a, WebSocket);
    DrainStep(s, a);
    forall r: nat ensures RequestKept(Apply(s, a), r) && WaiterKept(Apply(s, a), r) {
      assert RequestKept(s, r) && WaiterKept(s, r);
      if Admits(s, a) {
        AdmitKeepsRequest(s, a, r);
      } else if Works(s, a) {
        WorkKeepsRequest(s, a, r);
      } else {
        OtherKeepsRequest(s, a, r);
      }
    }
  }

  // ---- Runs -------------------------------------------------------------------------

  ghost predicate Run(http: nat, uploads: nat, ws: nat, states: seq<State>, actions: seq<Action>) {
    && |states| == |actions| + 1
    && states[0] == Initial(http, uploads, ws)
    && forall i :: 0 <= i < |actions| ==>
         Enabled(states[i], actions[i]) && states[i + 1] == Apply(states[i], actions[i])
  }

  lemma {:induction false} RunKeepsInv(http: nat, uploads: nat, ws: nat, states: seq<State>, actions: seq<Action>,
                                       i: nat)
    requires Run(http, uploads, ws, states, actions) && i < |states|
    ensures Inv(states[i])
    ensures Pool(states[i], Http).capacity == http && Pool(states[i], Uploads).capacity == uploads
    ensures Pool(states[i], WebSocket).capacity == ws
  {
    hide Enabled, Apply;
    if i > 0 {
      hide Inv;
      RunKeepsInv(http, uploads, ws, states, actions, i - 1);
      InvKept(states[i - 1], actions[i - 1]);
      Capacities(states[i - 1], actions[i - 1]);
    }
  }

  lemma Capacities(s: State, a: Action)
    requires Inv(s) && Enabled(s, a)
    ensures forall p :: Pool(Apply(s, a), p).capacity == Pool(s, p).capacity
  {
    hide Enabled, Apply, Pool, DrainKept, RequestKept, WaiterKept;
    forall p ensures Pool(Apply(s, a), p).capacity == Pool(s, p).capacity {
      assert p == Http || p == Uploads || p == WebSocket;
      StepBalances(s, a, p);
    }
  }

  /** Conservation: at every moment a protocol's free permits and the permits its requests own add up to
      its capacity; the WebSocket drain may therefore read "all permits are back" as "no session left". */
  lemma PermitsConserved(http: nat, uploads: nat, ws: nat, states: seq<State>, actions: seq<Action>, i: nat)
    requires Run(http, uploads, ws, states, actions) && i < |states|
    ensures var s := states[i];
      && s.pools.http.available + HeldOf(s.requests, Http) == http
      && s.pools.uploads.available + HeldOf(s.requests, Uploads) == uploads
      && s.pools.ws.available + HeldOf(s.requests, WebSocket) == ws
      && (s.pools.ws.available == ws <==>
          forall r :: 0 <= r < |s.requests| && s.requests[r].protocol.WebSocket? ==> Held(s.requests[r]) == 0)
  {
    hide Enabled, Apply;
    RunKeepsInv(http, uploads, ws, states, actions, i);
    NothingHeld(states[i].requests, WebSocket);
  }

  lemma {:induction false} NothingHeld(requests: seq<Request>, p: Protocol)
    ensures HeldOf(requests, p) == 0 <==>
      forall r :: 0 <= r < |requests| && requests[r].protocol == p ==> Held(requests[r]) == 0
  {
    hide Held;
    if requests != [] {
      var n := |requests| - 1;
      NothingHeld(requests[..n], p);
      assert forall r :: 0 <= r < n ==> requests[..n][r] == requests[r];
      assert requests[n] in requests;
    }
  }

  /** A request that got past the second phase read. */
  predicate WasCommitted(stage: Stage) {
    stage.Committed? || stage.Working? || stage.Terminated? || stage.Released? || stage.WorkReleased?
  }

  lemma CommitNeedsRunning(s: State, a: Action, r: nat)
    requires Enabled(s, a) && s.phase.Draining?
    ensures Apply(s, a).phase.Draining?
    ensures r < |Apply(s, a).requests| && WasCommitted(Apply(s, a).requests[r].stage) ==>
      r < |s.requests| && WasCommitted(s.requests[r].stage)
  {
    hide Pool, Grants, Held;
  }

  /** No request commits after the phase became Draining. */
  lemma {:induction false} NoCommitAfterDrain(http: nat, uploads: nat, ws: nat, states: seq<State>,
                                              actions: seq<Action>,
                                              i: nat, k: nat, r: nat)
    requires Run(http, uploads, ws, states, actions) && i <= k < |states| && states[i].phase.Draining?
    ensures states[k].phase.Draining?
    ensures r < |states[k].requests| && WasCommitted(states[k].requests[r].stage) ==>
      r < |states[i].requests| && WasCommitted(states[i].requests[r].stage)
    decreases k
  {
    hide Enabled, Apply, WasCommitted;
    if i < k {
      NoCommitAfterDrain(http, uploads, ws, states, actions, i, k - 1, r);
      CommitNeedsRunning(states[k - 1], actions[k - 1], r);
    }
  }

  /** An Overloaded refusal means permits really were lacking when the semaphore was tried, a Draining
      refusal that the drain had begun; the drain begins once however many times it is asked for. */
  lemma RefusalsAreHonest(http: nat, uploads: nat, ws: nat, states: seq<State>, actions: seq<Action>, i: nat, r: nat)
    requires Run(http, uploads, ws, states, actions) && i < |states| && r < |states[i].requests|
    ensures var stage := states[i].requests[r].stage;
      && (stage.Refused? && stage.refusal.Overloaded? ==> stage.short)
      && (stage.Refused? && stage.refusal.RefusedDraining? ==> states[i].phase.Draining?)
      && states[i].began <= 1
  {
    hide Enabled, Apply;
    RunKeepsInv(http, uploads, ws, states, actions, i);
    assert RequestKept(states[i], r);
  }

  /** An HTTP permit comes back from admitted work only with its control terminal, whatever the HTTP side
      did meanwhile: a request that timed out or was dropped while its work runs still owns its permit.
      A success is answered only for a control that ended Completed, and a call that gave up has
      cancelled its control unless that was already finished. */
  lemma PermitOutlivesRequest(http: nat, uploads: nat, ws: nat, states: seq<State>, actions: seq<Action>, i: nat,
                              r: nat)
    requires Run(http, uploads, ws, states, actions) && i < |states| && r < |states[i].requests|
    ensures var s := states[i]; var request := s.requests[r];
      && (request.stage.WorkReleased? ==>
          request.stage.control < |s.controls| && s.controls[request.stage.control].Terminal())
      && (request.waiter.GaveUp? && request.stage.Working? ==>
          Held(request) == request.permits > 0 && request.stage.control < |s.controls| &&
          !s.controls[request.stage.control].Active())
      && (request.waiter == Answered(true) ==>
          request.stage.WorkReleased? && request.stage.control < |s.controls|
            && s.controls[request.stage.control].Completed?)
  {
    hide Enabled, Apply;
    RunKeepsInv(http, uploads, ws, states, actions, i);
    assert RequestKept(states[i], r) && WaiterKept(states[i], r);
  }

  /** The work is over, and whether it succeeded is settled. */
  predicate Settled(stage: Stage, ok: bool) { (stage.Terminated? || stage.WorkReleased?) && stage.succeeded == ok }

  lemma SettledLasts(s: State, a: Action, r: nat, ok: bool)
    requires Enabled(s, a) && r < |s.requests| && Settled(s.requests[r].stage, ok)
    ensures r < |Apply(s, a).requests| && Settled(Apply(s, a).requests[r].stage, ok)
  {
    hide Pool, Grants, Held;
  }

  lemma WorkSettles(s: State, a: Action)
    requires Enabled(s, a) && a.FinishWork?
    ensures var r := a.request; var c := s.requests[r].stage.control; var step := Apply(s, a);
      && r < |step.requests| && c < |step.controls| && step.controls[c].Terminal()
      && Settled(step.requests[r].stage, a.terminal.Completed? && step.controls[c].Completed?)
  {
  }

  /** The answer tells what became of the work: a success exactly when the work asked for completion and its control
      ended Completed, whatever happens between the end of the work and the answer. */
  lemma AnswersTellTheWork(http: nat, uploads: nat, ws: nat, states: seq<State>, actions: seq<Action>, i: nat, k: nat)
    requires Run(http, uploads, ws, states, actions) && i < |actions| && actions[i].FinishWork? && i < k < |states|
    ensures var r := actions[i].request;
      && r < |states[i].requests| && states[i].requests[r].stage.Working?
      && var c := states[i].requests[r].stage.control;
         && c < |states[i + 1].controls|
         && var ok := actions[i].terminal.Completed? && states[i + 1].controls[c].Completed?;
            && r < |states[k].requests| && Settled(states[k].requests[r].stage, ok)
            && (states[k].requests[r].waiter.Answered? ==> states[k].requests[r].waiter.ok == ok)
  {
    hide Apply, Settled;
    var r := actions[i].request;
    WorkSettles(states[i], actions[i]);
    var c := states[i].requests[r].stage.control;
    SettledStays(http, uploads, ws, states, actions, i + 1, k, r,
                 actions[i].terminal.Completed? && states[i + 1].controls[c].Completed?);
    RunKeepsInv(http, uploads, ws, states, actions, k);
    AnsweredAsSettled(states[k], r, actions[i].terminal.Completed? && states[i + 1].controls[c].Completed?);
  }

  lemma AnsweredAsSettled(s: State, r: nat, ok: bool)
    requires Inv(s) && r < |s.requests| && Settled(s.requests[r].stage, ok)
    ensures s.requests[r].waiter.Answered? ==> s.requests[r].waiter.ok == ok
  {
    assert RequestKept(s, r) && WaiterKept(s, r);
  }

  lemma {:induction false} SettledStays(http: nat, uploads: nat, ws: nat, states: seq<State>, actions: seq<Action>,
                                        i: nat, k: nat, r: nat, ok: bool)
    requires Run(http, uploads, ws, states, actions) && i <= k < |states|
    requires r < |states[i].requests| && Settled(states[i].requests[r].stage, ok)
    ensures r < |states[k].requests| && Settled(states[k].requests[r].stage, ok)
    decreases k
  {
    hide Enabled, Apply, Settled;
    if i < k {
      SettledStays(http, uploads, ws, states, actions, i, k - 1, r, ok);
      SettledLasts(states[k - 1], actions[k - 1], r, ok);
    }
  }

  // ---- Late requests --------------------------------------------------------------------

  /** A request that has not read the phase yet, or read that the drain had begun. */
  predicate Late(s: State, r: nat) {
    s.phase.Draining? && (r < |s.requests| ==> s.requests[r].stage in {Asking, Refused(RefusedDraining, false)})
  }

  lemma LateLasts(s: State, a: Action, r: nat)
    requires Enabled(s, a) && Late(s, r)
    ensures Late(Apply(s, a), r)
  {
    hide Pool, Grants, Held;
  }

  /** A request that first reads the phase after the drain began is refused without ever owning a permit. */
  lemma {:induction false} LateRequestsOwnNothing(http: nat, uploads: nat, ws: nat, states: seq<State>,
                                                  actions: seq<Action>, i: nat, k: nat, r: nat)
    requires Run(http, uploads, ws, states, actions) && i <= k < |states| && Late(states[i], r)
    ensures Late(states[k], r) && (r < |states[k].requests| ==> Held(states[k].requests[r]) == 0)
    decreases k
  {
    hide Enabled, Apply;
    if i < k {
      LateRequestsOwnNothing(http, uploads, ws, states, actions, i, k - 1, r);
      LateLasts(states[k - 1], actions[k - 1], r);
    }
  }

  lemma ClosedLasts(s: State, a: Action, p: Protocol)
    requires Enabled(s, a) && Pool(s, p).closed
    ensures Pool(Apply(s, a), p).closed && Pool(Apply(s, a), p).available >= Pool(s, p).available
  {
    hide Held;
  }

  /** Once a semaphore is closed it stays closed, and its permits only come back. */
  lemma {:induction false} ClosedTakesNothing(http: nat, uploads: nat, ws: nat, states: seq<State>,
                                              actions: seq<Action>, i: nat, k: nat, p: Protocol)
    requires Run(http, uploads, ws, states, actions) && i <= k < |states| && Pool(states[i], p).closed
    ensures Pool(states[k], p).closed && Pool(states[k], p).available >= Pool(states[i], p).available
    decreases k
  {
    hide Enabled, Apply, Pool;
    if i < k {
      ClosedTakesNothing(http, uploads, ws, states, actions, i, k - 1, p);
      ClosedLasts(states[k - 1], actions[k - 1], p);
    }
  }

  lemma DrainingLasts(s: State, a: Action)
    requires Enabled(s, a)
    ensures s.phase.Draining? || a.BeginDraining? ==> Apply(s, a).phase.Draining?
  {
    hide Pool, Grants, Held;
  }

  /** Beginning to drain takes effect at once and for good, exactly once, and the semaphores are closed in order until
      all are. */
  lemma {:induction false} DrainBegins(http: nat, uploads: nat, ws: nat, states: seq<State>, actions: seq<Action>,
                                       i: nat, k: nat)
    requires Run(http, uploads, ws, states, actions) && i < |actions| && actions[i].BeginDraining? && i < k < |states|
    ensures var s := states[k];
      && s.phase.Draining? && s.began == 1
      && (s.pools.http.closed <==> s.closing >= 1) && (s.pools.uploads.closed <==> s.closing >= 2)
      && (s.pools.ws.closed <==> s.closing >= 3)
    decreases k
  {
    hide Apply;
    RunKeepsInv(http, uploads, ws, states, actions, k);
    DrainingLasts(states[k - 1], actions[k - 1]);
    if i < k - 1 {
      DrainBegins(http, uploads, ws, states, actions, i, k - 1);
    }
  }
}
