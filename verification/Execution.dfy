/** The lifecycle of one request: an atomic cell driven by compare-and-exchange loops. */
module Execution {

  datatype ExecutionState = Ready | Queued | Running | CancelRequested | Completed | Failed | Cancelled {
    predicate Active() { Ready? || Queued? || Running? }
    predicate Terminal() { Completed? || Failed? || Cancelled? }
    predicate CancellationWon() { CancelRequested? || Cancelled? }
    function Rank(): nat {
      match this
      case Ready => 0
      case Queued => 1
      case Running => 2
      case CancelRequested => 3
      case _ => 4
    }
  }

  /** The exchanges the methods perform. */
  predicate Step(a: ExecutionState, b: ExecutionState) {
    || (a.Ready? && b.Queued?)
    || ((a.Ready? || a.Queued?) && b.Running?)
    || (a.Active() && (b.CancelRequested? || b.Completed? || b.Failed?))
    || (a.CancelRequested? && b.Cancelled?)
  }

  /** What any number of steps can lead to. */
  predicate Climbs(a: ExecutionState, b: ExecutionState) {
    a == b || (a.Active() && a.Rank() < b.Rank()) || (a.CancelRequested? && b.Cancelled?)
  }

  ghost predicate Path(p: seq<ExecutionState>) {
    |p| > 0 && forall i :: 0 <= i < |p| - 1 ==> Step(p[i], p[i + 1])
  }

  /** `Climbs` is exactly reachability by steps. */
  lemma ClimbsIsReachability(a: ExecutionState, b: ExecutionState)
    ensures Climbs(a, b) <==> exists p :: Path(p) && p[0] == a && p[|p| - 1] == b
  {
    if Climbs(a, b) {
      var p := if a == b then [a] else if Step(a, b) then [a, b] else [a, CancelRequested, b];
      assert Path(p) && p[0] == a && p[|p| - 1] == b;
    }
    forall p | Path(p) && p[0] == a && p[|p| - 1] == b ensures Climbs(a, b) {
      PathClimbs(p);
    }
  }

  lemma {:induction false} PathClimbs(p: seq<ExecutionState>)
    requires Path(p)
    ensures Climbs(p[0], p[|p| - 1])
  {
    if |p| > 1 {
      var q := p[..|p| - 1];
      PathClimbs(q);
      assert Step(p[|p| - 2], p[|p| - 1]);
    }
  }

  /** States only rise in rank; terminal states stay; a requested cancellation ends cancelled. */
  lemma ClimbsIsMonotone(a: ExecutionState, b: ExecutionState, c: ExecutionState)
    requires Climbs(a, b)
    ensures a == b || a.Rank() < b.Rank()
    ensures a.Terminal() ==> a == b
    ensures a.CancelRequested? ==> b.CancelRequested? || b.Cancelled?
    ensures Climbs(b, c) ==> Climbs(a, c)
    ensures Climbs(b, a) ==> a == b
  {
  }

  // ---- What each method does at its linearization point -----------------------------

  function CancelOutcome(s: ExecutionState): ExecutionState {
    if s.Active() then CancelRequested else s
  }

  function AcknowledgeOutcome(s: ExecutionState): ExecutionState {
    if s.CancelRequested? then Cancelled else s
  }

  function FinishOutcome(s: ExecutionState, terminal: ExecutionState): ExecutionState {
    if s.Active() then terminal else AcknowledgeOutcome(s)
  }

  predicate EnqueueAccepts(s: ExecutionState) { s.Active() }

  function EnqueueOutcome(s: ExecutionState): ExecutionState {
    if s.Ready? then Queued else s
  }

  function StartOutcome(s: ExecutionState): ExecutionState {
    if s.Active() then Running else s
  }

  /** The shared cell.  Before every access other threads may have moved it any number of steps. */
  class ExecutionControl {
    var state: ExecutionState

    constructor ()
      ensures state == Ready
    {
      state := Ready;
    }

    /** Whatever the other threads do. */
    method Interfere()
      modifies this
      ensures Climbs(old(state), state)
    {
      var next: ExecutionState :| Climbs(state, next);
      state := next;
    }

    method Load() returns (observed: ExecutionState)
      modifies this
      ensures observed == state && Climbs(old(state), state)
    {
      Interfere();
      observed := state;
    }

    method CompareExchange(expected: ExecutionState, next: ExecutionState) returns (exchanged: bool)
      requires Step(expected, next)
      modifies this
      ensures exchanged ==> Climbs(old(state), expected) && state == next
      ensures !exchanged ==> Climbs(old(state), state) && state != expected
    {
      Interfere();
      exchanged := state == expected;
      if exchanged {
        state := next;
      }
    }

    /** `before` is the state at the instant the call took effect. */
    method RequestCancellation() returns (result: ExecutionState, ghost before: ExecutionState)
      modifies this
      ensures Climbs(old(state), before) && state == result == CancelOutcome(before)
      ensures result.CancelRequested? || result.Terminal()
      ensures if before.Ready? || before.Queued? || before.Running? then result == CancelRequested else result == before
    {
      while true
        invariant Climbs(old(state), state)
        decreases 4 - state.Rank()
      {
        var observed := Load();
        if !observed.Active() {
          return observed, observed;
        }
        var exchanged := CompareExchange(observed, CancelRequested);
        if exchanged {
          return CancelRequested, observed;
        }
      }
    }

    method AcknowledgeCancellation() returns (result: ExecutionState, ghost before: ExecutionState)
      modifies this
      ensures Climbs(old(state), before) && state == result == AcknowledgeOutcome(before)
      ensures if before.CancelRequested? then result == Cancelled else result == before
    {
      while true
        invariant Climbs(old(state), state)
        decreases 4 - state.Rank()
      {
        var observed := Load();
        if !observed.CancelRequested? {
          return observed, observed;
        }
        var exchanged := CompareExchange(CancelRequested, Cancelled);
        if exchanged {
          return Cancelled, CancelRequested;
        }
      }
    }

    /** `complete` and `fail`: always a terminal state, and never one that revives a cancellation. */
    method Finish(terminal: ExecutionState) returns (result: ExecutionState, ghost before: ExecutionState)
      requires terminal.Completed? || terminal.Failed?
      modifies this
      ensures Climbs(old(state), before) && state == result == FinishOutcome(before, terminal)
      ensures result.Terminal() && (before.CancellationWon() ==> result.Cancelled?)
      ensures before.Ready? || before.Queued? || before.Running? ==> result == terminal
      ensures before.Completed? || before.Failed? ==> result == before
    {
      while true
        invariant Climbs(old(state), state)
        decreases 4 - state.Rank()
      {
        var observed := Load();
        if observed.Terminal() {
          return observed, observed;
        }
        if observed.CancelRequested? {
          result, before := AcknowledgeCancellation();
          return;
        }
        var exchanged := CompareExchange(observed, terminal);
        if exchanged {
          return terminal, observed;
        }
      }
    }

    method Enqueue() returns (accepted: bool, ghost before: ExecutionState)
      modifies this
      ensures Climbs(old(state), before) && state == EnqueueOutcome(before) && accepted == EnqueueAccepts(before)
      ensures accepted <==> state.Queued? || state.Running?
      ensures if before.Ready? then state == Queued else state == before
    {
      while true
        invariant Climbs(old(state), state)
        decreases 4 - state.Rank()
      {
        var observed := Load();
        if !observed.Ready? {
          return observed.Active(), observed;
        }
        var exchanged := CompareExchange(Ready, Queued);
        if exchanged {
          return true, Ready;
        }
      }
    }

    method Start() returns (started: bool, ghost before: ExecutionState)
      modifies this
      ensures Climbs(old(state), before) && state == StartOutcome(before) && started == before.Active()
      ensures if started then state == Running else state == before && (before == CancelRequested || before.Terminal())
    {
      while true
        invariant Climbs(old(state), state)
        decreases 4 - state.Rank()
      {
        var observed := Load();
        if observed.Running? || !observed.Active() {
          return observed.Running?, observed;
        }
        var exchanged := CompareExchange(observed, Running);
        if exchanged {
          return true, observed;
        }
      }
    }
  }
}
