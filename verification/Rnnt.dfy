/** Greedy RNN-T decoding over injected prediction, joint and frame ports. */
module Rnnt {
  import opened Contracts
  import opened Results
  import opened Words

  datatype RnntError<+E> = Port(cause: E) | FrameNotFinite(frame: nat) | BeyondBlank(token: nat)
    | Contract(violation: ContractError)

  /** The prediction and joint networks; `S` is everything they remember. */
  datatype Transition<!F, !S, E> = Transition(
    start: nat -> Result<S, E>,
    select: (F, S) -> Result<(nat, S), E>,
    advance: (nat, S) -> Result<S, E>)

  datatype Output = Output(tokens: seq<Token>, silence: seq<bool>)

  // ---- One frame, one symbol at a time -----------------------------------------------

  /** The token the networks choose next, in the state they are left in: None ends the frame. */
  function Symbol<F, S, E>(port: Transition<F, S, E>, frame: F, state: S,
                           blank: nat): Result<(Option<nat>, S), RnntError<E>> {
    match port.select(frame, state)
    case Err(error) => Err(Port(error))
    case Ok((token, after)) =>
      if token > blank then Err(BeyondBlank(token))
      else if token == blank then Ok((None, after))
      else match port.advance(token, after)
        case Err(error) => Err(Port(error))
        case Ok(next) => Ok((Some(token), next))
  }

  /** What one frame emits with at most `limit` symbols. */
  function Emission<F, S, E>(port: Transition<F, S, E>, frame: F, state: S, blank: nat,
                             limit: nat): Result<(seq<nat>, S), RnntError<E>> {
    if limit == 0 then Ok(([], state))
    else match Symbol(port, frame, state, blank)
      case Err(error) => Err(error)
      case Ok((None, after)) => Ok(([], after))
      case Ok((Some(token), next)) =>
        match Emission(port, frame, next, blank, limit - 1)
        case Err(error) => Err(error)
        case Ok((rest, last)) => Ok(([token] + rest, last))
  }

  /** An adapter frame: its values and whether they are all finite. */
  datatype Frame<F> = Frame(values: F, finite: bool)

  /** What the first `n` frames emit, frame by frame, threading one state through all of them. */
  function Emissions<F, S, E>(port: Transition<F, S, E>, frames: seq<Frame<F>>, state: S, blank: nat, limit: nat,
                              n: nat):
    Result<(seq<seq<nat>>, S), RnntError<E>>
    requires n <= |frames|
  {
    if n == 0 then Ok(([], state))
    else match Emissions(port, frames, state, blank, limit, n - 1)
      case Err(error) => Err(error)
      case Ok((before, reached)) =>
        if !frames[n - 1].finite then Err(FrameNotFinite(n - 1))
        else match Emission(port, frames[n - 1].values, reached, blank, limit)
          case Err(error) => Err(error)
          case Ok((tokens, after)) => Ok((before + [tokens], after))
  }

  /** The tokens of one frame, stamped with it. */
  function Stamped(ids: seq<nat>, frame: nat): (r: seq<Token>)
    ensures |r| == |ids| && forall i :: 0 <= i < |r| ==> r[i] == Token(ids[i], frame)
  {
    seq(|ids|, i requires 0 <= i < |ids| => Token(ids[i], frame))
  }

  function AllStamped(emitted: seq<seq<nat>>): seq<Token> {
    if emitted == [] then []
    else AllStamped(emitted[..|emitted| - 1]) + Stamped(emitted[|emitted| - 1], |emitted| - 1)
  }

  // ---- Properties of the emissions ---------------------------------------------------

  lemma {:induction false} EmissionBounded<F, S, E>(port: Transition<F, S, E>, frame: F, state: S, blank: nat,
                                                    limit: nat)
    ensures var r := Emission(port, frame, state, blank, limit);
      r.Ok? ==> |r.value.0| <= limit && forall i :: 0 <= i < |r.value.0| ==> r.value.0[i] < blank
  {
    if limit > 0 {
      var symbol := Symbol(port, frame, state, blank);
      if symbol.Ok? && symbol.value.0.Some? {
        EmissionBounded(port, frame, symbol.value.1, blank, limit - 1);
      }
    }
  }

  predicate Bounded(emitted: seq<seq<nat>>, blank: nat, limit: nat) {
    forall f :: 0 <= f < |emitted| ==>
      && |emitted[f]| <= limit
      && forall i :: 0 <= i < |emitted[f]| ==> emitted[f][i] < blank
  }

  lemma {:induction false} EmissionsBounded<F, S, E>(port: Transition<F, S, E>, frames: seq<Frame<F>>, state: S,
                                                     blank: nat, limit: nat, n: nat)
    requires n <= |frames|
    ensures var r := Emissions(port, frames, state, blank, limit, n);
      r.Ok? ==> |r.value.0| == n && Bounded(r.value.0, blank, limit)
  {
    if n > 0 {
      EmissionsBounded(port, frames, state, blank, limit, n - 1);
      var before := Emissions(port, frames, state, blank, limit, n - 1);
      if before.Ok? {
        EmissionBounded(port, frames[n - 1].values, before.value.1, blank, limit);
      }
    }
  }

  function FrameTokens(tokens: seq<Token>, f: nat): nat {
    if tokens == [] then 0
    else FrameTokens(tokens[..|tokens| - 1], f) + if tokens[|tokens| - 1].frame == f then 1 else 0
  }

  lemma {:induction false} FrameTokensJoin(a: seq<Token>, b: seq<Token>, f: nat)
    ensures FrameTokens(a + b, f) == FrameTokens(a, f) + FrameTokens(b, f)
  {
    if b == [] {
      assert a + b == a;
    } else {
      FrameTokensJoin(a, b[..|b| - 1], f);
      assert (a + b)[..|a + b| - 1] == a + b[..|b| - 1];
    }
  }

  lemma {:induction false} FrameTokensStamped(ids: seq<nat>, frame: nat, f: nat)
    ensures FrameTokens(Stamped(ids, frame), f) == if f == frame then |ids| else 0
  {
    if ids != [] {
      var n := |ids| - 1;
      FrameTokensStamped(ids[..n], frame, f);
      assert Stamped(ids, frame)[..n] == Stamped(ids[..n], frame);
    }
  }

  /** Tokens come in frame order with ids below blank, and each frame holds exactly what it emitted. */
  lemma {:induction false} StampedOk(emitted: seq<seq<nat>>, blank: nat, limit: nat)
    requires Bounded(emitted, blank, limit)
    ensures var tokens := AllStamped(emitted);
      && FramesOrdered(tokens) && TokensInside(tokens, |emitted|)
      && (forall i :: 0 <= i < |tokens| ==> tokens[i].id < blank)
      && (forall f :: 0 <= f < |emitted| ==> FrameTokens(tokens, f) == |emitted[f]|)
  {
    if emitted != [] {
      var n := |emitted| - 1;
      StampedOk(emitted[..n], blank, limit);
      var before, last := AllStamped(emitted[..n]), Stamped(emitted[n], n);
      forall f | 0 <= f <= n ensures FrameTokens(before + last, f) == |emitted[f]| {
        FrameTokensJoin(before, last, f);
        FrameTokensStamped(emitted[n], n, f);
        if f == n { NoneOutside(before, n, n); }
      }
    }
  }

  lemma {:induction false} NoneOutside(tokens: seq<Token>, frames: nat, f: nat)
    requires TokensInside(tokens, frames) && f >= frames
    ensures FrameTokens(tokens, f) == 0
  {
    if tokens != [] {
      NoneOutside(tokens[..|tokens| - 1], frames, f);
    }
  }

  // ---- The loops --------------------------------------------------------------------

  /** What is already emitted, followed by what is still to come. */
  function Prefixed<S, E>(ids: seq<nat>, r: Result<(seq<nat>, S), RnntError<E>>): Result<(seq<nat>, S), RnntError<E>> {
    match r
    case Err(error) => Err(error)
    case Ok((rest, state)) => Ok((ids + rest, state))
  }

  lemma PrefixedSymbol<F, S, E>(port: Transition<F, S, E>, frame: F, state: S, blank: nat, limit: nat, ids: seq<nat>)
    requires limit > 0
    ensures Prefixed(ids, Emission(port, frame, state, blank, limit)) ==
      match Symbol(port, frame, state, blank)
      case Err(error) => Err(error)
      case Ok((None, after)) => Ok((ids, after))
      case Ok((Some(token), next)) => Prefixed(ids + [token], Emission(port, frame, next, blank, limit - 1))
  {
    var symbol := Symbol(port, frame, state, blank);
    assert ids + [] == ids;
    if symbol.Ok? && symbol.value.0.Some? {
      var rest := Emission(port, frame, symbol.value.1, blank, limit - 1);
      assert rest.Ok? ==> ids + [symbol.value.0.value] + rest.value.0 == ids + ([symbol.value.0.value] + rest.value.0);
    }
  }

  lemma PrefixedNothing<S, E>(r: Result<(seq<nat>, S), RnntError<E>>)
    ensures Prefixed([], r) == r
  {
    assert r.Ok? ==> [] + r.value.0 == r.value.0;
  }

  lemma EmissionMeans<F, S(!new), E>(port: Transition<F, S, E>, frame: F, start: S, blank: nat, limit: nat)
    ensures var r := Emission(port, frame, start, blank, limit);
      && (r.Ok? ==> exists states: seq<S> ::
            FrameTrace(port, frame, blank, limit, r.value.0, states, r.value.1) && states[0] == start)
      && (r.Err? ==> exists ids: seq<nat>, states: seq<S> ::
            FrameFails(port, frame, blank, limit, ids, states, r.error) && states[0] == start)
  {
    hide Emission, FrameTrace, FrameFails;
    if Emission(port, frame, start, blank, limit).Ok? {
      var states := EmissionTraced(port, frame, start, blank, limit);
    } else {
      var ids, states := EmissionFailure(port, frame, start, blank, limit);
    }
  }

  /** The inner loop: at most `limit` symbols on one frame. */
  method EmitFrame<F, S(!new), E>(port: Transition<F, S, E>, frame: F, start: S, blank: nat, limit: nat)
    returns (r: Result<(seq<nat>, S), RnntError<E>>)
    ensures r == Emission(port, frame, start, blank, limit)
    ensures r.Ok? ==> exists states: seq<S> ::
      FrameTrace(port, frame, blank, limit, r.value.0, states, r.value.1) && states[0] == start
    ensures r.Err? ==> exists ids: seq<nat>, states: seq<S> ::
      FrameFails(port, frame, blank, limit, ids, states, r.error) && states[0] == start
  {
    EmissionMeans(port, frame, start, blank, limit);
    hide Emission, Prefixed, FrameTrace, FrameFails;
    var state: S, ids: seq<nat>, symbols := start, [], 0;
    PrefixedNothing(Emission(port, frame, start, blank, limit));
    while symbols < limit
      invariant 0 <= symbols <= limit
      invariant Prefixed(ids, Emission(port, frame, state, blank, limit - symbols))
        == Emission(port, frame, start, blank, limit)
    {
      PrefixedSymbol(port, frame, state, blank, limit - symbols, ids);
      var selected := port.select(frame, state);
      if selected.Err? { return Err(Port(selected.error)); }
      var (token, after) := selected.value;
      if token > blank { return Err(BeyondBlank(token)); }
      if token == blank { return Ok((ids, after)); }
      var next := port.advance(token, after);
      if next.Err? { return Err(Port(next.error)); }
      ids, state, symbols := ids + [token], next.value, symbols + 1;
    }
    LimitReached(port, frame, state, blank, ids);
    r := Ok((ids, state));
  }

  lemma LimitReached<F, S, E>(port: Transition<F, S, E>, frame: F, state: S, blank: nat, ids: seq<nat>)
    ensures Prefixed(ids, Emission(port, frame, state, blank, 0)) == Ok((ids, state))
  {
    assert ids + [] == ids;
  }

  function Silences(emitted: seq<seq<nat>>): (r: seq<bool>)
    ensures |r| == |emitted| && forall f :: 0 <= f < |r| ==> r[f] == (emitted[f] == [])
  {
    seq(|emitted|, f requires 0 <= f < |emitted| => emitted[f] == [])
  }

  /** The whole decoding as one function of the ports' answers: it fails exactly when a port fails, a frame is not
      finite or a token lies beyond blank, at the first such place. */
  function Decoding<F, S, E>(port: Transition<F, S, E>, frames: seq<Frame<F>>, blank: nat,
                             limit: nat): Result<Output, RnntError<E>> {
    match port.start(blank)
    case Err(error) => Err(Port(error))
    case Ok(state) =>
      match Emissions(port, frames, state, blank, limit, |frames|)
      case Err(error) => Err(error)
      case Ok((emitted, _)) => Ok(Output(AllStamped(emitted), Silences(emitted)))
  }

  /** Tokens come in frame order with ids below blank, no frame has more than the symbol limit, and a frame is silent
      exactly when it emitted nothing. */
  lemma DecodingOk<F, S, E>(port: Transition<F, S, E>, frames: seq<Frame<F>>, blank: nat, limit: nat)
    ensures var r := Decoding(port, frames, blank, limit);
      r.Ok? ==>
        && |r.value.silence| == |frames|
        && FramesOrdered(r.value.tokens) && TokensInside(r.value.tokens, |frames|)
        && (forall i :: 0 <= i < |r.value.tokens| ==> r.value.tokens[i].id < blank)
        && (forall f :: 0 <= f < |frames| ==>
              FrameTokens(r.value.tokens, f) <= limit && r.value.silence[f] == (FrameTokens(r.value.tokens, f) == 0))
  {
    hide Emissions, AllStamped, FrameTokens, Bounded;
    var start := port.start(blank);
    if start.Ok? {
      var emissions := Emissions(port, frames, start.value, blank, limit, |frames|);
      if emissions.Ok? {
        EmissionsBounded(port, frames, start.value, blank, limit, |frames|);
        StampedOk(emissions.value.0, blank, limit);
        EachWithin(emissions.value.0, blank, limit);
      }
    }
  }

  lemma DecodingMeans<F, S(!new), E>(port: Transition<F, S, E>, frames: seq<Frame<F>>, blank: nat, limit: nat)
    ensures var r := Decoding(port, frames, blank, limit);
      && (forall output :: r == Ok(output) <==> Traced(port, frames, blank, limit, output))
      && (r.Err? ==> Failed(port, frames, blank, limit, r.error))
  {
    hide Decoding, Traced, Failed;
    var r := Decoding(port, frames, blank, limit);
    forall output ensures r == Ok(output) <==> Traced(port, frames, blank, limit, output) {
      DecodingIsTrace(port, frames, blank, limit, output);
    }
    if r.Err? {
      DecodingFails(port, frames, blank, limit, r.error);
    }
  }

  method Greedy<F, S(!new), E>(port: Transition<F, S, E>, frames: seq<Frame<F>>, blank: nat, limit: nat)
    returns (r: Result<Output, RnntError<E>>)
    ensures r == Decoding(port, frames, blank, limit)
    ensures forall output :: r == Ok(output) <==> Traced(port, frames, blank, limit, output)
    ensures r.Err? ==> Failed(port, frames, blank, limit, r.error)
  {
    DecodingMeans(port, frames, blank, limit);
    hide Emission, Traced, Failed;
    var started := port.start(blank);
    if started.Err? { return Err(Port(started.error)); }
    var state := started.value;
    var tokens, silence: seq<bool> := [], [];
    ghost var emitted: seq<seq<nat>> := [];
    for f := 0 to |frames|
      invariant |silence| == |emitted| == f
      invariant Emissions(port, frames, started.value, blank, limit, f) == Ok((emitted, state))
      invariant tokens == AllStamped(emitted)
      invariant silence == Silences(emitted)
    {
      var frame := frames[f];
      if !frame.finite {
        EmissionsFail(port, frames, started.value, blank, limit, f + 1, |frames|);
        return Err(FrameNotFinite(f));
      }
      var emission := EmitFrame(port, frame.values, state, blank, limit);
      if emission.Err? {
        EmissionsFail(port, frames, started.value, blank, limit, f + 1, |frames|);
        return Err(emission.error);
      }
      var (ids, next) := emission.value;
      assert (emitted + [ids])[..f] == emitted;
      tokens, silence, state := tokens + Stamped(ids, f), silence + [ids == []], next;
      emitted := emitted + [ids];
    }
    r := Ok(Output(tokens, silence));
  }

  lemma EachWithin(emitted: seq<seq<nat>>, blank: nat, limit: nat)
    requires Bounded(emitted, blank, limit)
    ensures forall f :: 0 <= f < |emitted| ==> |emitted[f]| <= limit
  {
  }

  lemma {:induction false} EmissionsFail<F, S, E>(port: Transition<F, S, E>, frames: seq<Frame<F>>, state: S,
                                                  blank: nat, limit: nat, m: nat, n: nat)
    requires m <= n <= |frames| && Emissions(port, frames, state, blank, limit, m).Err?
    ensures Emissions(port, frames, state, blank, limit, n)
      == Err(Emissions(port, frames, state, blank, limit, m).error)
  {
    if m < n {
      EmissionsFail(port, frames, state, blank, limit, m, n - 1);
    }
  }

  // ---- The loops in terms of the ports alone -------------------------------------------

  /** The token is what `select` answers in the state, and the next state what `advance` makes of that token. */
  predicate StepAt<F, S(==), E>(port: Transition<F, S, E>, frame: F, blank: nat, token: nat, state: S, next: S) {
    var answer := port.select(frame, state);
    token < blank && answer.Ok? && answer.value.0 == token && port.advance(token, answer.value.1) == Ok(next)
  }

  predicate Steps<F, S(==), E>(port: Transition<F, S, E>, frame: F, blank: nat, ids: seq<nat>, states: seq<S>) {
    && |states| == |ids| + 1
    && forall i :: 0 <= i < |ids| ==> StepAt(port, frame, blank, ids[i], states[i], states[i + 1])
  }

  /** One frame: it ends at the symbol limit, or where `select` answers blank and leaves its state `last`. */
  predicate FrameTrace<F, S(==), E>(port: Transition<F, S, E>, frame: F, blank: nat, limit: nat, ids: seq<nat>,
                                    states: seq<S>, last: S)
  {
    && |ids| <= limit && Steps(port, frame, blank, ids, states)
    && if |ids| == limit then last == states[|ids|]
       else port.select(frame, states[|ids|]) == Ok((blank, last))
  }

  /** All frames: the first is entered in the start state, each is finite and entered in the state the one before
      it left. */
  predicate Trace<F, S(==), E>(port: Transition<F, S, E>, frames: seq<Frame<F>>, blank: nat, limit: nat,
                               emitted: seq<seq<nat>>, states: seq<seq<S>>, entries: seq<S>)
  {
    && |emitted| == |states| == |frames| && |entries| == |frames| + 1
    && port.start(blank) == Ok(entries[0])
    && forall f :: 0 <= f < |frames| ==>
         && frames[f].finite && FrameTrace(port, frames[f].values, blank, limit, emitted[f], states[f], entries[f + 1])
         && states[f][0] == entries[f]
  }

  function Total(emitted: seq<seq<nat>>): nat {
    if emitted == [] then 0 else Total(emitted[..|emitted| - 1]) + |emitted[|emitted| - 1]|
  }

  /** Id `i` of frame `f` comes after all ids of the frames before it. */
  predicate TokenAt(tokens: seq<Token>, emitted: seq<seq<nat>>, f: nat, i: nat)
    requires f < |emitted| && i < |emitted[f]|
  {
    var at := Total(emitted[..f]) + i;
    at < |tokens| && tokens[at] == Token(emitted[f][i], f)
  }

  /** The tokens are the emitted ids in order, each with its frame. */
  ghost predicate Lists(tokens: seq<Token>, emitted: seq<seq<nat>>) {
    && |tokens| == Total(emitted)
    && forall f: nat, i: nat :: f < |emitted| && i < |emitted[f]| ==> TokenAt(tokens, emitted, f, i)
  }

  /** The output is that of some trace of the ports. */
  ghost predicate Traced<F, S(!new), E>(port: Transition<F, S, E>, frames: seq<Frame<F>>, blank: nat, limit: nat,
                                           output: Output)
  {
    exists emitted: seq<seq<nat>>, states: seq<seq<S>>, entries: seq<S> ::
      && Trace(port, frames, blank, limit, emitted, states, entries)
      && Lists(output.tokens, emitted)
      && |output.silence| == |emitted| && forall f :: 0 <= f < |emitted| ==> output.silence[f] == (emitted[f] == [])
  }

  lemma {:induction false} EmissionTraced<F, S, E>(port: Transition<F, S, E>, frame: F, state: S, blank: nat,
                                                   limit: nat)
    returns (states: seq<S>)
    requires Emission(port, frame, state, blank, limit).Ok?
    ensures var (ids, last) := Emission(port, frame, state, blank, limit).value;
      FrameTrace(port, frame, blank, limit, ids, states, last) && states[0] == state
  {
    states := [state];
    if limit > 0 {
      var symbol := Symbol(port, frame, state, blank);
      if symbol.value.0.Some? {
        var rest := EmissionTraced(port, frame, symbol.value.1, blank, limit - 1);
        states := [state] + rest;
      }
    }
  }

  lemma StepsTail<F, S, E>(port: Transition<F, S, E>, frame: F, blank: nat, ids: seq<nat>, states: seq<S>)
    requires ids != [] && Steps(port, frame, blank, ids, states)
    ensures Steps(port, frame, blank, ids[1..], states[1..])
    ensures Symbol(port, frame, states[0], blank) == Ok((Some(ids[0]), states[1]))
  {
    assert StepAt(port, frame, blank, ids[0], states[0], states[1]);
    forall i | 0 <= i < |ids[1..]| ensures StepAt(port, frame, blank, ids[1..][i], states[1..][i], states[1..][i + 1]) {
      assert StepAt(port, frame, blank, ids[i + 1], states[i + 1], states[i + 2]);
    }
  }

  lemma {:induction false} TraceEmits<F, S, E>(port: Transition<F, S, E>, frame: F, blank: nat, limit: nat,
                                               ids: seq<nat>, states: seq<S>, last: S)
    requires FrameTrace(port, frame, blank, limit, ids, states, last)
    ensures Emission(port, frame, states[0], blank, limit) == Ok((ids, last))
    decreases limit
  {
    if ids != [] {
      StepsTail(port, frame, blank, ids, states);
      TraceEmits(port, frame, blank, limit - 1, ids[1..], states[1..], last);
      assert [ids[0]] + ids[1..] == ids;
    }
  }

  lemma {:induction false} EmissionsTraced<F, S, E>(port: Transition<F, S, E>, frames: seq<Frame<F>>, blank: nat,
                                                    limit: nat, n: nat)
    returns (states: seq<seq<S>>, entries: seq<S>)
    requires n <= |frames| && port.start(blank).Ok?
    requires Emissions(port, frames, port.start(blank).value, blank, limit, n).Ok?
    ensures var (emitted, last) := Emissions(port, frames, port.start(blank).value, blank, limit, n).value;
      Trace(port, frames[..n], blank, limit, emitted, states, entries) && entries[n] == last
  {
    hide FrameTrace, Emission;
    var start := port.start(blank).value;
    states, entries := [], [start];
    if n > 0 {
      states, entries := EmissionsTraced(port, frames, blank, limit, n - 1);
      var last := EmissionTraced(port, frames[n - 1].values, entries[n - 1], blank, limit);
      var end := Emission(port, frames[n - 1].values, entries[n - 1], blank, limit).value.1;
      states, entries := states + [last], entries + [end];
      assert frames[..n][..n - 1] == frames[..n - 1];
    }
  }

  lemma {:induction false} TracesEmit<F, S, E>(port: Transition<F, S, E>, frames: seq<Frame<F>>, blank: nat, limit: nat,
                                               emitted: seq<seq<nat>>, states: seq<seq<S>>, entries: seq<S>, n: nat)
    requires Trace(port, frames, blank, limit, emitted, states, entries) && n <= |frames|
    ensures Emissions(port, frames, entries[0], blank, limit, n) == Ok((emitted[..n], entries[n]))
  {
    hide FrameTrace, Emission;
    if n > 0 {
      TracesEmit(port, frames, blank, limit, emitted, states, entries, n - 1);
      TraceEmits(port, frames[n - 1].values, blank, limit, emitted[n - 1], states[n - 1], entries[n]);
      assert emitted[..n] == emitted[..n - 1] + [emitted[n - 1]];
    }
  }

  lemma {:induction false} StampedLists(emitted: seq<seq<nat>>)
    ensures Lists(AllStamped(emitted), emitted)
  {
    if emitted != [] {
      var n := |emitted| - 1;
      StampedLists(emitted[..n]);
      var before, last := AllStamped(emitted[..n]), Stamped(emitted[n], n);
      forall f: nat, i: nat | f < |emitted| && i < |emitted[f]| ensures TokenAt(before + last, emitted, f, i) {
        if f < n {
          assert emitted[..n][..f] == emitted[..f] && TokenAt(before, emitted[..n], f, i);
        }
      }
    }
  }

  lemma {:induction false} TotalMonotone(emitted: seq<seq<nat>>, f: nat)
    requires f < |emitted|
    ensures Total(emitted[..f]) + |emitted[f]| <= Total(emitted)
  {
    var n := |emitted| - 1;
    if f < n {
      TotalMonotone(emitted[..n], f);
      assert emitted[..n][..f] == emitted[..f];
    }
  }

  /** Only one token list is listed. */
  lemma {:induction false} ListsOnce(a: seq<Token>, b: seq<Token>, emitted: seq<seq<nat>>)
    requires Lists(a, emitted) && Lists(b, emitted)
    ensures a == b
    decreases |emitted|
  {
    if emitted != [] {
      var n := |emitted| - 1;
      var t := Total(emitted[..n]);
      ListsPrefix(a, emitted);
      ListsPrefix(b, emitted);
      ListsOnce(a[..t], b[..t], emitted[..n]);
      forall i: nat | i < |emitted[n]| ensures a[t..][i] == b[t..][i] {
        assert TokenAt(a, emitted, n, i) && TokenAt(b, emitted, n, i);
      }
      assert a == a[..t] + a[t..] && b == b[..t] + b[t..];
    }
  }

  lemma ListsPrefix(tokens: seq<Token>, emitted: seq<seq<nat>>)
    requires emitted != [] && Lists(tokens, emitted)
    ensures var n := |emitted| - 1; var t := Total(emitted[..n]);
      t + |emitted[n]| == |tokens| && Lists(tokens[..t], emitted[..n])
  {
    var n := |emitted| - 1;
    TotalMonotone(emitted, n);
    forall f: nat, i: nat | f < n && i < |emitted[..n][f]|
      ensures TokenAt(tokens[..Total(emitted[..n])], emitted[..n], f, i)
    {
      TotalMonotone(emitted[..n], f);
      assert emitted[..n][..f] == emitted[..f] && TokenAt(tokens, emitted, f, i);
    }
  }

  /** Decoding succeeds with an output exactly when some trace of the ports has that output. */
  lemma DecodingIsTrace<F, S(!new), E>(port: Transition<F, S, E>, frames: seq<Frame<F>>, blank: nat, limit: nat,
                                       output: Output)
    ensures Decoding(port, frames, blank, limit) == Ok(output) <==> Traced(port, frames, blank, limit, output)
  {
    hide Emissions, Trace, Lists, AllStamped;
    if Decoding(port, frames, blank, limit) == Ok(output) {
      var states, entries := EmissionsTraced(port, frames, blank, limit, |frames|);
      var emitted := Emissions(port, frames, port.start(blank).value, blank, limit, |frames|).value.0;
      assert frames[..|frames|] == frames;
      StampedLists(emitted);
      assert Trace(port, frames, blank, limit, emitted, states, entries);
    }
    if Traced(port, frames, blank, limit, output) {
      var emitted, states, entries :| Trace<F, S, E>(port, frames, blank, limit, emitted, states, entries)
        && Lists(output.tokens, emitted)
        && |output.silence| == |emitted| && forall f :: 0 <= f < |emitted| ==> output.silence[f] == (emitted[f] == []);
      TraceStarts(port, frames, blank, limit, emitted, states, entries);
      TracesEmit(port, frames, blank, limit, emitted, states, entries, |frames|);
      assert emitted[..|frames|] == emitted;
      StampedLists(emitted);
      ListsOnce(AllStamped(emitted), output.tokens, emitted);
      assert output.silence == Silences(emitted);
    }
  }

  // ---- The same of failures ------------------------------------------------------------

  /** One frame fails before its limit: `select` fails or answers beyond blank, or `advance` fails on its answer. */
  predicate FrameFails<F, S(==), E(==)>(port: Transition<F, S, E>, frame: F, blank: nat, limit: nat, ids: seq<nat>,
                                        states: seq<S>, error: RnntError<E>)
  {
    && |ids| < limit && Steps(port, frame, blank, ids, states)
    && match port.select(frame, states[|ids|])
       case Err(cause) => error == Port(cause)
       case Ok((token, after)) =>
         if token > blank then error == BeyondBlank(token)
         else token < blank && port.advance(token, after).Err? && error == Port(port.advance(token, after).error)
  }

  /** The start fails, or some frame is not finite or fails where the frames before it left the state. */
  ghost predicate Failed<F, S(!new), E>(port: Transition<F, S, E>, frames: seq<Frame<F>>, blank: nat, limit: nat,
                                        error: RnntError<E>)
  {
    if port.start(blank).Err? then error == Port(port.start(blank).error)
    else
      exists m: nat, emitted: seq<seq<nat>>, states: seq<seq<S>>, entries: seq<S>, ids: seq<nat>, last: seq<S> ::
        FailsAt(port, frames, blank, limit, error, m, emitted, states, entries, ids, last)
  }

  predicate FailsAt<F, S(==), E(==)>(port: Transition<F, S, E>, frames: seq<Frame<F>>, blank: nat, limit: nat,
                                     error: RnntError<E>, m: nat, emitted: seq<seq<nat>>, states: seq<seq<S>>,
                                     entries: seq<S>, ids: seq<nat>, last: seq<S>)
  {
    && m < |frames| && Trace(port, frames[..m], blank, limit, emitted, states, entries)
    && if !frames[m].finite then error == FrameNotFinite(m)
       else FrameFails(port, frames[m].values, blank, limit, ids, last, error) && last[0] == entries[m]
  }

  lemma {:induction false} EmissionFailure<F, S, E>(port: Transition<F, S, E>, frame: F, state: S, blank: nat,
                                                    limit: nat)
    returns (ids: seq<nat>, states: seq<S>)
    requires Emission(port, frame, state, blank, limit).Err?
    ensures FrameFails(port, frame, blank, limit, ids, states, Emission(port, frame, state, blank, limit).error)
    ensures states[0] == state
  {
    ids, states := [], [state];
    var symbol := Symbol(port, frame, state, blank);
    if symbol.Ok? {
      var restIds, rest := EmissionFailure(port, frame, symbol.value.1, blank, limit - 1);
      ids, states := [symbol.value.0.value] + restIds, [state] + rest;
    }
  }

  lemma {:induction false} FailureEmits<F, S, E>(port: Transition<F, S, E>, frame: F, blank: nat, limit: nat,
                                                 ids: seq<nat>, states: seq<S>, error: RnntError<E>)
    requires FrameFails(port, frame, blank, limit, ids, states, error)
    ensures Emission(port, frame, states[0], blank, limit) == Err(error)
    decreases limit
  {
    if ids != [] {
      StepsTail(port, frame, blank, ids, states);
      FailureEmits(port, frame, blank, limit - 1, ids[1..], states[1..], error);
    }
  }

  /** The first frame after which the emissions fail. */
  lemma {:induction false} EmissionsFailure<F, S(!new), E>(port: Transition<F, S, E>, frames: seq<Frame<F>>, blank: nat,
                                                           limit: nat, n: nat)
    requires n <= |frames| && port.start(blank).Ok?
    requires Emissions(port, frames, port.start(blank).value, blank, limit, n).Err?
    ensures Failed(port, frames, blank, limit, Emissions(port, frames, port.start(blank).value, blank, limit, n).error)
  {
    hide FrameFails, Emission, Trace;
    var start := port.start(blank).value;
    var before := Emissions(port, frames, start, blank, limit, n - 1);
    var error := Emissions(port, frames, start, blank, limit, n).error;
    if before.Err? {
      EmissionsFailure(port, frames, blank, limit, n - 1);
    } else {
      var states, entries := EmissionsTraced(port, frames, blank, limit, n - 1);
      var ids, last := [], [start];
      if frames[n - 1].finite {
        ids, last := EmissionFailure(port, frames[n - 1].values, before.value.1, blank, limit);
      }
      assert FailsAt(port, frames, blank, limit, error, n - 1, before.value.0, states, entries, ids, last);
    }
  }

  lemma {:induction false} EmissionsOfPrefix<F, S, E>(port: Transition<F, S, E>, frames: seq<Frame<F>>, state: S,
                                                      blank: nat, limit: nat, m: nat, n: nat)
    requires n <= m <= |frames|
    ensures Emissions(port, frames[..m], state, blank, limit, n) == Emissions(port, frames, state, blank, limit, n)
  {
    if n > 0 {
      EmissionsOfPrefix(port, frames, state, blank, limit, m, n - 1);
    }
  }

  lemma FailureDecodes<F, S, E>(port: Transition<F, S, E>, frames: seq<Frame<F>>, blank: nat, limit: nat,
                                error: RnntError<E>, m: nat, emitted: seq<seq<nat>>, states: seq<seq<S>>,
                                entries: seq<S>, ids: seq<nat>, last: seq<S>)
    requires FailsAt(port, frames, blank, limit, error, m, emitted, states, entries, ids, last)
    ensures Decoding(port, frames, blank, limit) == Err(error)
  {
    hide FrameFails, Emission;
    TracesEmit(port, frames[..m], blank, limit, emitted, states, entries, m);
    EmissionsOfPrefix(port, frames, entries[0], blank, limit, m, m);
    if frames[m].finite {
      FailureEmits(port, frames[m].values, blank, limit, ids, last, error);
    }
    EmissionsFail(port, frames, entries[0], blank, limit, m + 1, |frames|);
  }

  /** Decoding fails with an error exactly when the ports lead there. */
  lemma DecodingFails<F, S(!new), E>(port: Transition<F, S, E>, frames: seq<Frame<F>>, blank: nat, limit: nat,
                                     error: RnntError<E>)
    ensures Decoding(port, frames, blank, limit) == Err(error) <==> Failed(port, frames, blank, limit, error)
  {
    hide Emissions, FailsAt;
    if port.start(blank).Ok? {
      if Decoding(port, frames, blank, limit) == Err(error) {
        EmissionsFailure(port, frames, blank, limit, |frames|);
      }
      if Failed(port, frames, blank, limit, error) {
        var m: nat, emitted, states, entries, ids, last :|
          FailsAt<F, S, E>(port, frames, blank, limit, error, m, emitted, states, entries, ids, last);
        FailureDecodes(port, frames, blank, limit, error, m, emitted, states, entries, ids, last);
      }
    }
  }

  lemma TraceStarts<F, S, E>(port: Transition<F, S, E>, frames: seq<Frame<F>>, blank: nat, limit: nat,
                             emitted: seq<seq<nat>>, states: seq<seq<S>>, entries: seq<S>)
    requires Trace(port, frames, blank, limit, emitted, states, entries)
    ensures |emitted| == |frames| == |entries| - 1 && port.start(blank) == Ok(entries[0])
  {
  }

  // ---- The decoder around them -------------------------------------------------------

  /** The vocabulary covers every id below blank, as construction checks; then no validator refuses: decoding fails
      only where the greedy loop does. */
  method DecodeWindow<F, S(!new), E>(port: Transition<F, S, E>, frames: seq<Frame<F>>, vocabulary: seq<string>,
                                         blank: nat, limit: nat, rate: real, encoderSeconds: real)
    returns (r: Result<Decoded, RnntError<E>>)
    requires |vocabulary| >= blank && rate > 0.0 && encoderSeconds >= 0.0
    ensures var greedy := Decoding(port, frames, blank, limit);
      if greedy.Err? then r == Err(greedy.error) else r.Ok? && DecodedIs(greedy.value, vocabulary, rate, r.value)
  {
    hide Decoding, Spans, Texts, SpansOrdered, IsWordOf, FrameTokens;
    var output := Greedy(port, frames, blank, limit);
    if output.Err? { return Err(output.error); }
    DecodingOk(port, frames, blank, limit);
    var tokens := output.value.tokens;
    SpansAreWords(Pieces(tokens, vocabulary));
    var words := TokensToWords(tokens, vocabulary, rate);
    var spans := WordTokenSpans(tokens, vocabulary);
    var decoded :=
      Assemble(words.value, output.value.silence, |frames|, encoderSeconds, None, Some(tokens), Some(spans));
    r := Ok(decoded.value);
  }

  /** The decoded window carries the greedy tokens and silence, and one word for each of their spans. */
  predicate DecodedIs(greedy: Output, vocabulary: seq<string>, rate: real, decoded: Decoded)
    requires rate > 0.0
  {
    && decoded.tokens == Some(greedy.tokens) && decoded.silence == greedy.silence
    && KnownIds(greedy.tokens, vocabulary)
    && var pieces := Pieces(greedy.tokens, vocabulary);
       && decoded.wordSpans == Some(Spans(pieces)) && SpansInside(Spans(pieces), |greedy.tokens|)
       && |decoded.words| == |Spans(pieces)| == |Texts(pieces)|
       && forall k :: 0 <= k < |decoded.words| ==>
            IsWordOf(decoded.words[k], Texts(pieces)[k], greedy.tokens[Spans(pieces)[k].0],
                     greedy.tokens[Spans(pieces)[k].1], rate)
  }
}
