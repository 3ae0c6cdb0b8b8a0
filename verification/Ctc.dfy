/** Greedy CTC decoding: first argmax per frame, repeat collapse, blank removal, words. */
module Ctc {
  import opened Contracts
  import opened Grids
  import opened Results
  import opened Words

  /** A single-precision value as far as the decoder looks at it. */
  datatype Score = Finite(value: real) | NonFinite

  datatype CtcError = NoVocabulary | BlankOutside | SpaceOutside | MatrixSize | NotFinite
                    | Construction | Contract(error: ContractError)

  // ---- What the greedy output is -----------------------------------------------------

  /** The first position of a maximum. */
  predicate FirstMax(row: seq<real>, best: nat) {
    && best < |row|
    && (forall i :: 0 <= i < |row| ==> row[i] <= row[best])
    && (forall i :: 0 <= i < best ==> row[i] < row[best])
  }

  predicate AllFinite(matrix: seq<Score>) { forall i :: 0 <= i < |matrix| ==> matrix[i].Finite? }

  predicate MatrixOk(matrix: seq<Score>, frames: nat, vocabulary: nat) {
    |matrix| == Area(frames, vocabulary) && AllFinite(matrix)
  }

  function Row(matrix: seq<Score>, frames: nat, vocabulary: nat, frame: nat): (row: seq<real>)
    requires MatrixOk(matrix, frames, vocabulary) && frame < frames
    ensures |row| == vocabulary
    ensures forall i: nat :: i < vocabulary ==>
      Cell(frame, i, vocabulary) < |matrix| && row[i] == matrix[Cell(frame, i, vocabulary)].value
  {
    AreaMonotone(frame + 1, vocabulary, frames, vocabulary);
    CellNext(frame, vocabulary);
    seq(vocabulary, i requires 0 <= i < vocabulary =>
      CellInRange(frame, i, frames, vocabulary);
      matrix[Cell(frame, i, vocabulary)].value)
  }

  /** A label that differs from the one before it and is not blank. */
  predicate Head(labels: seq<nat>, blank: nat, f: nat) {
    f < |labels| && labels[f] != blank && (f > 0 ==> labels[f] != labels[f - 1])
  }

  function RunHeads(labels: seq<nat>, blank: nat): seq<Token> {
    if labels == [] then []
    else
      var f := |labels| - 1;
      RunHeads(labels[..f], blank) + if Head(labels, blank, f) then [Token(labels[f], f)] else []
  }

  lemma HeadOfPrefix(labels: seq<nat>, blank: nat, n: nat, f: nat)
    requires f < n <= |labels|
    ensures Head(labels[..n], blank, f) == Head(labels, blank, f) && labels[..n][f] == labels[f]
  {
  }

  predicate OfHead(t: Token, labels: seq<nat>, blank: nat) { Head(labels, blank, t.frame) && t.id == labels[t.frame] }

  predicate InFrameOrder(tokens: seq<Token>) {
    forall i, j :: 0 <= i < j < |tokens| ==> tokens[i].frame < tokens[j].frame
  }

  /** The tokens are exactly the non-blank run heads: strictly increasing frames, one for each head and none else. */
  lemma {:induction false} RunHeadsAreTheHeads(labels: seq<nat>, blank: nat)
    ensures InFrameOrder(RunHeads(labels, blank))
    ensures forall i :: 0 <= i < |RunHeads(labels, blank)| ==> OfHead(RunHeads(labels, blank)[i], labels, blank)
    ensures forall f :: 0 <= f < |labels| && Head(labels, blank, f) ==> Token(labels[f], f) in RunHeads(labels, blank)
  {
    hide Head;
    if labels == [] {
      NoHeads(blank);
    } else {
      var f := |labels| - 1;
      var before, tokens := RunHeads(labels[..f], blank), RunHeads(labels, blank);
      RunHeadsAreTheHeads(labels[..f], blank);
      forall g: nat | g < f ensures Head(labels[..f], blank, g) == Head(labels, blank, g)
        && labels[..f][g] == labels[g] {
        HeadOfPrefix(labels, blank, f, g);
      }
      forall i | 0 <= i < |before| ensures before[i].frame < f && OfHead(before[i], labels, blank) {
        HeadInside(labels[..f], blank, before[i].frame);
      }
      forall g | 0 <= g < |labels| && Head(labels, blank, g) ensures Token(labels[g], g) in tokens {
        assert g < f ==> Token(labels[g], g) in before;
        assert g == f ==> tokens[|before|] == Token(labels[g], g);
      }
    }
  }

  lemma HeadInside(labels: seq<nat>, blank: nat, f: nat)
    requires Head(labels, blank, f)
    ensures f < |labels| && labels[f] != blank
  {
  }

  lemma NoHeads(blank: nat)
    ensures forall f: nat :: !Head([], blank, f)
  {
  }

  /** Blank, or the standalone boundary token. */
  predicate Silent(best: nat, blank: nat, space: Option<nat>) { best == blank || space == Some(best) }

  predicate GreedyOk(vocabulary: nat, blank: nat, space: Option<nat>, frames: nat, matrix: seq<Score>) {
    && vocabulary > 0 && vocabulary > blank
    && (space.Some? ==> space.value < vocabulary)
    && MatrixOk(matrix, frames, vocabulary)
  }

  datatype Greedy = Greedy(tokens: seq<Token>, silence: seq<bool>, labels: seq<nat>)

  predicate GreedyIs(g: Greedy, matrix: seq<Score>, frames: nat, vocabulary: nat, blank: nat, space: Option<nat>)
    requires MatrixOk(matrix, frames, vocabulary)
  {
    && |g.labels| == |g.silence| == frames
    && (forall f :: 0 <= f < frames ==> FirstMax(Row(matrix, frames, vocabulary, f), g.labels[f]))
    && (forall f :: 0 <= f < frames ==> g.silence[f] == Silent(g.labels[f], blank, space))
    && g.tokens == RunHeads(g.labels, blank)
  }

  /** In the row-major matrix entry `k` of frame `f` does not exceed entry `best`, nor reach it from before. */
  predicate Beats(matrix: seq<Score>, vocabulary: nat, f: nat, best: nat, k: nat) {
    && best < vocabulary && Cell(f, k, vocabulary) < |matrix| && Cell(f, best, vocabulary) < |matrix|
    && var score, top := matrix[Cell(f, k, vocabulary)], matrix[Cell(f, best, vocabulary)];
       score.Finite? && top.Finite? && if k < best then score.value < top.value else score.value <= top.value
  }

  /** Every label is the first best entry of its frame. */
  ghost predicate LabelsAreBest(matrix: seq<Score>, vocabulary: nat, labels: seq<nat>) {
    forall f: nat, k: nat :: f < |labels| && k < vocabulary ==> Beats(matrix, vocabulary, f, labels[f], k)
  }

  lemma FirstMaxBeats(matrix: seq<Score>, frames: nat, vocabulary: nat, f: nat, best: nat, k: nat)
    requires MatrixOk(matrix, frames, vocabulary) && f < frames && k < vocabulary
    requires FirstMax(Row(matrix, frames, vocabulary, f), best)
    ensures Beats(matrix, vocabulary, f, best, k)
  {
    hide Cell, Area, Row;
    var row := Row(matrix, frames, vocabulary, f);
    assert row[k] == matrix[Cell(f, k, vocabulary)].value && row[best] == matrix[Cell(f, best, vocabulary)].value;
    assert matrix[Cell(f, k, vocabulary)].Finite? && matrix[Cell(f, best, vocabulary)].Finite?;
    assert row[k] <= row[best] && (k < best ==> row[k] < row[best]);
  }

  lemma FirstMaxIsBest(matrix: seq<Score>, frames: nat, vocabulary: nat, labels: seq<nat>)
    requires MatrixOk(matrix, frames, vocabulary) && |labels| == frames
    requires forall f :: 0 <= f < frames ==> FirstMax(Row(matrix, frames, vocabulary, f), labels[f])
    ensures LabelsAreBest(matrix, vocabulary, labels)
  {
    hide MatrixOk, Row, FirstMax, Beats;
    forall f: nat, k: nat | f < frames && k < vocabulary
      ensures Beats(matrix, vocabulary, f, labels[f], k)
    {
      FirstMaxInside(Row(matrix, frames, vocabulary, f), labels[f]);
      FirstMaxBeats(matrix, frames, vocabulary, f, labels[f], k);
    }
  }

  method ValidateGreedyInput(matrix: seq<Score>, frames: nat, vocabulary: nat, blank: nat, space: Option<nat>)
    returns (r: Result<(), CtcError>)
    ensures r.Ok? <==> GreedyOk(vocabulary, blank, space, frames, matrix)
  {
    if vocabulary == 0 { return Err(NoVocabulary); }
    if blank >= vocabulary { return Err(BlankOutside); }
    if space.Some? && space.value >= vocabulary { return Err(SpaceOutside); }
    if |matrix| != Area(frames, vocabulary) { return Err(MatrixSize); }
    for i := 0 to |matrix|
      invariant forall k :: 0 <= k < i ==> matrix[k].Finite?
    {
      if !matrix[i].Finite? { return Err(NotFinite); }
    }
    r := Ok(());
  }

  method FirstArgmax(row: seq<real>) returns (best: nat)
    requires row != []
    ensures FirstMax(row, best)
  {
    best := 0;
    for index := 0 to |row|
      invariant best <= index && best < |row|
      invariant forall i :: 0 <= i < index ==> row[i] <= row[best]
      invariant forall i :: 0 <= i < best ==> row[i] < row[best]
    {
      if row[index] > row[best] { best := index; }
    }
  }

  /** The label before the first frame is one larger than any index a vocabulary has. */
  method GreedyMasked(matrix: seq<Score>, frames: nat, vocabulary: nat, blank: nat, space: Option<nat>)
    returns (r: Result<Greedy, CtcError>)
    requires vocabulary <= USIZE_MAX
    ensures r.Ok? <==> GreedyOk(vocabulary, blank, space, frames, matrix)
    ensures r.Ok? ==> GreedyIs(r.value, matrix, frames, vocabulary, blank, space)
    ensures r.Ok? ==> LabelsAreBest(matrix, vocabulary, r.value.labels)
  {
    hide LabelsAreBest, FirstMax, Row, Area, MatrixOk, RunHeads, Silent;
    var valid := ValidateGreedyInput(matrix, frames, vocabulary, blank, space);
    if valid.Err? { return Err(valid.error); }
    var out: seq<Token>, silence: seq<bool>, labels: seq<nat>, previous := [], [], [], USIZE_MAX;
    NoRuns(blank);
    for frame := 0 to frames
      invariant |labels| == |silence| == frame
      invariant previous == if frame == 0 then USIZE_MAX else labels[frame - 1]
      invariant forall f :: 0 <= f < frame ==> FirstMax(Row(matrix, frames, vocabulary, f), labels[f])
      invariant forall f :: 0 <= f < frame ==> silence[f] == Silent(labels[f], blank, space)
      invariant out == RunHeads(labels, blank)
    {
      var best := FirstArgmax(Row(matrix, frames, vocabulary, frame));
      FirstMaxInside(Row(matrix, frames, vocabulary, frame), best);
      IsSilent(best, blank, space);
      RunHeadsStep(labels, best, blank);
      silence := silence + [best == blank || space == Some(best)];
      if best != blank && best != previous {
        out := out + [Token(best, frame)];
      }
      labels := labels + [best];
      previous := best;
    }
    FirstMaxIsBest(matrix, frames, vocabulary, labels);
    r := Ok(Greedy(out, silence, labels));
  }

  lemma NoRuns(blank: nat)
    ensures RunHeads([], blank) == []
  {
  }

  lemma RunHeadsStep(labels: seq<nat>, best: nat, blank: nat)
    ensures RunHeads(labels + [best], blank) == RunHeads(labels, blank) +
      if best != blank && (labels == [] || best != labels[|labels| - 1]) then [Token(best, |labels|)] else []
  {
    assert (labels + [best])[..|labels|] == labels;
  }

  lemma IsSilent(best: nat, blank: nat, space: Option<nat>)
    ensures Silent(best, blank, space) == (best == blank || space == Some(best))
  {
  }

  lemma FirstMaxInside(row: seq<real>, best: nat)
    requires FirstMax(row, best)
    ensures best < |row|
  {
  }

  // ---- The decoder ------------------------------------------------------------------

  datatype Decoder = Decoder(vocabulary: seq<string>, blank: nat, space: Option<nat>, rate: real)

  /** The first standalone boundary token. */
  predicate IsSpace(vocabulary: seq<string>, space: Option<nat>) {
    match space
    case None => [BOUNDARY] !in vocabulary
    case Some(i) => i < |vocabulary| && vocabulary[i] == [BOUNDARY] && [BOUNDARY] !in vocabulary[..i]
  }

  ghost predicate ValidDecoder(d: Decoder) {
    |d.vocabulary| >= d.blank && IsSpace(d.vocabulary, d.space) && d.rate > 0.0 && d.blank < USIZE_MAX
  }

  method NewDecoder(outDim: nat, vocabulary: seq<string>, blank: nat, rate: real) returns (r: Result<Decoder, CtcError>)
    requires outDim <= USIZE_MAX && rate > 0.0
    ensures r.Ok? <==> outDim == blank + 1 && |vocabulary| >= blank
    ensures r.Ok? ==>
      ValidDecoder(r.value) && r.value.vocabulary == vocabulary && r.value.blank == blank && r.value.rate == rate
  {
    if outDim != blank + 1 || |vocabulary| < blank { return Err(Construction); }
    var space: Option<nat> := None;
    for i := 0 to |vocabulary|
      invariant space == None && [BOUNDARY] !in vocabulary[..i]
    {
      if vocabulary[i] == [BOUNDARY] {
        return Ok(Decoder(vocabulary, blank, Some(i), rate));
      }
      assert vocabulary[..i + 1] == vocabulary[..i] + [vocabulary[i]];
    }
    assert vocabulary[..|vocabulary|] == vocabulary;
    r := Ok(Decoder(vocabulary, blank, space, rate));
  }

  lemma GreedyTokensFit(matrix: seq<Score>, frames: nat, vocabulary: nat, blank: nat, space: Option<nat>, g: Greedy)
    requires GreedyOk(vocabulary, blank, space, frames, matrix) && GreedyIs(g, matrix, frames, vocabulary, blank, space)
    requires vocabulary == blank + 1
    ensures forall i :: 0 <= i < |g.tokens| ==> g.tokens[i].id < blank
    ensures TokensInside(g.tokens, frames) && FramesOrdered(g.tokens)
  {
    hide RunHeads, Area, MatrixOk;
    RunHeadsAreTheHeads(g.labels, blank);
    forall i | 0 <= i < |g.tokens| ensures g.tokens[i].id < blank && g.tokens[i].frame < frames {
      assert OfHead(g.tokens[i], g.labels, blank);
      assert FirstMax(Row(matrix, frames, vocabulary, g.tokens[i].frame), g.labels[g.tokens[i].frame]);
    }
  }

  /** Everything the decoder promises about an accepted window. */
  ghost predicate DecodedIs(d: Decoder, matrix: seq<Score>, frames: nat, decoded: Decoded)
    requires ValidDecoder(d) && MatrixOk(matrix, frames, d.blank + 1)
  {
    && decoded.outputFrames == frames && decoded.labels.Some? && decoded.tokens.Some? && decoded.wordSpans.Some?
    && var tokens := decoded.tokens.value;
       && GreedyIs(Greedy(tokens, decoded.silence, decoded.labels.value), matrix, frames, d.blank + 1, d.blank, d.space)
       && KnownIds(tokens, d.vocabulary)
       && var pieces := Pieces(tokens, d.vocabulary);
          && decoded.wordSpans.value == Spans(pieces) && SpansInside(Spans(pieces), |tokens|)
          && |decoded.words| == |Spans(pieces)| == |Texts(pieces)|
          && forall k :: 0 <= k < |decoded.words| ==>
               IsWordOf(decoded.words[k], Texts(pieces)[k], tokens[Spans(pieces)[k].0], tokens[Spans(pieces)[k].1],
                        d.rate)
  }

  /** No validator further down ever refuses what the greedy step produced: a window is accepted exactly when the
      encoder's matrix is well formed and the space token lies inside the encoder's output dimension. */
  method DecodeWindow(d: Decoder, matrix: seq<Score>, frames: nat, encoderSeconds: real)
    returns (r: Result<Decoded, CtcError>)
    requires ValidDecoder(d) && encoderSeconds >= 0.0
    ensures r.Ok? <==> MatrixOk(matrix, frames, d.blank + 1) && (d.space.Some? ==> d.space.value <= d.blank)
    ensures r.Ok? ==> DecodedIs(d, matrix, frames, r.value)
  {
    hide GreedyIs, Spans, Texts, IsSpace, MatrixOk, SpansOrdered, IsWordOf;
    var greedy := GreedyMasked(matrix, frames, d.blank + 1, d.blank, d.space);
    if greedy.Err? { return Err(greedy.error); }
    var g := greedy.value;
    GreedyTokensFit(matrix, frames, d.blank + 1, d.blank, d.space, g);
    SpansAreWords(Pieces(g.tokens, d.vocabulary));
    GreedyLengths(g, matrix, frames, d.blank + 1, d.blank, d.space);
    var spans := WordTokenSpans(g.tokens, d.vocabulary);
    var words := TokensToWords(g.tokens, d.vocabulary, d.rate);
    var decoded :=
      Assemble(words.value, g.silence, frames, encoderSeconds, Some(g.labels), Some(g.tokens), Some(spans));
    r := Ok(decoded.value);
  }

  lemma GreedyLengths(g: Greedy, matrix: seq<Score>, frames: nat, vocabulary: nat, blank: nat, space: Option<nat>)
    requires MatrixOk(matrix, frames, vocabulary) && GreedyIs(g, matrix, frames, vocabulary, blank, space)
    ensures |g.silence| == |g.labels| == frames
  {
  }

  /** The condition on the space token is not implied by construction: a vocabulary longer than the output
      dimension is accepted, and then every window is refused, whatever the encoder answers. */
  method ConstructionAllowsUnusableSpace(matrix: seq<Score>, frames: nat, encoderSeconds: real)
    returns (d: Result<Decoder, CtcError>, r: Result<Decoded, CtcError>)
    requires encoderSeconds >= 0.0
    ensures d.Ok? && d.value.vocabulary == ["a", [BOUNDARY]] && d.value.blank == 0 && r.Err?
  {
    var vocabulary := ["a", [BOUNDARY]];
    d := NewDecoder(1, vocabulary, 0, 1.0);
    SecondIsSpace(d.value.space);
    r := DecodeWindow(d.value, matrix, frames, encoderSeconds);
  }

  lemma SecondIsSpace(space: Option<nat>)
    requires IsSpace(["a", [BOUNDARY]], space)
    ensures space == Some(1)
  {
    assert ["a", [BOUNDARY]][1] == [BOUNDARY];
    assert "a"[0] != BOUNDARY;
  }
}
