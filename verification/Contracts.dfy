/** The recognition contracts every decoder result has to satisfy. */
module Contracts {
  import opened Results

  datatype Token = Token(id: nat, frame: nat)

  datatype Word = Word(text: string, start: real, end: real)

  type Span = (nat, nat)

  datatype Decoded = Decoded(
    words: seq<Word>, silence: seq<bool>, outputFrames: nat, encoderSeconds: real,
    labels: Option<seq<nat>>, tokens: Option<seq<Token>>, wordSpans: Option<seq<Span>>)

  datatype ContractError = EmptyText | BadTimestamps | SilenceLength | BadDuration | LabelLength
                         | TokenFrame | SpansNotOrdered | SpanOutside

  /** The characters a text is trimmed of. */
  predicate Whitespace(c: char) {
    || '\U{0009}' <= c <= '\U{000D}' || c == ' ' || c == '\U{0085}' || c == '\U{00A0}' || c == '\U{1680}'
    || '\U{2000}' <= c <= '\U{200A}' || c == '\U{2028}' || c == '\U{2029}' || c == '\U{202F}' || c == '\U{205F}'
    || c == '\U{3000}'
  }

  predicate Blank(text: string) { forall i :: 0 <= i < |text| ==> Whitespace(text[i]) }

  function NewWord(text: string, start: real, end: real): Result<Word, ContractError> {
    if Blank(text) then Err(EmptyText)
    else if start < 0.0 || end < start then Err(BadTimestamps)
    else Ok(Word(text, start, end))
  }

  predicate TokensInside(tokens: seq<Token>, outputFrames: nat) {
    forall i :: 0 <= i < |tokens| ==> tokens[i].frame < outputFrames
  }

  predicate SpansOrdered(spans: seq<Span>) {
    forall k :: 0 <= k < |spans| - 1 ==> spans[k].1 < spans[k + 1].0
  }

  predicate SpansInside(spans: seq<Span>, tokens: nat) {
    forall k :: 0 <= k < |spans| ==> spans[k].0 <= spans[k].1 < tokens
  }

  /** The validator, in the order it checks. */
  function Assemble(words: seq<Word>, silence: seq<bool>, outputFrames: nat, encoderSeconds: real,
                    labels: Option<seq<nat>>, tokens: Option<seq<Token>>, wordSpans: Option<seq<Span>>):
    Result<Decoded, ContractError>
  {
    if |silence| != outputFrames then Err(SilenceLength)
    else if encoderSeconds < 0.0 then Err(BadDuration)
    else if labels.Some? && |labels.value| != outputFrames then Err(LabelLength)
    else if tokens.Some? && !TokensInside(tokens.value, outputFrames) then Err(TokenFrame)
    else if wordSpans.Some? && !SpansOrdered(wordSpans.value) then Err(SpansNotOrdered)
    else if wordSpans.Some? && !SpansInside(wordSpans.value, if tokens.Some? then |tokens.value| else 0)
      then Err(SpanOutside)
    else Ok(Decoded(words, silence, outputFrames, encoderSeconds, labels, tokens, wordSpans))
  }

  lemma {:induction false} OrderedPairwise(spans: seq<Span>, tokens: nat, a: nat, b: nat)
    requires SpansOrdered(spans) && SpansInside(spans, tokens) && a < b < |spans|
    ensures spans[a].1 < spans[b].0
    decreases b
  {
    if a < b - 1 {
      OrderedPairwise(spans, tokens, a, b - 1);
      assert spans[b - 1].0 <= spans[b - 1].1;
    }
    assert spans[b - 1].1 < spans[b - 1 + 1].0;
  }

  /** A window is accepted exactly when its masks and labels have one entry for each frame, its tokens lie in its
      frames, and its spans lie in its tokens, each before every later one. */
  lemma AssembleAccepts(words: seq<Word>, silence: seq<bool>, outputFrames: nat, encoderSeconds: real,
                        labels: Option<seq<nat>>, tokens: Option<seq<Token>>, wordSpans: Option<seq<Span>>)
    ensures var r := Assemble(words, silence, outputFrames, encoderSeconds, labels, tokens, wordSpans);
      var count := if tokens.Some? then |tokens.value| else 0;
      r.Ok? <==>
        && encoderSeconds >= 0.0 && |silence| == outputFrames && (labels.Some? ==> |labels.value| == outputFrames)
        && (tokens.Some? ==> forall i :: 0 <= i < |tokens.value| ==> tokens.value[i].frame < outputFrames)
        && (wordSpans.Some? ==>
              && (forall k :: 0 <= k < |wordSpans.value| ==> wordSpans.value[k].0 <= wordSpans.value[k].1 < count)
              && forall a, b :: 0 <= a < b < |wordSpans.value| ==> wordSpans.value[a].1 < wordSpans.value[b].0)
  {
    if wordSpans.Some? {
      var spans, count := wordSpans.value, if tokens.Some? then |tokens.value| else 0;
      if SpansOrdered(spans) && SpansInside(spans, count) {
        forall a, b | 0 <= a < b < |spans| ensures spans[a].1 < spans[b].0 {
          OrderedPairwise(spans, count, a, b);
        }
      }
    }
  }
}
