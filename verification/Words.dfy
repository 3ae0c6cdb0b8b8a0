/** Grouping recognized tokens into words. */
module Words {
  import opened Contracts
  import opened Results

  const BOUNDARY := '\U{2581}'

  predicate Starts(piece: string) { piece != "" && piece[0] == BOUNDARY }

  function Strip(piece: string): (r: string)
    ensures !Starts(r)
  {
    if Starts(piece) then Strip(piece[1..]) else piece
  }

  /** The text a run of pieces contributes to a word. */
  function Between(pieces: seq<string>, first: nat, end: nat): string
    requires first <= end <= |pieces|
  {
    if first == end then "" else Between(pieces, first, end - 1) + Strip(pieces[end - 1])
  }

  // ---- The grouping loop as a fold ---------------------------------------------------

  datatype Grouping = Grouping(spans: seq<Span>, texts: seq<string>, current: string, first: nat, last: nat)

  function Flush(g: Grouping): Grouping {
    if Blank(g.current) then g.(current := "")
    else g.(spans := g.spans + [(g.first, g.last)], texts := g.texts + [g.current], current := "")
  }

  function Take(g: Grouping, piece: string, index: nat): Grouping {
    var flushed := if Starts(piece) && g.current != "" then Flush(g) else g;
    flushed.(first := if flushed.current == "" then index else flushed.first, last := index,
             current := flushed.current + Strip(piece))
  }

  function Grouped(pieces: seq<string>, n: nat): Grouping
    requires n <= |pieces|
  {
    if n == 0 then Grouping([], [], "", 0, 0) else Take(Grouped(pieces, n - 1), pieces[n - 1], n - 1)
  }

  function Spans(pieces: seq<string>): seq<Span> { Flush(Grouped(pieces, |pieces|)).spans }
  function Texts(pieces: seq<string>): seq<string> { Flush(Grouped(pieces, |pieces|)).texts }

  // ---- What the spans are ------------------------------------------------------------

  /** One word's tokens: the first contributes text, none of the others starts a word. */
  predicate SpanOk(pieces: seq<string>, span: Span, text: string) {
    && span.0 <= span.1 < |pieces|
    && Strip(pieces[span.0]) != ""
    && (forall i :: span.0 < i <= span.1 ==> !Starts(pieces[i]))
    && text == Between(pieces, span.0, span.1 + 1)
  }

  predicate Listed(pieces: seq<string>, spans: seq<Span>, texts: seq<string>, n: nat) {
    && |texts| == |spans|
    && SpansOrdered(spans)
    && forall k :: 0 <= k < |spans| ==> SpanOk(pieces, spans[k], texts[k]) && !Blank(texts[k]) && spans[k].1 < n
  }

  predicate Covered(spans: seq<Span>, i: nat) { exists k :: 0 <= k < |spans| && spans[k].0 <= i <= spans[k].1 }

  /** Every token with visible text is in some word. */
  ghost predicate Complete(pieces: seq<string>, n: nat, g: Grouping)
    requires n <= |pieces|
  {
    forall i :: 0 <= i < n && !Blank(Strip(pieces[i])) ==>
      Covered(g.spans, i) || (g.current != "" && g.first <= i <= g.last)
  }

  ghost predicate GroupingOk(pieces: seq<string>, n: nat, g: Grouping)
    requires n <= |pieces|
  {
    && Listed(pieces, g.spans, g.texts, n)
    && (g.current != "" ==>
          && SpanOk(pieces, (g.first, g.last), g.current) && g.last == n - 1
          && (g.spans != [] ==> g.spans[|g.spans| - 1].1 < g.first))
    && Complete(pieces, n, g)
  }

  lemma ListedAppend(pieces: seq<string>, spans: seq<Span>, texts: seq<string>, n: nat, span: Span, text: string)
    requires Listed(pieces, spans, texts, n) && SpanOk(pieces, span, text) && !Blank(text) && span.1 < n
    requires spans != [] ==> spans[|spans| - 1].1 < span.0
    ensures Listed(pieces, spans + [span], texts + [text], n)
  {
    hide SpanOk, Blank;
  }

  lemma CoveredAppend(spans: seq<Span>, span: Span, i: nat)
    ensures Covered(spans + [span], i) <==> Covered(spans, i) || span.0 <= i <= span.1
  {
    var more := spans + [span];
    if Covered(spans, i) {
      var k :| 0 <= k < |spans| && spans[k].0 <= i <= spans[k].1;
      assert more[k] == spans[k];
    }
    assert more[|spans|] == span;
  }

  lemma {:induction false} PartOfBlank(pieces: seq<string>, first: nat, end: nat, i: nat)
    requires first <= i < end <= |pieces| && Blank(Between(pieces, first, end))
    ensures Blank(Strip(pieces[i]))
  {
    var before, last := Between(pieces, first, end - 1), Strip(pieces[end - 1]);
    assert forall k :: 0 <= k < |before| ==> (before + last)[k] == before[k];
    assert forall k :: 0 <= k < |last| ==> (before + last)[|before| + k] == last[k];
    if i < end - 1 {
      PartOfBlank(pieces, first, end - 1, i);
    }
  }

  lemma FlushOk(pieces: seq<string>, n: nat, g: Grouping)
    requires n <= |pieces| && GroupingOk(pieces, n, g)
    ensures GroupingOk(pieces, n, Flush(g)) && Flush(g).current == ""
  {
    hide Listed, Covered, Blank;
    var flushed := Flush(g);
    if Blank(g.current) {
      forall i | 0 <= i < n && !Blank(Strip(pieces[i])) ensures Covered(flushed.spans, i) {
        if g.current != "" && g.first <= i <= g.last {
          PartOfBlank(pieces, g.first, g.last + 1, i);
        }
      }
    } else {
      BlankEmpty();
      ListedAppend(pieces, g.spans, g.texts, n, (g.first, g.last), g.current);
      forall i | 0 <= i < n && !Blank(Strip(pieces[i])) ensures Covered(flushed.spans, i) {
        CoveredAppend(g.spans, (g.first, g.last), i);
      }
    }
  }

  lemma BlankEmpty()
    ensures Blank("")
  {
  }

  lemma ListedGrows(pieces: seq<string>, spans: seq<Span>, texts: seq<string>, n: nat)
    requires Listed(pieces, spans, texts, n)
    ensures Listed(pieces, spans, texts, n + 1)
    ensures spans != [] ==> spans[|spans| - 1].1 < n
  {
  }

  /** Adding one token to the current word. */
  lemma SpanExtends(pieces: seq<string>, n: nat, first: nat, current: string)
    requires n < |pieces|
    requires current == "" ==> first == n
    requires current != "" ==> n > 0 && SpanOk(pieces, (first, n - 1), current) && !Starts(pieces[n])
    ensures current + Strip(pieces[n]) != "" ==> SpanOk(pieces, (first, n), current + Strip(pieces[n]))
  {
    assert Between(pieces, n, n + 1) == Between(pieces, n, n) + Strip(pieces[n]) == Strip(pieces[n]);
  }

  lemma TakeCompletes(pieces: seq<string>, n: nat, flushed: Grouping, taken: Grouping)
    requires n < |pieces| && Complete(pieces, n, flushed)
    requires flushed.current != "" ==> flushed.first <= n
    requires taken.spans == flushed.spans && taken.current == flushed.current + Strip(pieces[n]) && taken.last == n
    requires taken.first == if flushed.current == "" then n else flushed.first
    requires flushed.current != "" ==> flushed.last < n
    ensures Complete(pieces, n + 1, taken)
  {
    hide Covered;
    BlankEmpty();
  }

  lemma TakeOk(pieces: seq<string>, n: nat, g: Grouping)
    requires n < |pieces| && GroupingOk(pieces, n, g)
    ensures GroupingOk(pieces, n + 1, Take(g, pieces[n], n))
  {
    hide Listed, Covered, SpanOk, Flush, Starts, Strip;
    var flushed := if Starts(pieces[n]) && g.current != "" then Flush(g) else g;
    FlushOk(pieces, n, g);
    assert GroupingOk(pieces, n, flushed);
    ListedGrows(pieces, flushed.spans, flushed.texts, n);
    var first := if flushed.current == "" then n else flushed.first;
    SpanExtends(pieces, n, first, flushed.current);
    BlankEmpty();
    TakeCompletes(pieces, n, flushed, Take(g, pieces[n], n));
  }

  lemma {:induction false} GroupedOk(pieces: seq<string>, n: nat)
    requires n <= |pieces|
    ensures GroupingOk(pieces, n, Grouped(pieces, n))
  {
    hide GroupingOk, Take;
    if n > 0 {
      GroupedOk(pieces, n - 1);
      TakeOk(pieces, n - 1, Grouped(pieces, n - 1));
    } else {
      NothingGrouped(pieces);
    }
  }

  lemma NothingGrouped(pieces: seq<string>)
    ensures GroupingOk(pieces, 0, Grouped(pieces, 0))
  {
  }

  /** The spans are ordered, disjoint and in range, each is one word with visible text, and together they
      contain every token with visible text. */
  lemma SpansAreWords(pieces: seq<string>)
    ensures SpansOrdered(Spans(pieces)) && SpansInside(Spans(pieces), |pieces|)
    ensures |Texts(pieces)| == |Spans(pieces)|
    ensures forall k :: 0 <= k < |Spans(pieces)| ==>
      SpanOk(pieces, Spans(pieces)[k], Texts(pieces)[k]) && !Blank(Texts(pieces)[k])
    ensures forall i :: 0 <= i < |pieces| && !Blank(Strip(pieces[i])) ==> Covered(Spans(pieces), i)
  {
    hide Grouped, Covered, Blank;
    GroupedOk(pieces, |pieces|);
    FlushOk(pieces, |pieces|, Grouped(pieces, |pieces|));
  }

  // ---- The operations ---------------------------------------------------------------

  predicate KnownIds(tokens: seq<Token>, vocabulary: seq<string>) {
    forall i :: 0 <= i < |tokens| ==> tokens[i].id < |vocabulary|
  }

  function Pieces(tokens: seq<Token>, vocabulary: seq<string>): (r: seq<string>)
    requires KnownIds(tokens, vocabulary)
    ensures |r| == |tokens| && forall i :: 0 <= i < |r| ==> r[i] == vocabulary[tokens[i].id]
  {
    seq(|tokens|, i requires 0 <= i < |tokens| => vocabulary[tokens[i].id])
  }

  method WordTokenSpans(tokens: seq<Token>, vocabulary: seq<string>) returns (spans: seq<Span>)
    requires KnownIds(tokens, vocabulary)
    ensures spans == Spans(Pieces(tokens, vocabulary))
  {
    hide Strip, Blank;
    ghost var pieces := Pieces(tokens, vocabulary);
    spans := [];
    var current, first, last := "", 0, 0;
    for index := 0 to |tokens|
      invariant var g := Grouped(pieces, index);
        spans == g.spans && current == g.current && first == g.first && last == g.last
    {
      var piece := vocabulary[tokens[index].id];
      if Starts(piece) && current != "" {
        var text := current;
        current := "";
        if !Blank(text) {
          spans := spans + [(first, last)];
        }
      }
      if current == "" {
        first := index;
      }
      last := index;
      current := current + Strip(piece);
    }
    BlankEmpty();
    if current != "" && !Blank(current) {
      spans := spans + [(first, last)];
    }
  }

  /** The word a span of tokens becomes. */
  predicate IsWordOf(word: Word, text: string, first: Token, last: Token, rate: real)
    requires rate > 0.0
  {
    word.text == text && word.start == first.frame as real / rate && word.end == (last.frame + 1) as real / rate
  }

  predicate FramesOrdered(tokens: seq<Token>) {
    forall i, j :: 0 <= i <= j < |tokens| ==> tokens[i].frame <= tokens[j].frame
  }

  lemma TimesOrdered(first: nat, last: nat, rate: real)
    requires rate > 0.0 && first <= last
    ensures 0.0 <= first as real / rate <= (last + 1) as real / rate
  {
    var a, b := first as real / rate, (last + 1) as real / rate;
    assert a * rate == first as real && b * rate == (last + 1) as real;
  }

  /** A word lasts from its first frame to the end of its last: one frame is one period of the rate, frame zero starts
      at zero, and a word that begins in the frame after another begins where that one ends. */
  lemma WordTimes(a: Word, b: Word, text: string, other: string, first: Token, last: Token, from: Token, to: Token,
                  rate: real)
    requires rate > 0.0 && IsWordOf(a, text, first, last, rate) && IsWordOf(b, other, from, to, rate)
    ensures first.frame == 0 ==> a.start == 0.0
    ensures first.frame == last.frame ==> a.end - a.start == 1.0 / rate
    ensures from.frame == last.frame + 1 ==> b.start == a.end
    ensures last.frame < from.frame ==> a.end <= b.start
  {
    Quotient(0.0, rate);
    Quotient(first.frame as real, rate);
    Quotient((last.frame + 1) as real, rate);
    Quotient(from.frame as real, rate);
    var x, y, z := first.frame as real / rate, (last.frame + 1) as real / rate, from.frame as real / rate;
    QuotientsDiffer(y, x, rate);
    QuotientsOrder(y, z, rate);
    if last.frame < from.frame {
      assert y * rate == (last.frame + 1) as real <= from.frame as real == z * rate;
    }
  }

  lemma Quotient(n: real, rate: real)
    requires rate > 0.0
    ensures n / rate * rate == n && (n == 0.0 ==> n / rate == 0.0)
  {
  }

  lemma QuotientsDiffer(y: real, x: real, rate: real)
    requires rate > 0.0
    ensures y * rate - x * rate == 1.0 ==> y - x == 1.0 / rate
  {
    if y * rate - x * rate == 1.0 {
      assert (y - x) * rate == 1.0;
    }
  }

  lemma QuotientsOrder(y: real, z: real, rate: real)
    requires rate > 0.0
    ensures y * rate <= z * rate ==> y <= z
  {
    assert y > z ==> (y - z) * rate > 0.0;
  }

  /** Tokens whose frames do not go back always become words, one for each span and with its text. */
  method TokensToWords(tokens: seq<Token>, vocabulary: seq<string>, rate: real)
    returns (r: Result<seq<Word>, ContractError>)
    requires KnownIds(tokens, vocabulary) && rate > 0.0
    ensures FramesOrdered(tokens) ==> r.Ok?
    ensures var pieces := Pieces(tokens, vocabulary);
      r.Ok? ==>
        && |r.value| == |Spans(pieces)| == |Texts(pieces)|
        && SpansInside(Spans(pieces), |tokens|)
        && forall k :: 0 <= k < |r.value| ==>
             IsWordOf(r.value[k], Texts(pieces)[k], tokens[Spans(pieces)[k].0], tokens[Spans(pieces)[k].1], rate)
  {
    hide Spans, Texts, Strip, Blank, Starts, SpansOrdered, Covered;
    ghost var pieces := Pieces(tokens, vocabulary);
    SpansAreWords(pieces);
    var spans := WordTokenSpans(tokens, vocabulary);
    var words := [];
    for k := 0 to |spans|
      invariant |words| == k
      invariant forall l :: 0 <= l < k ==>
        IsWordOf(words[l], Texts(pieces)[l], tokens[spans[l].0], tokens[spans[l].1], rate)
    {
      assert SpanOk(pieces, spans[k], Texts(pieces)[k]) && !Blank(Texts(pieces)[k]);
      var (first, last) := spans[k];
      var text := "";
      for i := first to last + 1
        invariant text == Between(pieces, first, i)
      {
        text := text + Strip(vocabulary[tokens[i].id]);
      }
      if tokens[first].frame <= tokens[last].frame {
        TimesOrdered(tokens[first].frame, tokens[last].frame, rate);
      }
      var word := NewWord(text, tokens[first].frame as real / rate, (tokens[last].frame + 1) as real / rate);
      if word.Err? {
        return Err(word.error);
      }
      words := words + [word.value];
    }
    r := Ok(words);
  }
}
