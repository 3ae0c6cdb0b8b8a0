/** The two text projections of a token sequence: the rendered text, and the texts of its words. */
module WordTexts {
  import opened Contracts
  import opened Words

  // ---- The rendered text -------------------------------------------------------------

  function Joined(pieces: seq<string>): string {
    if pieces == [] then "" else Joined(pieces[..|pieces| - 1]) + pieces[|pieces| - 1]
  }

  function Spaced(text: string): (r: string)
    ensures |r| == |text| && forall i :: 0 <= i < |r| ==> r[i] == if text[i] == BOUNDARY then ' ' else text[i]
  {
    seq(|text|, i requires 0 <= i < |text| => if text[i] == BOUNDARY then ' ' else text[i])
  }

  function TrimStart(text: string): string {
    if text != "" && Whitespace(text[0]) then TrimStart(text[1..]) else text
  }

  function TokensToText(pieces: seq<string>): string { TrimStart(Spaced(Joined(pieces))) }

  method RenderTokens(tokens: seq<Token>, vocabulary: seq<string>) returns (text: string)
    requires KnownIds(tokens, vocabulary)
    ensures text == TokensToText(Pieces(tokens, vocabulary))
  {
    ghost var pieces := Pieces(tokens, vocabulary);
    text := "";
    for i := 0 to |tokens|
      invariant text == Joined(pieces[..i])
    {
      assert pieces[..i + 1][..i] == pieces[..i];
      text := text + vocabulary[tokens[i].id];
    }
    assert pieces[..|tokens|] == pieces;
    text := TrimStart(Spaced(text));
  }

  // ---- Its space-separated words -----------------------------------------------------

  /** Texts already ended, and `current`, the one still open. */
  datatype Fields = Fields(done: seq<string>, current: string)

  const NOTHING := Fields([], "")

  function Close(f: Fields): Fields { if f.current == "" then f else Fields(f.done + [f.current], "") }

  /** Going on splitting at the spaces. */
  function Continue(f: Fields, text: string): Fields {
    if text == "" then f
    else
      var before, c := Continue(f, text[..|text| - 1]), text[|text| - 1];
      if c == ' ' then Close(before) else before.(current := before.current + [c])
  }

  function Split(text: string): Fields { Continue(NOTHING, text) }
  function SpaceSeparated(text: string): seq<string> { Close(Split(text)).done }

  lemma {:induction false} ContinueJoins(f: Fields, a: string, b: string)
    ensures Continue(f, a + b) == Continue(Continue(f, a), b)
  {
    if b == "" {
      assert a + b == a;
    } else {
      ContinueJoins(f, a, b[..|b| - 1]);
      assert (a + b)[..|a + b| - 1] == a + b[..|b| - 1];
    }
  }

  lemma {:induction false} ContinueAfter(done: seq<string>, text: string)
    ensures Continue(Fields(done, ""), text) == Fields(done + Split(text).done, Split(text).current)
  {
    if text != "" {
      ContinueAfter(done, text[..|text| - 1]);
    }
  }

  lemma {:induction false} SplitWord(text: string)
    requires ' ' !in text
    ensures Split(text) == Fields([], text)
  {
    if text != "" {
      var n := |text| - 1;
      SplitWord(text[..n]);
      assert text == text[..n] + [text[n]];
    }
  }

  /** Every letter of a field is a letter of the text other than the space. */
  lemma {:induction false} FieldsAreText(text: string, c: char)
    ensures c in Split(text).current ==> c in text && c != ' '
    ensures forall k :: 0 <= k < |Split(text).done| && c in Split(text).done[k] ==> c in text && c != ' '
  {
    if text != "" {
      FieldsAreText(text[..|text| - 1], c);
    }
  }

  predicate OnlySpaces(text: string) { forall i :: 0 <= i < |text| ==> text[i] == ' ' }

  lemma {:induction false} NoFields(text: string)
    ensures Split(text) == NOTHING || SpaceSeparated(text) != []
    ensures Split(text) == NOTHING <==> OnlySpaces(text)
  {
    if text != "" {
      var n := |text| - 1;
      NoFields(text[..n]);
      assert text == text[..n] + [text[n]];
    }
  }

  lemma {:induction false} TrimIsText(text: string, c: char)
    ensures c in TrimStart(text) ==> c in text
  {
    if text != "" {
      TrimIsText(text[1..], c);
    }
  }

  lemma {:induction false} TrimJoins(a: string, b: string)
    ensures TrimStart(a + b) == if Blank(a) then TrimStart(b) else TrimStart(a) + b
  {
    hide Whitespace;
    if a == "" {
      assert a + b == b;
    } else {
      TrimJoins(a[1..], b);
      assert (a + b)[1..] == a[1..] + b;
      assert Blank(a) <==> Whitespace(a[0]) && Blank(a[1..]);
    }
  }

  lemma {:induction false} TrimBlank(text: string)
    ensures TrimStart(text) == "" <==> Blank(text)
    ensures TrimStart(text) == text <==> text == "" || !Whitespace(text[0])
    ensures |TrimStart(text)| <= |text|
  {
    hide Whitespace;
    if text != "" && Whitespace(text[0]) {
      TrimBlank(text[1..]);
      assert Blank(text) <==> Blank(text[1..]);
    }
  }

  // ---- The runs of pieces the markers separate ----------------------------------------

  function Cut(pieces: seq<string>): Fields {
    if pieces == [] then NOTHING else AddPiece(Cut(pieces[..|pieces| - 1]), pieces[|pieces| - 1])
  }

  function AddPiece(f: Fields, piece: string): Fields {
    var before := if Starts(piece) then Close(f) else f;
    before.(current := before.current + Strip(piece))
  }

  function Runs(pieces: seq<string>): seq<string> { Close(Cut(pieces)).done }

  function Visible(runs: seq<string>): seq<string> {
    if runs == [] then []
    else Visible(runs[..|runs| - 1]) + VisibleIn(runs[|runs| - 1])
  }

  function VisibleIn(run: string): seq<string> { if Blank(run) then [] else [run] }

  lemma VisibleAppend(runs: seq<string>, run: string)
    ensures Visible(runs + [run]) == Visible(runs) + VisibleIn(run)
  {
    assert (runs + [run])[..|runs|] == runs;
  }

  lemma {:induction false} GroupedIsCut(pieces: seq<string>, n: nat)
    requires n <= |pieces|
    ensures Grouped(pieces, n).texts == Visible(Cut(pieces[..n]).done)
    ensures Grouped(pieces, n).current == Cut(pieces[..n]).current
  {
    hide Blank, Strip, Starts, Visible;
    if n == 0 {
      NothingSplit();
    } else {
      GroupedIsCut(pieces, n - 1);
      assert pieces[..n][..n - 1] == pieces[..n - 1];
      var f := Cut(pieces[..n - 1]);
      VisibleAppend(f.done, f.current);
    }
  }

  /** The word texts are the runs with visible text. */
  lemma TextsAreVisible(pieces: seq<string>)
    ensures Texts(pieces) == Visible(Runs(pieces))
  {
    hide Blank, Grouped, Cut, Visible;
    GroupedIsCut(pieces, |pieces|);
    assert pieces[..|pieces|] == pieces;
    var f := Cut(pieces);
    BlankEmpty();
    VisibleAppend(f.done, f.current);
  }

  // ---- The fields of the rendered text, run by run ------------------------------------

  /** The fields a run contributes: trimming stops at the first visible run. */
  function FieldsIn(run: string, seen: bool): seq<string> { SpaceSeparated(if seen then run else TrimStart(run)) }

  function FieldsOf(runs: seq<string>): seq<string> {
    if runs == [] then []
    else FieldsOf(runs[..|runs| - 1]) + FieldsIn(runs[|runs| - 1], Visible(runs[..|runs| - 1]) != [])
  }

  function Trimmed(f: Fields): Fields {
    if Visible(f.done) == [] then Split(TrimStart(f.current)) else Continue(Fields(FieldsOf(f.done), ""), f.current)
  }

  lemma FieldsAppend(runs: seq<string>, run: string)
    ensures FieldsOf(runs + [run]) == FieldsOf(runs) + FieldsIn(run, Visible(runs) != [])
  {
    assert (runs + [run])[..|runs|] == runs;
  }

  lemma {:induction false} NothingVisible(runs: seq<string>)
    requires Visible(runs) == []
    ensures FieldsOf(runs) == []
  {
    if runs != [] {
      var n := |runs| - 1;
      NothingVisible(runs[..n]);
      TrimBlank(runs[n]);
    }
  }

  lemma TrimmedClose(f: Fields)
    ensures Trimmed(Close(f)) == Close(Trimmed(f))
  {
    hide Visible, FieldsOf, Blank, TrimStart, Continue;
    if f.current != "" {
      VisibleAppend(f.done, f.current);
      FieldsAppend(f.done, f.current);
      TrimBlank(f.current);
      NothingSplit();
      ContinueNothing(Fields(FieldsOf(f.done + [f.current]), ""));
      ContinueAfter(FieldsOf(f.done), f.current);
      if Visible(f.done) == [] {
        NothingVisible(f.done);
      }
    } else {
      TrimBlank("");
      BlankEmpty();
      NothingSplit();
      ContinueNothing(Fields(FieldsOf(f.done), ""));
    }
  }

  lemma ContinueNothing(f: Fields)
    ensures Continue(f, "") == f
  {
  }

  lemma NothingSplit()
    ensures Split("") == NOTHING && TrimStart("") == "" && Visible([]) == []
  {
  }

  /** The text so far is where the runs so far say it is. */
  ghost predicate Follows(text: string, f: Fields) {
    && Split(TrimStart(text)) == Trimmed(f)
    && (Blank(text) <==> Visible(f.done) == [] && Blank(f.current))
  }

  lemma BlankJoins(a: string, b: string)
    ensures Blank(a + b) <==> Blank(a) && Blank(b)
  {
    hide Whitespace;
    assert forall i :: 0 <= i < |a| ==> (a + b)[i] == a[i];
    assert forall i :: 0 <= i < |b| ==> (a + b)[|a| + i] == b[i];
  }

  lemma FollowsSpace(text: string, f: Fields)
    requires Follows(text, f)
    ensures Follows(text + " ", Close(f))
  {
    hide Visible, FieldsOf, TrimStart, Blank, Trimmed, Continue;
    SpaceIsBlank();
    BlankJoins(text, " ");
    TrimJoins(text, " ");
    TrimBlank(text);
    TrimBlank(" ");
    TrimmedClose(f);
    NothingSplit();
    ContinueJoins(NOTHING, TrimStart(text), " ");
    ContinueSpace(Split(TrimStart(text)));
    VisibleAppend(f.done, f.current);
    BlankEmpty();
  }

  lemma SpaceIsBlank()
    ensures Blank(" ")
  {
  }

  lemma ContinueSpace(f: Fields)
    ensures Continue(f, " ") == Close(f)
  {
    ContinueNothing(f);
    assert " "[..0] == "";
  }

  lemma FollowsLetters(text: string, f: Fields, more: string)
    requires Follows(text, f)
    ensures Follows(text + more, f.(current := f.current + more))
  {
    hide Visible, FieldsOf, TrimStart, Blank, Continue;
    BlankJoins(text, more);
    BlankJoins(f.current, more);
    TrimJoins(text, more);
    TrimJoins(f.current, more);
    ContinueJoins(NOTHING, TrimStart(text), more);
    ContinueJoins(NOTHING, TrimStart(f.current), more);
    ContinueJoins(Fields(FieldsOf(f.done), ""), f.current, more);
  }

  lemma {:induction false} FollowsPiece(text: string, f: Fields, piece: string)
    requires Follows(text, f) && BOUNDARY !in Strip(piece)
    ensures Follows(text + Spaced(piece), AddPiece(f, piece))
    decreases |piece|
  {
    hide Follows;
    if Starts(piece) {
      FollowsSpace(text, f);
      FollowsPiece(text + " ", Close(f), piece[1..]);
      assert text + Spaced(piece) == text + " " + Spaced(piece[1..]);
    } else {
      assert Spaced(piece) == piece;
      FollowsLetters(text, f, piece);
    }
  }

  predicate Marked(pieces: seq<string>) { exists i :: 0 <= i < |pieces| && BOUNDARY in Strip(pieces[i]) }

  lemma NothingFollows()
    ensures Follows("", NOTHING) && Spaced("") == ""
  {
  }

  lemma SpacedJoins(a: string, b: string)
    ensures Spaced(a + b) == Spaced(a) + Spaced(b)
  {
  }

  lemma {:induction false} TextFollows(pieces: seq<string>)
    requires !Marked(pieces)
    ensures Follows(Spaced(Joined(pieces)), Cut(pieces))
  {
    hide Strip, AddPiece, Follows, Spaced;
    if pieces == [] {
      NothingFollows();
    } else {
      var n := |pieces| - 1;
      TextFollows(pieces[..n]);
      FollowsPiece(Spaced(Joined(pieces[..n])), Cut(pieces[..n]), pieces[n]);
      SpacedJoins(Joined(pieces[..n]), pieces[n]);
    }
  }

  lemma TextFields(pieces: seq<string>)
    requires !Marked(pieces)
    ensures SpaceSeparated(TokensToText(pieces)) == FieldsOf(Runs(pieces))
  {
    hide Visible, FieldsOf, TrimStart, Blank, Continue, Cut, Strip, Spaced;
    TextFollows(pieces);
    var f := Cut(pieces);
    TrimmedClose(f);
    ContinueNothing(Fields(FieldsOf(Close(f).done), ""));
    NothingSplit();
    if Visible(Close(f).done) == [] {
      NothingVisible(Close(f).done);
    }
  }

  // ---- When the two projections agree --------------------------------------------------

  /** A visible run holds neither a marker nor a space, and the first one starts with a visible character; a run
      of whitespace after it holds only spaces. */
  predicate RunAligned(run: string, seen: bool) {
    if Blank(run) then seen ==> OnlySpaces(run)
    else BOUNDARY !in run && ' ' !in run && (seen || !Whitespace(run[0]))
  }

  predicate Aligned(runs: seq<string>) {
    runs != [] ==> var n := |runs| - 1; Aligned(runs[..n]) && RunAligned(runs[n], Visible(runs[..n]) != [])
  }

  lemma RunFields(run: string, seen: bool)
    requires !Blank(run) ==> BOUNDARY !in run && ' ' !in run
    ensures |FieldsIn(run, seen)| >= |VisibleIn(run)|
    ensures FieldsIn(run, seen) == VisibleIn(run) <==> RunAligned(run, seen)
  {
    hide Whitespace, Continue, TrimStart;
    var text := if seen then run else TrimStart(run);
    TrimBlank(run);
    BlankEmpty();
    NothingSplit();
    if Blank(run) {
      NoFields(text);
    } else {
      TrimIsText(run, ' ');
      SplitWord(text);
      assert text != "";
    }
  }

  predicate Separable(runs: seq<string>) {
    forall k :: 0 <= k < |runs| && !Blank(runs[k]) ==> BOUNDARY !in runs[k] && ' ' !in runs[k]
  }

  lemma {:induction false} FieldsAgree(runs: seq<string>)
    requires Separable(runs)
    ensures |FieldsOf(runs)| >= |Visible(runs)|
    ensures FieldsOf(runs) == Visible(runs) <==> Aligned(runs)
  {
    hide FieldsIn, VisibleIn, RunAligned, Blank;
    if runs != [] {
      var n := |runs| - 1;
      var seen := Visible(runs[..n]) != [];
      FieldsAgree(runs[..n]);
      RunFields(runs[n], seen);
      SameParts(FieldsOf(runs[..n]), FieldsIn(runs[n], seen), Visible(runs[..n]), VisibleIn(runs[n]));
    }
  }

  lemma SameParts<T>(a: seq<T>, b: seq<T>, c: seq<T>, d: seq<T>)
    requires |a| >= |c| && |b| >= |d|
    ensures a + b == c + d <==> a == c && b == d
  {
    if a + b == c + d {
      assert |a| == |c|;
      assert a == (a + b)[..|a|] && c == (c + d)[..|c|];
      assert b == (a + b)[|a|..] && d == (c + d)[|c|..];
    }
  }

  lemma {:induction false} AlignedSeparates(runs: seq<string>)
    requires Aligned(runs)
    ensures Separable(runs)
  {
    hide Blank, Whitespace, OnlySpaces;
    if runs != [] {
      var n := |runs| - 1;
      AlignedSeparates(runs[..n]);
      assert runs == runs[..n] + [runs[n]];
    }
  }

  lemma {:induction false} VisibleHasAll(runs: seq<string>, k: nat)
    requires k < |runs| && !Blank(runs[k])
    ensures runs[k] in Visible(runs)
  {
    hide Blank;
    if k < |runs| - 1 {
      VisibleHasAll(runs[..|runs| - 1], k);
    }
  }

  lemma {:induction false} VisibleAreRuns(runs: seq<string>)
    ensures forall text :: text in Visible(runs) ==> text in runs && !Blank(text)
  {
    hide Blank;
    if runs != [] {
      VisibleAreRuns(runs[..|runs| - 1]);
    }
  }

  lemma {:induction false} PartOfBetween(pieces: seq<string>, first: nat, end: nat, i: nat)
    requires first <= i < end <= |pieces| && BOUNDARY in Strip(pieces[i])
    ensures BOUNDARY in Between(pieces, first, end)
  {
    hide Strip;
    if i < end - 1 {
      PartOfBetween(pieces, first, end - 1, i);
    }
  }

  lemma MarkedIsVisible(text: string)
    requires BOUNDARY in text
    ensures !Blank(text)
  {
  }

  /** A marker left in a piece ends up inside a word. */
  lemma MarkerInWord(pieces: seq<string>)
    requires Marked(pieces)
    ensures exists text :: text in Texts(pieces) && BOUNDARY in text
  {
    hide Strip, Spans, Texts, Blank;
    var i :| 0 <= i < |pieces| && BOUNDARY in Strip(pieces[i]);
    MarkedIsVisible(Strip(pieces[i]));
    SpansAreWords(pieces);
    var k :| 0 <= k < |Spans(pieces)| && Spans(pieces)[k].0 <= i <= Spans(pieces)[k].1;
    assert SpanOk(pieces, Spans(pieces)[k], Texts(pieces)[k]);
    PartOfBetween(pieces, Spans(pieces)[k].0, Spans(pieces)[k].1 + 1, i);
    assert Texts(pieces)[k] in Texts(pieces);
  }

  /** No word of the rendered text holds a marker or a space. */
  lemma FieldsHoldNeither(pieces: seq<string>, field: string)
    requires field in SpaceSeparated(TokensToText(pieces))
    ensures BOUNDARY !in field && ' ' !in field
  {
    hide Split, TrimStart, Joined, Spaced;
    TrimIsText(Spaced(Joined(pieces)), BOUNDARY);
    assert BOUNDARY !in Spaced(Joined(pieces));
    FieldsAreText(TokensToText(pieces), BOUNDARY);
    FieldsAreText(TokensToText(pieces), ' ');
  }

  /** Whatever the other pieces, a marker left in one of them makes the two projections differ: it is inside a
      word of the grouping, and a space in the text. */
  lemma MarkerSeparates(pieces: seq<string>)
    requires Marked(pieces)
    ensures Texts(pieces) != SpaceSeparated(TokensToText(pieces))
  {
    hide Texts, Marked, SpaceSeparated, TokensToText;
    MarkerInWord(pieces);
    var text :| text in Texts(pieces) && BOUNDARY in text;
    if text in SpaceSeparated(TokensToText(pieces)) {
      FieldsHoldNeither(pieces, text);
    }
  }

  /** For all pieces: the word texts are exactly the space-separated words of the rendered text if and only if the
      runs are aligned. */
  lemma TextsAgreeExactly(pieces: seq<string>)
    ensures Texts(pieces) == SpaceSeparated(TokensToText(pieces)) <==> Aligned(Runs(pieces))
  {
    hide Texts, Marked, SpaceSeparated, TokensToText, Runs, Aligned, Visible, FieldsOf, Blank;
    var runs := Runs(pieces);
    TextsAreVisible(pieces);
    VisibleAreRuns(runs);
    if Aligned(runs) {
      AlignedSeparates(runs);
    }
    if Separable(runs) {
      if Marked(pieces) {
        MarkerInWord(pieces);
      }
      TextFields(pieces);
      FieldsAgree(runs);
    } else {
      var k :| 0 <= k < |runs| && !Blank(runs[k]) && !(BOUNDARY !in runs[k] && ' ' !in runs[k]);
      VisibleHasAll(runs, k);
      if runs[k] in SpaceSeparated(TokensToText(pieces)) {
        FieldsHoldNeither(pieces, runs[k]);
      }
    }
  }

  // ---- Pieces without whitespace --------------------------------------------------------

  predicate Solid(text: string) { forall i :: 0 <= i < |text| ==> text[i] != BOUNDARY && !Whitespace(text[i]) }

  lemma {:induction false} CutIsSolid(pieces: seq<string>)
    requires forall i :: 0 <= i < |pieces| ==> Solid(Strip(pieces[i]))
    ensures Solid(Cut(pieces).current)
    ensures forall k :: 0 <= k < |Cut(pieces).done| ==> Solid(Cut(pieces).done[k]) && Cut(pieces).done[k] != ""
  {
    hide Strip, Whitespace;
    if pieces != [] {
      CutIsSolid(pieces[..|pieces| - 1]);
    }
  }

  lemma {:induction false} SolidAligned(runs: seq<string>)
    requires forall k :: 0 <= k < |runs| ==> Solid(runs[k]) && runs[k] != ""
    ensures Aligned(runs)
  {
    hide Whitespace;
    if runs != [] {
      var n := |runs| - 1;
      SolidAligned(runs[..n]);
      assert !Whitespace(runs[n][0]);
      SpaceIsBlank();
      assert " "[0] == ' ';
    }
  }

  /** Where no whitespace follows the leading markers, the two projections agree exactly on the pieces with no
      marker after the leading ones. */
  lemma TextsAgree(pieces: seq<string>)
    requires forall i, k :: 0 <= i < |pieces| && 0 <= k < |Strip(pieces[i])| ==> !Whitespace(Strip(pieces[i])[k])
    ensures Texts(pieces) == SpaceSeparated(TokensToText(pieces)) <==> !Marked(pieces)
  {
    hide Strip, Cut, Texts, Whitespace, TokensToText, SpaceSeparated, Aligned;
    if Marked(pieces) {
      MarkerSeparates(pieces);
    } else {
      CutIsSolid(pieces);
      SolidAligned(Runs(pieces));
      TextsAgreeExactly(pieces);
    }
  }

  /** The shortest instance of a marker inside a piece: one word, two space-separated words. */
  lemma TextsDisagreeOnInnerMarker()
    ensures var pieces := ["a" + [BOUNDARY] + "b"];
      Texts(pieces) == ["a" + [BOUNDARY] + "b"] && SpaceSeparated(TokensToText(pieces)) == ["a", "b"]
  {
    hide Split, Grouped, TrimStart, Joined, Strip, Whitespace;
    OneWord();
    OneText();
    SplitTwo();
  }

  lemma OneWord()
    ensures Texts(["a" + [BOUNDARY] + "b"]) == ["a" + [BOUNDARY] + "b"]
  {
    var piece := "a" + [BOUNDARY] + "b";
    assert Strip(piece) == piece && !Whitespace(piece[0]);
    assert Take(Grouped([piece], 0), piece, 0).current == piece;
  }

  lemma OneText()
    ensures TokensToText(["a" + [BOUNDARY] + "b"]) == "a b"
  {
    var piece := "a" + [BOUNDARY] + "b";
    assert [piece][..0] == [] && Joined([piece]) == Joined([]) + piece == piece;
    assert Spaced(piece) == "a b";
  }

  lemma SplitTwo()
    ensures SpaceSeparated("a b") == ["a", "b"]
  {
    hide Continue;
    SplitWord("a");
    ContinueJoins(NOTHING, "a", " ");
    ContinueSpace(Fields([], "a"));
    ContinueJoins(NOTHING, "a ", "b");
    ContinueAfter(["a"], "b");
    SplitWord("b");
    assert [] + ["a"] == ["a"] && ["a"] + [] == ["a"] && ["a"] + ["b"] == ["a", "b"];
    assert "a" + " " == "a " && "a " + "b" == "a b";
  }
}
