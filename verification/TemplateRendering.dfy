/**
 Evaluating a template: split, drop empty text, run the code chunks and join. Running code (in a JavaScript
 engine) and showing a value as a string are parameters; both may report an error beside their result.
 */
module TemplateRendering {
  import opened JsonValues
  import opened Sequences
  import opened ExpressionScanner

  datatype Outcome = Outcome(value: Json, error: Option<string>)

  type Runner = string -> Outcome

  type Shower = Json -> (string, Option<string>)

  // ----- dropping empty text -----

  predicate Kept(c: Chunk) {
    c.text != "" || c.kind.Code?
  }

  function WithoutEmptyText(chunks: seq<Chunk>): seq<Chunk> {
    if chunks == [] then []
    else WithoutEmptyText(chunks[..|chunks| - 1]) + if Kept(chunks[|chunks| - 1]) then [chunks[|chunks| - 1]] else []
  }

  method RemoveEmptyTextChunk(chunks: seq<Chunk>) returns (result: seq<Chunk>)
    ensures result == WithoutEmptyText(chunks)
  {
    result := [];
    for i := 0 to |chunks|
      invariant result == WithoutEmptyText(chunks[..i])
    {
      assert chunks[..i + 1][..i] == chunks[..i];
      if chunks[i].text != "" || chunks[i].kind.Code? {
        result := result + [chunks[i]];
      }
    }
    assert chunks[..|chunks|] == chunks;
  }

  // ----- rendering -----

  function Reported(prefix: string, error: Option<string>): string {
    if error.Some? then prefix + error.value else ""
  }

  /** What a chunk contributes to the joined text; errors are written into the text and do not stop the evaluation. */
  function Piece(c: Chunk, run: Runner, show: Shower): string {
    if c.kind.Text? then c.text
    else
      var res := run(c.text);
      var shown := show(res.value);
      Reported("Error parsing code: ", res.error) + Reported("Error converting value to string: ", shown.1) + shown.0
  }

  function Joined(chunks: seq<Chunk>, run: Runner, show: Shower): string {
    if chunks == [] then ""
    else Joined(chunks[..|chunks| - 1], run, show) + Piece(chunks[|chunks| - 1], run, show)
  }

  function Rendered(chunks: seq<Chunk>, run: Runner, show: Shower): Outcome {
    if |chunks| == 1 && chunks[0].kind.Code? then run(chunks[0].text)
    else Outcome(Str(Joined(chunks, run, show)), None)
  }

  /** The body of the loop for one code chunk. */
  method RenderCode(code: string, run: Runner, show: Shower) returns (text: string)
    ensures text == Piece(Chunk(Code, code), run, show)
  {
    var parsing, converting := "", "";
    var res := run(code);
    if res.error.Some? {
      parsing := "Error parsing code: " + res.error.value;
    }
    var (shown, error) := show(res.value);
    if error.Some? {
      converting := "Error converting value to string: " + error.value;
    }
    text := parsing + converting + shown;
  }

  /** The appending loop; a single code chunk keeps the type of its value. */
  method RenderExpression(chunks: seq<Chunk>, run: Runner, show: Shower) returns (r: Outcome)
    ensures r == Rendered(chunks, run, show)
  {
    if |chunks| == 1 && chunks[0].kind.Code? {
      return run(chunks[0].text);
    }
    var resultData := "";
    for i := 0 to |chunks|
      invariant resultData == Joined(chunks[..i], run, show)
    {
      JoinedSnoc(chunks[..i], chunks[i], run, show);
      assert chunks[..i] + [chunks[i]] == chunks[..i + 1];
      if chunks[i].kind.Code? {
        var text := RenderCode(chunks[i].text, run, show);
        resultData := resultData + text;
      } else {
        resultData := resultData + chunks[i].text;
      }
    }
    assert chunks[..|chunks|] == chunks;
    r := Outcome(Str(resultData), None);
  }

  lemma JoinedSnoc(chunks: seq<Chunk>, c: Chunk, run: Runner, show: Shower)
    ensures Joined(chunks + [c], run, show) == Joined(chunks, run, show) + Piece(c, run, show)
  {
    assert (chunks + [c])[..|chunks|] == chunks;
  }

  predicate HoldsBracket(s: string) {
    exists i :: 0 <= i < |s| && PlainAt(s, Text, i)
  }

  function Evaluated(expression: string, run: Runner, show: Shower): Outcome {
    if expression == "" || expression[0] != '=' then Outcome(Str(expression), None)
    else if !HoldsBracket(expression[1..]) then Outcome(Str(expression[1..]), None)
    else Rendered(WithoutEmptyText(Rest(expression[1..], Text, "")), run, show)
  }

  method EvaluateExpression(expression: string, run: Runner, show: Shower) returns (r: Outcome)
    ensures r == Evaluated(expression, run, show)
  {
    if expression == "" || expression[0] != '=' {
      return Outcome(Str(expression), None);
    }
    var template := expression[1..];
    if !HoldsBracket(template) {
      return Outcome(Str(template), None);
    }
    var chunks := SplitExpression(template);
    chunks := RemoveEmptyTextChunk(chunks);
    r := RenderExpression(chunks, run, show);
  }

  // ----- what is rendered -----

  /** Dropping empty text does not change the joined text. */
  lemma {:induction false} EmptyTextAddsNothing(chunks: seq<Chunk>, run: Runner, show: Shower)
    ensures Joined(WithoutEmptyText(chunks), run, show) == Joined(chunks, run, show)
  {
    if chunks == [] {
    } else {
      var front, last := chunks[..|chunks| - 1], chunks[|chunks| - 1];
      EmptyTextAddsNothing(front, run, show);
      assert chunks == front + [last];
      JoinedSnoc(front, last, run, show);
      if Kept(last) {
        JoinedSnoc(WithoutEmptyText(front), last, run, show);
        assert WithoutEmptyText(chunks) == WithoutEmptyText(front) + [last];
      } else {
        assert WithoutEmptyText(chunks) == WithoutEmptyText(front);
      }
    }
  }

  /** What stands for a chunk in the joined text: text itself, or the shown value of code behind its error messages. */
  ghost predicate StandsFor(t: string, c: Chunk, run: Runner, show: Shower) {
    match c.kind
    case Text => t == c.text
    case Code =>
      var (shown, error) := show(run(c.text).value);
      match (run(c.text).error, error)
      case (None, None) => t == shown
      case (Some(e), None) => t == "Error parsing code: " + e + shown
      case (None, Some(e)) => t == "Error converting value to string: " + e + shown
      case (Some(e), Some(f)) => t == "Error parsing code: " + e + "Error converting value to string: " + f + shown
  }

  ghost predicate StandFor(ts: seq<string>, chunks: seq<Chunk>, run: Runner, show: Shower) {
    |ts| == |chunks| && forall i :: 0 <= i < |chunks| ==> StandsFor(ts[i], chunks[i], run, show)
  }

  lemma PieceMeaning(c: Chunk, run: Runner, show: Shower)
    ensures StandsFor(Piece(c, run, show), c, run, show)
  {
    if c.kind.Code? {
      var res := run(c.text);
      var (shown, error) := show(res.value);
      assert "" + "" + shown == shown;
    }
  }

  lemma StandForSnoc(ts: seq<string>, t: string, chunks: seq<Chunk>, c: Chunk, run: Runner, show: Shower)
    requires StandFor(ts, chunks, run, show) && StandsFor(t, c, run, show)
    ensures StandFor(ts + [t], chunks + [c], run, show)
  {
  }

  lemma {:induction false} JoinedMeaning(chunks: seq<Chunk>, run: Runner, show: Shower) returns (ts: seq<string>)
    ensures StandFor(ts, chunks, run, show) && Joined(chunks, run, show) == Concat(ts)
  {
    if chunks == [] {
      ts := [];
    } else {
      var front, last := chunks[..|chunks| - 1], chunks[|chunks| - 1];
      var before := JoinedMeaning(front, run, show);
      var t := Piece(last, run, show);
      PieceMeaning(last, run, show);
      ConcatSnoc(before, t);
      StandForSnoc(before, t, front, last, run, show);
      assert chunks == front + [last];
      ts := before + [t];
    }
  }

  /** This chunk is code, and all others are empty text. */
  predicate OnlyCode(chunks: seq<Chunk>, i: int) {
    && 0 <= i < |chunks| && chunks[i].kind.Code?
    && forall k :: 0 <= k < |chunks| && k != i ==> chunks[k] == Chunk(Text, "")
  }

  predicate AllEmpty(chunks: seq<Chunk>) {
    forall k :: 0 <= k < |chunks| ==> chunks[k] == Chunk(Text, "")
  }

  lemma {:induction false} NothingKept(chunks: seq<Chunk>)
    ensures WithoutEmptyText(chunks) == [] <==> AllEmpty(chunks)
  {
    if chunks == [] {
    } else {
      var front, last := chunks[..|chunks| - 1], chunks[|chunks| - 1];
      NothingKept(front);
      assert chunks == front + [last];
      assert Kept(last) <==> last != Chunk(Text, "");
    }
  }

  ghost predicate IsOnlyCode(chunks: seq<Chunk>, c: Chunk) {
    exists i :: OnlyCode(chunks, i) && chunks[i] == c
  }

  lemma OnlyCodeSnoc(front: seq<Chunk>, last: Chunk, c: Chunk)
    requires c.kind.Code?
    ensures IsOnlyCode(front + [last], c)
       <==> (last == c && AllEmpty(front)) || (last == Chunk(Text, "") && IsOnlyCode(front, c))
  {
    var chunks := front + [last];
    if last == c && AllEmpty(front) {
      assert OnlyCode(chunks, |front|);
    } else if last == Chunk(Text, "") && IsOnlyCode(front, c) {
      var i :| OnlyCode(front, i) && front[i] == c;
      assert OnlyCode(chunks, i);
    }
    if i :| OnlyCode(chunks, i) && chunks[i] == c {
      assert forall k :: 0 <= k < |front| ==> front[k] == chunks[k];
      if i < |front| {
        assert OnlyCode(front, i) && chunks[|front|] == last;
      }
    }
  }

  /** Only one chunk is left, and it is code, exactly when all others were empty text. */
  lemma {:induction false} OnlyCodeLeft(chunks: seq<Chunk>, c: Chunk)
    requires c.kind.Code?
    ensures WithoutEmptyText(chunks) == [c] <==> IsOnlyCode(chunks, c)
  {
    if chunks == [] {
    } else {
      var front, last := chunks[..|chunks| - 1], chunks[|chunks| - 1];
      OnlyCodeLeft(front, c);
      NothingKept(front);
      OnlyCodeSnoc(front, last, c);
      assert chunks == front + [last];
      if Kept(last) {
        assert WithoutEmptyText(chunks)[|WithoutEmptyText(front)|] == last;
      }
    }
  }

  /** The result for these chunks: the value of the code if there is nothing else, otherwise the joined text. */
  ghost predicate IsResult(r: Outcome, chunks: seq<Chunk>, run: Runner, show: Shower) {
    if exists i :: OnlyCode(chunks, i)
    then exists i :: OnlyCode(chunks, i) && r == run(chunks[i].text)
    else r.error.None? && exists ts :: StandFor(ts, chunks, run, show) && r.value == Str(Concat(ts))
  }

  lemma RenderedMeaning(chunks: seq<Chunk>, run: Runner, show: Shower)
    ensures IsResult(Rendered(WithoutEmptyText(chunks), run, show), chunks, run, show)
  {
    var kept := WithoutEmptyText(chunks);
    if i :| OnlyCode(chunks, i) {
      OnlyCodeLeft(chunks, chunks[i]);
      assert Rendered(kept, run, show) == run(chunks[i].text);
    } else {
      if |kept| == 1 && kept[0].kind.Code? {
        OnlyCodeLeft(chunks, kept[0]);
        assert false;
      }
      EmptyTextAddsNothing(chunks, run, show);
      var ts := JoinedMeaning(chunks, run, show);
      assert StandFor(ts, chunks, run, show);
    }
  }

  /** The text holds two opening brackets in a row. */
  ghost predicate HasCode(text: string) {
    exists front, back :: Surrounds(text, front, "{{", back)
  }

  lemma BracketMeaning(text: string)
    ensures HoldsBracket(text) <==> HasCode(text)
  {
    if i :| 0 <= i < |text| && PlainAt(text, Text, i) {
      assert text == text[..i] + "{{" + text[i + 2..];
      assert Surrounds(text, text[..i], "{{", text[i + 2..]);
    }
    if front, back :| Surrounds(text, front, "{{", back) {
      assert text[|front|] == '{' && text[|front| + 1] == '{';
      assert PlainAt(text, Text, |front|);
    }
  }

  /**
   Every expression: without a leading equals sign it is itself, without code it is its text, and otherwise
   the result for the chunks it splits into.
   */
  lemma EvaluationMeaning(expression: string, run: Runner, show: Shower)
    ensures !("=" <= expression) ==> Evaluated(expression, run, show) == Outcome(Str(expression), None)
    ensures forall text :: expression == "=" + text && !HasCode(text) ==>
              Evaluated(expression, run, show) == Outcome(Str(text), None)
    ensures forall text :: expression == "=" + text && HasCode(text) ==>
              IsResult(Evaluated(expression, run, show), Rest(text, Text, ""), run, show)
  {
    forall text | expression == "=" + text
      ensures !HasCode(text) ==> Evaluated(expression, run, show) == Outcome(Str(text), None)
      ensures HasCode(text) ==> IsResult(Evaluated(expression, run, show), Rest(text, Text, ""), run, show)
    {
      assert expression[1..] == text;
      BracketMeaning(text);
      RenderedMeaning(Rest(text, Text, ""), run, show);
    }
    assert !("=" <= expression) ==> expression == "" || expression[0] != '=';
  }

  lemma PrintHasCode(chunks: seq<Chunk>)
    requires Canonical(chunks, Text) && |chunks| >= 2
    ensures HasCode(Print(chunks))
  {
    PrintPieces(chunks, Text);
    assert Bracket(Text) == "{{";
    assert Surrounds(Print(chunks), chunks[0].text, "{{", PrintRest(chunks[1..]));
  }

  /**
   Evaluating a printed template puts the value of each code chunk in its place, in order, between unchanged
   text; a template that is nothing but one code chunk evaluates to that chunk's value, type and error included.
   */
  lemma TemplateMeaning(chunks: seq<Chunk>, run: Runner, show: Shower)
    requires Canonical(chunks, Text) && |chunks| >= 2
    ensures IsResult(Evaluated("=" + Print(chunks), run, show), chunks, run, show)
    ensures (exists i :: OnlyCode(chunks, i)) <==> |chunks| == 2 && chunks[0].text == ""
  {
    PrintHasCode(chunks);
    EvaluationMeaning("=" + Print(chunks), run, show);
    SplitOfPrint(chunks);
    OnlyCodeIsShort(chunks);
  }

  lemma OnlyCodeIsShort(chunks: seq<Chunk>)
    requires Canonical(chunks, Text) && |chunks| >= 2
    ensures (exists i :: OnlyCode(chunks, i)) <==> |chunks| == 2 && chunks[0].text == ""
  {
    assert chunks[1].kind.Code? && (|chunks| > 3 ==> chunks[3].kind.Code?);
    assert |chunks| == 3 ==> chunks[2] != Chunk(Text, "");
    if i :| OnlyCode(chunks, i) {
      assert |chunks| <= 3;
    }
    if |chunks| == 2 && chunks[0].text == "" {
      assert OnlyCode(chunks, 1);
    }
  }
}
