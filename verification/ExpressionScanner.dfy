/** Splitting a template such as "a{{ code }}b" into text and code chunks. */
module ExpressionScanner {
  import opened Sequences

  datatype Kind = Text | Code

  datatype Chunk = Chunk(kind: Kind, text: string)

  function Other(k: Kind): Kind {
    if k.Text? then Code else Text
  }

  /** The bracket character searched for while reading a chunk: text ends at "{{", code at "}}". */
  function Mark(k: Kind): char {
    if k.Text? then '{' else '}'
  }

  function Bracket(k: Kind): string {
    [Mark(k), Mark(k)]
  }

  function EscapedBracket(k: Kind): string {
    ['\\'] + Bracket(k)
  }

  predicate PlainAt(s: string, k: Kind, i: nat) {
    i + 1 < |s| && s[i] == Mark(k) && s[i + 1] == Mark(k)
  }

  predicate EscapedAt(s: string, k: Kind, i: nat) {
    i < |s| && s[i] == '\\' && PlainAt(s, k, i + 1)
  }

  /** The leftmost match of the optional backslash followed by the bracket. */
  datatype Match = NoMatch | Match(start: nat, end: nat, escaped: bool)

  function FindBracket(s: string, k: Kind, i: nat): (m: Match)
    requires i <= |s|
    ensures m.NoMatch? ==> forall j :: i <= j < |s| ==> !PlainAt(s, k, j) && !EscapedAt(s, k, j)
    ensures m.Match? ==>
      && i <= m.start < m.end <= |s|
      && (forall j :: i <= j < m.start ==> !PlainAt(s, k, j) && !EscapedAt(s, k, j))
      && (if m.escaped then EscapedAt(s, k, m.start) && m.end == m.start + 3
          else PlainAt(s, k, m.start) && m.end == m.start + 2)
    decreases |s| - i
  {
    if i == |s| then NoMatch
    else if EscapedAt(s, k, i) then Match(i, i + 3, true)
    else if PlainAt(s, k, i) then Match(i, i + 2, false)
    else FindBracket(s, k, i + 1)
  }

  /** Unterminated: the last chunk ran to the end of the input. Consumed: what was still buffered is not emitted. */
  datatype Ending = Unterminated | Consumed(buffer: string)

  datatype Scan = Scan(chunks: seq<Chunk>, ending: Ending)

  /** The scan before code chunks are unescaped. */
  function ScanFrom(s: string, k: Kind, buffer: string): Scan
    decreases |s|
  {
    if s == [] then Scan([], Consumed(buffer))
    else
      var m := FindBracket(s, k, 0);
      if m.NoMatch? then Scan([Chunk(k, buffer + s)], Unterminated)
      else if m.escaped then ScanFrom(s[m.end..], k, buffer + s[..m.end])
      else
        var rest := ScanFrom(s[m.end..], Other(k), "");
        Scan([Chunk(k, buffer + s[..m.start])] + rest.chunks, rest.ending)
  }

  /** Replace every two backslashes followed by "}}" by "}}". */
  function EscapeCode(s: string): string
    decreases |s|
  {
    if s == [] then []
    else if |s| >= 4 && s[..4] == ['\\', '\\', '}', '}'] then ['}', '}'] + EscapeCode(s[4..])
    else [s[0]] + EscapeCode(s[1..])
  }

  function Finish(c: Chunk): Chunk {
    if c.kind.Code? then Chunk(Code, EscapeCode(c.text)) else c
  }

  function FinishAll(chunks: seq<Chunk>): (r: seq<Chunk>)
    ensures |r| == |chunks| && forall i :: 0 <= i < |chunks| ==> r[i] == Finish(chunks[i])
  {
    seq(|chunks|, i requires 0 <= i < |chunks| => Finish(chunks[i]))
  }

  /** The chunks that are returned when the scan goes on from here. */
  function Rest(s: string, k: Kind, buffer: string): seq<Chunk> {
    FinishAll(ScanFrom(s, k, buffer).chunks)
  }

  lemma FinishCons(c: Chunk, chunks: seq<Chunk>)
    ensures FinishAll([c] + chunks) == [Finish(c)] + FinishAll(chunks)
  {
  }

  /** One match of the scan. */
  lemma ScanUnfolds(s: string, k: Kind, buffer: string, m: Match)
    requires s != [] && m == FindBracket(s, k, 0)
    ensures m.NoMatch? ==> ScanFrom(s, k, buffer) == Scan([Chunk(k, buffer + s)], Unterminated)
    ensures m.Match? && m.escaped ==> ScanFrom(s, k, buffer) == ScanFrom(s[m.end..], k, buffer + s[..m.end])
    ensures m.Match? && !m.escaped ==>
              var rest := ScanFrom(s[m.end..], Other(k), "");
              ScanFrom(s, k, buffer) == Scan([Chunk(k, buffer + s[..m.start])] + rest.chunks, rest.ending)
  {
  }

  lemma FinishOne(c: Chunk)
    ensures FinishAll([c]) == [Finish(c)]
  {
  }

  lemma FoundThenRest(found: seq<Chunk>, c: Chunk, rest: seq<Chunk>)
    ensures found + FinishAll([c] + rest) == (found + [Finish(c)]) + FinishAll(rest)
  {
    FinishCons(c, rest);
    assert found + ([Finish(c)] + FinishAll(rest)) == (found + [Finish(c)]) + FinishAll(rest);
  }

  /** What one iteration of the loop contributes, behind the chunks found before. */
  lemma ScanStep(found: seq<Chunk>, s: string, k: Kind, buffer: string, m: Match)
    requires s != [] && m == FindBracket(s, k, 0)
    ensures m.NoMatch? ==> Rest(s, k, buffer) == [Finish(Chunk(k, buffer + s))]
    ensures m.Match? && m.escaped ==> Rest(s, k, buffer) == Rest(s[m.end..], k, buffer + s[..m.end])
    ensures m.Match? && !m.escaped ==>
              found + Rest(s, k, buffer)
              == (found + [Finish(Chunk(k, buffer + s[..m.start]))]) + Rest(s[m.end..], Other(k), "")
  {
    ScanUnfolds(s, k, buffer, m);
    if m.NoMatch? {
      FinishOne(Chunk(k, buffer + s));
    } else if !m.escaped {
      FoundThenRest(found, Chunk(k, buffer + s[..m.start]), ScanFrom(s[m.end..], Other(k), "").chunks);
    }
  }

  lemma RestOfNothing(s: string, i: nat, k: Kind, buffer: string)
    requires i == |s|
    ensures Rest(s[i..], k, buffer) == []
  {
  }

  lemma DropDrop(s: string, i: nat, j: nat)
    requires i + j <= |s|
    ensures s[i..][j..] == s[i + j..]
  {
  }

  /** The scanning loop. */
  method SplitExpression(expression: string) returns (chunks: seq<Chunk>)
    ensures chunks == Rest(expression, Text, "")
  {
    chunks := [];
    var searchingFor, buffer, index := Text, "", 0;
    assert expression[0..] == expression;
    while index < |expression|
      invariant 0 <= index <= |expression|
      invariant chunks + Rest(expression[index..], searchingFor, buffer) == Rest(expression, Text, "")
      decreases |expression| - index
    {
      var expr := expression[index..];
      var m := FindBracket(expr, searchingFor, 0);
      ScanStep(chunks, expr, searchingFor, buffer, m);
      if m.NoMatch? {
        chunks := chunks + [Finish(Chunk(searchingFor, buffer + expr))];
        return;
      }
      DropDrop(expression, index, m.end);
      if m.escaped {
        buffer := buffer + expr[..m.end];
      } else {
        chunks := chunks + [Finish(Chunk(searchingFor, buffer + expr[..m.start]))];
        searchingFor := Other(searchingFor);
        buffer := "";
      }
      index := index + m.end;
    }
    RestOfNothing(expression, index, searchingFor, buffer);
  }

  // ----- nothing is lost but an escaped bracket at the end -----

  ghost predicate Alternates(chunks: seq<Chunk>, first: Kind) {
    forall i :: 0 <= i < |chunks| ==> chunks[i].kind == if i % 2 == 0 then first else Other(first)
  }

  /** The chunks with the brackets that ended them, and the buffer that was not emitted. */
  ghost function Reassemble(scan: Scan): string
    decreases |scan.chunks|
  {
    if scan.chunks == [] then (if scan.ending.Consumed? then scan.ending.buffer else [])
    else
      var c := scan.chunks[0];
      var rest := Scan(scan.chunks[1..], scan.ending);
      c.text + (if |scan.chunks| == 1 && scan.ending.Unterminated? then [] else Bracket(c.kind)) + Reassemble(rest)
  }

  lemma ReassembleCons(c: Chunk, rest: Scan)
    ensures Reassemble(Scan([c] + rest.chunks, rest.ending))
         == c.text + (if rest.chunks == [] && rest.ending.Unterminated? then [] else Bracket(c.kind)) + Reassemble(rest)
  {
    assert ([c] + rest.chunks)[1..] == rest.chunks;
  }

  lemma AlternatesCons(c: Chunk, rest: seq<Chunk>)
    requires Alternates(rest, Other(c.kind))
    ensures Alternates([c] + rest, c.kind)
  {
  }

  lemma {:induction false} ScanAlternates(s: string, k: Kind, buffer: string)
    ensures Alternates(ScanFrom(s, k, buffer).chunks, k)
    ensures ScanFrom(s, k, buffer).ending.Unterminated? ==> ScanFrom(s, k, buffer).chunks != []
    decreases |s|
  {
    var m := FindBracket(s, k, 0);
    if s != [] && m.Match? {
      if m.escaped {
        ScanAlternates(s[m.end..], k, buffer + s[..m.end]);
      } else {
        ScanAlternates(s[m.end..], Other(k), "");
        AlternatesCons(Chunk(k, buffer + s[..m.start]), ScanFrom(s[m.end..], Other(k), "").chunks);
      }
    }
  }

  lemma Pieces(s: string, k: Kind, buffer: string, m: Match)
    requires m == FindBracket(s, k, 0) && m.Match?
    ensures buffer + s[..m.end] + s[m.end..] == buffer + s
    ensures !m.escaped ==> buffer + s == (buffer + s[..m.start]) + Bracket(k) + s[m.end..]
  {
    assert s == s[..m.start] + s[m.start..m.end] + s[m.end..];
    assert !m.escaped ==> s[m.start..m.end] == Bracket(k);
  }

  lemma {:induction false} ScanLossless(s: string, k: Kind, buffer: string)
    ensures Reassemble(ScanFrom(s, k, buffer)) == buffer + s
    decreases |s|
  {
    var m := FindBracket(s, k, 0);
    if s == [] {
      assert buffer + s == buffer;
    } else if m.NoMatch? {
      ReassembleCons(Chunk(k, buffer + s), Scan([], Unterminated));
      assert [Chunk(k, buffer + s)] + [] == [Chunk(k, buffer + s)];
    } else {
      Pieces(s, k, buffer, m);
      if m.escaped {
        ScanLossless(s[m.end..], k, buffer + s[..m.end]);
      } else {
        ScanLossless(s[m.end..], Other(k), "");
        ScanAlternates(s[m.end..], Other(k), "");
        ReassembleCons(Chunk(k, buffer + s[..m.start]), ScanFrom(s[m.end..], Other(k), ""));
        assert "" + s[m.end..] == s[m.end..];
      }
    }
  }

  /** Chunks alternate from text, and with their brackets and the lost buffer they are the input. */
  lemma SplitIsLossless(expression: string)
    ensures var scan := ScanFrom(expression, Text, "");
      Reassemble(scan) == expression && Alternates(scan.chunks, Text)
  {
    ScanLossless(expression, Text, "");
    ScanAlternates(expression, Text, "");
    assert "" + expression == expression;
  }

  /** The kind of chunk being read when the scan ended. */
  function LastSearch(scan: Scan, first: Kind): Kind {
    var n := if scan.ending.Unterminated? then |scan.chunks| + 1 else |scan.chunks|;
    if n % 2 == 0 then first else Other(first)
  }

  predicate EndsWith(s: string, tail: string) {
    |s| >= |tail| && s[|s| - |tail|..] == tail
  }

  predicate BufferLost(scan: Scan) {
    scan.ending.Consumed? && scan.ending.buffer != ""
  }

  lemma EscapedEnd(s: string, k: Kind, m: Match)
    requires m == FindBracket(s, k, 0) && m.Match? && m.escaped
    ensures EndsWith(s[..m.end], EscapedBracket(k))
  {
  }

  /** A tail without a match, behind text that ends in an escaped bracket or is empty, ends in no escaped bracket. */
  lemma NoEscapedEnd(s: string, k: Kind, buffer: string)
    requires s != [] && FindBracket(s, k, 0).NoMatch?
    requires buffer == "" || EndsWith(buffer, EscapedBracket(k))
    ensures !EndsWith(buffer + s, EscapedBracket(k))
  {
    var all := buffer + s;
    if |s| >= 3 {
      assert all[|all| - 3..] == s[|s| - 3..];
      assert !EscapedAt(s, k, |s| - 3);
    } else if |s| == 2 {
      assert all[|all| - 2] == s[0] && all[|all| - 1] == s[1];
      assert !PlainAt(s, k, 0);
      SuffixChars(all, k);
    } else if buffer != "" {
      SuffixChars(buffer, k);
      assert all[|all| - 3] == buffer[|buffer| - 2] == Mark(k);
      SuffixChars(all, k);
    }
  }

  lemma SuffixChars(s: string, k: Kind)
    ensures EndsWith(s, EscapedBracket(k)) <==>
      |s| >= 3 && s[|s| - 3] == '\\' && s[|s| - 2] == Mark(k) && s[|s| - 1] == Mark(k)
  {
    if |s| >= 3 {
      var tail := s[|s| - 3..];
      assert tail[0] == s[|s| - 3] && tail[1] == s[|s| - 2] && tail[2] == s[|s| - 1];
    }
  }

  lemma {:induction false} LossIffFrom(s: string, k: Kind, buffer: string)
    requires buffer == "" || EndsWith(buffer, EscapedBracket(k))
    ensures var scan := ScanFrom(s, k, buffer);
      BufferLost(scan) <==> EndsWith(buffer + s, EscapedBracket(LastSearch(scan, k)))
    decreases |s|
  {
    var m := FindBracket(s, k, 0);
    if s == [] {
      assert buffer + s == buffer;
    } else if m.NoMatch? {
      NoEscapedEnd(s, k, buffer);
    } else {
      Pieces(s, k, buffer, m);
      if m.escaped {
        EscapedEnd(s, k, m);
        EndsBehind(buffer, s[..m.end], EscapedBracket(k));
        LossIffFrom(s[m.end..], k, buffer + s[..m.end]);
      } else {
        LossIffFrom(s[m.end..], Other(k), "");
        assert "" + s[m.end..] == s[m.end..];
        ScanBehindBracket(s, k, buffer, m);
        var last := LastSearch(ScanFrom(s[m.end..], Other(k), ""), Other(k));
        TailEnds(buffer + s, buffer + s[..m.start], k, s[m.end..], last);
      }
    }
  }

  lemma EndsBehind(front: string, s: string, tail: string)
    requires EndsWith(s, tail)
    ensures EndsWith(front + s, tail)
  {
    assert (front + s)[|front + s| - |tail|..] == s[|s| - |tail|..];
  }

  lemma ScanBehindBracket(s: string, k: Kind, buffer: string, m: Match)
    requires s != [] && m == FindBracket(s, k, 0) && m.Match? && !m.escaped
    ensures var scan, rest := ScanFrom(s, k, buffer), ScanFrom(s[m.end..], Other(k), "");
      && scan == Scan([Chunk(k, buffer + s[..m.start])] + rest.chunks, rest.ending)
      && LastSearch(scan, k) == LastSearch(rest, Other(k))
  {
    ScanUnfolds(s, k, buffer, m);
    LastSearchCons(Chunk(k, buffer + s[..m.start]), ScanFrom(s[m.end..], Other(k), ""), k);
  }

  lemma LastSearchCons(c: Chunk, rest: Scan, k: Kind)
    ensures LastSearch(Scan([c] + rest.chunks, rest.ending), k) == LastSearch(rest, Other(k))
  {
  }

  /** Behind a plain bracket, an escaped bracket of the searched kind at the end lies wholly in the rest. */
  lemma TailEnds(all: string, front: string, k: Kind, rest: string, last: Kind)
    requires all == front + Bracket(k) + rest
    requires last == LastSearch(ScanFrom(rest, Other(k), ""), Other(k))
    ensures EndsWith(all, EscapedBracket(last)) <==> EndsWith(rest, EscapedBracket(last))
  {
    SuffixChars(all, last);
    SuffixChars(rest, last);
    var n := |all|;
    if |rest| >= 3 {
      assert all[n - 3] == rest[|rest| - 3] && all[n - 2] == rest[|rest| - 2] && all[n - 1] == rest[|rest| - 1];
    } else {
      ShortRest(rest, Other(k));
      assert n >= 3 && |rest| == 0 ==> all[n - 1] == Mark(k) && all[n - 2] == Mark(k);
      assert n >= 3 && |rest| == 1 ==> all[n - 2] == Mark(k) && all[n - 3] == Mark(k);
      assert n >= 3 && |rest| == 2 ==> all[n - 3] == Mark(k);
    }
  }

  /** Two characters hold no complete chunk unless they are exactly the bracket. */
  lemma ShortRest(rest: string, k: Kind)
    requires |rest| < 3
    ensures LastSearch(ScanFrom(rest, k, ""), k) == k || rest == Bracket(k)
  {
    if rest != [] {
      var m := FindBracket(rest, k, 0);
      if m.Match? {
        assert !m.escaped && m.start == 0 && m.end == 2;
        assert rest == Bracket(k);
      }
    }
  }

  /**
   Text is lost exactly when the input ends in an escaped bracket of the kind being searched for: the
   loop then runs out of input without emitting its buffer.
   */
  lemma TextLostIff(expression: string)
    ensures var scan := ScanFrom(expression, Text, "");
      BufferLost(scan) <==> EndsWith(expression, EscapedBracket(LastSearch(scan, Text)))
  {
    LossIffFrom(expression, Text, "");
    assert "" + expression == expression;
  }

  /** For instance, a template that is only text ending in an escaped bracket produces no chunk at all. */
  lemma EscapedTailIsDropped()
    ensures ScanFrom("a\\{{", Text, "") == Scan([], Consumed("a\\{{"))
  {
    var s := "a\\{{";
    assert EscapedAt(s, Text, 1) && !EscapedAt(s, Text, 0) && !PlainAt(s, Text, 0);
    var m := FindBracket(s, Text, 0);
    assert m == FindBracket(s, Text, 1) == Match(1, 4, true);
    assert s[4..] == "" && s[..4] == s && "" + s == s;
  }

  // ----- printing and splitting -----

  /** The template a chunk list stands for. */
  function Print(chunks: seq<Chunk>): string {
    if chunks == [] then ""
    else
      (if chunks[0].kind.Text? then chunks[0].text else Bracket(Text) + chunks[0].text + Bracket(Code))
      + Print(chunks[1..])
  }

  /** Text as it is, code in double braces. */
  ghost predicate ArePrinted(pieces: seq<string>, chunks: seq<Chunk>) {
    |pieces| == |chunks| && forall i :: 0 <= i < |chunks| ==>
      pieces[i] == if chunks[i].kind.Text? then chunks[i].text else "{{" + chunks[i].text + "}}"
  }

  lemma {:induction false} PrintMeaning(chunks: seq<Chunk>) returns (pieces: seq<string>)
    ensures ArePrinted(pieces, chunks) && Print(chunks) == Concat(pieces)
    decreases |chunks|
  {
    if chunks == [] {
      pieces := [];
    } else {
      var rest := PrintMeaning(chunks[1..]);
      var c := chunks[0];
      pieces := [if c.kind.Text? then c.text else "{{" + c.text + "}}"] + rest;
      assert pieces[1..] == rest && Bracket(Text) == "{{" && Bracket(Code) == "}}";
    }
  }

  /** The same with the opening bracket of a leading code chunk left out. */
  function PrintRest(chunks: seq<Chunk>): string {
    if chunks != [] && chunks[0].kind.Code? then chunks[0].text + Bracket(Code) + Print(chunks[1..]) else Print(chunks)
  }

  /** Text that holds no bracket of its kind, nor begins one (or an escape) at its end. */
  predicate Plain(c: Chunk) {
    && (forall i :: 0 <= i < |c.text| ==> !PlainAt(c.text, c.kind, i))
    && (c.text != "" ==> c.text[|c.text| - 1] != Mark(c.kind) && c.text[|c.text| - 1] != '\\')
  }

  /** What a splitter can return: alternating plain chunks, no empty text at the end. */
  ghost predicate Canonical(chunks: seq<Chunk>, first: Kind) {
    && Alternates(chunks, first)
    && (forall i :: 0 <= i < |chunks| ==> Plain(chunks[i]))
    && (chunks != [] ==> chunks[|chunks| - 1].kind.Code? || chunks[|chunks| - 1].text != "")
  }

  lemma FindBehindPlain(text: string, k: Kind, rest: string, i: nat)
    requires Plain(Chunk(k, text)) && i <= |text|
    ensures FindBracket(text + Bracket(k) + rest, k, i) == Match(|text|, |text| + 2, false)
    decreases |text| - i
  {
    var s := text + Bracket(k) + rest;
    assert s[|text|] == Mark(k) && s[|text| + 1] == Mark(k);
    if i < |text| {
      assert s[i] == text[i];
      assert !PlainAt(text, k, i);
      if i + 1 < |text| {
        assert s[i + 1] == text[i + 1];
        assert !PlainAt(text, k, i + 1);
        assert i + 2 < |text| ==> s[i + 2] == text[i + 2];
      }
      assert !PlainAt(s, k, i) && !EscapedAt(s, k, i);
      FindBehindPlain(text, k, rest, i + 1);
    }
  }

  lemma NoBracketInPlain(text: string, k: Kind, i: nat)
    requires Plain(Chunk(k, text)) && i <= |text|
    ensures FindBracket(text, k, i).NoMatch?
    decreases |text| - i
  {
    if i < |text| {
      assert !PlainAt(text, k, i) && (i + 1 < |text| ==> !PlainAt(text, k, i + 1));
      NoBracketInPlain(text, k, i + 1);
    }
  }

  lemma CanonicalTail(chunks: seq<Chunk>, first: Kind)
    requires Canonical(chunks, first) && chunks != []
    ensures Canonical(chunks[1..], Other(first)) && chunks[0].kind == first && Plain(chunks[0])
    ensures |chunks| > 1 ==> chunks[1..][0].kind == Other(first)
  {
    var rest := chunks[1..];
    forall i | 0 <= i < |rest|
      ensures rest[i].kind == if i % 2 == 0 then Other(first) else first
    {
      assert rest[i] == chunks[i + 1];
    }
  }

  /** How an alternating list prints: its first chunk, the bracket that ends it, the rest. */
  lemma PrintPieces(chunks: seq<Chunk>, first: Kind)
    requires Alternates(chunks, first) && chunks != []
    ensures PrintRest(chunks) ==
      if first.Text? && |chunks| == 1 then chunks[0].text
      else chunks[0].text + Bracket(first) + PrintRest(chunks[1..])
  {
    var rest := chunks[1..];
    if rest != [] {
      assert rest[0] == chunks[1] && rest[0].kind == Other(first);
    }
    if first.Text? {
      if rest != [] {
        assert Print(rest) == Bracket(Text) + rest[0].text + Bracket(Code) + Print(rest[1..]);
        assert chunks[0].text + (Bracket(Text) + rest[0].text + Bracket(Code) + Print(rest[1..]))
          == chunks[0].text + Bracket(Text) + (rest[0].text + Bracket(Code) + Print(rest[1..]));
      } else {
        assert chunks[0].text + "" == chunks[0].text;
      }
    }
  }

  lemma ScanOfPiece(text: string, k: Kind, rest: string)
    requires Plain(Chunk(k, text))
    ensures ScanFrom(text + Bracket(k) + rest, k, "").chunks == [Chunk(k, text)] + ScanFrom(rest, Other(k), "").chunks
  {
    var s := text + Bracket(k) + rest;
    FindBehindPlain(text, k, rest, 0);
    assert s[|text| + 2..] == rest && s[..|text|] == text && "" + text == text;
    ScanBehindBracket(s, k, "", FindBracket(s, k, 0));
  }

  lemma ScanOfLastText(text: string)
    requires Plain(Chunk(Text, text)) && text != ""
    ensures ScanFrom(text, Text, "").chunks == [Chunk(Text, text)]
  {
    NoBracketInPlain(text, Text, 0);
    assert "" + text == text;
  }

  lemma {:induction false} SplitOfPrintFrom(chunks: seq<Chunk>, first: Kind)
    requires Canonical(chunks, first)
    ensures ScanFrom(PrintRest(chunks), first, "").chunks == chunks
    decreases |chunks|
  {
    if chunks == [] {
    } else {
      CanonicalTail(chunks, first);
      PrintPieces(chunks, first);
      assert chunks == [chunks[0]] + chunks[1..];
      if first.Text? && |chunks| == 1 {
        ScanOfLastText(chunks[0].text);
      } else {
        SplitOfPrintFrom(chunks[1..], Other(first));
        ScanOfPiece(chunks[0].text, first, PrintRest(chunks[1..]));
      }
    }
  }

  lemma {:induction false} PlainCodeUnchanged(s: string)
    requires forall i :: 0 <= i < |s| ==> !PlainAt(s, Code, i)
    ensures EscapeCode(s) == s
    decreases |s|
  {
    if s == [] {
    } else {
      forall i | 0 <= i < |s[1..]|
        ensures !PlainAt(s[1..], Code, i)
      {
        assert !PlainAt(s, Code, i + 1);
      }
      if |s| >= 4 {
        assert !PlainAt(s, Code, 2);
        assert s[..4][2] == s[2] && s[..4][3] == s[3];
      }
      PlainCodeUnchanged(s[1..]);
    }
  }

  // ----- what unescaping promises, and when it does it -----

  /** What unescaping code is for: every backslash followed by "}}" gives way to "}}". */
  function Unescaped(s: string): string
    decreases |s|
  {
    if s == [] then []
    else if EscapedAt(s, Code, 0) then Bracket(Code) + Unescaped(s[3..])
    else [s[0]] + Unescaped(s[1..])
  }

  ghost predicate HoldsEscaped(s: string) {
    exists i :: 0 <= i < |s| && EscapedAt(s, Code, i)
  }

  lemma HoldsEscapedTail(s: string)
    requires s != [] && !EscapedAt(s, Code, 0)
    ensures HoldsEscaped(s) <==> HoldsEscaped(s[1..])
  {
    if i :| 0 <= i < |s| && EscapedAt(s, Code, i) {
      assert EscapedAt(s[1..], Code, i - 1);
    }
    if i :| 0 <= i < |s[1..]| && EscapedAt(s[1..], Code, i) {
      assert EscapedAt(s, Code, i + 1);
    }
  }

  /** Code comes out unescaped exactly when it held no escaped bracket in the first place. */
  lemma {:induction false} EscapeCodeIff(s: string)
    ensures EscapeCode(s) == Unescaped(s) <==> !HoldsEscaped(s)
    decreases |s|
  {
    if s == [] {
    } else if |s| >= 4 && s[..4] == ['\\', '\\', '}', '}'] {
      assert s[..4][0] == s[0] && s[..4][1] == s[1] && s[..4][2] == s[2] && s[..4][3] == s[3];
      assert EscapedAt(s, Code, 1);
      assert EscapeCode(s)[0] == '}' && Unescaped(s)[0] == '\\';
    } else if EscapedAt(s, Code, 0) {
      assert EscapeCode(s)[0] == '\\' && Unescaped(s)[0] == '}';
    } else {
      EscapeCodeIff(s[1..]);
      HoldsEscapedTail(s);
      assert EscapeCode(s)[1..] == EscapeCode(s[1..]) && Unescaped(s)[1..] == Unescaped(s[1..]);
    }
  }

  /** In every template, a returned code chunk is the scanned one unescaped exactly when it held no escaped bracket. */
  lemma SplitUnescapesIff(expression: string, i: nat)
    requires i < |Rest(expression, Text, "")| && Rest(expression, Text, "")[i].kind.Code?
    ensures var scanned := ScanFrom(expression, Text, "").chunks[i].text;
      Rest(expression, Text, "")[i].text == Unescaped(scanned) <==> !HoldsEscaped(scanned)
  {
    EscapeCodeIff(ScanFrom(expression, Text, "").chunks[i].text);
  }

  /** The shortest code that shows it. */
  lemma EscapedBracketIsKept()
    ensures EscapeCode(EscapedBracket(Code)) == EscapedBracket(Code)
    ensures Unescaped(EscapedBracket(Code)) == Bracket(Code)
  {
    var s := EscapedBracket(Code);
    assert s[1..] == Bracket(Code) && Bracket(Code)[1..] == ['}'] && ['}'][1..] == [];
    assert s[3..] == [];
    assert Bracket(Code) + [] == Bracket(Code);
  }

  lemma FindEscapedBehindPlain(text: string, k: Kind, rest: string, i: nat)
    requires Plain(Chunk(k, text)) && i <= |text|
    ensures FindBracket(text + EscapedBracket(k) + rest, k, i) == Match(|text|, |text| + 3, true)
    decreases |text| - i
  {
    var s := text + EscapedBracket(k) + rest;
    assert s[|text|] == '\\' && s[|text| + 1] == Mark(k) && s[|text| + 2] == Mark(k);
    if i == |text| {
      assert EscapedAt(s, k, i);
    } else {
      assert s[i] == text[i];
      assert !PlainAt(text, k, i);
      if i + 1 < |text| {
        assert s[i + 1] == text[i + 1];
        assert !PlainAt(text, k, i + 1);
        assert i + 2 < |text| ==> s[i + 2] == text[i + 2];
      }
      assert !PlainAt(s, k, i) && !EscapedAt(s, k, i);
      FindEscapedBehindPlain(text, k, rest, i + 1);
    }
  }

  /** Two backslashes in front of "}}". */
  predicate DoubleAt(s: string, i: nat) {
    i + 3 < |s| && s[i] == '\\' && s[i + 1] == '\\' && s[i + 2] == '}' && s[i + 3] == '}'
  }

  lemma {:induction false} NothingToEscape(s: string)
    requires forall i :: 0 <= i < |s| ==> !DoubleAt(s, i)
    ensures EscapeCode(s) == s
    decreases |s|
  {
    if s == [] {
    } else {
      forall i | 0 <= i < |s[1..]|
        ensures !DoubleAt(s[1..], i)
      {
        assert !DoubleAt(s, i + 1);
      }
      assert !DoubleAt(s, 0);
      if |s| >= 4 {
        assert s[..4][0] == s[0] && s[..4][1] == s[1] && s[..4][2] == s[2] && s[..4][3] == s[3];
      }
      NothingToEscape(s[1..]);
    }
  }

  lemma NoDoubleAround(a: string, b: string, i: nat)
    requires Plain(Chunk(Code, a)) && Plain(Chunk(Code, b))
    ensures !DoubleAt(a + EscapedBracket(Code) + b, i)
  {
    var s, n := a + EscapedBracket(Code) + b, |a|;
    assert s[n] == '\\' && s[n + 1] == '}' && s[n + 2] == '}';
    if i + 3 < n {
      assert s[i + 2] == a[i + 2] && s[i + 3] == a[i + 3];
      assert !PlainAt(a, Code, i + 2);
    } else if i < n {
      assert s[n - 1] == a[n - 1];
    } else if i > n + 2 && i + 3 < |s| {
      assert s[i + 2] == b[i - n - 1] && s[i + 3] == b[i - n];
      assert !PlainAt(b, Code, i - n - 1);
    }
  }

  lemma ScanEscapedCode(a: string, b: string, rest: string)
    requires Plain(Chunk(Code, a)) && Plain(Chunk(Code, b))
    ensures ScanFrom(a + EscapedBracket(Code) + (b + Bracket(Code) + rest), Code, "").chunks
         == [Chunk(Code, a + EscapedBracket(Code) + b)] + ScanFrom(rest, Text, "").chunks
  {
    var front, tail := a + EscapedBracket(Code), b + Bracket(Code) + rest;
    FindEscapedBehindPlain(a, Code, tail, 0);
    assert (front + tail)[..|a| + 3] == front && (front + tail)[|a| + 3..] == tail && "" + front == front;
    assert ScanFrom(front + tail, Code, "") == ScanFrom(tail, Code, front);
    FindBehindPlain(b, Code, rest, 0);
    assert tail[..|b|] == b && tail[|b| + 2..] == rest;
    assert ScanFrom(tail, Code, front).chunks == [Chunk(Code, front + b)] + ScanFrom(rest, Text, "").chunks;
  }

  lemma ScanOpened(code: string)
    ensures ScanFrom(Bracket(Text) + code, Text, "").chunks == [Chunk(Text, "")] + ScanFrom(code, Code, "").chunks
  {
    var s := Bracket(Text) + code;
    assert PlainAt(s, Text, 0) && s[0] != '\\';
    assert FindBracket(s, Text, 0) == Match(0, 2, false);
    assert s[2..] == code && s[..0] == "" && "" + "" == "";
  }

  /** An escaped closing bracket inside code reaches the evaluator with its backslash. */
  lemma SplitKeepsBackslash(a: string, b: string)
    requires Plain(Chunk(Code, a)) && Plain(Chunk(Code, b))
    ensures var code := a + EscapedBracket(Code) + b;
      Rest(Bracket(Text) + (a + EscapedBracket(Code) + (b + Bracket(Code) + "")), Text, "")
      == [Chunk(Text, ""), Chunk(Code, code)]
  {
    var code := a + EscapedBracket(Code) + b;
    ScanOpened(a + EscapedBracket(Code) + (b + Bracket(Code) + ""));
    ScanEscapedCode(a, b, "");
    forall i | 0 <= i < |code|
      ensures !DoubleAt(code, i)
    {
      NoDoubleAround(a, b, i);
    }
    NothingToEscape(code);
    var scanned := [Chunk(Text, ""), Chunk(Code, code)];
    assert [Chunk(Text, "")] + ([Chunk(Code, code)] + []) == scanned;
    assert FinishAll(scanned) == scanned;
  }

  /** Splitting a printed template returns the chunks that were printed. */
  lemma SplitOfPrint(chunks: seq<Chunk>)
    requires Canonical(chunks, Text)
    ensures Rest(Print(chunks), Text, "") == chunks
  {
    if chunks != [] {
      CanonicalTail(chunks, Text);
    }
    SplitOfPrintFrom(chunks, Text);
    forall i | 0 <= i < |chunks|
      ensures Finish(chunks[i]) == chunks[i]
    {
      assert Plain(chunks[i]);
      if chunks[i].kind.Code? {
        PlainCodeUnchanged(chunks[i].text);
      }
    }
  }

  /** Every opened code chunk was closed, and nothing was lost. */
  ghost predicate Balanced(scan: Scan, first: Kind) {
    LastSearch(scan, first).Text? && (scan.ending.Consumed? ==> scan.ending.buffer == "")
  }

  lemma AlternatesTail(chunks: seq<Chunk>, first: Kind)
    requires Alternates(chunks, first) && chunks != []
    ensures Alternates(chunks[1..], Other(first)) && chunks[0].kind == first
  {
    assert forall i :: 0 <= i < |chunks[1..]| ==> chunks[1..][i] == chunks[i + 1];
  }

  lemma {:induction false} ReassembleVersusPrint(scan: Scan, first: Kind)
    requires Alternates(scan.chunks, first) && (scan.ending.Unterminated? ==> scan.chunks != [])
    requires Balanced(scan, first)
    ensures Reassemble(scan) == PrintRest(scan.chunks)
    decreases |scan.chunks|
  {
    if scan.chunks != [] {
      var rest := Scan(scan.chunks[1..], scan.ending);
      AlternatesTail(scan.chunks, first);
      PrintPieces(scan.chunks, first);
      if |scan.chunks| == 1 && scan.ending.Unterminated? {
        assert Reassemble(rest) == "";
        assert scan.chunks[0].text + [] + "" == scan.chunks[0].text;
      } else {
        assert LastSearch(rest, Other(first)) == LastSearch(scan, first);
        ReassembleVersusPrint(rest, Other(first));
      }
    }
  }

  lemma {:induction false} UnbalancedLength(scan: Scan, first: Kind)
    requires Alternates(scan.chunks, first) && (scan.ending.Unterminated? ==> scan.chunks != [])
    requires !Balanced(scan, first) && (scan.chunks != [] || first.Text?)
    ensures |Reassemble(scan)| != |PrintRest(scan.chunks)|
    decreases |scan.chunks|
  {
    if scan.chunks != [] {
      var rest := Scan(scan.chunks[1..], scan.ending);
      AlternatesTail(scan.chunks, first);
      PrintPieces(scan.chunks, first);
      if |scan.chunks| > 1 || (first.Code? && scan.ending.Consumed?) {
        assert LastSearch(rest, Other(first)) == LastSearch(scan, first);
        UnbalancedLength(rest, Other(first));
      }
    }
  }

  /** Printing what was scanned gives back the template exactly when it was balanced. */
  lemma PrintOfSplitIff(expression: string)
    ensures var scan := ScanFrom(expression, Text, ""); Print(scan.chunks) == expression <==> Balanced(scan, Text)
  {
    var scan := ScanFrom(expression, Text, "");
    SplitIsLossless(expression);
    ScanAlternates(expression, Text, "");
    if scan.chunks != [] {
      AlternatesTail(scan.chunks, Text);
    }
    if Balanced(scan, Text) {
      ReassembleVersusPrint(scan, Text);
    } else {
      UnbalancedLength(scan, Text);
    }
  }
}
