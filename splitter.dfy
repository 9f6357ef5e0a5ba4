/** The section splitter `parse`: the input is split into lines, and a line-oriented state
    machine groups a run of comment lines with the code lines that follow it. A section is
    emitted when a comment line arrives after code, and once more at the end. */
module Splitter {
  import opened Text
  import opened Comments
  import opened Languages

  /** The lines of one section, in source order: its documentation lines (comment lines with
      the comment match removed), then its code lines. */
  datatype Block = Block(docs: seq<Bytes>, code: seq<Bytes>)

  /** The state of the splitter after some lines: the sections already emitted and the
      lines gathered for the next one. `hasCode` is `current.code != []`. */
  datatype ScanState = ScanState(done: seq<Block>, current: Block)

  /** Reading one line: a comment line after code emits the pending section and starts a new
      one with the line's documentation text; any other comment line adds to the pending
      documentation; a code line adds to the pending code. */
  function Step(st: ScanState, line: Bytes, symbol: Bytes): ScanState
  {
    if IsComment(line, symbol) then
      if st.current.code != [] then ScanState(st.done + [st.current], Block([Strip(line, symbol)], []))
      else ScanState(st.done, Block(st.current.docs + [Strip(line, symbol)], []))
    else ScanState(st.done, Block(st.current.docs, st.current.code + [line]))
  }

  /** The state after reading `lines`, one line at a time. */
  function Scan(lines: seq<Bytes>, symbol: Bytes): ScanState
    decreases |lines|
  {
    if lines == [] then ScanState([], Block([], []))
    else Step(Scan(lines[..|lines| - 1], symbol), lines[|lines| - 1], symbol)
  }

  /** The sections of `lines`: those emitted while reading, then the final one. */
  function Blocks(lines: seq<Bytes>, symbol: Bytes): seq<Block>
  {
    var st := Scan(lines, symbol);
    st.done + [st.current]
  }

  /** The state after one more line of `lines`. */
  lemma ScanPrefix(lines: seq<Bytes>, i: nat, symbol: Bytes)
    requires i < |lines|
    ensures Scan(lines[..i + 1], symbol) == Step(Scan(lines[..i], symbol), lines[i], symbol)
  {
    assert lines[..i + 1][..i] == lines[..i];
  }

  // ---------------------------------------------------------------------------------------
  // Section count and which sections may be empty

  /** Number of places where a comment line directly follows a code line: the flushes. */
  function Flushes(lines: seq<Bytes>, symbol: Bytes): nat
    decreases |lines|
  {
    if |lines| < 2 then 0
    else
      var n := |lines|;
      Flushes(lines[..n - 1], symbol)
        + (if IsComment(lines[n - 1], symbol) && !IsComment(lines[n - 2], symbol) then 1 else 0)
  }

  /** What the scan keeps after every line: every emitted section has code, every emitted
      section but the first has documentation, the pending documentation is non-empty once a
      section was emitted, code is pending exactly when the last line was a code line, and one
      section was emitted per flush. */
  lemma {:induction false} ScanInvariant(lines: seq<Bytes>, symbol: Bytes)
    ensures var st := Scan(lines, symbol);
            && (forall k | 0 <= k < |st.done| :: st.done[k].code != [])
            && (forall k | 0 < k < |st.done| :: st.done[k].docs != [])
            && (|st.done| > 0 ==> st.current.docs != [])
            && (st.current.code != [] <==> lines != [] && !IsComment(lines[|lines| - 1], symbol))
            && |st.done| == Flushes(lines, symbol)
    decreases |lines|
  {
    if lines != [] {
      var n := |lines|;
      var prefix := lines[..n - 1];
      ScanInvariant(prefix, symbol);
      if n >= 2 {
        assert prefix[|prefix| - 1] == lines[n - 2];
      }
    }
  }

  /** `parse` always returns at least one section, and one more than there are flushes: a
      section ends exactly where a comment line directly follows a code line. */
  lemma SectionCount(lines: seq<Bytes>, symbol: Bytes)
    ensures |Blocks(lines, symbol)| == Flushes(lines, symbol) + 1
    ensures |Blocks(lines, symbol)| >= 1
  {
    ScanInvariant(lines, symbol);
  }

  /** Every section but the last has code; every section but the first has documentation. */
  lemma SectionsNonEmpty(lines: seq<Bytes>, symbol: Bytes)
    ensures var bs := Blocks(lines, symbol);
            && (forall k | 0 <= k < |bs| - 1 :: bs[k].code != [])
            && (forall k | 0 < k < |bs| :: bs[k].docs != [])
  {
    ScanInvariant(lines, symbol);
  }

  /** Comments alone never flush: lines that are all comments, like a leading comment block,
      give one section holding all of them as documentation and no code. */
  lemma {:induction false} OnlyComments(lines: seq<Bytes>, symbol: Bytes)
    requires forall i | 0 <= i < |lines| :: IsComment(lines[i], symbol)
    ensures |Blocks(lines, symbol)| == 1
    ensures Blocks(lines, symbol)[0].code == []
    ensures Blocks(lines, symbol)[0].docs == seq(|lines|, i requires 0 <= i < |lines| => Strip(lines[i], symbol))
    decreases |lines|
  {
    if lines != [] {
      var n := |lines|;
      var prefix := lines[..n - 1];
      OnlyComments(prefix, symbol);
      assert seq(n, i requires 0 <= i < n => Strip(lines[i], symbol))
          == seq(n - 1, i requires 0 <= i < n - 1 => Strip(prefix[i], symbol)) + [Strip(lines[n - 1], symbol)];
    }
  }

  /** Without comment lines there is one section: no documentation, and every line as code. */
  lemma {:induction false} NoComments(lines: seq<Bytes>, symbol: Bytes)
    requires forall i | 0 <= i < |lines| :: !IsComment(lines[i], symbol)
    ensures Blocks(lines, symbol) == [Block([], lines)]
    decreases |lines|
  {
    if lines != [] {
      var n := |lines|;
      NoComments(lines[..n - 1], symbol);
      var st := Scan(lines[..n - 1], symbol);
      assert st.done + [st.current] == [Block([], lines[..n - 1])];
      assert |st.done| == 0;
      assert (st.done + [st.current])[0] == st.current;
      assert lines[..n - 1] + [lines[n - 1]] == lines;
    }
  }

  // ---------------------------------------------------------------------------------------
  // Line conservation

  /** A line as the splitter classifies it: documentation text, or code copied verbatim. */
  datatype Line = Doc(text: Bytes) | Code(text: Bytes)

  function Classify(line: Bytes, symbol: Bytes): Line
  {
    if IsComment(line, symbol) then Doc(Strip(line, symbol)) else Code(line)
  }

  function Classified(lines: seq<Bytes>, symbol: Bytes): seq<Line>
  {
    seq(|lines|, i requires 0 <= i < |lines| => Classify(lines[i], symbol))
  }

  function DocLines(docs: seq<Bytes>): seq<Line>
  {
    seq(|docs|, i requires 0 <= i < |docs| => Doc(docs[i]))
  }

  function CodeLines(code: seq<Bytes>): seq<Line>
  {
    seq(|code|, i requires 0 <= i < |code| => Code(code[i]))
  }

  function LinesOf(b: Block): seq<Line>
  {
    DocLines(b.docs) + CodeLines(b.code)
  }

  /** The lines of a sequence of sections, section by section: documentation, then code. */
  function Flatten(bs: seq<Block>): seq<Line>
  {
    if bs == [] then [] else Flatten(bs[..|bs| - 1]) + LinesOf(bs[|bs| - 1])
  }

  /** The round trip of the splitter: reading the sections in order, each one's documentation
      lines and then its code lines, gives back every input line in source order, each comment
      line as its documentation text and each other line verbatim. No line is lost, repeated
      or moved, and within a section the documentation comes before the code. */
  lemma {:induction false} SectionsReassemble(lines: seq<Bytes>, symbol: Bytes)
    ensures Flatten(Blocks(lines, symbol)) == Classified(lines, symbol)
  {
    ScanReassembles(lines, symbol);
    var st := Scan(lines, symbol);
    assert (st.done + [st.current])[..|st.done|] == st.done;
  }

  lemma {:induction false} ScanReassembles(lines: seq<Bytes>, symbol: Bytes)
    ensures var st := Scan(lines, symbol);
            Flatten(st.done) + LinesOf(st.current) == Classified(lines, symbol)
    decreases |lines|
  {
    if lines == [] {
      assert LinesOf(Block([], [])) == [];
    } else {
      var n := |lines|;
      var prefix := lines[..n - 1];
      ScanReassembles(prefix, symbol);
      ClassifiedSnoc(lines, symbol);
      ReassembleStep(Scan(prefix, symbol), lines[n - 1], symbol);
    }
  }

  /** Reading one more line extends the reassembled lines by that line's classification. */
  lemma ReassembleStep(st: ScanState, line: Bytes, symbol: Bytes)
    ensures var st' := Step(st, line, symbol);
            Flatten(st'.done) + LinesOf(st'.current) == Flatten(st.done) + LinesOf(st.current) + [Classify(line, symbol)]
  {
    var cur := st.current;
    if IsComment(line, symbol) {
      var d := Strip(line, symbol);
      if cur.code != [] {
        var done' := st.done + [cur];
        assert done'[..|done'| - 1] == st.done;
        assert LinesOf(Block([d], [])) == [Doc(d)];
      } else {
        assert DocLines(cur.docs + [d]) == DocLines(cur.docs) + [Doc(d)];
        assert CodeLines(cur.code) == [];
      }
    } else {
      assert CodeLines(cur.code + [line]) == CodeLines(cur.code) + [Code(line)];
    }
  }

  lemma ClassifiedSnoc(lines: seq<Bytes>, symbol: Bytes)
    requires lines != []
    ensures Classified(lines, symbol)
              == Classified(lines[..|lines| - 1], symbol) + [Classify(lines[|lines| - 1], symbol)]
  {
  }

  /** Number of lines held by a sequence of sections. */
  function LineCount(bs: seq<Block>): nat
  {
    if bs == [] then 0 else LineCount(bs[..|bs| - 1]) + |bs[|bs| - 1].docs| + |bs[|bs| - 1].code|
  }

  lemma {:induction false} FlattenLength(bs: seq<Block>)
    ensures |Flatten(bs)| == LineCount(bs)
  {
    if bs != [] {
      FlattenLength(bs[..|bs| - 1]);
    }
  }

  /** Lines are conserved: the sections hold as many lines as the input has. */
  lemma LinesConserved(lines: seq<Bytes>, symbol: Bytes)
    ensures LineCount(Blocks(lines, symbol)) == |lines|
  {
    SectionsReassemble(lines, symbol);
    FlattenLength(Blocks(lines, symbol));
  }

  /** The non-comment lines of the input, in order. */
  function CodeOf(lines: seq<Bytes>, symbol: Bytes): seq<Bytes>
  {
    if lines == [] then []
    else
      var n := |lines|;
      CodeOf(lines[..n - 1], symbol) + (if IsComment(lines[n - 1], symbol) then [] else [lines[n - 1]])
  }

  /** The code lines of a sequence of sections, section by section. */
  function AllCode(bs: seq<Block>): seq<Bytes>
  {
    if bs == [] then [] else AllCode(bs[..|bs| - 1]) + bs[|bs| - 1].code
  }

  /** Concatenating the sections' code gives exactly the non-comment lines in source order. */
  lemma {:induction false} CodeConserved(lines: seq<Bytes>, symbol: Bytes)
    ensures AllCode(Blocks(lines, symbol)) == CodeOf(lines, symbol)
  {
    ScanCode(lines, symbol);
    var st := Scan(lines, symbol);
    assert (st.done + [st.current])[..|st.done|] == st.done;
  }

  lemma {:induction false} ScanCode(lines: seq<Bytes>, symbol: Bytes)
    ensures var st := Scan(lines, symbol); AllCode(st.done) + st.current.code == CodeOf(lines, symbol)
    decreases |lines|
  {
    if lines != [] {
      var n := |lines|;
      var prefix := lines[..n - 1];
      ScanCode(prefix, symbol);
      var st := Scan(prefix, symbol);
      if IsComment(lines[n - 1], symbol) && st.current.code != [] {
        var done' := st.done + [st.current];
        assert done'[..|done'| - 1] == st.done;
      }
    }
  }

  // ---------------------------------------------------------------------------------------
  // Sections as the bytes `parse` stores

  /** A `Section`: the raw documentation and code of one block, and the HTML that `highlight`
      fills in later (empty, like Go's nil slices, until then). */
  class Section {
    const docsText: Bytes
    const codeText: Bytes
    var docsHtml: Bytes
    var codeHtml: Bytes

    constructor (docs: Bytes, code: Bytes)
      ensures docsText == docs && codeText == code
      ensures docsHtml == [] && codeHtml == []
    {
      docsText, codeText := docs, code;
      docsHtml, codeHtml := [], [];
    }
  }

  /** Section `s` holds the lines of `b`, each followed by a newline. */
  predicate Holds(s: Section, b: Block)
  {
    s.docsText == Terminated(b.docs) && s.codeText == Terminated(b.code)
  }

  /** Section k holds block k, for every k. */
  predicate AllHold(sections: seq<Section>, bs: seq<Block>)
  {
    |sections| == |bs| && forall k | 0 <= k < |sections| :: Holds(sections[k], bs[k])
  }

  lemma AllHoldSnoc(sections: seq<Section>, bs: seq<Block>, s: Section, b: Block)
    requires AllHold(sections, bs) && Holds(s, b)
    ensures AllHold(sections + [s], bs + [b])
  {
    assert forall k | 0 <= k < |sections| :: (sections + [s])[k] == sections[k] && (bs + [b])[k] == bs[k];
  }

  /** The `save` closure of `parse`: a new section holding copies of the two buffers, appended
      to the list. */
  method Save(sections: seq<Section>, docs: Bytes, code: Bytes) returns (r: seq<Section>)
    ensures |r| == |sections| + 1 && r == sections + [r[|sections|]]
    ensures fresh(r[|sections|])
    ensures r[|sections|].docsText == docs && r[|sections|].codeText == code
    ensures r[|sections|].docsHtml == [] && r[|sections|].codeHtml == []
  {
    var s := new Section(docs, code);
    r := sections + [s];
  }

  /** The variables of `parse` represent the scan state `st`: the saved sections hold the
      emitted blocks, the two buffers hold the pending block, and `hasCode` says whether it has
      code. */
  predicate Tracks(sections: seq<Section>, hasCode: bool, docsText: Bytes, codeText: Bytes, st: ScanState)
  {
    && AllHold(sections, st.done)
    && docsText == Terminated(st.current.docs)
    && codeText == Terminated(st.current.code)
    && hasCode == (st.current.code != [])
  }

  /** One pass of the loop of `parse`: the variables go on representing the scan state, now
      after `line`. At most one section is saved, and it is new. */
  method ReadLine(language: Language, line: Bytes, sections: seq<Section>, hasCode: bool,
                  docsText: Bytes, codeText: Bytes, ghost st: ScanState)
    returns (sections': seq<Section>, hasCode': bool, docsText': Bytes, codeText': Bytes)
    requires Tracks(sections, hasCode, docsText, codeText, st)
    ensures Tracks(sections', hasCode', docsText', codeText', Step(st, line, language.symbol))
    ensures || sections' == sections
            || (&& |sections'| == |sections| + 1 && sections'[..|sections|] == sections
                && sections'[|sections|] !in sections)
    ensures forall s | s in sections' && s !in sections :: fresh(s) && s.docsHtml == [] && s.codeHtml == []
  {
    sections', hasCode', docsText', codeText' := sections, hasCode, docsText, codeText;
    if language.Matches(line) {
      if hasCode' {
        sections' := Save(sections', docsText', codeText');
        AllHoldSnoc(sections, st.done, sections'[|sections|], st.current);
        hasCode' := false;
        codeText' := [];
        docsText' := [];
      }
      var doc := Strip(line, language.symbol);
      TerminatedAppend(if st.current.code != [] then [] else st.current.docs, doc);
      docsText' := docsText' + doc + [NL];
    } else {
      hasCode' := true;
      TerminatedAppend(st.current.code, line);
      codeText' := codeText' + line + [NL];
    }
  }

  /** `parse`: the sections of `code` for `language`. The sections are new objects, one per
      block of the split input, in order, with no HTML yet. */
  method Parse(language: Language, code: Bytes) returns (sections: seq<Section>)
    ensures AllHold(sections, Blocks(Split(code), language.symbol))
    ensures forall s | s in sections :: fresh(s) && s.docsHtml == [] && s.codeHtml == []
    ensures forall j, k | 0 <= j < k < |sections| :: sections[j] != sections[k]
  {
    var lines := Split(code);
    var hasCode := false;
    var codeText: Bytes := [];
    var docsText: Bytes := [];
    sections := [];
    ghost var st := Scan([], language.symbol);
    for i := 0 to |lines|
      invariant st == Scan(lines[..i], language.symbol)
      invariant Tracks(sections, hasCode, docsText, codeText, st)
      invariant forall s | s in sections :: fresh(s) && s.docsHtml == [] && s.codeHtml == []
      invariant forall j, k | 0 <= j < k < |sections| :: sections[j] != sections[k]
    {
      ScanPrefix(lines, i, language.symbol);
      sections, hasCode, docsText, codeText :=
        ReadLine(language, lines[i], sections, hasCode, docsText, codeText, st);
      st := Step(st, lines[i], language.symbol);
    }
    assert lines[..|lines|] == lines;
    assert Blocks(lines, language.symbol) == st.done + [st.current];
    // the last section: whatever the buffers still hold
    ghost var before := sections;
    sections := Save(sections, docsText, codeText);
    AllHoldSnoc(before, st.done, sections[|before|], st.current);
  }

  /** The bytes of all sections, in order: each one's documentation, then its code. */
  function AllText(bs: seq<Block>): Bytes
  {
    if bs == [] then [] else AllText(bs[..|bs| - 1]) + Terminated(bs[|bs| - 1].docs) + Terminated(bs[|bs| - 1].code)
  }

  /** Newlines are conserved: across all sections' documentation and code there are exactly
      as many newline-terminated lines as `bytes.Split` gave pieces, one more than the input
      has newlines. */
  lemma NewlinesConserved(code: Bytes, symbol: Bytes)
    ensures CountNL(AllText(Blocks(Split(code), symbol))) == |Split(code)| == CountNL(code) + 1
  {
    var lines := Split(code);
    ScanNewlines(lines, symbol);
    var st := Scan(lines, symbol);
    var bs := st.done + [st.current];
    assert bs[..|bs| - 1] == st.done;
    CountNLAppend(AllText(st.done), Terminated(st.current.docs));
    CountNLAppend(AllText(st.done) + Terminated(st.current.docs), Terminated(st.current.code));
    SplitCount(code);
  }

  /** Newlines in the emitted sections and the two buffers. */
  function StateNewlines(st: ScanState): nat
  {
    CountNL(AllText(st.done)) + CountNL(Terminated(st.current.docs)) + CountNL(Terminated(st.current.code))
  }

  lemma {:induction false} ScanNewlines(lines: seq<Bytes>, symbol: Bytes)
    requires forall k | 0 <= k < |lines| :: NL !in lines[k]
    ensures StateNewlines(Scan(lines, symbol)) == |lines|
    decreases |lines|
  {
    if lines != [] {
      var n := |lines|;
      ScanNewlines(lines[..n - 1], symbol);
      NewlinesStep(Scan(lines[..n - 1], symbol), lines[n - 1], symbol);
    }
  }

  /** Reading a newline-free line adds exactly one newline to the sections and buffers. */
  lemma NewlinesStep(st: ScanState, line: Bytes, symbol: Bytes)
    requires NL !in line
    ensures StateNewlines(Step(st, line, symbol)) == StateNewlines(st) + 1
  {
    var cur := st.current;
    if IsComment(line, symbol) {
      var d := Strip(line, symbol);
      StripIsSuffix(line, symbol);
      OneMoreLine(if cur.code != [] then [] else cur.docs, d);
      if cur.code != [] {
        var done' := st.done + [cur];
        assert done'[..|done'| - 1] == st.done;
        assert [] + [d] == [d];
        assert Terminated([]) == [];
        CountNLAppend(AllText(st.done), Terminated(cur.docs));
        CountNLAppend(AllText(st.done) + Terminated(cur.docs), Terminated(cur.code));
      } else {
        assert Terminated(cur.code) == [];
      }
    } else {
      OneMoreLine(cur.code, line);
    }
  }

  lemma OneMoreLine(ls: seq<Bytes>, x: Bytes)
    requires NL !in x
    ensures CountNL(Terminated(ls + [x])) == CountNL(Terminated(ls)) + 1
  {
    TerminatedAppend(ls, x);
    CountNLAppend(Terminated(ls) + x, [NL]);
    CountNLAppend(Terminated(ls), x);
    CountNLNone(x);
  }

  /** An empty file gives exactly one section: no documentation, and one empty code line,
      because splitting the empty input gives one empty piece. */
  lemma EmptyInput(symbol: Bytes)
    requires symbol != []
    ensures Blocks(Split([]), symbol) == [Block([], [[]])]
    ensures Terminated([]) == [] && Terminated([[]]) == [NL]
  {
    var lines: seq<Bytes> := [[]];
    assert Split([]) == lines;
    assert !IsComment([], symbol);
    assert lines[..0] == [];
    assert Scan(lines, symbol) == ScanState([], Block([], [] + [[]]));
    assert [] + [[]] == lines;
    assert lines[1..] == [];
    assert Terminated(lines) == lines[0] + [NL] + Terminated(lines[1..]);
    assert lines[0] + [NL] == [NL];
  }

  /** Without comment lines there is one section with no documentation whose code is the
      input followed by one newline. */
  lemma NoCommentInput(code: Bytes, symbol: Bytes)
    requires forall k | 0 <= k < |Split(code)| :: !IsComment(Split(code)[k], symbol)
    ensures var bs := Blocks(Split(code), symbol);
            |bs| == 1 && Terminated(bs[0].docs) == [] && Terminated(bs[0].code) == code + [NL]
  {
    NoComments(Split(code), symbol);
    TerminatedSplit(code);
  }

  /** How the splitter groups two comment lines, a code line, a comment line and a code line. */
  lemma GroupingExample(sym: Bytes, l0: Bytes, l1: Bytes, l2: Bytes, l3: Bytes, l4: Bytes)
    requires IsComment(l0, sym) && IsComment(l1, sym) && IsComment(l3, sym)
    requires !IsComment(l2, sym) && !IsComment(l4, sym)
    ensures Blocks([l0, l1, l2, l3, l4], sym)
              == [Block([Strip(l0, sym), Strip(l1, sym)], [l2]), Block([Strip(l3, sym)], [l4])]
  {
    var lines := [l0, l1, l2, l3, l4];
    var t, d, m := Strip(l0, sym), Strip(l1, sym), Strip(l3, sym);
    var one: seq<Bytes> := [l0];
    assert one[..0] == [];
    assert Scan([l0], sym) == ScanState([], Block([t], []));
    assert [l0, l1][..1] == [l0];
    assert Scan([l0, l1], sym) == ScanState([], Block([t, d], []));
    assert [l0, l1, l2][..2] == [l0, l1];
    assert Scan([l0, l1, l2], sym) == ScanState([], Block([t, d], [l2]));
    assert [l0, l1, l2, l3][..3] == [l0, l1, l2];
    assert Scan([l0, l1, l2, l3], sym) == ScanState([Block([t, d], [l2])], Block([m], []));
    assert lines[..4] == [l0, l1, l2, l3];
    assert Scan(lines, sym) == ScanState([Block([t, d], [l2])], Block([m], [l4]));
  }

  /** A line `// text` is a comment whose documentation is `text`, when `text` does not
      start with whitespace. */
  lemma SlashesAndSpace(line: Bytes, text: Bytes)
    requires line == [47, 47, 32] + text
    requires text == [] || !IsSpace(text[0])
    ensures IsComment(line, Go.symbol) && Strip(line, Go.symbol) == text
  {
    assert Go.symbol == [47, 47];
    assert LeadingSpace(line) == 0;
    assert line[2..] == [32] + text;
  }

  /** A line starting with a byte other than whitespace and `/` is code. */
  lemma PlainCodeLine(line: Bytes)
    requires line != [] && !IsSpace(line[0]) && line[0] != 47
    ensures !IsComment(line, Go.symbol)
  {
    assert Go.symbol == [47, 47];
    assert LeadingSpace(line) == 0;
  }

  /** An example: `// Title`, `// desc`, `x := 1`, `// more`,
      `y := 2` give two sections, split where the third comment follows code. */
  lemma WorkedExample()
    ensures var lines := [Ascii("// Title"), Ascii("// desc"), Ascii("x := 1"), Ascii("// more"), Ascii("y := 2")];
            Blocks(lines, Go.symbol)
              == [Block([Ascii("Title"), Ascii("desc")], [Ascii("x := 1")]), Block([Ascii("more")], [Ascii("y := 2")])]
  {
    ExampleComments();
    ExampleCode();
    GroupingExample(Go.symbol, Ascii("// Title"), Ascii("// desc"), Ascii("x := 1"), Ascii("// more"), Ascii("y := 2"));
  }

  /** The comment lines of the example and their documentation texts. */
  lemma ExampleComments()
    ensures IsComment(Ascii("// Title"), Go.symbol) && Strip(Ascii("// Title"), Go.symbol) == Ascii("Title")
    ensures IsComment(Ascii("// desc"), Go.symbol) && Strip(Ascii("// desc"), Go.symbol) == Ascii("desc")
    ensures IsComment(Ascii("// more"), Go.symbol) && Strip(Ascii("// more"), Go.symbol) == Ascii("more")
  {
    assert "// " + "Title" == "// Title";
    CommentLine("Title");
    assert "// " + "desc" == "// desc";
    CommentLine("desc");
    assert "// " + "more" == "// more";
    CommentLine("more");
  }

  /** "// " followed by a text that does not start with whitespace is a comment line whose
      documentation text is that text. */
  lemma CommentLine(text: string)
    requires forall i | 0 <= i < |text| :: text[i] as int < 256
    requires text == [] || !IsSpace(Ascii(text)[0])
    ensures IsComment(Ascii("// " + text), Go.symbol) && Strip(Ascii("// " + text), Go.symbol) == Ascii(text)
  {
    var line := Ascii("// " + text);
    assert line == [47, 47, 32] + Ascii(text);
    SlashesAndSpace(line, Ascii(text));
  }

  /** The code lines of the example. */
  lemma ExampleCode()
    ensures !IsComment(Ascii("x := 1"), Go.symbol) && !IsComment(Ascii("y := 2"), Go.symbol)
  {
    PlainCodeLine(Ascii("x := 1"));
    PlainCodeLine(Ascii("y := 2"));
  }

}
