/** `split_code`: one forward scan over the lines of an example script that
    sorts each line into the leading `from __future__` imports, the leading
    docstring, or the rest of the code, dropping blank lines, shebang lines
    and encoding declarations on the way.

    `Step` is the body of the scan's `for` loop on a state holding the two mode
    flags and the three accumulator lists; `Run` folds it over the lines;
    `SplitSource` is the whole function. `SplitCode` is the loop itself,
    proved to compute `SplitSource`. The lemmas state what the scan promises:
    the mode invariant, the body latch, the docstring rules and the shape of
    the three outputs. */
module Splitter {
  import opened Text
  import opened CodingPattern

  const FutureImportPrefix: string := "from __future__ import"
  const SingleQuotes: string := "'''"
  const DoubleQuotes: string := "\"\"\""

  predicate IsShebang(line: string) {
    StartsWith(line, "#!")
  }

  predicate IsFutureImport(line: string) {
    StartsWith(line, FutureImportPrefix)
  }

  predicate OpensTripleQuote(line: string) {
    StartsWith(line, SingleQuotes) || StartsWith(line, DoubleQuotes)
  }

  predicate ClosesTripleQuote(line: string) {
    EndsWith(line, SingleQuotes) || EndsWith(line, DoubleQuotes)
  }

  /** Lines skipped in every mode, even inside a docstring and after the body
      has started. */
  predicate AlwaysDropped(line: string) {
    IsCodingDeclaration(line) || IsShebang(line)
  }

  /** A stripped line that survives the filters when no docstring is open. */
  predicate Kept(line: string) {
    |line| > 0 && !AlwaysDropped(line)
  }

  /** A line with no trailing whitespace, as `rstrip()` leaves it. */
  predicate IsStripped(line: string) {
    line == [] || !IsSpace(line[|line| - 1])
  }

  datatype ScanState = ScanState(
    inMultilineComment: bool,
    headerParsed: bool,
    futureImports: seq<string>,
    docstring: seq<string>,
    otherCode: seq<string>)

  const Start := ScanState(false, false, [], [], [])

  /** One iteration of the scan on the raw line `raw`. */
  function Step(st: ScanState, raw: string): ScanState {
    var line := RStrip(raw);
    if |line| == 0 && !st.inMultilineComment then st
    else if IsCodingDeclaration(line) then st
    else if IsShebang(line) then st
    else if st.headerParsed then st.(otherCode := st.otherCode + [line])
    else if st.inMultilineComment then
      if ClosesTripleQuote(line) then
        st.(docstring := st.docstring + [line[..|line| - 3]], inMultilineComment := false)
      else
        st.(docstring := st.docstring + [line])
    else if IsFutureImport(line) then
      st.(futureImports := st.futureImports + [line])
    else if OpensTripleQuote(line) then
      if ClosesTripleQuote(line) && |line| >= 6 then
        st.(docstring := st.docstring + [line[3..|line| - 3]])
      else
        st.(inMultilineComment := true, docstring := st.docstring + [line[3..]])
    else
      st.(otherCode := st.otherCode + [line], headerParsed := true)
  }

  /** The scan of `lines` from state `st`. */
  function Run(st: ScanState, lines: seq<string>): ScanState
    decreases |lines|
  {
    if lines == [] then st
    else Step(Run(st, lines[..|lines| - 1]), lines[|lines| - 1])
  }

  /** The scan of the first `i + 1` lines is one step after that of the
      first `i`. */
  lemma RunPrefix(st: ScanState, lines: seq<string>, i: int)
    requires 0 <= i < |lines|
    ensures Run(st, lines[..i + 1]) == Step(Run(st, lines[..i]), lines[i])
  {
    assert lines[..i + 1][..i] == lines[..i];
  }

  datatype Parts = Parts(futureImports: string, docstring: string, otherCode: string)

  /** The three joined outputs; a non-empty import list gets one more, empty,
      element before joining. */
  function Finish(st: ScanState): Parts {
    var future := if |st.futureImports| > 0 then st.futureImports + [[]] else st.futureImports;
    Parts(Join(future, '\n'), Join(st.docstring, '\n'), Join(st.otherCode, '\n'))
  }

  /** `split_code(code)` */
  function SplitSource(code: string): Parts {
    Finish(Run(Start, Split(code, '\n')))
  }

  /** The scan as the source runs it: a loop over the lines that updates the
      two flags and appends to the three lists. */
  method SplitCode(code: string) returns (futureImports: string, docstring: string, otherCode: string)
    ensures Parts(futureImports, docstring, otherCode) == SplitSource(code)
  {
    var lines := Split(code, '\n');
    var inMultilineComment, headerParsed := false, false;
    var future: seq<string>, doc: seq<string>, other: seq<string> := [], [], [];
    for i := 0 to |lines|
      invariant ScanState(inMultilineComment, headerParsed, future, doc, other) == Run(Start, lines[..i])
    {
      RunPrefix(Start, lines, i);
      var line := RStrip(lines[i]);
      if |line| == 0 && !inMultilineComment {
        continue;
      }
      if IsCodingDeclaration(line) {
        continue;
      }
      if IsShebang(line) {
        continue;
      }
      if headerParsed {
        other := other + [line];
      } else if inMultilineComment {
        if ClosesTripleQuote(line) {
          doc := doc + [line[..|line| - 3]];
          inMultilineComment := false;
        } else {
          doc := doc + [line];
        }
      } else {
        if IsFutureImport(line) {
          future := future + [line];
        } else if OpensTripleQuote(line) {
          if ClosesTripleQuote(line) && |line| >= 6 {
            doc := doc + [line[3..|line| - 3]];
          } else {
            inMultilineComment := true;
            doc := doc + [line[3..]];
          }
        } else {
          other := other + [line];
          headerParsed := true;
        }
      }
    }
    assert lines[..|lines|] == lines;
    if |future| > 0 {
      future := future + [""];
    }
    futureImports := Join(future, '\n');
    docstring := Join(doc, '\n');
    otherCode := Join(other, '\n');
  }

  // ---------------------------------------------------------------------
  // The mode invariant

  /** What every reachable state satisfies: the two modes never hold together,
      the body is non-empty exactly once the header is parsed, and the import
      and body lists hold only kept, stripped lines (imports starting with
      `from __future__ import`). */
  ghost predicate Wf(st: ScanState) {
    !(st.headerParsed && st.inMultilineComment) &&
    (st.headerParsed <==> st.otherCode != []) &&
    (forall i | 0 <= i < |st.futureImports| ::
       IsFutureImport(st.futureImports[i]) && Kept(st.futureImports[i]) && IsStripped(st.futureImports[i])) &&
    (forall i | 0 <= i < |st.otherCode| :: Kept(st.otherCode[i]) && IsStripped(st.otherCode[i]))
  }

  lemma StepKeepsWf(st: ScanState, raw: string)
    requires Wf(st)
    ensures Wf(Step(st, raw))
  {
    var line := RStrip(raw);
    assert IsStripped(line);
    var r := Step(st, raw);
    if (|line| == 0 && !st.inMultilineComment) || AlwaysDropped(line) {
      assert r == st;
    } else if st.headerParsed {
      assert r.otherCode == st.otherCode + [line];
    } else if st.inMultilineComment {
      assert r.otherCode == st.otherCode && r.futureImports == st.futureImports;
    } else if IsFutureImport(line) {
      assert r.futureImports == st.futureImports + [line];
    } else if OpensTripleQuote(line) {
      assert r.otherCode == st.otherCode && r.futureImports == st.futureImports;
    } else {
      assert r.otherCode == st.otherCode + [line];
    }
  }

  lemma {:induction false} RunKeepsWf(st: ScanState, lines: seq<string>)
    requires Wf(st)
    ensures Wf(Run(st, lines))
    decreases |lines|
  {
    if lines != [] {
      RunKeepsWf(st, lines[..|lines| - 1]);
      StepKeepsWf(Run(st, lines[..|lines| - 1]), lines[|lines| - 1]);
    }
  }

  /** Scanning two pieces one after the other is scanning their concatenation. */
  lemma {:induction false} RunAppend(st: ScanState, a: seq<string>, b: seq<string>)
    ensures Run(st, a + b) == Run(Run(st, a), b)
    decreases |b|
  {
    if b == [] {
      assert a + b == a;
    } else {
      var ab, init, last := a + b, b[..|b| - 1], b[|b| - 1];
      calc {
        Run(st, ab);
        { assert ab[..|ab| - 1] == a + init && ab[|ab| - 1] == last; }
        Step(Run(st, a + init), last);
        { RunAppend(st, a, init); }
        Step(Run(Run(st, a), init), last);
      }
    }
  }

  // ---------------------------------------------------------------------
  // Line filters, in every mode

  /** Shebang lines and encoding declarations are skipped whatever the mode. */
  lemma DroppedLineIgnored(st: ScanState, raw: string)
    requires AlwaysDropped(RStrip(raw))
    ensures Step(st, raw) == st
  {
  }

  /** A blank line is skipped unless a docstring is open, where it is kept as
      an empty docstring line. */
  lemma BlankLine(st: ScanState, raw: string)
    requires Wf(st)
    requires RStrip(raw) == []
    ensures Step(st, raw) == if st.inMultilineComment then st.(docstring := st.docstring + [[]]) else st
  {
  }

  // ---------------------------------------------------------------------
  // The body latch

  /** The stripped lines that survive the filters, in order. */
  function KeptLines(lines: seq<string>): (r: seq<string>)
    ensures forall i | 0 <= i < |r| :: Kept(r[i])
    decreases |lines|
  {
    if lines == [] then []
    else
      var line := RStrip(lines[|lines| - 1]);
      KeptLines(lines[..|lines| - 1]) + (if Kept(line) then [line] else [])
  }

  /** Once the header is parsed the scan only appends the kept lines to the
      body: the flags, the imports and the docstring never change again. */
  lemma {:induction false} HeaderLatch(st: ScanState, lines: seq<string>)
    requires Wf(st) && st.headerParsed
    ensures Run(st, lines) == st.(otherCode := st.otherCode + KeptLines(lines))
    decreases |lines|
  {
    if lines != [] {
      var init := lines[..|lines| - 1];
      HeaderLatch(st, init);
    }
  }

  /** `k` is the line that starts the body: the header is not parsed before
      it and is parsed after it. */
  ghost predicate BodyStartsAt(lines: seq<string>, k: int) {
    0 <= k < |lines| && !Run(Start, lines[..k]).headerParsed && Run(Start, lines[..k + 1]).headerParsed
  }

  lemma {:induction false} FindBodyStart(lines: seq<string>, n: int) returns (k: int)
    requires 0 <= n <= |lines| && Run(Start, lines[..n]).headerParsed
    ensures k < n && BodyStartsAt(lines, k)
    decreases n
  {
    assert n > 0;
    assert lines[..n][..n - 1] == lines[..n - 1];
    if Run(Start, lines[..n - 1]).headerParsed {
      k := FindBodyStart(lines, n - 1);
    } else {
      k := n - 1;
    }
  }

  /** The line that starts the body is a kept line, outside any docstring,
      that is neither a future import nor a triple-quote opener. */
  lemma BodyStartLine(lines: seq<string>, k: int)
    requires BodyStartsAt(lines, k)
    ensures var line := RStrip(lines[k]);
            Kept(line) && !IsFutureImport(line) && !OpensTripleQuote(line) &&
            !Run(Start, lines[..k]).inMultilineComment
  {
    assert lines[..k + 1][..k] == lines[..k];
  }

  /** Either no line ever starts the body and the body is empty, or one line
      does: the body is that line followed by every later kept line, whatever
      it holds, and the imports and docstring are what they were just before
      it. */
  lemma BodyAfterStart(lines: seq<string>)
    ensures var r := Run(Start, lines);
            (!r.headerParsed && r.otherCode == []) ||
            (exists k :: BodyStartsAt(lines, k) && r.headerParsed &&
               r.otherCode == [RStrip(lines[k])] + KeptLines(lines[k + 1..]) &&
               r.futureImports == Run(Start, lines[..k]).futureImports &&
               r.docstring == Run(Start, lines[..k]).docstring)
  {
    var r := Run(Start, lines);
    RunKeepsWf(Start, lines);
    assert lines[..|lines|] == lines;
    if r.headerParsed {
      var k := FindBodyStart(lines, |lines|);
      BodyFrom(lines, k);
    }
  }

  /** The line that starts the body starts it with itself. */
  lemma BodyStartStep(st: ScanState, raw: string)
    requires !st.headerParsed && !st.inMultilineComment && st.otherCode == []
    requires var line := RStrip(raw); Kept(line) && !IsFutureImport(line) && !OpensTripleQuote(line)
    ensures Step(st, raw) == st.(otherCode := [RStrip(raw)], headerParsed := true)
  {
  }

  /** The state after the scan, given the line `k` that starts the body. */
  lemma BodyFrom(lines: seq<string>, k: int)
    requires BodyStartsAt(lines, k)
    ensures Run(Start, lines) ==
            Run(Start, lines[..k]).(otherCode := [RStrip(lines[k])] + KeptLines(lines[k + 1..]), headerParsed := true)
  {
    var s := Run(Start, lines[..k]);
    var head, tail := lines[..k + 1], lines[k + 1..];
    RunKeepsWf(Start, lines[..k]);
    BodyStartLine(lines, k);
    var m := s.(otherCode := [RStrip(lines[k])], headerParsed := true);
    calc {
      Run(Start, head);
      { assert head[..k] == lines[..k] && head[k] == lines[k]; }
      Step(s, lines[k]);
      { BodyStartStep(s, lines[k]); }
      m;
    }
    StepKeepsWf(s, lines[k]);
    calc {
      Run(Start, lines);
      { assert lines == head + tail; }
      Run(Start, head + tail);
      { RunAppend(Start, head, tail); }
      Run(m, tail);
      { HeaderLatch(m, tail); }
      m.(otherCode := m.otherCode + KeptLines(tail));
    }
  }

  // ---------------------------------------------------------------------
  // The docstring

  /** A triple-quote opener outside the body and outside a docstring: a line of
      at least six characters that also ends in a triple quote is a one-line
      docstring without its quotes; anything else opens a multi-line docstring
      and contributes what follows the opening quotes. */
  lemma DocstringOpening(st: ScanState, raw: string)
    requires !st.headerParsed && !st.inMultilineComment
    requires var line := RStrip(raw); Kept(line) && !IsFutureImport(line) && OpensTripleQuote(line)
    ensures var line := RStrip(raw);
            Step(st, raw) ==
              if ClosesTripleQuote(line) && |line| >= 6
              then st.(docstring := st.docstring + [line[3..|line| - 3]])
              else st.(docstring := st.docstring + [line[3..]], inMultilineComment := true)
  {
  }

  /** The lines kept inside an open docstring: everything but shebang lines
      and encoding declarations, blank lines included. */
  function DocLines(lines: seq<string>): (r: seq<string>)
    ensures forall i | 0 <= i < |r| :: !AlwaysDropped(r[i])
    decreases |lines|
  {
    if lines == [] then []
    else
      var line := RStrip(lines[|lines| - 1]);
      DocLines(lines[..|lines| - 1]) + (if AlwaysDropped(line) then [] else [line])
  }

  /** While a docstring is open and no line closes it, every line that is not
      dropped is copied into the docstring and nothing else changes; in
      particular the body stays empty. */
  lemma {:induction false} DocstringStaysOpen(st: ScanState, lines: seq<string>)
    requires Wf(st) && st.inMultilineComment
    requires forall i | 0 <= i < |lines| :: AlwaysDropped(RStrip(lines[i])) || !ClosesTripleQuote(RStrip(lines[i]))
    ensures Run(st, lines) == st.(docstring := st.docstring + DocLines(lines))
    ensures Run(st, lines).otherCode == []
    decreases |lines|
  {
    if lines != [] {
      DocstringStaysOpen(st, lines[..|lines| - 1]);
    }
  }

  /** Inside a docstring the first kept line that ends in either triple quote
      closes it, whichever quote opened it, and contributes the line without
      its last three characters. */
  lemma DocstringClosing(st: ScanState, raw: string)
    requires Wf(st) && st.inMultilineComment
    requires var line := RStrip(raw); !AlwaysDropped(line) && ClosesTripleQuote(line)
    ensures var line := RStrip(raw);
            Step(st, raw) == st.(docstring := st.docstring + [line[..|line| - 3]], inMultilineComment := false)
  {
  }

  /** A docstring still open after `head` and never closed by a line of
      `rest` leaves the body output empty. */
  lemma UnterminatedDocstring(head: seq<string>, rest: seq<string>)
    requires Run(Start, head).inMultilineComment
    requires forall i | 0 <= i < |rest| :: !ClosesTripleQuote(RStrip(rest[i]))
    ensures Finish(Run(Start, head + rest)).otherCode == []
  {
    RunKeepsWf(Start, head);
    DocstringStaysOpen(Run(Start, head), rest);
    RunAppend(Start, head, rest);
  }

  // ---------------------------------------------------------------------
  // The outputs

  /** The empty file splits into three empty strings. */
  lemma SplitEmpty()
    ensures SplitSource("") == Parts("", "", "")
  {
    assert Split("", '\n') == [[]];
    assert RStrip([]) == [];
  }

  /** A code line that starts the body when it comes first. */
  predicate IsPlainCodeLine(line: string) {
    Kept(line) && IsStripped(line) && '\n' !in line && !IsFutureImport(line) && !OpensTripleQuote(line)
  }

  lemma SplitThreeLines(a: string, b: string)
    requires '\n' !in a && '\n' !in b
    ensures Split(a + "\n" + b + "\n", '\n') == [a, b, ""]
  {
    assert Split(b + "\n", '\n') == [b, ""] by {
      SplitWithoutSeparator(b, '\n');
      SplitConcat(b, "", '\n');
      assert b + "\n" == b + ['\n'] + "";
    }
    assert a + "\n" + b + "\n" == a + ['\n'] + (b + "\n");
    SplitWithoutSeparator(a, '\n');
    SplitConcat(a, b + "\n", '\n');
  }

  lemma RunLines(st: ScanState, a: string, b: string, c: string)
    ensures Run(st, [a, b, c]) == Step(Step(Step(st, a), b), c)
  {
    assert [a, b, c][..2] == [a, b] && [a, b][..1] == [a] && [a][..0] == [];
    assert Run(st, [a]) == Step(st, a);
    assert Run(st, [a, b]) == Step(Run(st, [a]), b);
  }

  /** An import line followed by a code line: the import output is the import
      and exactly one newline (the empty element appended before joining),
      and the trailing empty line of the file is dropped. */
  lemma FutureImportThenCode(imp: string, code: string)
    requires IsFutureImport(imp) && Kept(imp) && IsStripped(imp) && '\n' !in imp
    requires IsPlainCodeLine(code)
    ensures SplitSource(imp + "\n" + code + "\n") == Parts(imp + "\n", "", code)
  {
    var afterImport := Start.(futureImports := [imp]);
    var afterCode := afterImport.(otherCode := [code], headerParsed := true);
    calc {
      SplitSource(imp + "\n" + code + "\n");
      { SplitThreeLines(imp, code); }
      Finish(Run(Start, [imp, code, ""]));
      { RunLines(Start, imp, code, ""); }
      Finish(Step(Step(Step(Start, imp), code), ""));
      { assert RStrip(imp) == imp; }
      Finish(Step(Step(afterImport, code), ""));
      { assert RStrip(code) == code; }
      Finish(Step(afterCode, ""));
      Finish(afterCode);
      { JoinWithEmptyLast(imp); }
      Parts(imp + "\n", "", code);
    }
  }

  lemma JoinWithEmptyLast(line: string)
    ensures Join([line, ""], '\n') == line + "\n"
  {
    assert [line, ""][1..] == [""];
    assert line + ['\n'] + "" == line + "\n";
  }

  /** A one-line docstring `'''text'''` followed by a code line: the docstring
      output is `text`, whatever it holds, and the body is the code line. */
  lemma OneLineDocstringThenCode(text: string, code: string)
    requires '\n' !in text
    requires IsPlainCodeLine(code)
    ensures SplitSource(SingleQuotes + text + SingleQuotes + "\n" + code + "\n") == Parts("", text, code)
  {
    var doc := SingleQuotes + text + SingleQuotes;
    var afterDoc := Start.(docstring := [text]);
    var afterCode := afterDoc.(otherCode := [code], headerParsed := true);
    calc {
      SplitSource(doc + "\n" + code + "\n");
      { assert '\n' !in doc;
        SplitThreeLines(doc, code); }
      Finish(Run(Start, [doc, code, ""]));
      { RunLines(Start, doc, code, ""); }
      Finish(Step(Step(Step(Start, doc), code), ""));
      { OneLineDocstringStep(text); }
      Finish(Step(Step(afterDoc, code), ""));
      { assert RStrip(code) == code; }
      Finish(Step(afterCode, ""));
      Finish(afterCode);
    }
  }

  lemma OneLineDocstringStep(text: string)
    ensures Step(Start, SingleQuotes + text + SingleQuotes) == Start.(docstring := [text])
  {
    var doc := SingleQuotes + text + SingleQuotes;
    assert doc[|doc| - 1] == '\'';
    assert RStrip(doc) == doc;
    assert SkipLeadingBlanks(doc, 0) == 0;
    assert OpensTripleQuote(doc) && ClosesTripleQuote(doc) && !IsFutureImport(doc) && !IsShebang(doc);
    assert doc[3..|doc| - 3] == text;
  }

  /** A shebang line and an encoding declaration before a code line are both
      dropped. */
  lemma ShebangAndCodingThenCode(bang: string, coding: string, code: string)
    requires IsShebang(RStrip(bang)) && '\n' !in bang
    requires IsCodingDeclaration(RStrip(coding)) && '\n' !in coding
    requires IsPlainCodeLine(code)
    ensures SplitSource(bang + "\n" + coding + "\n" + code + "\n") == Parts("", "", code)
  {
    var rest := [coding, code, ""];
    var src := bang + "\n" + coding + "\n" + code + "\n";
    var afterCode := Start.(otherCode := [code], headerParsed := true);
    calc {
      SplitSource(src);
      Finish(Run(Start, Split(src, '\n')));
      { RegroupLines(bang, coding, code);
        SplitFirstLine(bang, coding + "\n" + code + "\n");
        SplitThreeLines(coding, code); }
      Finish(Run(Start, [bang] + rest));
      { RunAppend(Start, [bang], rest);
        assert [bang][..0] == [];
        DroppedLineIgnored(Start, bang); }
      Finish(Run(Start, rest));
      { RunLines(Start, coding, code, ""); }
      Finish(Step(Step(Step(Start, coding), code), ""));
      { DroppedLineIgnored(Start, coding); }
      Finish(Step(Step(Start, code), ""));
      { assert RStrip(code) == code; }
      Finish(Step(afterCode, ""));
      Finish(afterCode);
    }
  }

  lemma RegroupLines(a: string, b: string, c: string)
    ensures a + "\n" + b + "\n" + c + "\n" == a + "\n" + (b + "\n" + c + "\n")
  {
  }

  lemma SplitFirstLine(first: string, rest: string)
    requires '\n' !in first
    ensures Split(first + "\n" + rest, '\n') == [first] + Split(rest, '\n')
  {
    SplitWithoutSeparator(first, '\n');
    SplitConcat(first, rest, '\n');
  }

  /** The import output is empty when no import was collected, and otherwise
      the imports joined by newlines with exactly one newline after the last;
      splitting it gives back the imports and one empty line. */
  lemma FutureImportsOutput(lines: seq<string>)
    ensures var imports := Run(Start, lines).futureImports;
            var out := Finish(Run(Start, lines)).futureImports;
            (imports == [] ==> out == []) &&
            (imports != [] ==> out == Join(imports, '\n') + "\n")
    ensures var imports := Run(Start, lines).futureImports;
            forall i | 0 <= i < |imports| :: IsFutureImport(imports[i]) && Kept(imports[i])
  {
    var imports := Run(Start, lines).futureImports;
    RunKeepsWf(Start, lines);
    if imports != [] {
      JoinSnoc(imports, [], '\n');
    }
  }

  /** Only newline-free lines enter the state when the input lines have no
      newline (as the parts of `split('\n')` have not). */
  ghost predicate NewlineFree(st: ScanState) {
    (forall i | 0 <= i < |st.futureImports| :: '\n' !in st.futureImports[i]) &&
    (forall i | 0 <= i < |st.docstring| :: '\n' !in st.docstring[i]) &&
    (forall i | 0 <= i < |st.otherCode| :: '\n' !in st.otherCode[i])
  }

  lemma StepKeepsNewlineFree(st: ScanState, raw: string)
    requires NewlineFree(st) && '\n' !in raw
    ensures NewlineFree(Step(st, raw))
  {
    var line := RStrip(raw);
    assert '\n' !in line by {
      assert line <= raw;
      forall j | 0 <= j < |line| ensures line[j] != '\n' {
        assert line[j] == raw[j];
      }
    }
    var r := Step(st, raw);
    if (|line| == 0 && !st.inMultilineComment) || AlwaysDropped(line) {
      assert r == st;
    } else if st.headerParsed {
      assert r == st.(otherCode := st.otherCode + [line]);
    } else if st.inMultilineComment {
      var piece := if ClosesTripleQuote(line) then line[..|line| - 3] else line;
      assert '\n' !in piece by {
        forall j | 0 <= j < |piece| ensures piece[j] != '\n' {
          assert piece[j] == line[j];
        }
      }
      assert r.docstring == st.docstring + [piece];
    } else if IsFutureImport(line) {
      assert r == st.(futureImports := st.futureImports + [line]);
    } else if OpensTripleQuote(line) {
      var piece := if ClosesTripleQuote(line) && |line| >= 6 then line[3..|line| - 3] else line[3..];
      assert '\n' !in piece by {
        forall j | 0 <= j < |piece| ensures piece[j] != '\n' {
          assert piece[j] == line[j + 3];
        }
      }
      assert r.docstring == st.docstring + [piece];
    } else {
      assert r.otherCode == st.otherCode + [line];
    }
  }

  lemma {:induction false} RunKeepsNewlineFree(st: ScanState, lines: seq<string>)
    requires NewlineFree(st)
    requires forall i | 0 <= i < |lines| :: '\n' !in lines[i]
    ensures NewlineFree(Run(st, lines))
    decreases |lines|
  {
    if lines != [] {
      RunKeepsNewlineFree(st, lines[..|lines| - 1]);
      StepKeepsNewlineFree(Run(st, lines[..|lines| - 1]), lines[|lines| - 1]);
    }
  }

  /** Read back line by line, the body output of `split_code` holds only kept
      lines: no blank line, no shebang line, no encoding declaration, no
      trailing whitespace; the import output is the imports and one empty
      line. */
  lemma OutputLines(code: string)
    ensures var body := SplitSource(code).otherCode;
            body == [] || forall l | l in Split(body, '\n') :: Kept(l) && IsStripped(l)
    ensures var imports := Run(Start, Split(code, '\n')).futureImports;
            var out := SplitSource(code).futureImports;
            out == [] || Split(out, '\n') == imports + [[]]
  {
    var lines := Split(code, '\n');
    var st := Run(Start, lines);
    RunKeepsWf(Start, lines);
    RunKeepsNewlineFree(Start, lines);
    if st.otherCode != [] {
      SplitJoin(st.otherCode, '\n');
    }
    if st.futureImports != [] {
      SplitJoin(st.futureImports + [[]], '\n');
    }
  }
}
