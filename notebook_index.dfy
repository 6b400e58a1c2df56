/** The markdown link lists of the index notebook: one `* [title](path)` line
    per tutorial, and for the examples one link line per example with a
    heading line before each run of examples from the same directory. */
module NotebookIndex {
  import opened Text

  /** A tutorial as collected before the index is built: its title and its
      notebook path. */
  datatype Tutorial = Tutorial(title: string, fname: string)

  /** An example as collected before the index is built: its directory below
      the examples folder (`""` for the folder itself, `/`-separated) and its
      `.py` file name. */
  datatype Example = Example(root: string, fname: string)

  // ---------------------------------------------------------------------
  // Tutorials

  /** `'* [{title}]({fname})'` */
  function TutorialLine(t: Tutorial): string {
    "* [" + t.title + "](" + t.fname + ")"
  }

  function TutorialLines(ts: seq<Tutorial>): seq<string> {
    seq(|ts|, i requires 0 <= i < |ts| => TutorialLine(ts[i]))
  }

  /** The tutorial list: one link line per tutorial, in the given order. */
  function TutorialsIndex(ts: seq<Tutorial>): string {
    Unlines(TutorialLines(ts))
  }

  /** The loop that builds `tutorials_index` with `+=`. */
  method BuildTutorialsIndex(ts: seq<Tutorial>) returns (index: string)
    ensures index == TutorialsIndex(ts)
  {
    index := "";
    for i := 0 to |ts|
      invariant index == Unlines(TutorialLines(ts[..i]))
    {
      var t := ts[i];
      TutorialsIndexStep(ts, i);
      index := index + "* [" + t.title + "](" + t.fname + ")\n";
    }
    assert ts[..|ts|] == ts;
  }

  /** Processing tutorial `i` appends its link line. */
  lemma TutorialsIndexStep(ts: seq<Tutorial>, i: int)
    requires 0 <= i < |ts|
    ensures TutorialsIndex(ts[..i + 1]) ==
            TutorialsIndex(ts[..i]) + "* [" + ts[i].title + "](" + ts[i].fname + ")\n"
  {
    var before, line := TutorialLines(ts[..i]), TutorialLine(ts[i]);
    calc {
      TutorialsIndex(ts[..i + 1]);
      { assert TutorialLines(ts[..i + 1]) == before + [line]; }
      Unlines(before + [line]);
      { UnlinesAppend(before, [line]); }
      Unlines(before) + Unlines([line]);
      { assert Unlines([line]) == line + "\n"; }
      Unlines(before) + (line + "\n");
      { LinkLineText(Unlines(before), ts[i].title, ts[i].fname); }
      Unlines(before) + "* [" + ts[i].title + "](" + ts[i].fname + ")\n";
    }
  }

  lemma LinkLineText(x: string, name: string, target: string)
    ensures x + ("* [" + name + "](" + target + ")" + "\n") == x + "* [" + name + "](" + target + ")\n"
  {
    assert ")" + "\n" == ")\n";
  }

  /** Read back line by line, the tutorial list holds exactly one link per
      tutorial, in order, and ends with a newline. */
  lemma TutorialsIndexLines(ts: seq<Tutorial>)
    requires forall i | 0 <= i < |ts| :: '\n' !in ts[i].title && '\n' !in ts[i].fname
    ensures Split(TutorialsIndex(ts), '\n') == TutorialLines(ts) + [[]]
  {
    var lines := TutorialLines(ts);
    forall i | 0 <= i < |lines| ensures '\n' !in lines[i] {
      assert lines[i] == "* [" + ts[i].title + "](" + ts[i].fname + ")";
    }
    SplitUnlines(lines);
  }

  // ---------------------------------------------------------------------
  // Examples

  /** The notebook an example is converted to, relative to the index:
      `examples/<root>/<name>.ipynb`, or `examples/<name>.ipynb` at the top
      level, where `<name>` is the file name without its last three
      characters. */
  function ExampleTarget(e: Example): string {
    if e.root != "" then "examples/" + e.root + "/" + DropLast3(e.fname) + ".ipynb"
    else "examples/" + DropLast3(e.fname) + ".ipynb"
  }

  /** `'* [{name}]({fullfname})'` */
  function ExampleLine(e: Example): string {
    "* [" + DropLast3(e.fname) + "](" + ExampleTarget(e) + ")"
  }

  /** The heading line of a directory: one `#` more than a level-2 heading
      per `/` in its path. */
  function HeadingLine(root: string): string {
    Repeat('#', Count('/', root) + 3) + " " + root
  }

  /** The root of the entry before entry `i`; before the first entry it is the
      empty root the loop starts from. */
  function PreviousRoot(es: seq<Example>, i: int): string
    requires 0 <= i < |es|
  {
    if i == 0 then "" else es[i - 1].root
  }

  /** The lines entry `i` contributes: a blank line, the heading and a blank
      line when its root differs from the previous entry's, then its link. */
  function EntryLines(es: seq<Example>, i: int): seq<string>
    requires 0 <= i < |es|
  {
    (if es[i].root != PreviousRoot(es, i) then ["", HeadingLine(es[i].root), ""] else []) +
    [ExampleLine(es[i])]
  }

  function ExampleLines(es: seq<Example>): seq<string>
    decreases |es|
  {
    if es == [] then [] else ExampleLines(es[..|es| - 1]) + EntryLines(es, |es| - 1)
  }

  /** The example list: the lines of every entry, each ended by a newline. */
  function ExamplesIndex(es: seq<Example>): string {
    Unlines(ExampleLines(es))
  }

  lemma HeadedEntryText(h: string, link: string)
    ensures Unlines(["", h, "", link]) == "\n" + h + "\n\n" + link + "\n"
  {
    var lines := ["", h, "", link];
    assert lines[1..] == [h, "", link] && lines[1..][1..] == ["", link] && lines[1..][1..][1..] == [link];
    assert Unlines([link]) == link + "\n";
    assert Unlines(["", link]) == "\n" + link + "\n";
    assert Unlines([h, "", link]) == h + "\n" + ("\n" + link + "\n");
  }

  /** The text entry `i` adds to the index: the heading text when its root
      differs from the previous entry's, then the link text. */
  lemma EntryText(es: seq<Example>, i: int)
    requires 0 <= i < |es|
    ensures Unlines(EntryLines(es, i)) ==
            (if es[i].root != PreviousRoot(es, i) then HeadingText(es[i].root) else "") + LinkText(es[i])
  {
    var link := ExampleLine(es[i]);
    LinkTextIsLine(es[i]);
    if es[i].root == PreviousRoot(es, i) {
      assert EntryLines(es, i) == [link];
      assert Unlines([link]) == link + "\n";
    } else {
      var h := HeadingLine(es[i].root);
      assert EntryLines(es, i) == ["", h, "", link];
      HeadedEntryText(h, link);
      HeadingTextIsLine(es[i].root);
      assert "\n" + h + "\n\n" + link + "\n" == ("\n" + h + "\n\n") + (link + "\n");
    }
  }

  /** The text a heading adds: `'\n'+'#'*(root.count('/')+3)+' '+root+'\n\n'`. */
  function HeadingText(root: string): string {
    "\n" + Repeat('#', Count('/', root) + 3) + " " + root + "\n\n"
  }

  /** The text a link adds: `'* [{name}]({fullfname})\n'`. */
  function LinkText(e: Example): string {
    "* [" + DropLast3(e.fname) + "](" + ExampleTarget(e) + ")\n"
  }

  lemma Regroup(p: string, a: string, b: string, c: string, q: string)
    ensures p + a + b + c + q == p + (a + b + c) + q
  {
  }

  lemma HeadingTextIsLine(root: string)
    ensures HeadingText(root) == "\n" + HeadingLine(root) + "\n\n"
  {
    Regroup("\n", Repeat('#', Count('/', root) + 3), " ", root, "\n\n");
  }

  lemma LinkTextIsLine(e: Example)
    ensures LinkText(e) == ExampleLine(e) + "\n"
  {
    var name, target := DropLast3(e.fname), ExampleTarget(e);
    assert "* [" + name + "](" + target + ")\n" == "* [" + name + "](" + target + ")" + "\n";
  }

  lemma ExampleLinesSnoc(es: seq<Example>, i: int)
    requires 0 <= i < |es|
    ensures ExampleLines(es[..i + 1]) == ExampleLines(es[..i]) + EntryLines(es, i)
  {
    var prefix := es[..i + 1];
    assert prefix[..i] == es[..i];
    assert prefix[i] == es[i] && PreviousRoot(prefix, i) == PreviousRoot(es, i);
    assert EntryLines(prefix, i) == EntryLines(es, i);
  }

  /** Processing entry `i` appends its text to the index of the entries
      before it. */
  lemma ExamplesIndexStep(es: seq<Example>, i: int)
    requires 0 <= i < |es|
    ensures ExamplesIndex(es[..i + 1]) ==
            ExamplesIndex(es[..i]) + (if es[i].root != PreviousRoot(es, i) then HeadingText(es[i].root) else "") +
            LinkText(es[i])
  {
    var before, entry := ExampleLines(es[..i]), EntryLines(es, i);
    var h := if es[i].root != PreviousRoot(es, i) then HeadingText(es[i].root) else "";
    var l := LinkText(es[i]);
    calc {
      ExamplesIndex(es[..i + 1]);
      { ExampleLinesSnoc(es, i); }
      Unlines(before + entry);
      { UnlinesAppend(before, entry); }
      Unlines(before) + Unlines(entry);
      { EntryText(es, i); }
      Unlines(before) + (h + l);
      { Associate(Unlines(before), h, l); }
      Unlines(before) + h + l;
    }
  }

  lemma Associate(x: string, h: string, l: string)
    ensures x + (h + l) == x + h + l
  {
  }

  /** The loop that builds `examples_index` with `+=`, remembering the last
      root it wrote a heading for in `curroot`. */
  method BuildExamplesIndex(es: seq<Example>) returns (index: string)
    ensures index == ExamplesIndex(es)
  {
    index := "";
    var curroot := "";
    for i := 0 to |es|
      invariant index == ExamplesIndex(es[..i])
      invariant curroot == if i == 0 then "" else es[i - 1].root
    {
      var e := es[i];
      ExamplesIndexStep(es, i);
      if curroot != e.root {
        index := index + HeadingText(e.root);
        curroot := e.root;
      } else {
        assert index + "" == index;
      }
      var fullfname;
      if e.root != "" {
        fullfname := "examples/" + e.root + "/" + DropLast3(e.fname) + ".ipynb";
      } else {
        fullfname := "examples/" + DropLast3(e.fname) + ".ipynb";
      }
      assert fullfname == ExampleTarget(e);
      index := index + ("* [" + DropLast3(e.fname) + "](" + fullfname + ")\n");
    }
    assert es[..|es|] == es;
  }

  /** Read back line by line, the example list is the entries' lines in
      order. */
  lemma ExamplesIndexLines(es: seq<Example>)
    requires forall i | 0 <= i < |es| :: '\n' !in es[i].root && '\n' !in es[i].fname
    ensures Split(ExamplesIndex(es), '\n') == ExampleLines(es) + [[]]
  {
    ExampleLinesNewlineFree(es);
    SplitUnlines(ExampleLines(es));
  }

  lemma EntryLinesNewlineFree(es: seq<Example>, i: int)
    requires 0 <= i < |es| && '\n' !in es[i].root && '\n' !in es[i].fname
    ensures forall j | 0 <= j < |EntryLines(es, i)| :: '\n' !in EntryLines(es, i)[j]
  {
    var e := es[i];
    var hashes := Repeat('#', Count('/', e.root) + 3);
    assert '\n' !in hashes;
    assert '\n' !in HeadingLine(e.root) by {
      assert HeadingLine(e.root) == hashes + " " + e.root;
    }
    var stem := DropLast3(e.fname);
    assert '\n' !in stem by {
      if |e.fname| >= 3 {
        assert e.fname == stem + e.fname[|e.fname| - 3..];
      }
    }
    assert '\n' !in ExampleTarget(e);
    assert '\n' !in ExampleLine(e);
  }

  lemma {:induction false} ExampleLinesNewlineFree(es: seq<Example>)
    requires forall i | 0 <= i < |es| :: '\n' !in es[i].root && '\n' !in es[i].fname
    ensures forall j | 0 <= j < |ExampleLines(es)| :: '\n' !in ExampleLines(es)[j]
    decreases |es|
  {
    if es != [] {
      var n := |es| - 1;
      ExampleLinesNewlineFree(es[..n]);
      EntryLinesNewlineFree(es, n);
      var a, b := ExampleLines(es[..n]), EntryLines(es, n);
      assert ExampleLines(es) == a + b;
      forall j | 0 <= j < |a + b| ensures '\n' !in (a + b)[j] {
        if j < |a| {
          assert (a + b)[j] == a[j];
        } else {
          assert (a + b)[j] == b[j - |a|];
        }
      }
    }
  }

  /** The entries whose link is preceded by a heading: exactly those whose
      root differs from the previous entry's, the first one only when its
      root is not empty. */
  lemma HeadingPlacement(es: seq<Example>, i: int)
    requires 0 <= i < |es|
    ensures |EntryLines(es, i)| == (if es[i].root != PreviousRoot(es, i) then 4 else 1)
    ensures EntryLines(es, i)[|EntryLines(es, i)| - 1] == ExampleLine(es[i])
    ensures i == 0 && es[0].root == "" ==> EntryLines(es, i) == [ExampleLine(es[0])]
    ensures es[i].root != PreviousRoot(es, i) ==> EntryLines(es, i)[1] == HeadingLine(es[i].root)
  {
  }

  /** The number of `#` that open a line. */
  function LeadingHashes(s: string): nat {
    if s != [] && s[0] == '#' then 1 + LeadingHashes(s[1..]) else 0
  }

  /** The heading of a directory has markdown level three plus the number of
      `/` in its path. */
  lemma {:induction false} HeadingLevel(root: string)
    ensures LeadingHashes(HeadingLine(root)) == Count('/', root) + 3
  {
    HashesThenSpace(Count('/', root) + 3, root);
  }

  lemma {:induction false} HashesThenSpace(n: nat, rest: string)
    ensures LeadingHashes(Repeat('#', n) + " " + rest) == n
  {
    var s := Repeat('#', n) + " " + rest;
    if n > 0 {
      assert s[1..] == Repeat('#', n - 1) + " " + rest;
      HashesThenSpace(n - 1, rest);
    } else {
      assert s[0] == ' ';
    }
  }

  /** For a `.py` file the link shows the file's stem and points to the
      notebook of that stem in the example's directory. */
  lemma PythonExampleLink(root: string, stem: string)
    ensures var e := Example(root, stem + ".py");
            ExampleLine(e) == "* [" + stem + "](" + ExampleTarget(e) + ")" &&
            ExampleTarget(e) == "examples/" + (if root == "" then "" else root + "/") + stem + ".ipynb"
  {
    assert DropLast3(stem + ".py") == stem by {
      var f := stem + ".py";
      assert f[..|f| - 3] == stem;
    }
    if root == "" {
      assert "examples/" + "" == "examples/";
    } else {
      Regroup("examples/", root, "/", stem, ".ipynb");
      assert "examples/" + root + "/" + stem == "examples/" + (root + "/") + stem;
    }
  }
}
