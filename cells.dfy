/** The notebook cells built around `split_code`: the title taken from a
    tutorial's first cell, and the cells of a converted example (the banner
    note, the docstring as markdown when there is one, then one code cell of
    the imports, the matplotlib magic and the body). Cells are modelled by
    their kind and text only. */
module Cells {
  import opened Text
  import opened Splitter

  datatype Cell = Markdown(source: string) | Code(source: string)

  /** The characters `strip('# ')` removes. */
  const TitleTrim: set<char> := {'#', ' '}

  /** `cells[0]['source'].split('\n')[0].strip('# ')`: the first line of the
      first cell (the text before its first newline) without the `#` and
      blanks around it. */
  function NotebookTitle(firstCell: string): (title: string)
    ensures var line := Split(firstCell, '\n')[0];
            line <= firstCell && '\n' !in line &&
            (|line| == |firstCell| || firstCell[|line|] == '\n') &&
            exists i, j | 0 <= i <= j <= |line| ::
              title == line[i..j] && (forall p | 0 <= p < i :: line[p] in TitleTrim) &&
              (forall p | j <= p < |line| :: line[p] in TitleTrim)
    ensures '\n' !in title
    ensures title == [] || (title[0] !in TitleTrim && title[|title| - 1] !in TitleTrim)
  {
    SplitFirstPart(firstCell, '\n');
    Strip(Split(firstCell, '\n')[0], TitleTrim)
  }

  /** A first cell whose first line is heading marks (`#`, `##`, with or
      without a blank) and then a title yields that title, whether or not
      more lines follow. */
  lemma HeadingTitle(marks: string, t: string, rest: string)
    requires forall p | 0 <= p < |marks| :: marks[p] in TitleTrim
    requires '\n' !in t && (t == [] || (t[0] !in TitleTrim && t[|t| - 1] !in TitleTrim))
    requires rest == [] || rest[0] == '\n'
    ensures NotebookTitle(marks + t + rest) == t
  {
    var line := marks + t;
    assert '\n' !in line;
    SplitWithoutSeparator(line, '\n');
    if rest != [] {
      SplitConcat(line, rest[1..], '\n');
      assert marks + t + rest == line + ['\n'] + rest[1..];
    } else {
      assert marks + t + rest == line;
    }
    assert Split(marks + t + rest, '\n')[0] == line;
    var cls := OneOf(TitleTrim);
    if t != [] {
      assert line[|line| - 1] == t[|t| - 1];
      assert TrimEnd(line, cls) == line;
      TrimStartPrefix(marks, t, cls);
    } else {
      assert line == marks;
      assert TrimEnd(line, cls) == [];
    }
  }

  /** `%matplotlib notebook` and its newline, put before the code. */
  const Magic: string := "%matplotlib notebook\n"

  /** The cells of an example notebook, given the banner note and the three
      parts `split_code` returned. */
  function ExampleCells(note: string, parts: Parts): seq<Cell> {
    [Markdown(note)] +
    (if |parts.docstring| > 0 then [Markdown(parts.docstring)] else []) +
    [Code(parts.futureImports + Magic + parts.otherCode)]
  }

  /** Splitting an example's code and assembling its cells, appending to the
      cell list as the conversion loop does. */
  method AssembleExampleCells(note: string, code: string) returns (cells: seq<Cell>)
    ensures cells == ExampleCells(note, SplitSource(code))
  {
    var futureImports, docstring, body := SplitCode(code);
    cells := [Markdown(note)];
    if |docstring| > 0 {
      cells := cells + [Markdown(docstring)];
    }
    cells := cells + [Code(futureImports + Magic + body)];
  }

  /** An example notebook is the note, then the docstring cell exactly when
      the docstring is not empty, then one code cell of the imports, the magic
      and the body. */
  lemma ExampleCellsShape(note: string, parts: Parts)
    ensures var cells := ExampleCells(note, parts);
            |cells| == (if parts.docstring == [] then 2 else 3) &&
            cells[0] == Markdown(note) &&
            (parts.docstring != [] ==> cells[1] == Markdown(parts.docstring)) &&
            cells[|cells| - 1] == Code(parts.futureImports + Magic + parts.otherCode)
  {
  }

  /** In the code cell the magic starts a line of its own: the import text
      before it is empty or ends with a newline. */
  lemma MagicOnOwnLine(code: string)
    ensures var imports := SplitSource(code).futureImports;
            imports == [] || imports[|imports| - 1] == '\n'
  {
    var lines := Split(code, '\n');
    FutureImportsOutput(lines);
  }
}
