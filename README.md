# Notebook generator core, in Dafny

`generate_notebooks.py` turns the tutorials and example scripts of a
simulator's documentation into Jupyter notebooks and writes an index notebook
listing them. This project models the parts of that script that carry logic,
and proves what they do:

- **`split_code`** (module `Splitter`). It scans an example script line by line
  and sorts each line into one of three outputs: the leading
  `from __future__` imports, the leading docstring, or the rest of the code.
  On the way it drops blank lines, shebang lines and encoding declarations.
  - `Step` is one iteration of its loop over a `ScanState`. The state holds the
    two mode flags and the three lists.
  - `Run` folds `Step` over the lines, and `SplitSource` is the whole function.
  - `SplitCode` is the loop itself, with the flags and lists as local
    variables and `continue`s. It is proved to compute `SplitSource`.
  - Where the script appends to a list, the loop rebinds an immutable
    sequence (`other := other + [line]`). Nothing is lost: the lists are
    local to the function and never shared.
- **The encoding-declaration test** at line 27 (module `CodingPattern`).
  - The regular expression is written as a left-to-right scanner,
    `IsCodingDeclaration`.
  - It is proved equal to a declarative statement of the match,
    `MatchesPattern`.
- **The index text** (module `NotebookIndex`). These are the loops that build
  `tutorials_index` and `examples_index` with `+=`.
  - Each loop is a method proved equal to a specification function.
  - Each function is the text of a list of lines: one link per entry, and for
    the examples a heading before every change of directory.
- **Cell assembly and titles** (module `Cells`).
  - The cells of a converted example: the banner note, the docstring cell when
    the docstring is not empty, and the code cell of imports, magic and body.
  - The title taken from a tutorial's first cell.
- **Python string primitives** (module `Text`). These are `split`, `join`,
  `rstrip()`, `strip(chars)`, `startswith`, `endswith`, `count`, repetition and
  `s[:-3]`, on `seq<char>`.
  - `split` keeps empty parts, so `"".split('\n')` is `['']`.
  - `rstrip()` removes exactly the characters for which Python's
    `str.isspace()` holds.
  - `s[:-3]` is empty for texts shorter than three characters.

The empty element forced onto the import list at generate_notebooks.py:56 makes
the import output end in exactly one `'\n'`, not in a blank line: one
`from __future__` import gives that line and one newline. `FutureImportThenCode`
and `FutureImportsOutput` state this, and `MagicOnOwnLine` shows it is enough
to start `%matplotlib notebook` on a line of its own.

## Model

| member | source | states |
|---|---|---|
| Text.Split | generate_notebooks.py:23 | `split('\n')` gives one more part than there are separators, and no part holds the separator |
| Text.JoinSplit | generate_notebooks.py:23 | joining the parts of a split with the same separator gives the text back |
| Text.SplitJoin | generate_notebooks.py:57 | splitting a join of separator-free parts gives the parts back |
| Text.JoinSnoc | generate_notebooks.py:56-57 | joining a list with one more part appends the separator and that part |
| Text.SplitConcat | generate_notebooks.py:23 | a separator between two texts cuts there: the parts are those of the left text, then those of the right |
| Text.TrimEnd | generate_notebooks.py:24 | the result is a prefix of the text, its last character is not stripped, and every removed character is |
| Text.TrimStart | generate_notebooks.py:93 | the result is a suffix of the text, its first character is not stripped, and every removed character is |
| Text.RStrip | generate_notebooks.py:24 | `rstrip()` is `TrimEnd` over Python's whitespace: a prefix of the line, not ending in whitespace, with only whitespace removed |
| Text.Strip | generate_notebooks.py:93 | `strip(chars)` is a slice `s[i..j]` with only characters of `chars` before `i` and after `j`, and neither end of the result in `chars`, so the stripped prefix and suffix are the longest such |
| Text.TrimStartPrefix | generate_notebooks.py:93 | stripping a prefix made only of stripped characters from a text that does not start with one leaves that text |
| Text.SplitFirstPart | generate_notebooks.py:93 | the first part of a split is a prefix of the text, followed by the separator or by the end of the text |
| Text.Join | generate_notebooks.py:57 | `sep.join(parts)`; its partner is `Split`, through `JoinSplit` and `SplitJoin` |
| Text.Count | generate_notebooks.py:158 | `s.count(c)`, the number of positions holding `c`; `HeadingLevel` relates it to the heading's `#` marks |
| Text.DropLast3 | generate_notebooks.py:161-164 | `fname[:-3]` followed by the last three characters is `fname`; shorter names give `''` |
| Text.SplitUnlines | generate_notebooks.py:151-164 | text built by appending `line + '\n'` per line splits back into those lines and one empty string |
| Text.UnlinesAppend | generate_notebooks.py:151-164 | the text of two runs of lines is the text of the first followed by that of the second |
| CodingPattern.IsCodingDeclaration | generate_notebooks.py:27 | the left-to-right scanner for the encoding pattern; `CodingDeclarationIff` proves it equal to `MatchesPattern` |
| CodingPattern.MatchesPattern | generate_notebooks.py:27 | the pattern as a statement: leading blanks, `#`, any characters without newline, `coding`, `:` or `=`, blanks and a charset name |
| CodingPattern.SkipLeadingBlanks | generate_notebooks.py:27 | `^[ \t\f]*` stops at the first character that is not a space, tab or form feed |
| CodingPattern.CharsetFromIff | generate_notebooks.py:27 | the scanner accepts `[ \t]*([-_.a-zA-Z0-9]+)` at a position exactly when blanks then a charset character follow it |
| CodingPattern.CodingSearchIff | generate_notebooks.py:27 | the lazy `.*?coding[:=]...` search succeeds exactly when some later position, reached without a newline, holds `coding`, `:` or `=`, and a charset |
| CodingPattern.CodingDeclarationIff | generate_notebooks.py:27 | the scanner accepts a line exactly when the whole pattern matches it (both directions) |
| CodingPattern.CodingDeclarationIsComment | generate_notebooks.py:27 | a matched line has `#` as its first character that is not a space, tab or form feed |
| CodingPattern.EmacsStyleDeclaration | generate_notebooks.py:27 | `# -*- coding: <name>` is matched for every charset name, whatever follows |
| CodingPattern.CodingWithoutCharset | generate_notebooks.py:27 | `# coding:` without a charset name is not matched |
| Splitter.Step | generate_notebooks.py:24-53 | one iteration of the loop on one line; `StepKeepsWf`, `DroppedLineIgnored`, `BlankLine`, `DocstringOpening` and `DocstringClosing` state what it does |
| Splitter.Run | generate_notebooks.py:23 | the loop over the lines of `code.split('\n')` from the initial state; `RunAppend` and `RunKeepsWf` state its properties |
| Splitter.Finish | generate_notebooks.py:54-57 | the three joined outputs built from the final state; `FutureImportsOutput` and `OutputLines` state their form |
| Splitter.SplitSource | generate_notebooks.py:12-57 | the whole of `split_code`: split into lines, scan, finish; `SplitCode` is proved to compute it |
| Splitter.SplitCode | generate_notebooks.py:12-57 | the loop returns exactly the three joined outputs of `SplitSource`; the invariant ties its flags and lists to the scan of the lines seen so far |
| Splitter.RunPrefix | generate_notebooks.py:23-53 | scanning one more line is one more loop iteration |
| Splitter.StepKeepsWf | generate_notebooks.py:24-53 | one iteration keeps the scan invariant: the two modes never hold together, the body is non-empty exactly once the header is parsed, and imports and body hold only non-blank, stripped, non-shebang, non-declaration lines |
| Splitter.RunKeepsWf | generate_notebooks.py:18-53 | every state the scan reaches satisfies that invariant |
| Splitter.RunAppend | generate_notebooks.py:23 | scanning two runs of lines one after the other is scanning their concatenation |
| Splitter.DroppedLineIgnored | generate_notebooks.py:27-30 | shebang lines and encoding declarations leave the state unchanged in every mode, inside a docstring and in the body too |
| Splitter.BlankLine | generate_notebooks.py:25-26 | a blank line is skipped unless a docstring is open, where it adds an empty docstring line |
| Splitter.KeptLines | generate_notebooks.py:24-30 | the lines that survive the filters are non-empty and neither shebangs nor declarations |
| Splitter.HeaderLatch | generate_notebooks.py:31-32 | once the header is parsed, the scan only appends the surviving lines to the body: flags, imports and docstring never change again |
| Splitter.FindBodyStart | generate_notebooks.py:49-53 | if the header is parsed after some lines, there is a first line that parsed it |
| Splitter.BodyStartLine | generate_notebooks.py:49-53 | the line that starts the body is kept, outside a docstring, and neither a future import nor a triple-quote opener |
| Splitter.BodyStartStep | generate_notebooks.py:49-53 | that line becomes the first body line and sets `header_parsed` |
| Splitter.BodyFrom | generate_notebooks.py:31-32 | the final state is the state before the body started, with the body set to the starting line and every later kept line |
| Splitter.BodyAfterStart | generate_notebooks.py:31-32 | either no line starts the body and it is empty, or the body is the starting line plus every later kept line, and imports and docstring are frozen at that point |
| Splitter.DocstringOpening | generate_notebooks.py:42-48 | an opener of length at least 6 that also ends in a triple quote adds `line[3:-3]`; any other opener adds `line[3:]` and opens a docstring |
| Splitter.DocLines | generate_notebooks.py:33-38 | the lines an open docstring collects are never shebangs or declarations |
| Splitter.DocstringStaysOpen | generate_notebooks.py:33-38 | while no line closes it, an open docstring copies every non-dropped line, blank ones included, and the body stays empty |
| Splitter.DocstringClosing | generate_notebooks.py:33-36 | the first kept line ending in either triple quote closes the docstring, whichever quote opened it, and adds the line minus its last three characters |
| Splitter.UnterminatedDocstring | generate_notebooks.py:33-38 | a docstring never closed leaves the body output empty |
| Splitter.SplitEmpty | generate_notebooks.py:23-26 | `split_code("")` returns three empty strings |
| Splitter.SplitThreeLines | generate_notebooks.py:23 | two newline-terminated lines split into the two lines and a trailing empty one |
| Splitter.FutureImportThenCode | generate_notebooks.py:40-41 | an import line then a code line give the import plus exactly one newline, no docstring, and the code line as body |
| Splitter.OneLineDocstringThenCode | generate_notebooks.py:42-45 | `'''text'''` then a code line give `text` as docstring and the code line as body |
| Splitter.OneLineDocstringStep | generate_notebooks.py:42-45 | a one-line docstring at the start adds its text without the quotes |
| Splitter.ShebangAndCodingThenCode | generate_notebooks.py:27-30 | a shebang and an encoding declaration before a code line are both dropped |
| Splitter.SplitFirstLine | generate_notebooks.py:23 | a first newline-free line is the first part of the split |
| Splitter.FutureImportsOutput | generate_notebooks.py:54-57 | the import output is `''` when no import was collected, else the imports joined by `'\n'` plus one `'\n'`; every collected import starts with `from __future__ import` |
| Splitter.StepKeepsNewlineFree | generate_notebooks.py:24-53 | one iteration on a line without newline adds only lines without newline |
| Splitter.RunKeepsNewlineFree | generate_notebooks.py:23-53 | the scan of the parts of `split('\n')` holds only lines without newline |
| Splitter.OutputLines | generate_notebooks.py:54-57 | read back by lines, the body holds only non-blank, stripped, non-dropped lines, and the import output is the imports and one empty line |
| NotebookIndex.TutorialsIndex | generate_notebooks.py:151-153 | the tutorial list text, one link line per tutorial in order; `BuildTutorialsIndex` computes it and `TutorialsIndexLines` reads it back |
| NotebookIndex.BuildTutorialsIndex | generate_notebooks.py:151-153 | the `+=` loop builds exactly the tutorial list text |
| NotebookIndex.TutorialsIndexStep | generate_notebooks.py:153 | one iteration appends the tutorial's `* [title](fname)` line |
| NotebookIndex.TutorialsIndexLines | generate_notebooks.py:151-153 | read back by lines, the tutorial list is exactly the link lines, then an empty line |
| NotebookIndex.HeadingText | generate_notebooks.py:158 | the text added when the root changes: a blank line, the heading of `root.count('/') + 3` marks, a blank line |
| NotebookIndex.LinkText | generate_notebooks.py:164 | the text added for every example: its link line and a newline |
| NotebookIndex.ExampleTarget | generate_notebooks.py:160-163 | the notebook path `examples/<root>/<name>.ipynb`, without the root part at the top level; `PythonExampleLink` states it for `.py` files |
| NotebookIndex.ExamplesIndex | generate_notebooks.py:154-164 | the example list text; `BuildExamplesIndex` computes it and `ExamplesIndexLines` reads it back |
| NotebookIndex.EntryText | generate_notebooks.py:157-164 | an entry adds the heading text only when its root differs from the previous one, then its link text |
| NotebookIndex.ExampleLinesSnoc | generate_notebooks.py:156-164 | the lines of one more example are the earlier lines followed by its entry |
| NotebookIndex.ExamplesIndexStep | generate_notebooks.py:156-164 | one iteration appends the heading text when the root changes, then the link text |
| NotebookIndex.BuildExamplesIndex | generate_notebooks.py:154-164 | the loop with `curroot` builds exactly the example list text |
| NotebookIndex.ExamplesIndexLines | generate_notebooks.py:154-164 | read back by lines, the example list is the entries' lines in order, then an empty line |
| NotebookIndex.EntryLinesNewlineFree | generate_notebooks.py:157-164 | an entry of newline-free names has newline-free lines |
| NotebookIndex.ExampleLinesNewlineFree | generate_notebooks.py:154-164 | all the index lines of newline-free names are newline-free |
| NotebookIndex.HeadingPlacement | generate_notebooks.py:155-159 | an entry has a heading exactly when its root differs from the previous root; a first entry with empty root has none; the link is last |
| NotebookIndex.HeadingLevel | generate_notebooks.py:158 | the heading of a root has `root.count('/') + 3` leading `#` |
| NotebookIndex.HashesThenSpace | generate_notebooks.py:158 | `n` hashes then a space open a line with exactly `n` hashes |
| NotebookIndex.PythonExampleLink | generate_notebooks.py:160-164 | for `<stem>.py` the link shows `stem` and targets `examples/<root>/<stem>.ipynb`, or `examples/<stem>.ipynb` at the top level |
| Cells.NotebookTitle | generate_notebooks.py:93 | the first line is the cell's text up to its first newline (or all of it), and the title is that line with the longest runs of `#` and spaces removed from both ends: a slice of it with only those characters around it and neither end one of them |
| Cells.HeadingTitle | generate_notebooks.py:93 | a first line of `#` and space marks (`# t`, `## t`, `#t`) then a title yields that title, for a one-line cell and whatever lines follow |
| Cells.ExampleCells | generate_notebooks.py:131-134 | the note cell, the docstring cell when the docstring is not empty, then the code cell; `ExampleCellsShape` states the shape |
| Cells.AssembleExampleCells | generate_notebooks.py:125-134 | splitting the code and appending the cells gives the note, the docstring cell when non-empty, then the code cell |
| Cells.ExampleCellsShape | generate_notebooks.py:131-134 | two cells without a docstring and three with one; the last is the code cell of imports, magic and body |
| Cells.MagicOnOwnLine | generate_notebooks.py:54-57 | the import text before the magic is empty or ends with a newline |

## Left out

- Filesystem work (generate_notebooks.py:88-114, 117, 143-146, 166-176): directory walking, globbing, reading, writing, copying and removing files. It has no logic to state. The lists of tutorials and examples are parameters.
- The notebook library calls (`reads`, `new_notebook`, `new_markdown_cell`, `new_code_cell`, `NotebookExporter`, `nbf.write`) are foreign code. A cell is modelled as its kind and text.
- The banner note (generate_notebooks.py:63-87) and the kernel specification (:137-139) are constant data. The note is a parameter of the cell assembly.
- Inserting the note into a tutorial notebook (:97) and substituting the index texts into the template cells (:169-173) work on foreign notebook objects.
- Path munging, which is taken as given in the entries: the tutorial path `notebook[1:].replace('\\', '/')` (:94), the example root `root[10:].replace('\\', '/')` (:121) and the base name at :127.
- The sort at :150. The tutorial list is taken in the order it is given.
- The `re` library. The pattern at :27 is a hand-written scanner, proved equal to a declarative statement of the match.
- `str.format` at :153 and :164 is modelled as concatenation. It substitutes the values literally, so braces in titles or names make no difference.
- Splitter.UnterminatedDocstring: requires that no later line ends in a triple quote. A dropped line that does would not close the docstring either, so the lemma covers fewer inputs than the code handles.
