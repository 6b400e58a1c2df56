/** Python `str` primitives that the notebook generator relies on, modelled on
    `seq<char>`: `split`, `join`, `rstrip()`, `strip(chars)`, `startswith`,
    `endswith`, `count`, repetition and the slice `s[:-3]`. */
module Text {

  /** Python's `str.isspace()` for one character: ASCII whitespace, the
      information separators 0x1C-0x1F, NEL, and the Unicode space separators. */
  predicate IsSpace(c: char) {
    c == ' ' || ('\t' <= c <= '\r') || ('\U{1C}' <= c <= '\U{1F}') ||
    c == '\U{85}' || c == '\U{A0}' || c == '\U{1680}' ||
    ('\U{2000}' <= c <= '\U{200A}') || c == '\U{2028}' || c == '\U{2029}' ||
    c == '\U{202F}' || c == '\U{205F}' || c == '\U{3000}'
  }

  predicate StartsWith(s: string, prefix: string) {
    |prefix| <= |s| && forall i | 0 <= i < |prefix| :: s[i] == prefix[i]
  }

  predicate EndsWith(s: string, suffix: string) {
    |suffix| <= |s| && forall i | 0 <= i < |suffix| :: s[|s| - |suffix| + i] == suffix[i]
  }

  /** The characters a strip removes: whitespace, as `rstrip()` with no
      argument, or the characters of an explicit argument. */
  datatype CharClass = Whitespace | OneOf(chars: set<char>)

  predicate InClass(c: char, cls: CharClass) {
    match cls
    case Whitespace => IsSpace(c)
    case OneOf(chars) => c in chars
  }

  /** Removes the longest suffix of `s` whose characters are all in `cls`. */
  function TrimEnd(s: string, cls: CharClass): (r: string)
    ensures r <= s
    ensures r == [] || !InClass(r[|r| - 1], cls)
    ensures forall i | |r| <= i < |s| :: InClass(s[i], cls)
  {
    if s == [] then []
    else if InClass(s[|s| - 1], cls) then TrimEnd(s[..|s| - 1], cls)
    else s
  }

  /** Removes the longest prefix of `s` whose characters are all in `cls`. */
  function TrimStart(s: string, cls: CharClass): (r: string)
    ensures |r| <= |s| && r == s[|s| - |r|..]
    ensures r == [] || !InClass(r[0], cls)
    ensures forall i | 0 <= i < |s| - |r| :: InClass(s[i], cls)
  {
    if s == [] then []
    else if InClass(s[0], cls) then TrimStart(s[1..], cls)
    else s
  }

  /** Python `s.rstrip()`. */
  function RStrip(s: string): string {
    TrimEnd(s, Whitespace)
  }

  /** Python `s.strip(chars)`: the run of `s` left after removing the
      longest prefix and the longest suffix made of characters of `chars`. */
  function Strip(s: string, chars: set<char>): (r: string)
    ensures exists i, j | 0 <= i <= j <= |s| ::
              r == s[i..j] && (forall p | 0 <= p < i :: s[p] in chars) &&
              (forall p | j <= p < |s| :: s[p] in chars)
    ensures r == [] || (r[0] !in chars && r[|r| - 1] !in chars)
  {
    var t := TrimEnd(s, OneOf(chars));
    var r := TrimStart(t, OneOf(chars));
    StripWitness(s, chars, t, r);
    r
  }

  /** A suffix `r` of a prefix `t` of `s`, where everything `t` and `r` leave
      out is in `chars`, is a run of `s` with only `chars` around it. */
  lemma StripWitness(s: string, chars: set<char>, t: string, r: string)
    requires t <= s && forall p | |t| <= p < |s| :: s[p] in chars
    requires |r| <= |t| && r == t[|t| - |r|..] && forall p | 0 <= p < |t| - |r| :: t[p] in chars
    ensures r == [] || r[|r| - 1] == t[|t| - 1]
    ensures exists i, j | 0 <= i <= j <= |s| ::
              r == s[i..j] && (forall p | 0 <= p < i :: s[p] in chars) &&
              (forall p | j <= p < |s| :: s[p] in chars)
  {
    var i, j := |t| - |r|, |t|;
    assert r == s[i..j];
    assert forall p | 0 <= p < i :: s[p] in chars by {
      forall p | 0 <= p < i ensures s[p] in chars {
        assert t[p] == s[p];
      }
    }
  }

  /** Stripping a prefix made only of characters of `cls` from a text that
      does not start with one leaves the text. */
  lemma {:induction false} TrimStartPrefix(marks: string, t: string, cls: CharClass)
    requires forall p | 0 <= p < |marks| :: InClass(marks[p], cls)
    requires t == [] || !InClass(t[0], cls)
    ensures TrimStart(marks + t, cls) == t
  {
    if marks != [] {
      assert (marks + t)[0] == marks[0];
      assert (marks + t)[1..] == marks[1..] + t;
      TrimStartPrefix(marks[1..], t, cls);
    }
  }

  /** Python `s[:-3]`: everything but the last three characters, empty when
      `s` is shorter than that. */
  function DropLast3(s: string): (r: string)
    ensures |s| >= 3 ==> s == r + s[|s| - 3..]
    ensures |s| < 3 ==> r == []
  {
    if |s| >= 3 then s[..|s| - 3] else []
  }

  /** Python `s.count(c)` for a one-character `c`. */
  function Count(c: char, s: string): nat {
    if s == [] then 0 else (if s[0] == c then 1 else 0) + Count(c, s[1..])
  }

  /** Python `c * n`. */
  function Repeat(c: char, n: nat): string {
    seq(n, _ => c)
  }

  /** Python `s.split(sep)` with an explicit one-character separator: every
      occurrence of `sep` cuts, so the result always has one more part than
      there are separators. */
  function Split(s: string, sep: char): (parts: seq<string>)
    ensures |parts| == Count(sep, s) + 1
    ensures forall i | 0 <= i < |parts| :: sep !in parts[i]
  {
    if s == [] then [[]]
    else
      var rest := Split(s[1..], sep);
      if s[0] == sep then [[]] + rest else [[s[0]] + rest[0]] + rest[1..]
  }

  /** The first part of a split is the text up to the first separator, or
      all of it when there is none. */
  lemma {:induction false} SplitFirstPart(s: string, sep: char)
    ensures var first := Split(s, sep)[0];
            first <= s && (|first| == |s| || s[|first|] == sep)
  {
    if s != [] && s[0] != sep {
      SplitFirstPart(s[1..], sep);
      var rest := Split(s[1..], sep)[0];
      assert Split(s, sep)[0] == [s[0]] + rest;
      assert s == [s[0]] + s[1..];
    }
  }

  /** Python `sep.join(parts)`. */
  function Join(parts: seq<string>, sep: char): string {
    if |parts| == 0 then []
    else if |parts| == 1 then parts[0]
    else parts[0] + [sep] + Join(parts[1..], sep)
  }

  /** Joining what `Split` cut restores the text. */
  lemma {:induction false} JoinSplit(s: string, sep: char)
    ensures Join(Split(s, sep), sep) == s
  {
    if s != [] {
      var rest := Split(s[1..], sep);
      JoinSplit(s[1..], sep);
      if s[0] == sep {
        assert Split(s, sep) == [[]] + rest;
        assert Join(Split(s, sep), sep) == [] + [sep] + Join(rest, sep);
      } else {
        var parts := [[s[0]] + rest[0]] + rest[1..];
        if |rest| == 1 {
          assert Join(rest, sep) == rest[0];
        } else {
          assert Join(rest, sep) == rest[0] + [sep] + Join(rest[1..], sep);
          assert parts[1..] == rest[1..];
        }
        assert s == [s[0]] + s[1..];
      }
    }
  }

  /** A text without the separator is one part. */
  lemma {:induction false} SplitWithoutSeparator(s: string, sep: char)
    requires sep !in s
    ensures Split(s, sep) == [s]
  {
    if s != [] {
      SplitWithoutSeparator(s[1..], sep);
      assert s == [s[0]] + s[1..];
    }
  }

  /** A separator between two texts cuts exactly there. */
  lemma {:induction false} SplitConcat(x: string, y: string, sep: char)
    ensures Split(x + [sep] + y, sep) == Split(x, sep) + Split(y, sep)
  {
    if x == [] {
      assert [] + [sep] + y == [sep] + y;
      assert ([sep] + y)[1..] == y;
    } else {
      var s := x + [sep] + y;
      assert s[0] == x[0] && s[1..] == x[1..] + [sep] + y;
      SplitConcat(x[1..], y, sep);
    }
  }

  /** Splitting what `Join` glued gives the parts back, provided no part
      contains the separator. */
  lemma {:induction false} SplitJoin(parts: seq<string>, sep: char)
    requires |parts| > 0
    requires forall i | 0 <= i < |parts| :: sep !in parts[i]
    ensures Split(Join(parts, sep), sep) == parts
  {
    SplitWithoutSeparator(parts[0], sep);
    if |parts| > 1 {
      SplitJoin(parts[1..], sep);
      SplitConcat(parts[0], Join(parts[1..], sep), sep);
      assert parts == [parts[0]] + parts[1..];
    }
  }

  /** Appending one part to a non-empty list appends the separator and it. */
  lemma {:induction false} JoinSnoc(parts: seq<string>, last: string, sep: char)
    requires |parts| > 0
    ensures Join(parts + [last], sep) == Join(parts, sep) + [sep] + last
  {
    if |parts| > 1 {
      JoinSnoc(parts[1..], last, sep);
      assert (parts + [last])[1..] == parts[1..] + [last];
    }
  }

  /** Each line followed by a newline, as text built by appending
      `line + '\n'` for every line. */
  function Unlines(lines: seq<string>): string {
    if lines == [] then [] else lines[0] + "\n" + Unlines(lines[1..])
  }

  lemma {:induction false} UnlinesAppend(a: seq<string>, b: seq<string>)
    ensures Unlines(a + b) == Unlines(a) + Unlines(b)
  {
    if a == [] {
      assert a + b == b;
    } else {
      assert (a + b)[1..] == a[1..] + b;
      UnlinesAppend(a[1..], b);
    }
  }

  /** Read back with `split('\n')`, newline-terminated lines give the lines and
      one empty string after the last newline. */
  lemma {:induction false} SplitUnlines(lines: seq<string>)
    requires forall i | 0 <= i < |lines| :: '\n' !in lines[i]
    ensures Split(Unlines(lines), '\n') == lines + [[]]
  {
    if lines != [] {
      SplitUnlines(lines[1..]);
      SplitWithoutSeparator(lines[0], '\n');
      SplitConcat(lines[0], Unlines(lines[1..]), '\n');
      assert lines[0] + "\n" + Unlines(lines[1..]) == lines[0] + ['\n'] + Unlines(lines[1..]);
      assert lines == [lines[0]] + lines[1..];
    }
  }
}
