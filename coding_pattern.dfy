/** The encoding-declaration test of `split_code`: a line is dropped when
    `re.match(r'^[ \t\f]*#.*?coding[:=][ \t]*([-_.a-zA-Z0-9]+)', line)`
    finds a match. `re.match` anchors at the start of the line only, so the
    line may continue after the charset name.

    `IsCodingDeclaration` scans the line the way the pattern is read, left to
    right; `MatchesPattern` states the match declaratively, as positions of
    the `#`, of the word `coding` and of the first charset character; the two
    are proved equal. */
module CodingPattern {
  import opened Text

  /** `[ \t\f]` */
  predicate IsLeadingBlank(c: char) {
    c == ' ' || c == '\t' || c == '\U{C}'
  }

  /** `[ \t]` */
  predicate IsInlineBlank(c: char) {
    c == ' ' || c == '\t'
  }

  /** `[-_.a-zA-Z0-9]` */
  predicate IsCharsetChar(c: char) {
    c == '-' || c == '_' || c == '.' ||
    ('a' <= c <= 'z') || ('A' <= c <= 'Z') || ('0' <= c <= '9')
  }

  /** Index of the first character at or after `i` that is not `[ \t\f]`. */
  function SkipLeadingBlanks(l: string, i: nat): (h: nat)
    requires i <= |l|
    ensures i <= h <= |l|
    ensures forall p | i <= p < h :: IsLeadingBlank(l[p])
    ensures h == |l| || !IsLeadingBlank(l[h])
    decreases |l| - i
  {
    if i < |l| && IsLeadingBlank(l[i]) then SkipLeadingBlanks(l, i + 1) else i
  }

  /** `[ \t]*([-_.a-zA-Z0-9]+)` matches at position `i`. */
  predicate CharsetFrom(l: string, i: nat)
    decreases |l| - i
  {
    i < |l| && (IsCharsetChar(l[i]) || (IsInlineBlank(l[i]) && CharsetFrom(l, i + 1)))
  }

  /** `coding[:=][ \t]*([-_.a-zA-Z0-9]+)` matches at position `j`. */
  predicate CodingAt(l: string, j: nat) {
    j + 7 <= |l| && StartsWith(l[j..], "coding") && (l[j + 6] == ':' || l[j + 6] == '=') &&
    CharsetFrom(l, j + 7)
  }

  /** `.*?coding[:=][ \t]*([-_.a-zA-Z0-9]+)` matches at position `j`; `.` does
      not match a newline. */
  predicate CodingSearch(l: string, j: nat)
    decreases |l| - j
  {
    j <= |l| && (CodingAt(l, j) || (j < |l| && l[j] != '\n' && CodingSearch(l, j + 1)))
  }

  /** `re.match(r'^[ \t\f]*#.*?coding[:=][ \t]*([-_.a-zA-Z0-9]+)', l) is not None` */
  predicate IsCodingDeclaration(l: string) {
    var h := SkipLeadingBlanks(l, 0);
    h < |l| && l[h] == '#' && CodingSearch(l, h + 1)
  }

  /** The charset part of a match: blanks from `i` up to `k`, then a charset
      character at `k`. */
  ghost predicate CharsetWitness(l: string, i: int, k: int) {
    0 <= i <= k < |l| && (forall p | i <= p < k :: IsInlineBlank(l[p])) && IsCharsetChar(l[k])
  }

  /** The part of a match after the `#`: no newline from `i` up to `j`, then
      `coding` and its separator at `j`, then the charset at `k`. */
  ghost predicate SearchWitness(l: string, i: int, j: int, k: int) {
    0 <= i <= j && j + 7 <= |l| && (forall p | i <= p < j :: l[p] != '\n') &&
    StartsWith(l[j..], "coding") && (l[j + 6] == ':' || l[j + 6] == '=') &&
    CharsetWitness(l, j + 7, k)
  }

  /** A whole match: leading blanks up to `h`, `#` at `h`, the rest as above. */
  ghost predicate PatternWitness(l: string, h: int, j: int, k: int) {
    0 <= h < |l| && (forall p | 0 <= p < h :: IsLeadingBlank(l[p])) && l[h] == '#' &&
    SearchWitness(l, h + 1, j, k)
  }

  ghost predicate MatchesPattern(l: string) {
    exists h, j, k :: PatternWitness(l, h, j, k)
  }

  lemma {:induction false} CharsetFromIff(l: string, i: nat)
    ensures CharsetFrom(l, i) <==> exists k :: CharsetWitness(l, i, k)
    decreases |l| - i
  {
    if i < |l| {
      CharsetFromIff(l, i + 1);
      if CharsetFrom(l, i) {
        if IsCharsetChar(l[i]) {
          assert CharsetWitness(l, i, i);
        } else {
          var k :| CharsetWitness(l, i + 1, k);
          assert CharsetWitness(l, i, k);
        }
      }
      if exists k :: CharsetWitness(l, i, k) {
        var k :| CharsetWitness(l, i, k);
        if k > i {
          assert IsInlineBlank(l[i]);
          assert CharsetWitness(l, i + 1, k);
        }
      }
    }
  }

  lemma {:induction false} CodingSearchIff(l: string, i: nat)
    requires i <= |l|
    ensures CodingSearch(l, i) <==> exists j, k :: SearchWitness(l, i, j, k)
    decreases |l| - i
  {
    CharsetFromIff(l, i + 7);
    if i < |l| {
      CodingSearchIff(l, i + 1);
    }
    if CodingSearch(l, i) {
      if CodingAt(l, i) {
        var k :| CharsetWitness(l, i + 7, k);
        assert SearchWitness(l, i, i, k);
      } else {
        var j, k :| SearchWitness(l, i + 1, j, k);
        assert SearchWitness(l, i, j, k);
      }
    }
    if exists j, k :: SearchWitness(l, i, j, k) {
      var j, k :| SearchWitness(l, i, j, k);
      if j == i {
        assert CodingAt(l, i);
      } else {
        assert l[i] != '\n';
        assert SearchWitness(l, i + 1, j, k);
      }
    }
  }

  /** The scanner accepts a line exactly when the pattern matches it. */
  lemma CodingDeclarationIff(l: string)
    ensures IsCodingDeclaration(l) <==> MatchesPattern(l)
  {
    var h := SkipLeadingBlanks(l, 0);
    if IsCodingDeclaration(l) {
      CodingSearchIff(l, h + 1);
      var j, k :| SearchWitness(l, h + 1, j, k);
      assert PatternWitness(l, h, j, k);
    }
    if MatchesPattern(l) {
      var h', j, k :| PatternWitness(l, h', j, k);
      assert h == h';
      CodingSearchIff(l, h + 1);
      assert SearchWitness(l, h + 1, j, k);
    }
  }

  /** A coding declaration is a comment: its first non-blank character is `#`. */
  lemma CodingDeclarationIsComment(l: string)
    requires IsCodingDeclaration(l)
    ensures exists h | 0 <= h < |l| :: l[h] == '#' && forall p | 0 <= p < h :: IsLeadingBlank(l[p])
  {
    var h := SkipLeadingBlanks(l, 0);
    assert l[h] == '#';
  }

  /** The Emacs-style declaration that Python example files carry,
      `# -*- coding: <name> -*-`, is matched for any charset name, whatever
      follows the name. */
  lemma EmacsStyleDeclaration(name: string, tail: string)
    requires name != [] && IsCharsetChar(name[0])
    ensures IsCodingDeclaration("# -*- coding: " + name + tail)
  {
    var l := "# -*- coding: " + name + tail;
    assert l[0] == '#';
    assert SkipLeadingBlanks(l, 0) == 0;
    assert CharsetFrom(l, 13) by {
      assert IsInlineBlank(l[13]) && l[14] == name[0];
    }
    assert CodingAt(l, 6) by {
      assert StartsWith(l[6..], "coding");
    }
    assert l[1] != '\n' && l[2] != '\n' && l[3] != '\n' && l[4] != '\n' && l[5] != '\n';
    assert CodingSearch(l, 6);
    assert CodingSearch(l, 5);
    assert CodingSearch(l, 4);
    assert CodingSearch(l, 3);
    assert CodingSearch(l, 2);
    assert CodingSearch(l, 1);
  }

  /** A comment that names `coding` without a charset after it is not a
      declaration. */
  lemma CodingWithoutCharset()
    ensures !IsCodingDeclaration("# coding:")
  {
    var l := "# coding:";
    assert SkipLeadingBlanks(l, 0) == 0;
    assert !CodingSearch(l, 9);
    assert !CodingAt(l, 1);
  }
}
