// Package titles: the order `sorted(..., key=title)` uses, and the link
// label `re.sub(r'.*/', '', title)`.
module Titles {

  /** Python's `<=` on str: code points compared left to right, a proper
      prefix first. */
  predicate Le(a: string, b: string)
    decreases |a|
  {
    a == [] || (b != [] && (a[0] < b[0] || (a[0] == b[0] && Le(a[1..], b[1..]))))
  }

  lemma {:induction false} LeTotal(a: string, b: string)
    ensures Le(a, b) || Le(b, a)
    decreases |a|
  {
    if a != [] && b != [] && a[0] == b[0] {
      LeTotal(a[1..], b[1..]);
    }
  }

  lemma {:induction false} LeReflexive(a: string)
    ensures Le(a, a)
    decreases |a|
  {
    if a != [] {
      LeReflexive(a[1..]);
    }
  }

  lemma {:induction false} LeTransitive(a: string, b: string, c: string)
    requires Le(a, b) && Le(b, c)
    ensures Le(a, c)
    decreases |a|
  {
    if a != [] && a[0] == b[0] && b[0] == c[0] {
      LeTransitive(a[1..], b[1..], c[1..]);
    }
  }

  lemma {:induction false} LeAntisymmetric(a: string, b: string)
    requires Le(a, b) && Le(b, a)
    ensures a == b
    decreases |a|
  {
    if a != [] {
      LeAntisymmetric(a[1..], b[1..]);
      assert a == [a[0]] + a[1..] && b == [b[0]] + b[1..];
    }
  }

  // re.sub(r'.*/', '', s). Scanning from the end, characters are kept
  // until a '/' is met; from there on they are dropped up to the start of
  // the line, because '.' does not match a newline. Each line thus keeps
  // only what follows its last '/'.
  function Label(s: string): (r: string)
    ensures '/' !in r
    ensures |r| <= |s|
    decreases |s|
  {
    if s == [] then []
    else
      var c := s[|s| - 1];
      if c == '/' then DropToLineStart(s[..|s| - 1])
      else Label(s[..|s| - 1]) + [c]
  }

  /** The rest of a line whose last '/' has been seen: dropped up to the
      newline before it. */
  function DropToLineStart(s: string): (r: string)
    ensures '/' !in r
    ensures |r| <= |s|
    decreases |s|
  {
    if s == [] then []
    else
      var c := s[|s| - 1];
      if c == '\n' then Label(s[..|s| - 1]) + ['\n']
      else DropToLineStart(s[..|s| - 1])
  }

  /** Within one line, the part before a '/' is dropped entirely. */
  lemma {:induction false} DropLineIsEmpty(s: string)
    requires '\n' !in s
    ensures DropToLineStart(s) == []
    decreases |s|
  {
    if s != [] {
      DropLineIsEmpty(s[..|s| - 1]);
    }
  }

  /** On a title without newlines the label is exactly the text after the
      last '/': a suffix of the title, preceded by a '/' unless it is the
      whole title, and itself free of '/'. */
  lemma {:induction false} LabelOfLine(s: string)
    requires '\n' !in s
    ensures |Label(s)| <= |s| && s[|s| - |Label(s)|..] == Label(s)
    ensures |Label(s)| < |s| ==> s[|s| - |Label(s)| - 1] == '/'
    ensures '/' !in Label(s)
    decreases |s|
  {
    if s != [] {
      var p := s[..|s| - 1];
      assert '\n' !in p;
      if s[|s| - 1] == '/' {
        DropLineIsEmpty(p);
      } else {
        LabelOfLine(p);
        assert s == p + [s[|s| - 1]];
      }
    }
  }

  /** A title with neither '/' nor newline is its own label. */
  lemma {:induction false} LabelOfPlainTitle(s: string)
    requires '/' !in s && '\n' !in s
    ensures Label(s) == s
  {
    LabelOfLine(s);
  }

  /** The documented example: a/b/c -> c. */
  lemma LabelExample()
    ensures Label("a/b/c") == "c"
  {
    assert "a/b/c"[..4] == "a/b/";
    assert "a/b/"[..3] == "a/b";
    DropLineIsEmpty("a/b");
  }
}
