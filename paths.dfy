/** The slash-separated path operations `destination` is built from: `filepath.Base`,
    `filepath.Ext` and `strings.LastIndex`, with Unix separators and no volume names. */
module Paths {

  predicate IsSeparator(c: char)
  {
    c == '/'
  }

  predicate NoSeparator(s: string)
  {
    forall i | 0 <= i < |s| :: !IsSeparator(s[i])
  }

  /** The length of `p[..n]` without its trailing separators: the first loop of `filepath.Base`. */
  function TrimmedLength(p: string, n: nat): (m: nat)
    requires n <= |p|
    ensures m <= n
    ensures m == 0 || !IsSeparator(p[m - 1])
    ensures forall i | m <= i < n :: IsSeparator(p[i])
  {
    if n > 0 && IsSeparator(p[n - 1]) then TrimmedLength(p, n - 1) else n
  }

  /** `p` without its trailing separators. */
  function TrimTrailingSeparators(p: string): (t: string)
    ensures |t| <= |p| && t == p[..|t|]
    ensures t == [] || !IsSeparator(t[|t| - 1])
    ensures forall i | |t| <= i < |p| :: IsSeparator(p[i])
  {
    p[..TrimmedLength(p, |p|)]
  }

  /** Index of the last separator in `p[..n]`, or -1 when there is none. */
  function SeparatorBefore(p: string, n: nat): (i: int)
    requires n <= |p|
    ensures -1 <= i < n
    ensures i >= 0 ==> IsSeparator(p[i])
    ensures forall j | i < j < n :: !IsSeparator(p[j])
  {
    if n == 0 then -1
    else if IsSeparator(p[n - 1]) then n - 1
    else SeparatorBefore(p, n - 1)
  }

  /** Index of the last separator in `p`, or -1 when there is none. */
  function LastSeparator(p: string): (i: int)
    ensures -1 <= i < |p|
    ensures i >= 0 ==> IsSeparator(p[i])
    ensures forall j | i < j < |p| :: !IsSeparator(p[j])
  {
    SeparatorBefore(p, |p|)
  }

  /** `filepath.Base`: the last element of the path. Trailing separators are ignored, the empty
      path gives ".", and a path of separators only gives "/". */
  function Base(p: string): (b: string)
    ensures p == "" ==> b == "."
    ensures p != "" && TrimTrailingSeparators(p) == "" ==> b == "/"
    ensures TrimTrailingSeparators(p) != "" ==>
              var t := TrimTrailingSeparators(p);
              && b != [] && |b| <= |t| && b == t[|t| - |b|..]
              && NoSeparator(b)
              && (|b| == |t| || IsSeparator(t[|t| - |b| - 1]))
  {
    if p == "" then "."
    else
      var t := TrimTrailingSeparators(p);
      if t == "" then "/" else t[LastSeparator(t) + 1..]
  }

  /** The loop of `filepath.Ext` over `p[..n]`, from the end: the index of the last dot after
      the last separator, or -1 when a separator or the start comes first. */
  function DotBefore(p: string, n: nat): (i: int)
    requires n <= |p|
    ensures -1 <= i < n
    ensures i >= 0 ==> p[i] == '.' && forall j | i < j < n :: p[j] != '.' && !IsSeparator(p[j])
    ensures i == -1 ==> forall j | SeparatorBefore(p, n) < j < n :: p[j] != '.'
  {
    if n == 0 || IsSeparator(p[n - 1]) then -1
    else if p[n - 1] == '.' then n - 1
    else DotBefore(p, n - 1)
  }

  /** `filepath.Ext`: the suffix of the last element that starts at its last dot, or "" when
      the last element has no dot. */
  function Ext(p: string): (e: string)
    ensures |e| <= |p| && e == p[|p| - |e|..]
    ensures e != [] ==> e[0] == '.'
    ensures forall i | 1 <= i < |e| :: e[i] != '.' && !IsSeparator(e[i])
    ensures e == [] ==> forall i | LastSeparator(p) < i < |p| :: p[i] != '.'
  {
    var i := DotBefore(p, |p|);
    if i == -1 then "" else p[i..]
  }

  predicate OccursAt(s: string, sub: string, i: int)
  {
    0 <= i && i + |sub| <= |s| && s[i..i + |sub|] == sub
  }

  /** `strings.LastIndex`: the last position at which `sub` occurs in `s`, or -1. The empty
      string occurs at every position, so it is found at `|s|`. */
  function LastIndex(s: string, sub: string): (r: int)
    ensures r == -1 || OccursAt(s, sub, r)
    ensures forall j | OccursAt(s, sub, j) :: j <= r
  {
    LastIndexFrom(s, sub, |s| - |sub|)
  }

  function LastIndexFrom(s: string, sub: string, i: int): (r: int)
    requires i <= |s| - |sub|
    ensures r == -1 || (OccursAt(s, sub, r) && r <= i)
    ensures forall j | j <= i && OccursAt(s, sub, j) :: j <= r
    decreases if i < 0 then 0 else i + 1
  {
    if i < 0 then -1
    else if OccursAt(s, sub, i) then i
    else LastIndexFrom(s, sub, i - 1)
  }

  /** A suffix is found last at the end of the string. */
  lemma LastIndexOfSuffix(s: string, e: string)
    requires |e| <= |s| && e == s[|s| - |e|..]
    ensures LastIndex(s, e) == |s| - |e|
  {
    assert OccursAt(s, e, |s| - |e|);
  }

  /** `destination`: "docs/", the base name cut at the last occurrence of its extension, and
      ".html". The cut is never -1, since the extension is a suffix of the base name, so the
      output name is the base name without its extension: base name = stem + extension. */
  function Destination(source: string): (d: string)
    ensures var b := Base(source); var e := Ext(b);
            && b == b[..|b| - |e|] + e
            && d == "docs/" + b[..|b| - |e|] + ".html"
  {
    var b := Base(source);
    var e := Ext(b);
    LastIndexOfSuffix(b, e);
    assert b == b[..|b| - |e|] + b[|b| - |e|..];
    var i := LastIndex(b, e);
    "docs/" + b[..i] + ".html"
  }

  /** A base name without a dot is kept whole. */
  lemma DestinationKeepsExtensionless(source: string)
    requires '.' !in Base(source)
    ensures Destination(source) == "docs/" + Base(source) + ".html"
  {
    var b := Base(source);
    var e := Ext(b);
    assert e == [];
    assert b[..|b| - |e|] == b;
  }

  /** The base name of a path that is not made of separators only has no separator. */
  lemma BaseHasNoSeparator(p: string)
    requires exists i | 0 <= i < |p| :: !IsSeparator(p[i])
    ensures NoSeparator(Base(p))
  {
  }

  /** A path made of separators only has base "/". */
  lemma BaseOfSeparators(p: string)
    requires p != "" && forall i | 0 <= i < |p| :: IsSeparator(p[i])
    ensures Base(p) == "/"
  {
  }

  /** The directory part of a path never reaches the output: the output name is the base name of
      the path, whatever directories precede it. */
  lemma {:induction false} BaseDropsDirectory(dir: string, file: string)
    requires file != "" && NoSeparator(file)
    ensures Base(dir + "/" + file) == file
    ensures Base(file) == file
  {
    var p := dir + "/" + file;
    assert p[|p| - 1] == file[|file| - 1];
    assert TrimTrailingSeparators(p) == p;
    assert TrimTrailingSeparators(file) == file;
    LastSeparatorAfter(dir + "/", file);
    LastSeparatorAfter("", file);
    assert p[|dir + "/"|..] == file;
    assert ("" + file) == file;
  }

  lemma LastSeparatorAfter(prefix: string, file: string)
    requires NoSeparator(file)
    requires prefix == [] || IsSeparator(prefix[|prefix| - 1])
    ensures LastSeparator(prefix + file) == |prefix| - 1
  {
    var p := prefix + file;
    assert forall j | |prefix| <= j < |p| :: p[j] == file[j - |prefix|];
    assert prefix != [] ==> p[|prefix| - 1] == prefix[|prefix| - 1];
  }

  /** Directories are dropped from the output path: `dir/file` lands where `file` does. */
  lemma DestinationDropsDirectory(dir: string, file: string)
    requires file != "" && NoSeparator(file)
    ensures Destination(dir + "/" + file) == Destination(file)
  {
    BaseDropsDirectory(dir, file);
  }

  /** The output is flat: between "docs/" and ".html" there is no separator, unless the path
      is made of separators only. */
  lemma DestinationIsFlat(source: string)
    requires exists i | 0 <= i < |source| :: !IsSeparator(source[i])
    ensures exists stem | NoSeparator(stem) :: Destination(source) == "docs/" + stem + ".html"
  {
    var b := Base(source);
    BaseHasNoSeparator(source);
    var stem := b[..|b| - |Ext(b)|];
    assert NoSeparator(stem) by {
      forall i | 0 <= i < |stem| ensures !IsSeparator(stem[i]) {
        assert stem[i] == b[i];
      }
    }
  }

  lemma ExtExample()
    ensures Ext("foo.go") == ".go"
  {
    var p := "foo.go";
    assert DotBefore(p, 4) == 3;
    assert DotBefore(p, 6) == 3;
    assert p[3..] == ".go";
  }

  lemma StemExample(b: string, e: string)
    requires b == "foo.go" && e == ".go"
    ensures "docs/" + b[..|b| - |e|] + ".html" == "docs/foo.html"
  {
    assert b[..|b| - |e|] == "foo";
  }

  /** An example: `src/foo.go` is rendered to `docs/foo.html`. */
  lemma DestinationExample()
    ensures Base("src/foo.go") == "foo.go"
    ensures Destination("src/foo.go") == "docs/foo.html"
  {
    var file := "foo.go";
    assert NoSeparator(file);
    BaseDropsDirectory("src", file);
    assert "src" + "/" + file == "src/foo.go";
    DestinationDropsDirectory("src", file);
    ExtExample();
    StemExample(Base(file), Ext(Base(file)));
  }
}
