/** The comment matcher built in `setup` from a language's comment symbol: the regular
    expression `^\s*` + symbol + `\s?`, where `\s` is Go's class `[\t\n\f\r ]`. A line is a
    comment when the pattern matches at its start; its documentation text is what is left
    after the match is replaced by nothing. */
module Comments {
  import opened Text

  /** Go's `\s`: tab, newline, form feed, carriage return and space. */
  predicate IsSpace(b: byte)
  {
    b == 9 || b == 10 || b == 12 || b == 13 || b == 32
  }

  predicate AllSpace(s: Bytes)
  {
    forall i | 0 <= i < |s| :: IsSpace(s[i])
  }

  /** Length of the longest whitespace prefix of `line`: what the greedy `^\s*` consumes. */
  function LeadingSpace(line: Bytes): (n: nat)
    ensures n <= |line|
    ensures AllSpace(line[..n])
    ensures n == |line| || !IsSpace(line[n])
    decreases |line|
  {
    if line == [] || !IsSpace(line[0]) then 0 else 1 + LeadingSpace(line[1..])
  }

  /** The line, after its whitespace prefix, begins with the comment symbol. */
  predicate IsComment(line: Bytes, symbol: Bytes)
  {
    symbol <= line[LeadingSpace(line)..]
  }

  /** The documentation text of a comment line: the replacement of the match by nothing. It
      is a suffix of the line, shorter than the line by at least the symbol. */
  function Strip(line: Bytes, symbol: Bytes): (r: Bytes)
    requires IsComment(line, symbol)
    ensures |r| + |symbol| <= |line| && r == line[|line| - |r|..]
  {
    var k := LeadingSpace(line) + |symbol|;
    if k < |line| && IsSpace(line[k]) then line[k + 1..] else line[k..]
  }

  /** The symbol is taken literally when it has no regular-expression metacharacter, and the
      greedy `\s*` cannot eat into it when it does not begin with whitespace. */
  predicate PlainSymbol(symbol: Bytes)
  {
    && symbol != []
    && !IsSpace(symbol[0])
    && forall i | 0 <= i < |symbol| :: symbol[i] !in Ascii("\\.+*?()|[]{}^$")
  }

  /** `IsComment` is exactly "the anchored pattern matches": some whitespace prefix is
      followed by the symbol. Both directions. */
  lemma MatchIffPattern(line: Bytes, symbol: Bytes)
    requires symbol != [] && !IsSpace(symbol[0])
    ensures IsComment(line, symbol) <==>
            exists k | 0 <= k <= |line| :: AllSpace(line[..k]) && symbol <= line[k..]
  {
    var n := LeadingSpace(line);
    if IsComment(line, symbol) {
      assert AllSpace(line[..n]) && symbol <= line[n..];
    }
    forall k | 0 <= k <= |line| && AllSpace(line[..k]) && symbol <= line[k..]
      ensures IsComment(line, symbol)
    {
      assert k == |line| || !IsSpace(line[k]) by {
        if k < |line| {
          assert line[k] == symbol[0];
        }
      }
      LeadingSpaceUnique(line, k);
    }
  }

  /** A whitespace prefix that stops at a non-whitespace byte is the longest one. */
  lemma {:induction false} LeadingSpaceUnique(line: Bytes, k: nat)
    requires k <= |line| && AllSpace(line[..k])
    requires k == |line| || !IsSpace(line[k])
    ensures k == LeadingSpace(line)
    decreases k
  {
    if k > 0 {
      assert IsSpace(line[..k][0]);
      assert line[1..][..k - 1] == line[..k][1..];
      LeadingSpaceUnique(line[1..], k - 1);
    }
  }

  /** What the replacement leaves is the remainder after the unique leftmost-first match of
      `^\s*` + symbol + `\s?`: the line is a whitespace prefix, the symbol, at most one
      whitespace byte and the result, and the optional byte is only skipped when the result
      does not start with whitespace (both quantifiers are greedy). */
  lemma StripIsRemainder(line: Bytes, symbol: Bytes)
    requires IsComment(line, symbol)
    ensures var r := Strip(line, symbol);
            exists pre: Bytes, opt: Bytes ::
              && line == pre + symbol + opt + r
              && AllSpace(pre) && (|pre| == |line| || !IsSpace(line[|pre|]))
              && |opt| <= 1 && AllSpace(opt)
              && (opt == [] ==> r == [] || !IsSpace(r[0]))
  {
    var n := LeadingSpace(line);
    var k := n + |symbol|;
    var r := Strip(line, symbol);
    var pre := line[..n];
    assert line[n..k] == symbol;
    var opt: Bytes := if k < |line| && IsSpace(line[k]) then line[k..k + 1] else [];
    assert line == pre + symbol + opt + r by {
      assert line == line[..n] + line[n..k] + line[k..k + |opt|] + line[k + |opt|..];
    }
    assert AllSpace(opt);
    assert opt == [] ==> r == [] || !IsSpace(r[0]);
  }

  /** The documentation text is a suffix of the line, so it is newline-free when the line is. */
  lemma StripIsSuffix(line: Bytes, symbol: Bytes)
    requires IsComment(line, symbol)
    ensures NL !in line ==> NL !in Strip(line, symbol)
  {
    var r := Strip(line, symbol);
    assert forall b | b in r :: b in line;
  }
}
