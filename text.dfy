/** Byte strings and the two `bytes` package operations the splitter relies on:
    `bytes.Split` on a one-byte separator and `bytes.Join`. */
module Text {

  newtype byte = b: int | 0 <= b < 256

  type Bytes = seq<byte>

  /** The newline byte `'\n'`. */
  const NL: byte := 10

  /** The bytes of an ASCII (or Latin-1) string literal. */
  function Ascii(s: string): (r: Bytes)
    requires forall i | 0 <= i < |s| :: s[i] as int < 256
    ensures |r| == |s|
    ensures forall i | 0 <= i < |s| :: r[i] as int == s[i] as int
  {
    seq(|s|, i requires 0 <= i < |s| => s[i] as int as byte)
  }

  /** Number of newline bytes in `s`. */
  function CountNL(s: Bytes): nat
  {
    if s == [] then 0 else (if s[0] == NL then 1 else 0) + CountNL(s[1..])
  }

  lemma {:induction false} CountNLAppend(a: Bytes, b: Bytes)
    ensures CountNL(a + b) == CountNL(a) + CountNL(b)
  {
    if a == [] {
      assert a + b == b;
    } else {
      assert (a + b)[0] == a[0];
      assert (a + b)[1..] == a[1..] + b;
      CountNLAppend(a[1..], b);
    }
  }

  lemma {:induction false} CountNLNone(s: Bytes)
    requires NL !in s
    ensures CountNL(s) == 0
  {
    if s != [] {
      assert NL !in s[1..] by { assert forall x | x in s[1..] :: x in s; }
      CountNLNone(s[1..]);
    }
  }

  /** `bytes.Split(s, []byte("\n"))`: the pieces of `s` between newlines. There is always one
      more piece than there are newlines, so the empty input gives one empty piece and a
      trailing newline gives a trailing empty piece. */
  function Split(s: Bytes): (r: seq<Bytes>)
    ensures |r| >= 1
    ensures forall k | 0 <= k < |r| :: NL !in r[k]
    decreases |s|
  {
    if s == [] then [[]]
    else if s[0] == NL then [[]] + Split(s[1..])
    else
      var rest := Split(s[1..]);
      [[s[0]] + rest[0]] + rest[1..]
  }

  /** `bytes.Join(parts, sep)`: the parts with `sep` between consecutive ones. */
  function Join(parts: seq<Bytes>, sep: Bytes): (r: Bytes)
    ensures |parts| == 1 ==> r == parts[0]
    ensures |parts| == 2 ==> r == parts[0] + sep + parts[1]
  {
    if parts == [] then []
    else if |parts| == 1 then parts[0]
    else parts[0] + sep + Join(parts[1..], sep)
  }

  /** Splitting and joining again on newline gives back the input. */
  lemma {:induction false} JoinSplit(s: Bytes)
    ensures Join(Split(s), [NL]) == s
    decreases |s|
  {
    if s == [] {
    } else if s[0] == NL {
      JoinSplit(s[1..]);
      assert Split(s) == [[]] + Split(s[1..]);
      assert Split(s)[1..] == Split(s[1..]);
    } else {
      var rest := Split(s[1..]);
      JoinSplit(s[1..]);
      var r := [[s[0]] + rest[0]] + rest[1..];
      assert Split(s) == r;
      if |rest| == 1 {
        assert Join(r, [NL]) == [s[0]] + rest[0];
      } else {
        assert r[1..] == rest[1..];
        assert Join(rest, [NL]) == rest[0] + [NL] + Join(rest[1..], [NL]);
      }
    }
  }

  /** Splitting after a newline-free prefix and a newline peels off that prefix. */
  lemma {:induction false} SplitCons(x: Bytes, y: Bytes)
    requires NL !in x
    ensures Split(x + [NL] + y) == [x] + Split(y)
    decreases |x|
  {
    if x == [] {
      assert x + [NL] + y == [NL] + y;
      assert ([NL] + y)[1..] == y;
    } else {
      var s := x + [NL] + y;
      assert s[0] == x[0] && s[0] != NL;
      assert s[1..] == x[1..] + [NL] + y;
      assert NL !in x[1..] by { assert forall b | b in x[1..] :: b in x; }
      SplitCons(x[1..], y);
      assert [x[0]] + x[1..] == x;
    }
  }

  /** Joining newline-free lines on newline and splitting again gives back the lines, so
      `Split` and `Join` are inverse to each other. */
  lemma {:induction false} SplitJoin(lines: seq<Bytes>)
    requires |lines| >= 1
    requires forall k | 0 <= k < |lines| :: NL !in lines[k]
    ensures Split(Join(lines, [NL])) == lines
  {
    if |lines| == 1 {
      SplitNoNewline(lines[0]);
    } else {
      SplitJoin(lines[1..]);
      SplitCons(lines[0], Join(lines[1..], [NL]));
      assert lines[0] + [NL] + Join(lines[1..], [NL]) == Join(lines, [NL]);
    }
  }

  lemma {:induction false} SplitNoNewline(x: Bytes)
    requires NL !in x
    ensures Split(x) == [x]
    decreases |x|
  {
    if x != [] {
      assert NL !in x[1..] by { assert forall b | b in x[1..] :: b in x; }
      SplitNoNewline(x[1..]);
      assert [x[0]] + x[1..] == x;
    }
  }

  /** One piece more than newlines: `bytes.Split` never drops or invents a piece. */
  lemma {:induction false} SplitCount(s: Bytes)
    ensures |Split(s)| == CountNL(s) + 1
    decreases |s|
  {
    if s != [] {
      SplitCount(s[1..]);
    }
  }

  /** Each line followed by a newline, concatenated: what `Write(line)` followed by
      `WriteString("\n")` leaves in a `bytes.Buffer`. It is empty exactly when no line was
      written. */
  function Terminated(lines: seq<Bytes>): (r: Bytes)
    ensures r == [] <==> lines == []
  {
    if lines == [] then [] else lines[0] + [NL] + Terminated(lines[1..])
  }

  /** Writing one more line onto a buffer of terminated lines. */
  lemma {:induction false} TerminatedAppend(lines: seq<Bytes>, x: Bytes)
    ensures Terminated(lines + [x]) == Terminated(lines) + x + [NL]
  {
    if lines == [] {
      assert [x][1..] == [];
    } else {
      assert (lines + [x])[1..] == lines[1..] + [x];
      TerminatedAppend(lines[1..], x);
    }
  }

  /** Terminating the pieces of a split adds exactly one newline at the end of the input. */
  lemma {:induction false} TerminatedSplit(s: Bytes)
    ensures Terminated(Split(s)) == s + [NL]
    decreases |s|
  {
    if s == [] {
    } else if s[0] == NL {
      TerminatedSplit(s[1..]);
      assert Split(s)[1..] == Split(s[1..]);
      assert [NL] + s[1..] == s;
    } else {
      var rest := Split(s[1..]);
      TerminatedSplit(s[1..]);
      var r := Split(s);
      assert r[0] == [s[0]] + rest[0];
      assert r[1..] == rest[1..];
      calc {
        Terminated(r);
        r[0] + [NL] + Terminated(r[1..]);
        [s[0]] + (rest[0] + [NL] + Terminated(rest[1..]));
        [s[0]] + Terminated(rest);
        [s[0]] + (s[1..] + [NL]);
        { assert [s[0]] + s[1..] == s; }
        s + [NL];
      }
    }
  }
}
