/** Text helpers that stand for the Python built-ins the detector relies on:
    `str.startswith`, `str.split`, `str.splitlines`, `str.join`, `str(n)` and
    `int(s)`, together with an `Option` type for Python's `None`. */
module Text {

  datatype Option<+T> = None | Some(value: T)

  /** `s.startswith(prefix)` */
  predicate StartsWith(s: string, prefix: string)
  {
    |prefix| <= |s| && s[..|prefix|] == prefix
  }

  /** Index of the first occurrence of `c` in `s`. */
  function IndexOf(s: string, c: char): (i: nat)
    requires c in s
    ensures i < |s| && s[i] == c && c !in s[..i]
  {
    if s[0] == c then 0 else 1 + IndexOf(s[1..], c)
  }

  /** `s.split(sep)` for a one-character separator: empty pieces are kept, and
      the empty string gives `[""]`. */
  function Split(s: string, sep: char): (r: seq<string>)
    ensures |r| >= 1
    ensures forall k :: 0 <= k < |r| ==> sep !in r[k]
    decreases |s|
  {
    if sep !in s then [s]
    else
      var i := IndexOf(s, sep);
      [s[..i]] + Split(s[i + 1..], sep)
  }

  /** `sep.join(ps)` for a one-character separator. */
  function Join(ps: seq<string>, sep: char): string
  {
    if |ps| == 0 then ""
    else if |ps| == 1 then ps[0]
    else ps[0] + [sep] + Join(ps[1..], sep)
  }

  /** Joining the pieces of a split restores the string: no piece, empty or
      not, is lost. */
  lemma {:induction false} JoinSplit(s: string, sep: char)
    ensures Join(Split(s, sep), sep) == s
    decreases |s|
  {
    if sep in s {
      var i := IndexOf(s, sep);
      var rest := Split(s[i + 1..], sep);
      JoinSplit(s[i + 1..], sep);
      assert ([s[..i]] + rest)[1..] == rest;
      assert s == s[..i] + [sep] + s[i + 1..];
    }
  }

  /** The first separator after a separator-free prefix is the one that ends it. */
  lemma {:induction false} IndexOfAfter(a: string, sep: char, t: string)
    requires sep !in a
    ensures sep in a + [sep] + t && IndexOf(a + [sep] + t, sep) == |a|
  {
    var s := a + [sep] + t;
    assert s[|a|] == sep;
    if a != [] {
      assert s[1..] == a[1..] + [sep] + t;
      IndexOfAfter(a[1..], sep, t);
    }
  }

  /** Splitting a join again gives back the pieces, provided none contains the separator. */
  lemma {:induction false} SplitJoin(ps: seq<string>, sep: char)
    requires |ps| >= 1
    requires forall k :: 0 <= k < |ps| ==> sep !in ps[k]
    ensures Split(Join(ps, sep), sep) == ps
  {
    if |ps| > 1 {
      var a, t := ps[0], Join(ps[1..], sep);
      var s := a + [sep] + t;
      assert Join(ps, sep) == s;
      IndexOfAfter(a, sep, t);
      assert s[..|a|] == a && s[|a| + 1..] == t;
      SplitJoin(ps[1..], sep);
    }
  }

  /** The characters on which Python's `str.splitlines` breaks a line. */
  predicate IsLineBreak(c: char)
  {
    c in {'\n', '\r', '\U{000B}', '\U{000C}', '\U{001C}', '\U{001D}', '\U{001E}', '\U{0085}', '\U{2028}', '\U{2029}'}
  }

  /** Index of the first line break in `s`, or `|s|` when there is none. */
  function LineEnd(s: string): (i: nat)
    ensures i <= |s|
    ensures forall k :: 0 <= k < i ==> !IsLineBreak(s[k])
    ensures i < |s| ==> IsLineBreak(s[i])
  {
    if s == [] || IsLineBreak(s[0]) then 0 else 1 + LineEnd(s[1..])
  }

  /** `s.splitlines()`: line breaks are dropped, `"\r\n"` counts as one break,
      and a break at the very end does not open an empty last line. */
  function SplitLines(s: string): (r: seq<string>)
    ensures forall k, j :: 0 <= k < |r| && 0 <= j < |r[k]| ==> !IsLineBreak(r[k][j])
    ensures |r| <= |s|
    decreases |s|
  {
    if s == [] then []
    else
      var i := LineEnd(s);
      var rest :=
        if i == |s| then []
        else if s[i] == '\r' && i + 1 < |s| && s[i + 1] == '\n' then s[i + 2..]
        else s[i + 1..];
      [s[..i]] + SplitLines(rest)
  }

  /** Printable ASCII text, which holds no line break. */
  predicate IsPlain(s: string)
  {
    forall k :: 0 <= k < |s| ==> ' ' <= s[k] <= '~'
  }

  lemma PlainAppend(a: string, b: string)
    requires IsPlain(a) && IsPlain(b)
    ensures IsPlain(a + b)
  {
    forall k | 0 <= k < |a + b| ensures ' ' <= (a + b)[k] <= '~' {
      if k >= |a| {
        assert (a + b)[k] == b[k - |a|];
      }
    }
  }

  lemma {:induction false} LineEndOfPlain(s: string)
    requires IsPlain(s)
    ensures LineEnd(s) == |s|
  {
    if s != [] {
      assert IsPlain(s[1..]) by {
        forall k | 0 <= k < |s| - 1 ensures ' ' <= s[1..][k] <= '~' {
          assert s[1..][k] == s[k + 1];
        }
      }
      LineEndOfPlain(s[1..]);
    }
  }

  /** Printable text is one line. */
  lemma SplitLinesOfPlain(s: string)
    requires s != [] && IsPlain(s)
    ensures SplitLines(s) == [s]
  {
    LineEndOfPlain(s);
    assert s[..|s|] == s;
  }

  /** A text without any line break. */
  predicate BreakFree(s: string)
  {
    forall k :: 0 <= k < |s| ==> !IsLineBreak(s[k])
  }

  lemma {:induction false} LineEndAfter(a: string, c: string)
    requires BreakFree(a)
    requires c == [] || IsLineBreak(c[0])
    ensures LineEnd(a + c) == |a|
  {
    if a != [] {
      assert (a + c)[1..] == a[1..] + c;
      LineEndAfter(a[1..], c);
    } else {
      assert a + c == c;
    }
  }

  /** A non-empty text without a line break is one line. */
  lemma SplitLinesOfLine(a: string)
    requires a != [] && BreakFree(a)
    ensures SplitLines(a) == [a]
  {
    LineEndAfter(a, []);
    assert a + [] == a;
  }

  /** A line ended by a single break: the line, then the lines of the rest. A
      `'\r'` counts alone only when no `'\n'` follows it. With `c == ""` this
      says that a final break opens no empty last line. */
  lemma SplitLinesBreak(a: string, b: char, c: string)
    requires BreakFree(a) && IsLineBreak(b)
    requires b == '\r' ==> !StartsWith(c, "\n")
    ensures SplitLines(a + [b] + c) == [a] + SplitLines(c)
  {
    var s := a + [b] + c;
    LineEndAfter(a, [b] + c);
    assert a + ([b] + c) == s;
    assert s[..|a|] == a && s[|a|] == b;
    assert s[|a| + 1..] == c;
  }

  /** A line ended by `"\r\n"`: the pair is one break. */
  lemma SplitLinesCrLf(a: string, c: string)
    requires BreakFree(a)
    ensures SplitLines(a + "\r\n" + c) == [a] + SplitLines(c)
  {
    var s := a + "\r\n" + c;
    LineEndAfter(a, "\r\n" + c);
    assert a + ("\r\n" + c) == s;
    assert s[..|a|] == a && s[|a|] == '\r' && s[|a| + 1] == '\n';
    assert s[|a| + 2..] == c;
  }

  /** The lines written one after the other. */
  function Concat(lines: seq<string>): string
  {
    if lines == [] then "" else lines[0] + Concat(lines[1..])
  }

  /** `s` with every line break removed. */
  function DropBreaks(s: string): string
  {
    if s == [] then "" else (if IsLineBreak(s[0]) then "" else [s[0]]) + DropBreaks(s[1..])
  }

  lemma {:induction false} DropBreaksAppend(a: string, b: string)
    ensures DropBreaks(a + b) == DropBreaks(a) + DropBreaks(b)
  {
    if a == [] {
      assert a + b == b;
    } else {
      assert (a + b)[1..] == a[1..] + b;
      DropBreaksAppend(a[1..], b);
    }
  }

  lemma {:induction false} DropBreaksOfLine(a: string)
    requires BreakFree(a)
    ensures DropBreaks(a) == a
  {
    if a != [] {
      DropBreaksOfLine(a[1..]);
      assert a == [a[0]] + a[1..];
    }
  }

  /** A line and its break contribute the line alone. */
  lemma DropBreaksStep(a: string, b: char, c: string)
    requires BreakFree(a) && IsLineBreak(b)
    ensures DropBreaks(a + [b] + c) == a + DropBreaks(c)
  {
    var bc := [b] + c;
    assert a + [b] + c == a + bc;
    DropBreaksOfLine(a);
    DropBreaksOfBreak(b, c);
    DropBreaksAppend(a, bc);
  }

  lemma DropBreaksOfBreak(b: char, c: string)
    requires IsLineBreak(b)
    ensures DropBreaks([b] + c) == DropBreaks(c)
  {
    assert ([b] + c)[1..] == c;
  }

  lemma ConcatCons(a: string, lines: seq<string>)
    ensures Concat([a] + lines) == a + Concat(lines)
  {
    assert ([a] + lines)[1..] == lines;
  }

  lemma FlattenBreak(a: string, b: char, c: string)
    requires BreakFree(a) && IsLineBreak(b)
    requires b == '\r' ==> !StartsWith(c, "\n")
    requires Concat(SplitLines(c)) == DropBreaks(c)
    ensures Concat(SplitLines(a + [b] + c)) == DropBreaks(a + [b] + c)
  {
    SplitLinesBreak(a, b, c);
    ConcatCons(a, SplitLines(c));
    DropBreaksStep(a, b, c);
  }

  lemma FlattenCrLf(a: string, c: string)
    requires BreakFree(a)
    requires Concat(SplitLines(c)) == DropBreaks(c)
    ensures Concat(SplitLines(a + "\r\n" + c)) == DropBreaks(a + "\r\n" + c)
  {
    SplitLinesCrLf(a, c);
    ConcatCons(a, SplitLines(c));
    DropBreaksCrLf(a, c);
  }

  lemma DropBreaksCrLf(a: string, c: string)
    requires BreakFree(a)
    ensures DropBreaks(a + "\r\n" + c) == a + DropBreaks(c)
  {
    var nc := ['\n'] + c;
    DropBreaksOfBreak('\n', c);
    DropBreaksStep(a, '\r', nc);
    assert a + ['\r'] + nc == a + "\r\n" + c;
  }

  /** No character other than a line break is lost or added: the lines, put
      back together, are the text without its breaks. */
  lemma {:induction false} SplitLinesFlatten(s: string)
    ensures Concat(SplitLines(s)) == DropBreaks(s)
    decreases |s|
  {
    if s != [] {
      var i := LineEnd(s);
      var a := s[..i];
      assert BreakFree(a);
      if i == |s| {
        assert a == s;
        SplitLinesOfLine(s);
        ConcatCons(s, []);
        DropBreaksOfLine(s);
      } else if s[i] == '\r' && i + 1 < |s| && s[i + 1] == '\n' {
        var c := s[i + 2..];
        assert s == a + "\r\n" + c;
        SplitLinesFlatten(c);
        FlattenCrLf(a, c);
      } else {
        var c := s[i + 1..];
        assert s == a + [s[i]] + c;
        assert s[i] == '\r' ==> !StartsWith(c, "\n");
        SplitLinesFlatten(c);
        FlattenBreak(a, s[i], c);
      }
    }
  }

  predicate IsDigit(c: char)
  {
    '0' <= c <= '9'
  }

  function DigitValue(c: char): nat
    requires IsDigit(c)
  {
    c as int - '0' as int
  }

  function DigitChar(d: nat): (c: char)
    requires d < 10
    ensures IsDigit(c) && DigitValue(c) == d
  {
    (d + '0' as int) as char
  }

  /** `str(n)`: the decimal digits of `n`, without leading zeros. */
  function NatToString(n: nat): (s: string)
    ensures |s| >= 1
    ensures forall k :: 0 <= k < |s| ==> IsDigit(s[k])
  {
    if n < 10 then [DigitChar(n)] else NatToString(n / 10) + [DigitChar(n % 10)]
  }

  /** `int(s)` for a string of decimal digits. */
  function ParseNat(s: string): nat
    requires forall k :: 0 <= k < |s| ==> IsDigit(s[k])
  {
    if s == [] then 0
    else ParseNat(s[..|s| - 1]) * 10 + DigitValue(s[|s| - 1])
  }

  /** Reading back what `str(n)` printed gives `n`. */
  lemma {:induction false} ParseNatToString(n: nat)
    ensures ParseNat(NatToString(n)) == n
  {
    var s := NatToString(n);
    if n >= 10 {
      assert s[..|s| - 1] == NatToString(n / 10);
      ParseNatToString(n / 10);
    }
  }
}
