/**
 * The parts of Python's `str` behaviour the tools rely on: strip, startswith,
 * endswith, join, splitlines (on "\n" only), isdigit (ASCII digits only),
 * isspace, `int()` of a digit string, and the decimal formatting of f-strings.
 */
module PyStr {

  /** The code point ranges, inclusive, of the characters for which Python's `str.isspace()` is true. */
  const SpaceRanges: seq<(char, char)> := [
    ('\t', '\r'), ('\U{1C}', ' '), ('\U{85}', '\U{85}'), ('\U{A0}', '\U{A0}'),
    ('\U{1680}', '\U{1680}'), ('\U{2000}', '\U{200A}'), ('\U{2028}', '\U{2029}'),
    ('\U{202F}', '\U{202F}'), ('\U{205F}', '\U{205F}'), ('\U{3000}', '\U{3000}')
  ]

  predicate InRanges(c: char, ranges: seq<(char, char)>) {
    ranges != [] && ((ranges[0].0 <= c <= ranges[0].1) || InRanges(c, ranges[1..]))
  }

  /** A character outside every range of a table is in none of them. */
  lemma {:induction false} NotInRanges(c: char, ranges: seq<(char, char)>)
    requires forall i :: 0 <= i < |ranges| ==> !(ranges[i].0 <= c <= ranges[i].1)
    ensures !InRanges(c, ranges)
  {
    if ranges != [] {
      NotInRanges(c, ranges[1..]);
    }
  }

  /** No visible ASCII character, from "!" to "~", is whitespace. */
  lemma VisibleAsciiNotSpace(c: char)
    requires '!' <= c <= '~'
    ensures !IsSpaceChar(c)
  {
    NotInRanges(c, SpaceRanges);
  }

  /** The characters for which Python's `str.isspace()` is true. */
  predicate IsSpaceChar(c: char) {
    InRanges(c, SpaceRanges)
  }

  /** `s.isspace()`: non-empty and made only of whitespace. */
  predicate IsSpace(s: string) {
    s != [] && forall i :: 0 <= i < |s| ==> IsSpaceChar(s[i])
  }

  predicate StartsWith(s: string, prefix: string) {
    |prefix| <= |s| && s[..|prefix|] == prefix
  }

  predicate EndsWith(s: string, suffix: string) {
    |suffix| <= |s| && s[|s| - |suffix|..] == suffix
  }

  /** `s.lstrip()`: the suffix of `s` left after dropping leading whitespace. */
  function LStrip(s: string): string {
    if s != [] && IsSpaceChar(s[0]) then LStrip(s[1..]) else s
  }

  /** `s.rstrip()`: the prefix of `s` left after dropping trailing whitespace. */
  function RStrip(s: string): string {
    if s != [] && IsSpaceChar(s[|s| - 1]) then RStrip(s[..|s| - 1]) else s
  }

  /** `s.strip()`. */
  function Strip(s: string): string {
    RStrip(LStrip(s))
  }

  /** `s.rstrip(c)` for a single character `c`. */
  function RStripChar(s: string, c: char): string {
    if s != [] && s[|s| - 1] == c then RStripChar(s[..|s| - 1], c) else s
  }

  /** `lstrip` drops exactly the leading whitespace. */
  lemma {:induction false} LStripSpec(s: string)
    ensures |LStrip(s)| <= |s| && LStrip(s) == s[|s| - |LStrip(s)|..]
    ensures LStrip(s) != [] ==> !IsSpaceChar(LStrip(s)[0])
    ensures forall i :: 0 <= i < |s| - |LStrip(s)| ==> IsSpaceChar(s[i])
  {
    if s != [] && IsSpaceChar(s[0]) {
      var t := s[1..];
      LStripSpec(t);
      var l := LStrip(t);
      assert LStrip(s) == l;
      assert t[|t| - |l|..] == s[|s| - |l|..];
      forall i | 0 <= i < |s| - |l| ensures IsSpaceChar(s[i]) {
        if i > 0 { assert s[i] == t[i - 1]; }
      }
    }
  }

  /** `rstrip` drops exactly the trailing whitespace. */
  lemma {:induction false} RStripSpec(s: string)
    ensures |RStrip(s)| <= |s| && RStrip(s) == s[..|RStrip(s)|]
    ensures RStrip(s) != [] ==> !IsSpaceChar(RStrip(s)[|RStrip(s)| - 1])
    ensures forall i :: |RStrip(s)| <= i < |s| ==> IsSpaceChar(s[i])
  {
    if s != [] && IsSpaceChar(s[|s| - 1]) {
      var t := s[..|s| - 1];
      RStripSpec(t);
      var r := RStrip(t);
      assert RStrip(s) == r;
      assert t[..|r|] == s[..|r|];
      forall i | |r| <= i < |s| ensures IsSpaceChar(s[i]) {
        if i < |s| - 1 { assert s[i] == t[i]; }
      }
    }
  }

  /** `rstrip(c)` drops exactly the trailing copies of `c`. */
  lemma {:induction false} RStripCharSpec(s: string, c: char)
    ensures |RStripChar(s, c)| <= |s| && RStripChar(s, c) == s[..|RStripChar(s, c)|]
    ensures RStripChar(s, c) != [] ==> RStripChar(s, c)[|RStripChar(s, c)| - 1] != c
    ensures forall i :: |RStripChar(s, c)| <= i < |s| ==> s[i] == c
  {
    if s != [] && s[|s| - 1] == c {
      RStripCharSpec(s[..|s| - 1], c);
    }
  }

  /** `s * n` has `n` copies of `s`; for a one-character `s`, `n` copies of that character. */
  lemma {:induction false} RepeatSpec(s: string, n: int)
    ensures n <= 0 ==> Repeat(s, n) == ""
    ensures |s| == 1 && n >= 0 ==> |Repeat(s, n)| == n
    ensures |s| == 1 ==> forall i :: 0 <= i < |Repeat(s, n)| ==> Repeat(s, n)[i] == s[0]
    decreases if n < 0 then 0 else n
  {
    if n > 0 {
      RepeatSpec(s, n - 1);
    }
  }

  /** Python slicing `s[n:]`, which is empty when `n` is past the end. */
  function Drop(s: string, n: nat): (r: string)
    ensures n <= |s| ==> r == s[n..]
    ensures n >= |s| ==> r == ""
  {
    if n <= |s| then s[n..] else ""
  }

  /** `s * n`: `s` repeated `n` times, empty when `n` is not positive. */
  function Repeat(s: string, n: int): string
    decreases if n < 0 then 0 else n
  {
    if n <= 0 then "" else s + Repeat(s, n - 1)
  }

  /** `"".join(ls)`. */
  function Concat(ls: seq<string>): string {
    if ls == [] then "" else ls[0] + Concat(ls[1..])
  }

  /** `sep.join(ls)`. */
  function Join(ls: seq<string>, sep: string): string {
    if ls == [] then "" else if |ls| == 1 then ls[0] else ls[0] + sep + Join(ls[1..], sep)
  }

  /** The index of the first "\n" in `s`, or `|s|` when there is none. */
  function LineEnd(s: string): (k: nat)
    ensures k <= |s|
  {
    if s == [] || s[0] == '\n' then 0 else 1 + LineEnd(s[1..])
  }

  /** `LineEnd` finds the first "\n": none comes before it, and it is one unless it is the end. */
  lemma {:induction false} LineEndSpec(s: string)
    ensures forall i :: 0 <= i < LineEnd(s) ==> s[i] != '\n'
    ensures LineEnd(s) < |s| ==> s[LineEnd(s)] == '\n'
  {
    if s != [] && s[0] != '\n' {
      LineEndSpec(s[1..]);
      forall i | 0 <= i < LineEnd(s) ensures s[i] != '\n' {
        if i > 0 { assert s[i] == s[1..][i - 1]; }
      }
    }
  }

  /** `s.splitlines(True)`, splitting on "\n" only: every piece keeps its line end. */
  function SplitLinesKeepEnds(s: string): (r: seq<string>)
    decreases |s|
  {
    if s == [] then []
    else
      var k := LineEnd(s);
      if k == |s| then [s] else [s[..k + 1]] + SplitLinesKeepEnds(s[k + 1..])
  }

  /** `s.splitlines()`, splitting on "\n" only: line ends are dropped. */
  function SplitLines(s: string): (r: seq<string>)
    decreases |s|
  {
    if s == [] then []
    else
      var k := LineEnd(s);
      [s[..k]] + if k == |s| then [] else SplitLines(s[k + 1..])
  }

  /** A line as `splitlines(True)` delivers it: non-empty, with "\n" at most at its end. */
  predicate IsLine(l: string) {
    l != [] && forall i :: 0 <= i < |l| - 1 ==> l[i] != '\n'
  }

  /** A list of lines that `splitlines(True)` could have produced. */
  predicate WellFormedLines(ls: seq<string>) {
    (forall i :: 0 <= i < |ls| ==> IsLine(ls[i]))
    && (forall i :: 0 <= i < |ls| - 1 ==> ls[i][|ls[i]| - 1] == '\n')
  }

  predicate IsDigitChar(c: char) {
    '0' <= c <= '9'
  }

  /** `s.isdigit()`, for ASCII digits. */
  predicate IsDigits(s: string) {
    s != [] && forall i :: 0 <= i < |s| ==> IsDigitChar(s[i])
  }

  /** `int(s)` for a string of ASCII digits. */
  function DecimalValue(s: string): nat
    requires forall i :: 0 <= i < |s| ==> IsDigitChar(s[i])
  {
    if s == [] then 0
    else
      assert IsDigitChar(s[|s| - 1]);
      DecimalValue(s[..|s| - 1]) * 10 + (s[|s| - 1] as int - '0' as int)
  }

  function DigitChar(d: nat): (c: char)
    requires d < 10
    ensures IsDigitChar(c) && c as int - '0' as int == d
  {
    "0123456789"[d]
  }

  /** `str(n)` for a natural number. */
  function NatToDecimal(n: nat): (r: string)
    ensures IsDigits(r)
    ensures DecimalValue(r) == n
  {
    if n < 10 then [DigitChar(n)]
    else
      var prefix := NatToDecimal(n / 10);
      var r := prefix + [DigitChar(n % 10)];
      assert r[..|r| - 1] == prefix;
      r
  }

  /** `str(i)` for any integer. */
  function IntToDecimal(i: int): string {
    if i < 0 then "-" + NatToDecimal(-i) else NatToDecimal(i)
  }

  /** The f-string field `{n:4}`: `str(n)` right-aligned in a field of width four. */
  function Pad4(n: int): string {
    Repeat(" ", 4 - |IntToDecimal(n)|) + IntToDecimal(n)
  }

  /** The field ends with the number, is at least four wide, and is padded on the left with spaces only. */
  lemma Pad4Spec(n: int)
    ensures EndsWith(Pad4(n), IntToDecimal(n))
    ensures |Pad4(n)| == if |IntToDecimal(n)| < 4 then 4 else |IntToDecimal(n)|
    ensures forall i :: 0 <= i < |Pad4(n)| - |IntToDecimal(n)| ==> Pad4(n)[i] == ' '
  {
    var r := PadLeft(IntToDecimal(n));
    assert r == Pad4(n);
  }

  /** `Pad4Spec` for any text in place of the number. */
  lemma PadLeft(d: string) returns (r: string)
    ensures r == Repeat(" ", 4 - |d|) + d
    ensures EndsWith(r, d) && |r| == if |d| < 4 then 4 else |d|
    ensures forall i :: 0 <= i < |r| - |d| ==> r[i] == ' '
  {
    RepeatSpec(" ", 4 - |d|);
    r := Repeat(" ", 4 - |d|) + d;
    assert r[|r| - |d|..] == d;
  }

  // ---------------------------------------------------------------- lemmas

  lemma {:induction false} ConcatAppend(a: seq<string>, b: seq<string>)
    ensures Concat(a + b) == Concat(a) + Concat(b)
  {
    if a == [] {
      assert a + b == b;
    } else {
      assert (a + b)[1..] == a[1..] + b;
      ConcatAppend(a[1..], b);
    }
  }

  lemma ConcatSingle(l: string)
    ensures Concat([l]) == l
  {
    assert [l][1..] == [];
  }

  /** Re-joining what `splitlines(True)` produced gives back the text. */
  lemma {:induction false} ConcatSplitLinesKeepEnds(s: string)
    ensures Concat(SplitLinesKeepEnds(s)) == s
    decreases |s|
  {
    if s != [] {
      var k := LineEnd(s);
      if k < |s| {
        ConcatSplitLinesKeepEnds(s[k + 1..]);
        assert s == s[..k + 1] + s[k + 1..];
      }
    }
  }

  /** A line followed by well-formed lines is well formed when the line ends in "\n". */
  lemma ConsWellFormed(l: string, rest: seq<string>)
    requires IsLine(l) && l[|l| - 1] == '\n' && WellFormedLines(rest)
    ensures WellFormedLines([l] + rest)
  {
    var r := [l] + rest;
    forall i | 0 <= i < |r| ensures IsLine(r[i]) {
      if i > 0 { assert r[i] == rest[i - 1]; }
    }
    forall i | 0 <= i < |r| - 1 ensures r[i][|r[i]| - 1] == '\n' {
      if i > 0 { assert r[i] == rest[i - 1]; }
    }
  }

  /** Every piece `splitlines(True)` produces is a line, and all but the last end in "\n". */
  lemma {:induction false} SplitLinesKeepEndsWellFormed(s: string)
    ensures WellFormedLines(SplitLinesKeepEnds(s))
    decreases |s|
  {
    if s != [] {
      var k := LineEnd(s);
      LineEndSpec(s);
      if k < |s| {
        SplitLinesKeepEndsWellFormed(s[k + 1..]);
        ConsWellFormed(s[..k + 1], SplitLinesKeepEnds(s[k + 1..]));
      } else {
        assert SplitLinesKeepEnds(s) == [s];
      }
    }
  }

  /** A line ending in "\n" is split off the front of whatever follows it. */
  lemma SplitLinesKeepEndsCons(l: string, t: string)
    requires IsLine(l) && l[|l| - 1] == '\n'
    ensures SplitLinesKeepEnds(l + t) == [l] + SplitLinesKeepEnds(t)
  {
    var s := l + t;
    LineEndAt(s, |l| - 1);
    assert s[..|l|] == l;
    assert s[|l|..] == t;
  }

  /** A line without "\n" is split into itself alone. */
  lemma SplitLinesKeepEndsSingle(l: string)
    requires l != [] && forall i :: 0 <= i < |l| ==> l[i] != '\n'
    ensures SplitLinesKeepEnds(l) == [l]
  {
    LineEndAbsent(l);
  }

  /** Splitting the concatenation of well-formed lines gives back exactly those lines. */
  lemma {:induction false} SplitLinesKeepEndsOfConcat(ls: seq<string>)
    requires WellFormedLines(ls)
    ensures SplitLinesKeepEnds(Concat(ls)) == ls
  {
    if ls != [] {
      var l := ls[0];
      var tail := ls[1..];
      assert Concat(ls) == l + Concat(tail);
      assert IsLine(l);
      if l[|l| - 1] == '\n' {
        assert WellFormedLines(tail) by {
          forall i | 0 <= i < |tail| ensures IsLine(tail[i]) {
            assert tail[i] == ls[i + 1];
          }
          forall i | 0 <= i < |tail| - 1 ensures tail[i][|tail[i]| - 1] == '\n' {
            assert tail[i] == ls[i + 1];
          }
        }
        SplitLinesKeepEndsOfConcat(tail);
        SplitLinesKeepEndsCons(l, Concat(tail));
        assert ls == [l] + tail;
      } else {
        assert |ls| == 1;
        assert Concat(ls) == l;
        SplitLinesKeepEndsSingle(l);
      }
    }
  }

  lemma {:induction false} LineEndAt(s: string, k: nat)
    requires k < |s| && s[k] == '\n'
    requires forall i :: 0 <= i < k ==> s[i] != '\n'
    ensures LineEnd(s) == k
  {
    if k > 0 {
      LineEndAt(s[1..], k - 1);
    }
  }

  lemma {:induction false} LineEndAbsent(s: string)
    requires forall i :: 0 <= i < |s| ==> s[i] != '\n'
    ensures LineEnd(s) == |s|
  {
    if s != [] {
      LineEndAbsent(s[1..]);
    }
  }

  /** Lines joined by "\n" and closed by a final "\n" split back into the same lines. */
  lemma {:induction false} SplitLinesOfJoin(ls: seq<string>)
    requires ls != []
    requires forall i :: 0 <= i < |ls| ==> '\n' !in ls[i]
    ensures SplitLines(Join(ls, "\n") + "\n") == ls
  {
    var l := ls[0];
    var s := Join(ls, "\n") + "\n";
    var rest := if |ls| == 1 then "" else Join(ls[1..], "\n") + "\n";
    assert s == l + "\n" + rest;
    LineEndAt(s, |l|);
    assert s[..|l|] == l;
    assert s[|l| + 1..] == rest;
    assert ls == [l] + ls[1..];
    assert SplitLines(s) == [l] + SplitLines(rest);
    if |ls| > 1 {
      SplitLinesOfJoin(ls[1..]);
      assert SplitLines(rest) == ls[1..];
    } else {
      assert SplitLines(rest) == [];
    }
  }

  lemma PrefixOfConcat(x: string, y: string)
    ensures StartsWith(x + y, x)
  {
    assert (x + y)[..|x|] == x;
  }

  /** A prefix of a prefix is a prefix. */
  lemma PrefixTransitive(s: string, t: string, u: string)
    requires StartsWith(s, t) && StartsWith(t, u)
    ensures StartsWith(s, u)
  {
    assert s[..|u|] == s[..|t|][..|u|];
  }

  /** Appending to a string keeps its prefixes. */
  lemma PrefixExtends(s: string, t: string, u: string)
    requires StartsWith(s, u)
    ensures StartsWith(s + t, u)
  {
    PrefixOfConcat(s, t);
    PrefixTransitive(s + t, s, u);
  }

  /** A prefix of a prefix is a prefix, for sequences of strings. */
  lemma PrefixChain(a: seq<string>, b: seq<string>, c: seq<string>)
    requires a <= b && b <= c
    ensures a <= c
  {
    assert c[..|a|] == b[..|a|];
  }

  lemma SuffixOfConcat(x: string, y: string)
    ensures EndsWith(x + y, y)
  {
    assert (x + y)[|x|..] == y;
  }

  /** Stripping leaves a string alone when it neither begins nor ends with whitespace. */
  lemma StripUnchanged(s: string)
    requires s != [] ==> !IsSpaceChar(s[0]) && !IsSpaceChar(s[|s| - 1])
    ensures Strip(s) == s
  {
  }

  /** Stripping removes trailing whitespace `w` after a string with non-space ends. */
  lemma {:induction false} StripTrailing(s: string, w: string)
    requires s != [] && !IsSpaceChar(s[0]) && !IsSpaceChar(s[|s| - 1])
    requires forall i :: 0 <= i < |w| ==> IsSpaceChar(w[i])
    ensures Strip(s + w) == s
  {
    var t := s + w;
    assert LStrip(t) == t;
    var r := RStrip(t);
    RStripSpec(t);
    assert !IsSpaceChar(t[|s| - 1]);
    assert forall i :: |s| <= i < |t| ==> IsSpaceChar(t[i]);
    assert |r| == |s|;
    assert r == t[..|s|] == s;
  }

  /** A line of visible text at both ends followed by "\n", stripped, loses only the "\n". */
  lemma StripLineEnd(l: string)
    requires |l| >= 2 && l[|l| - 1] == '\n'
    requires '!' <= l[0] <= '~' && '!' <= l[|l| - 2] <= '~'
    ensures Strip(l) == l[..|l| - 1]
  {
    var s := l[..|l| - 1];
    VisibleAsciiNotSpace(s[0]);
    VisibleAsciiNotSpace(s[|s| - 1]);
    assert IsSpaceChar(l[|l| - 1]);
    assert l == s + "\n";
    StripTrailing(s, "\n");
  }

  /** A string that ends with a suffix without whitespace still ends with it after stripping. */
  lemma StripKeepsSuffix(s: string, suffix: string)
    requires EndsWith(s, suffix) && suffix != []
    requires forall i :: 0 <= i < |suffix| ==> !IsSpaceChar(suffix[i])
    ensures EndsWith(Strip(s), suffix)
  {
    var l := LStrip(s);
    LStripSpec(s);
    var cut := |s| - |l|;
    assert !IsSpaceChar(s[|s| - |suffix|]) by {
      assert s[|s| - |suffix|] == suffix[0];
    }
    assert cut <= |s| - |suffix|;
    assert EndsWith(l, suffix) by {
      assert l[|l| - |suffix|..] == s[|s| - |suffix|..];
    }
    var r := RStrip(l);
    RStripSpec(l);
    assert !IsSpaceChar(l[|l| - 1]) by {
      assert l[|l| - 1] == suffix[|suffix| - 1];
    }
    assert |r| == |l|;
  }

  /** `s.split(c)[0]`: the part of `s` before its first `c`, or all of `s` when it has none. */
  function FirstField(s: string, c: char): (r: string)
    ensures StartsWith(s, r) && c !in r
    ensures |r| < |s| ==> s[|r|] == c
  {
    if s == [] || s[0] == c then ""
    else
      var r := [s[0]] + FirstField(s[1..], c);
      assert s == [s[0]] + s[1..];
      r
  }

  /** A string that starts with a prefix whose first and last characters are visible ASCII still starts with it after stripping. */
  lemma StripKeepsPrefix(s: string, prefix: string)
    requires StartsWith(s, prefix) && prefix != []
    requires '!' <= prefix[0] <= '~' && '!' <= prefix[|prefix| - 1] <= '~'
    ensures StartsWith(Strip(s), prefix)
  {
    VisibleAsciiNotSpace(prefix[0]);
    VisibleAsciiNotSpace(prefix[|prefix| - 1]);
    assert !IsSpaceChar(s[0]) by { assert s[0] == prefix[0]; }
    assert LStrip(s) == s;
    RStripSpec(s);
    var r := RStrip(s);
    assert !IsSpaceChar(s[|prefix| - 1]) by { assert s[|prefix| - 1] == prefix[|prefix| - 1]; }
    assert |prefix| <= |r|;
    assert r[..|prefix|] == s[..|prefix|];
  }

  /** The lines `splitlines()` produces hold no "\n". */
  lemma {:induction false} SplitLinesNoNewline(s: string)
    ensures forall i :: 0 <= i < |SplitLines(s)| ==> '\n' !in SplitLines(s)[i]
    decreases |s|
  {
    if s != [] {
      var k := LineEnd(s);
      LineEndSpec(s);
      assert '\n' !in s[..k];
      if k < |s| {
        SplitLinesNoNewline(s[k + 1..]);
      }
    }
  }

  /** Joining strings without `c` by a separator without `c` gives a string without `c`. */
  lemma {:induction false} JoinAvoids(ls: seq<string>, sep: string, c: char)
    requires forall i :: 0 <= i < |ls| ==> c !in ls[i]
    requires c !in sep
    ensures c !in Join(ls, sep)
  {
    if |ls| > 1 {
      JoinAvoids(ls[1..], sep, c);
    }
  }
}
