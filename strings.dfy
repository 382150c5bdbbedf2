/**
 * The few Python `str` operations the session code relies on, over `seq<char>`:
 * `strip`/`lstrip`/`rstrip`, `split()` and `split(maxsplit=1)`, `splitlines()`,
 * `startswith`/`endswith`, `in`, `upper()` and `sep.join(...)`.
 *
 * Whitespace is the ASCII part of Python's whitespace set; `upper()` maps only
 * the ASCII letters.
 */
module Strings {

  /** The characters Python's `str.isspace` accepts below 128. */
  predicate IsSpace(c: char) {
    c == ' ' || c == '\t' || c == '\n' || c == '\r' || c == '\U{0B}' || c == '\U{0C}'
    || c == '\U{1C}' || c == '\U{1D}' || c == '\U{1E}' || c == '\U{1F}'
  }

  /** The characters at which Python's `str.splitlines` breaks a line. */
  predicate IsLineBreak(c: char) {
    c == '\n' || c == '\r' || c == '\U{0B}' || c == '\U{0C}' || c == '\U{1C}' || c == '\U{1D}'
    || c == '\U{1E}' || c == '\U{85}' || c == '\U{2028}' || c == '\U{2029}'
  }

  predicate StartsWith(s: string, prefix: string) {
    |prefix| <= |s| && s[..|prefix|] == prefix
  }

  predicate EndsWith(s: string, suffix: string) {
    |suffix| <= |s| && s[|s| - |suffix|..] == suffix
  }

  /** Python's `t in s` for strings. */
  predicate Contains(s: string, t: string)
    decreases |s|
  {
    StartsWith(s, t) || (s != [] && Contains(s[1..], t))
  }

  /** The number of leading spaces of `s`. */
  function Indent(s: string): (n: nat)
    ensures n <= |s|
  {
    if s != [] && IsSpace(s[0]) then 1 + Indent(s[1..]) else 0
  }

  /** The indent is the run of spaces that opens `s`. */
  lemma {:induction false} IndentSpec(s: string)
    ensures forall i :: 0 <= i < Indent(s) ==> IsSpace(s[i])
    ensures Indent(s) < |s| ==> !IsSpace(s[Indent(s)])
    decreases |s|
  {
    if s != [] && IsSpace(s[0]) {
      IndentSpec(s[1..]);
      assert forall i :: 1 <= i < |s| ==> s[i] == s[1..][i - 1];
    }
  }

  /** The length of `s` without its trailing spaces. */
  function Trimmed(s: string): (n: nat)
    ensures n <= |s|
  {
    if s != [] && IsSpace(s[|s| - 1]) then Trimmed(s[..|s| - 1]) else |s|
  }

  /** What the trimmed length leaves out is the run of spaces that closes `s`. */
  lemma {:induction false} TrimmedSpec(s: string)
    ensures forall i :: Trimmed(s) <= i < |s| ==> IsSpace(s[i])
    ensures 0 < Trimmed(s) ==> !IsSpace(s[Trimmed(s) - 1])
    decreases |s|
  {
    if s != [] && IsSpace(s[|s| - 1]) {
      TrimmedSpec(s[..|s| - 1]);
      assert forall i :: 0 <= i < |s| - 1 ==> s[i] == s[..|s| - 1][i];
    }
  }

  /** `s.lstrip()`. */
  function LStrip(s: string): string {
    s[Indent(s)..]
  }

  /** `s.rstrip()`. */
  function RStrip(s: string): string {
    s[..Trimmed(s)]
  }

  /** `s.strip()`. */
  function Strip(s: string): string {
    RStrip(LStrip(s))
  }

  /** The length of the longest prefix of `s` holding no space. */
  function WordEnd(s: string): (n: nat)
    ensures n <= |s|
  {
    if s == [] || IsSpace(s[0]) then 0 else 1 + WordEnd(s[1..])
  }

  /** The first word is the run of non-spaces that opens `s`. */
  lemma {:induction false} WordEndSpec(s: string)
    ensures forall i :: 0 <= i < WordEnd(s) ==> !IsSpace(s[i])
    ensures WordEnd(s) < |s| ==> IsSpace(s[WordEnd(s)])
    decreases |s|
  {
    if s != [] && !IsSpace(s[0]) {
      WordEndSpec(s[1..]);
      assert forall i :: 1 <= i < |s| ==> s[i] == s[1..][i - 1];
    }
  }

  /** The longest prefix of `s` holding no space. */
  function TakeWord(s: string): string {
    s[..WordEnd(s)]
  }

  /** `s.split()`: the maximal runs of non-space characters, in order. */
  function Words(s: string): seq<string>
    decreases |s|
  {
    var t := LStrip(s);
    if t == [] then [] else
      var w := TakeWord(t);
      [w] + Words(t[|w|..])
  }

  /** `s.split(maxsplit=1)`: the first word and, when anything but spaces follows it,
      that remainder with its leading spaces removed (its trailing spaces kept). */
  function SplitOnce(s: string): (fields: seq<string>)
    ensures |fields| <= 2
  {
    var t := LStrip(s);
    if t == [] then [] else
      var w := TakeWord(t);
      var rest := LStrip(t[|w|..]);
      if rest == [] then [w] else [w, rest]
  }

  /** `s.split(sep, 1)[1]`: what follows the first occurrence of `sep`. */
  function After(s: string, sep: string): string
    requires Contains(s, sep)
    decreases |s|
  {
    if StartsWith(s, sep) then s[|sep|..] else After(s[1..], sep)
  }

  function UpperChar(c: char): char {
    if 'a' <= c <= 'z' then (c as int - 32) as char else c
  }

  /** `s.upper()` on ASCII letters. */
  function Upper(s: string): (r: string)
    ensures |r| == |s|
    ensures forall i :: 0 <= i < |s| ==> r[i] == UpperChar(s[i])
  {
    if s == [] then [] else [UpperChar(s[0])] + Upper(s[1..])
  }

  /** `sep.join(parts)`. */
  function Join(parts: seq<string>, sep: string): string {
    if parts == [] then ""
    else if |parts| == 1 then parts[0]
    else parts[0] + sep + Join(parts[1..], sep)
  }

  /** The index of the first line break in `s`, or `|s|`. */
  function LineEnd(s: string): (i: nat)
    ensures i <= |s|
    ensures i < |s| ==> IsLineBreak(s[i])
    ensures forall j :: 0 <= j < i ==> !IsLineBreak(s[j])
  {
    if s == [] || IsLineBreak(s[0]) then 0 else 1 + LineEnd(s[1..])
  }

  /** `s.splitlines()`: "\r\n" is one break, and a final break opens no empty line. */
  function SplitLines(s: string): seq<string>
    decreases |s|
  {
    if s == [] then [] else
      var i := LineEnd(s);
      if i == |s| then [s] else
        var skip := if s[i] == '\r' && i + 1 < |s| && s[i + 1] == '\n' then 2 else 1;
        [s[..i]] + SplitLines(s[i + skip..])
  }

  predicate NoLineBreak(s: string) {
    forall i :: 0 <= i < |s| ==> !IsLineBreak(s[i])
  }

  // ---------------------------------------------------------------------------

  /** Stripping twice is stripping once. */
  lemma StripIdempotent(s: string)
    ensures Strip(Strip(s)) == Strip(s)
  {
    var x := LStrip(s);
    var t := Strip(s);
    IndentSpec(s);
    TrimmedSpec(x);
    assert t != [] ==> t[0] == x[0] && t[|t| - 1] == x[|t| - 1];
    assert LStrip(t) == t;
    RStripFixed(t);
  }

  /** Left-stripping twice is left-stripping once. */
  lemma StripIdempotentLeft(s: string)
    ensures LStrip(LStrip(s)) == LStrip(s)
  {
    IndentSpec(s);
  }

  /** The indent is the only split of `s` into a run of spaces and a rest that does not open with one. */
  lemma IndentUnique(s: string, k: nat)
    requires k <= |s|
    requires forall i :: 0 <= i < k ==> IsSpace(s[i])
    requires k < |s| ==> !IsSpace(s[k])
    ensures Indent(s) == k
  {
    IndentSpec(s);
  }

  /** The trimmed length is the only split of `s` into a rest and a run of closing spaces. */
  lemma TrimmedUnique(s: string, k: nat)
    requires k <= |s|
    requires forall i :: k <= i < |s| ==> IsSpace(s[i])
    requires 0 < k ==> !IsSpace(s[k - 1])
    ensures Trimmed(s) == k
  {
    TrimmedSpec(s);
  }

  /** Stripping after right-stripping is stripping: `s.rstrip().strip() == s.strip()`. */
  lemma StripAfterRStrip(s: string)
    ensures Strip(RStrip(s)) == Strip(s)
  {
    var n := Trimmed(s);
    var i := Indent(s);
    var r := s[..n];
    TrimmedSpec(s);
    IndentSpec(s);
    RStripFixed(r);
    if n == 0 {
      TrimmedUnique(LStrip(s), 0);
    } else {
      assert i < n;
      IndentUnique(r, i);
      RStripFixed(s[i..n]);
      TrimmedUnique(s[i..], n - i);
      assert Strip(s) == s[i..][..n - i] == s[i..n];
    }
  }

  lemma RStripFixed(t: string)
    requires t == [] || !IsSpace(t[|t| - 1])
    ensures RStrip(t) == t
  {
  }

  /** The stripped text begins with the first non-space character of `s`. */
  lemma StripHead(s: string)
    requires LStrip(s) != []
    ensures Strip(s) != [] && Strip(s)[0] == LStrip(s)[0]
  {
    var t := LStrip(s);
    IndentSpec(s);
    TrimmedSpec(t);
    assert !IsSpace(t[0]);
  }

  /** `c in s` for a one-character string. */
  lemma {:induction false} ContainsChar(s: string, c: char)
    ensures Contains(s, [c]) <==> exists i :: 0 <= i < |s| && s[i] == c
    decreases |s|
  {
    if s != [] {
      ContainsChar(s[1..], c);
      assert StartsWith(s, [c]) <==> s[0] == c by { assert s[..1] == [s[0]]; }
      assert (exists i :: 0 <= i < |s[1..]| && s[1..][i] == c) ==> exists i :: 0 <= i < |s| && s[i] == c by {
        if exists i :: 0 <= i < |s[1..]| && s[1..][i] == c {
          var i :| 0 <= i < |s[1..]| && s[1..][i] == c;
          assert s[i + 1] == c;
        }
      }
      assert (exists i :: 0 <= i < |s| && s[i] == c) ==> s[0] == c || exists i :: 0 <= i < |s[1..]| && s[1..][i] == c by {
        if exists i :: 0 <= i < |s| && s[i] == c {
          var i :| 0 <= i < |s| && s[i] == c;
          assert i > 0 ==> s[1..][i - 1] == c;
        }
      }
    }
  }

  /** `"ab" in s` for a two-character string. */
  lemma {:induction false} ContainsPair(s: string, a: char, b: char)
    ensures Contains(s, [a, b]) <==> exists i :: 0 <= i && i + 1 < |s| && s[i] == a && s[i + 1] == b
    decreases |s|
  {
    if s != [] {
      ContainsPair(s[1..], a, b);
      assert StartsWith(s, [a, b]) <==> |s| >= 2 && s[0] == a && s[1] == b by {
        assert |s| >= 2 ==> s[..2] == [s[0], s[1]];
      }
      assert (exists i :: 0 <= i && i + 1 < |s[1..]| && s[1..][i] == a && s[1..][i + 1] == b)
        ==> exists i :: 0 <= i && i + 1 < |s| && s[i] == a && s[i + 1] == b by {
        if exists i :: 0 <= i && i + 1 < |s[1..]| && s[1..][i] == a && s[1..][i + 1] == b {
          var i :| 0 <= i && i + 1 < |s[1..]| && s[1..][i] == a && s[1..][i + 1] == b;
          assert s[i + 1] == a && s[i + 2] == b;
        }
      }
      assert (exists i :: 0 <= i && i + 1 < |s| && s[i] == a && s[i + 1] == b)
        ==> (|s| >= 2 && s[0] == a && s[1] == b)
            || exists i :: 0 <= i && i + 1 < |s[1..]| && s[1..][i] == a && s[1..][i + 1] == b by {
        if exists i :: 0 <= i && i + 1 < |s| && s[i] == a && s[i + 1] == b {
          var i :| 0 <= i && i + 1 < |s| && s[i] == a && s[i + 1] == b;
          assert i > 0 ==> s[1..][i - 1] == a && s[1..][i] == b;
        }
      }
    }
  }

  /** Cutting a string anywhere after its first word keeps that word. */
  lemma {:induction false} TakeWordOfPrefix(x: string, m: nat)
    requires |TakeWord(x)| <= m <= |x|
    ensures TakeWord(x[..m]) == TakeWord(x)
    decreases m
  {
    if x != [] && !IsSpace(x[0]) {
      assert x[..m][0] == x[0];
      assert x[..m][1..] == x[1..][..m - 1];
      TakeWordOfPrefix(x[1..], m - 1);
    } else {
      assert m > 0 ==> x[..m][0] == x[0];
    }
  }

  /** Trailing spaces lie after the first word. */
  lemma {:induction false} WordWithinRStrip(x: string)
    ensures |TakeWord(x)| <= |RStrip(x)|
    decreases |x|
  {
    if x != [] && IsSpace(x[|x| - 1]) {
      var n := |x| - 1;
      var w := TakeWord(x);
      assert |w| <= n by {
        WordEndSpec(x);
      }
      TakeWordOfPrefix(x, n);
      WordWithinRStrip(x[..n]);
    }
  }

  /** The first word `split()` finds after `strip()` is the first word after `lstrip()`. */
  lemma FirstWordOfStrip(s: string)
    ensures Words(Strip(s)) != [] <==> LStrip(s) != []
    ensures Words(Strip(s)) != [] ==> Words(Strip(s))[0] == TakeWord(LStrip(s))
  {
    var x := LStrip(s);
    var r := RStrip(x);
    if x != [] {
      StripHead(s);
      IndentSpec(s);
      assert r == Strip(s) && r[0] == x[0];
      assert LStrip(r) == r;
      WordWithinRStrip(x);
      TakeWordOfPrefix(x, |r|);
    }
  }

  /** Writing lines joined by "\n" with a final "\n" and splitting them again gives
      the lines back, provided none of them holds a line break. */
  lemma {:induction false} SplitJoinedLines(lines: seq<string>)
    requires lines != []
    requires forall k :: 0 <= k < |lines| ==> NoLineBreak(lines[k])
    ensures SplitLines(Join(lines, "\n") + "\n") == lines
    decreases |lines|
  {
    var l := lines[0];
    if |lines| == 1 {
      assert Join(lines, "\n") + "\n" == l + "\n" + "";
      SplitLinesFirst(l, "");
      assert SplitLines("") == [];
    } else {
      var rest := Join(lines[1..], "\n") + "\n";
      assert Join(lines, "\n") + "\n" == l + "\n" + rest;
      SplitLinesFirst(l, rest);
      SplitJoinedLines(lines[1..]);
    }
  }

  /** Joining one more part adds the separator and that part at the end. */
  lemma {:induction false} JoinSnoc(parts: seq<string>, sep: string, x: string)
    requires parts != []
    ensures Join(parts + [x], sep) == Join(parts, sep) + sep + x
    decreases |parts|
  {
    var all := parts + [x];
    if |parts| == 1 {
      assert all[1..] == [x];
    } else {
      assert all[1..] == parts[1..] + [x];
      JoinSnoc(parts[1..], sep, x);
    }
  }

  /** A line without breaks, then "\n": the line is split off and the rest split on. */
  lemma SplitLinesFirst(l: string, rest: string)
    requires NoLineBreak(l)
    ensures SplitLines(l + "\n" + rest) == [l] + SplitLines(rest)
  {
    var s := l + "\n" + rest;
    LineEndAt(l, "\n" + rest);
    assert s == l + ("\n" + rest);
    assert s[|l|] == '\n';
    assert s[..|l|] == l;
    assert s[|l| + 1..] == rest;
  }

  lemma LineEndAt(l: string, tail: string)
    requires NoLineBreak(l)
    requires tail != [] && IsLineBreak(tail[0])
    ensures LineEnd(l + tail) == |l|
  {
    var s := l + tail;
    assert s[|l|] == tail[0];
    assert forall j :: 0 <= j < |l| ==> s[j] == l[j];
  }
}
