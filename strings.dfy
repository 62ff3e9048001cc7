/** The few string operations of Python's `str` that the pipeline relies on:
    whitespace stripping, ASCII lower-casing, decimal rendering of integers,
    `split` and `join` on a separator, and slicing with clamped bounds. */
module Strings {

  /** The characters for which Python's `str.isspace()` holds: those of
      bidirectional class WS, B or S and those of category Zs. */
  const Whitespace: set<char> :=
    {'\U{9}', '\U{A}', '\U{B}', '\U{C}', '\U{D}', '\U{1C}', '\U{1D}', '\U{1E}', '\U{1F}', '\U{20}',
     '\U{85}', '\U{A0}', '\U{1680}',
     '\U{2000}', '\U{2001}', '\U{2002}', '\U{2003}', '\U{2004}', '\U{2005}', '\U{2006}', '\U{2007}', '\U{2008}', '\U{2009}', '\U{200A}',
     '\U{2028}', '\U{2029}', '\U{202F}', '\U{205F}', '\U{3000}'}

  predicate IsSpace(c: char) {
    c in Whitespace
  }

  predicate AllSpace(s: string) {
    forall i :: 0 <= i < |s| ==> IsSpace(s[i])
  }

  /** `s.lstrip()`: the suffix of `s` left after dropping leading whitespace. */
  function TrimStart(s: string): (r: string)
    ensures |r| <= |s| && r == s[|s| - |r|..]
  {
    if |s| > 0 && IsSpace(s[0]) then TrimStart(s[1..]) else s
  }

  /** What `lstrip` drops is whitespace, and what it keeps starts with none. */
  lemma {:induction false} TrimStartSpaces(s: string)
    ensures forall i :: 0 <= i < |s| - |TrimStart(s)| ==> IsSpace(s[i])
    ensures TrimStart(s) != [] ==> !IsSpace(TrimStart(s)[0])
    decreases |s|
  {
    if |s| > 0 && IsSpace(s[0]) {
      var tail := s[1..];
      TrimStartSpaces(tail);
      assert TrimStart(s) == TrimStart(tail);
      assert forall i :: 0 < i < |s| ==> s[i] == tail[i - 1];
    }
  }

  /** `s.rstrip()`: the prefix of `s` left after dropping trailing whitespace. */
  function TrimEnd(s: string): (r: string)
    ensures |r| <= |s| && r == s[..|r|]
  {
    if |s| > 0 && IsSpace(s[|s| - 1]) then TrimEnd(s[..|s| - 1]) else s
  }

  /** What `rstrip` drops is whitespace, and what it keeps ends with none. */
  lemma {:induction false} TrimEndSpaces(s: string)
    ensures forall i :: |TrimEnd(s)| <= i < |s| ==> IsSpace(s[i])
    ensures TrimEnd(s) != [] ==> !IsSpace(TrimEnd(s)[|TrimEnd(s)| - 1])
    decreases |s|
  {
    if |s| > 0 && IsSpace(s[|s| - 1]) {
      var pre := s[..|s| - 1];
      TrimEndSpaces(pre);
      assert TrimEnd(s) == TrimEnd(pre);
      assert forall i :: 0 <= i < |pre| ==> s[i] == pre[i];
    }
  }

  /** `s.strip()`. */
  function Strip(s: string): string {
    TrimEnd(TrimStart(s))
  }

  /** `s.strip()` is empty exactly when `s` is made of whitespace only. */
  lemma StripEmptyIffAllSpace(s: string)
    ensures Strip(s) == [] <==> AllSpace(s)
  {
    var t := TrimStart(s);
    var u := TrimEnd(t);
    TrimStartSpaces(s);
    TrimEndSpaces(t);
    if u != [] {
      assert u[0] == t[0];
      assert t[0] == s[|s| - |t|];
    }
  }

  /** A string that has no whitespace at either end is its own strip. */
  lemma StripOfTrimmed(s: string)
    requires s == [] || (!IsSpace(s[0]) && !IsSpace(s[|s| - 1]))
    ensures Strip(s) == s
  {
  }

  /** ASCII lower-casing; `str.lower()` agrees with it on ASCII text. */
  function LowerChar(c: char): char {
    if 'A' <= c <= 'Z' then (c as int + 32) as char else c
  }

  function Lower(s: string): (r: string)
    ensures |r| == |s|
    ensures forall i :: 0 <= i < |s| ==> r[i] == LowerChar(s[i])
  {
    seq(|s|, i requires 0 <= i < |s| => LowerChar(s[i]))
  }

  predicate EndsWith(s: string, suffix: string) {
    |suffix| <= |s| && s[|s| - |suffix|..] == suffix
  }

  /** `s[:n]` for `n >= 0`: the first `n` characters, or all of `s` when shorter. */
  function Take<T>(s: seq<T>, n: nat): (r: seq<T>)
    ensures |r| == if n < |s| then n else |s|
    ensures r == s[..|r|]
  {
    if n < |s| then s[..n] else s
  }

  function DigitChar(d: nat): char
    requires d < 10
  {
    "0123456789"[d]
  }

  /** Decimal rendering of a natural number, as `str(n)` writes it. */
  function NatToString(n: nat): (r: string)
    ensures |r| >= 1
    ensures forall i :: 0 <= i < |r| ==> '0' <= r[i] <= '9'
  {
    if n < 10 then [DigitChar(n)] else NatToString(n / 10) + [DigitChar(n % 10)]
  }

  /** `str(i)` for an integer. */
  function IntToString(i: int): (r: string)
    ensures |r| >= 1
  {
    if i < 0 then "-" + NatToString(-i) else NatToString(i)
  }

  lemma DigitCharValue(d: nat)
    requires d < 10
    ensures DigitChar(d) as int == '0' as int + d
  {
    if d == 0 {} else if d == 1 {} else if d == 2 {} else if d == 3 {} else if d == 4 {}
    else if d == 5 {} else if d == 6 {} else if d == 7 {} else if d == 8 {} else {}
  }

  /** Distinct numbers have distinct decimal renderings. */
  lemma {:induction false} NatToStringInjective(n: nat, m: nat)
    requires NatToString(n) == NatToString(m)
    ensures n == m
    decreases n + m
  {
    var a, b := NatToString(n), NatToString(m);
    if n < 10 && m < 10 {
      DigitCharValue(n);
      DigitCharValue(m);
    } else if n >= 10 && m >= 10 {
      DigitCharValue(n % 10);
      DigitCharValue(m % 10);
      assert a[|a| - 1] == b[|b| - 1];
      assert a[..|a| - 1] == NatToString(n / 10);
      assert b[..|b| - 1] == NatToString(m / 10);
      NatToStringInjective(n / 10, m / 10);
    }
  }

  /** Distinct integers have distinct renderings by `str`. */
  lemma IntToStringInjective(i: int, j: int)
    requires IntToString(i) == IntToString(j)
    ensures i == j
  {
    if i < 0 && j < 0 {
      assert IntToString(i)[1..] == NatToString(-i);
      assert IntToString(j)[1..] == NatToString(-j);
      NatToStringInjective(-i, -j);
    } else if i >= 0 && j >= 0 {
      NatToStringInjective(i, j);
    } else {
      IntToStringSign(i);
      IntToStringSign(j);
      assert false;
    }
  }

  /** `str(i)` starts with a minus sign exactly when `i` is negative. */
  lemma IntToStringSign(i: int)
    ensures IntToString(i)[0] == '-' <==> i < 0
  {
    if i < 0 {
      assert IntToString(i) == "-" + NatToString(-i);
    }
  }

  /** `sep.join(xs)`, peeling the last piece so that loops can extend it. */
  function Join(xs: seq<string>, sep: string): string {
    if |xs| == 0 then ""
    else if |xs| == 1 then xs[0]
    else Join(xs[..|xs| - 1], sep) + sep + xs[|xs| - 1]
  }

  lemma {:induction false} JoinCons(x: string, xs: seq<string>, sep: string)
    ensures Join([x] + xs, sep) == if xs == [] then x else x + sep + Join(xs, sep)
    decreases |xs|
  {
    if |xs| >= 2 {
      var n := |xs|;
      assert ([x] + xs)[..n] == [x] + xs[..n - 1];
      JoinCons(x, xs[..n - 1], sep);
    } else if |xs| == 1 {
      assert [x] + xs == [x, xs[0]];
      assert [x, xs[0]][..1] == [x];
    }
  }

  /** `s.split(sep)`: cut at every occurrence of `sep`, scanning left to right
      without overlaps; always at least one piece. */
  function Split(s: string, sep: string): (r: seq<string>)
    requires |sep| > 0
    ensures |r| >= 1
    decreases |s|
  {
    if |s| < |sep| then [s]
    else if s[..|sep|] == sep then [""] + Split(s[|sep|..], sep)
    else
      var rest := Split(s[1..], sep);
      [[s[0]] + rest[0]] + rest[1..]
  }

  /** Joining the pieces of a split with the same separator gives back the text. */
  lemma {:induction false} JoinSplit(s: string, sep: string)
    requires |sep| > 0
    ensures Join(Split(s, sep), sep) == s
    decreases |s|, 1
  {
    if |s| < |sep| {
    } else if s[..|sep|] == sep {
      JoinSplitAtSep(s, sep);
    } else {
      JoinSplitAtChar(s, sep);
    }
  }

  /** The case where the text starts with the separator. */
  lemma {:induction false} JoinSplitAtSep(s: string, sep: string)
    requires |sep| > 0 && |s| >= |sep| && s[..|sep|] == sep
    ensures Join(Split(s, sep), sep) == s
    decreases |s|, 0
  {
    var tail := s[|sep|..];
    SplitAtSep(s, sep);
    JoinSplit(tail, sep);
    JoinCons("", Split(tail, sep), sep);
    SepThenTail(s, sep);
  }

  lemma SplitAtSep(s: string, sep: string)
    requires |sep| > 0 && |s| >= |sep| && s[..|sep|] == sep
    ensures Split(s, sep) == [""] + Split(s[|sep|..], sep)
  {
  }

  lemma SepThenTail(s: string, sep: string)
    requires |s| >= |sep| && s[..|sep|] == sep
    ensures "" + sep + s[|sep|..] == s
  {
    assert s == s[..|sep|] + s[|sep|..];
  }

  /** The case where the text starts with a character that opens no separator. */
  lemma {:induction false} JoinSplitAtChar(s: string, sep: string)
    requires |sep| > 0 && |s| >= |sep| && s[..|sep|] != sep
    ensures Join(Split(s, sep), sep) == s
    decreases |s|, 0
  {
    var tail := s[1..];
    var rest := Split(tail, sep);
    assert Split(s, sep) == [[s[0]] + rest[0]] + rest[1..];
    JoinSplit(tail, sep);
    JoinPrepend(s[0], rest, sep);
    assert s == [s[0]] + tail;
  }

  /** Gluing a character onto the first piece glues it onto the joined text. */
  lemma JoinPrepend(c: char, xs: seq<string>, sep: string)
    requires |xs| >= 1
    ensures Join([[c] + xs[0]] + xs[1..], sep) == [c] + Join(xs, sep)
  {
    JoinCons([c] + xs[0], xs[1..], sep);
    JoinCons(xs[0], xs[1..], sep);
    assert xs == [xs[0]] + xs[1..];
  }
}
