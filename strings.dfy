/**
 * The JavaScript string built-ins the router and the prediction splitter rely on:
 * number formatting in template literals, `parseInt`, `indexOf`, `split`, `join`
 * and `trim`, stated over `string` (a `seq<char>`).
 */
module Strings {
  import opened Wrappers

  predicate IsDigit(c: char) {
    '0' <= c <= '9'
  }

  function DigitChar(d: nat): (c: char)
    requires d < 10
    ensures IsDigit(c) && c as int - '0' as int == d
  {
    ('0' as int + d) as char
  }

  function DigitValue(c: char): (d: nat)
    requires IsDigit(c)
    ensures d < 10 && DigitChar(d) == c
  {
    c as int - '0' as int
  }

  predicate AllDigits(s: string) {
    forall i :: 0 <= i < |s| ==> IsDigit(s[i])
  }

  /** `${n}` for a non-negative integer `n`: its shortest decimal form. */
  function NatToString(n: nat): (s: string)
    ensures 0 < |s| && AllDigits(s)
    ensures n < 10 <==> |s| == 1
    ensures |s| == 1 ==> s[0] == DigitChar(n)
    decreases n
  {
    if n < 10 then [DigitChar(n)] else NatToString(n / 10) + [DigitChar(n % 10)]
  }

  /** The value of a string of decimal digits, read most significant digit first. */
  function DecimalValue(s: string): nat
    requires AllDigits(s)
    decreases |s|
  {
    if s == [] then 0 else DecimalValue(s[..|s| - 1]) * 10 + DigitValue(s[|s| - 1])
  }

  lemma {:induction false} DecimalValueOfNatToString(n: nat)
    ensures DecimalValue(NatToString(n)) == n
    decreases n
  {
    if n >= 10 {
      var s := NatToString(n);
      assert s[..|s| - 1] == NatToString(n / 10);
      DecimalValueOfNatToString(n / 10);
    }
  }

  /** Formatting a natural number is injective: decimal forms determine their values. */
  lemma NatToStringInjective(m: nat, n: nat)
    requires NatToString(m) == NatToString(n)
    ensures m == n
  {
    DecimalValueOfNatToString(m);
    DecimalValueOfNatToString(n);
  }

  /** The number of leading decimal digits of `s`. */
  function DigitRun(s: string): (k: nat)
    ensures k <= |s| && AllDigits(s[..k])
    ensures k < |s| ==> !IsDigit(s[k])
    decreases |s|
  {
    if s != [] && IsDigit(s[0]) then 1 + DigitRun(s[1..]) else 0
  }

  /**
   * `parseInt(s)` for a string that starts with its digits: the value of the
   * leading run of decimal digits, or `None` (JavaScript's `NaN`) if there is none.
   */
  function ParseInt(s: string): (r: Option<nat>)
    ensures r.None? <==> (s == [] || !IsDigit(s[0]))
  {
    var k := DigitRun(s);
    if k == 0 then None else Some(DecimalValue(s[..k]))
  }

  lemma ParseIntOfNatToString(n: nat)
    ensures ParseInt(NatToString(n)) == Some(n)
  {
    var s := NatToString(n);
    AllDigitsRun(s);
    assert s[..|s|] == s;
    DecimalValueOfNatToString(n);
  }

  lemma {:induction false} AllDigitsRun(s: string)
    requires AllDigits(s)
    ensures DigitRun(s) == |s|
    decreases |s|
  {
    if s != [] {
      AllDigitsRun(s[1..]);
    }
  }

  /** `sep` occurs in `s` at position `i`. */
  predicate IsAt(s: string, sep: string, i: nat) {
    i + |sep| <= |s| && s[i..i + |sep|] == sep
  }

  predicate Contains(s: string, sep: string) {
    exists i :: 0 <= i <= |s| && IsAt(s, sep, i)
  }

  /** The first position at or after `from` where `sep` occurs, or -1. */
  function IndexFrom(s: string, sep: string, from: nat): (r: int)
    requires from <= |s|
    ensures r == -1 || (from <= r && IsAt(s, sep, r))
    ensures r == -1 ==> forall j: nat :: from <= j ==> !IsAt(s, sep, j)
    ensures r != -1 ==> forall j: nat :: from <= j < r ==> !IsAt(s, sep, j)
    decreases |s| - from
  {
    if from + |sep| > |s| then -1
    else if s[from..from + |sep|] == sep then from
    else if from == |s| then -1
    else IndexFrom(s, sep, from + 1)
  }

  /** `s.indexOf(sep)`: the first position of `sep` in `s`, or -1 if it does not occur. */
  function IndexOf(s: string, sep: string): (r: int)
    ensures r == -1 <==> !Contains(s, sep)
    ensures r != -1 ==> 0 <= r && IsAt(s, sep, r)
    ensures r != -1 ==> forall j: nat :: j < r ==> !IsAt(s, sep, j)
  {
    IndexFrom(s, sep, 0)
  }

  /** `s.split(sep)` for a non-empty separator. */
  function Split(s: string, sep: string): (parts: seq<string>)
    requires |sep| > 0
    ensures |parts| >= 1
    ensures |parts| == 1 <==> !Contains(s, sep)
    ensures forall k :: 0 <= k < |parts| ==> !Contains(parts[k], sep)
    decreases |s|
  {
    var i := IndexOf(s, sep);
    if i == -1 then [s]
    else
      var head := s[..i];
      assert !Contains(head, sep) by {
        forall j: nat | j + |sep| <= |head| ensures !IsAt(head, sep, j) {
          assert head[j..j + |sep|] == s[j..j + |sep|];
          assert !IsAt(s, sep, j);
        }
      }
      [head] + Split(s[i + |sep|..], sep)
  }

  /** `parts.join(sep)`. */
  function Join(parts: seq<string>, sep: string): string
    decreases |parts|
  {
    if parts == [] then ""
    else if |parts| == 1 then parts[0]
    else parts[0] + sep + Join(parts[1..], sep)
  }

  /** Splitting on a separator and joining back on it gives the original string. */
  lemma {:induction false} JoinSplit(s: string, sep: string)
    requires |sep| > 0
    ensures Join(Split(s, sep), sep) == s
    decreases |s|
  {
    var i := IndexOf(s, sep);
    if i != -1 {
      var head, rest := s[..i], s[i + |sep|..];
      var tail := Split(rest, sep);
      assert Split(s, sep) == [head] + tail;
      JoinSplit(rest, sep);
      JoinCons(head, tail, sep);
      Reassemble(s, sep, i);
    }
  }

  lemma JoinCons(head: string, tail: seq<string>, sep: string)
    requires |tail| >= 1
    ensures Join([head] + tail, sep) == head + sep + Join(tail, sep)
  {
    assert ([head] + tail)[1..] == tail;
  }

  lemma Reassemble(s: string, sep: string, i: nat)
    requires IsAt(s, sep, i)
    ensures s == s[..i] + sep + s[i + |sep|..]
  {
    assert s == s[..i] + s[i..i + |sep|] + s[i + |sep|..];
  }

  /** `c` occurs in `sep` exactly once, at position `k`. */
  predicate UniqueAt(sep: string, k: nat, c: char) {
    k < |sep| && sep[k] == c && forall j :: 0 <= j < |sep| && j != k ==> sep[j] != c
  }

  predicate Free(s: string, c: char) {
    forall i :: 0 <= i < |s| ==> s[i] != c
  }

  lemma NoSeparatorIn(p: string, sep: string, k: nat, c: char)
    requires UniqueAt(sep, k, c) && Free(p, c)
    ensures !Contains(p, sep)
  {
    forall j: nat | j + |sep| <= |p| ensures !IsAt(p, sep, j) {
      assert p[j..j + |sep|][k] == p[j + k];
    }
  }

  /** In `p0 + sep + rest`, with `c` absent from `p0`, the first separator is the one after `p0`. */
  lemma FirstSeparator(p0: string, sep: string, rest: string, k: nat, c: char)
    requires UniqueAt(sep, k, c) && Free(p0, c)
    ensures IndexOf(p0 + sep + rest, sep) == |p0|
  {
    var s := p0 + sep + rest;
    assert IsAt(s, sep, |p0|) by { assert s[|p0|..|p0| + |sep|] == sep; }
    forall j: nat | j < |p0| ensures !IsAt(s, sep, j) {
      if j + |sep| <= |s| {
        assert s[j..j + |sep|][k] == s[j + k];
        if j + k < |p0| {
          assert s[j + k] == p0[j + k];
        } else {
          assert s[j + k] == sep[j + k - |p0|];
        }
      }
    }
  }

  /**
   * Joining pieces that lack a character which the separator holds exactly once,
   * and splitting the result on that separator, gives the pieces back.
   */
  lemma {:induction false} SplitJoin(parts: seq<string>, sep: string, k: nat, c: char)
    requires |parts| >= 1 && UniqueAt(sep, k, c)
    requires forall i :: 0 <= i < |parts| ==> Free(parts[i], c)
    ensures Split(Join(parts, sep), sep) == parts
    decreases |parts|
  {
    if |parts| == 1 {
      NoSeparatorIn(parts[0], sep, k, c);
    } else {
      var p0, rest := parts[0], Join(parts[1..], sep);
      var s := p0 + sep + rest;
      assert Join(parts, sep) == s;
      FirstSeparator(p0, sep, rest, k, c);
      assert s[..|p0|] == p0 && s[|p0| + |sep|..] == rest;
      SplitJoin(parts[1..], sep, k, c);
      assert Split(s, sep) == [p0] + Split(rest, sep);
      assert parts == [p0] + parts[1..];
    }
  }

  /** The characters `String.prototype.trim` removes. */
  predicate IsWhitespace(c: char) {
    c == ' ' || c == '\t' || c == '\n' || c == '\r' || c == '\U{000B}' || c == '\U{000C}'
    || c == '\U{00A0}' || c == '\U{1680}' || ('\U{2000}' <= c <= '\U{200A}')
    || c == '\U{2028}' || c == '\U{2029}' || c == '\U{202F}' || c == '\U{205F}'
    || c == '\U{3000}' || c == '\U{FEFF}'
  }

  function TrimStart(s: string): (r: string)
    ensures |r| <= |s| && r == s[|s| - |r|..]
    ensures r == [] || !IsWhitespace(r[0])
    decreases |s|
  {
    if s != [] && IsWhitespace(s[0]) then TrimStart(s[1..]) else s
  }

  function TrimEnd(s: string): (r: string)
    ensures |r| <= |s| && r == s[..|r|]
    ensures r == [] || !IsWhitespace(r[|r| - 1])
    decreases |s|
  {
    if s != [] && IsWhitespace(s[|s| - 1]) then TrimEnd(s[..|s| - 1]) else s
  }

  /** `s.trim()`. */
  function Trim(s: string): string {
    TrimEnd(TrimStart(s))
  }

  /** A string that neither starts nor ends in whitespace is its own trim. */
  lemma TrimNoop(s: string)
    requires s != [] && !IsWhitespace(s[0]) && !IsWhitespace(s[|s| - 1])
    ensures Trim(s) == s
  {
  }
}
