/** The parts of Python's `str` and `int` that the scraper relies on. */
module PyStr {
  import opened Wrappers

  /** `s.replace(from, to)` for one-character `from` and `to`. */
  function ReplaceChar(s: string, from: char, to: char): (r: string)
    ensures |r| == |s|
    ensures forall i :: 0 <= i < |s| ==> r[i] == (if s[i] == from then to else s[i])
  {
    if |s| == 0 then "" else [if s[0] == from then to else s[0]] + ReplaceChar(s[1..], from, to)
  }

  /** After the replacement `from` occurs nowhere, and a second replacement changes nothing. */
  lemma ReplaceCharRemovesAll(s: string, from: char, to: char)
    requires from != to
    ensures from !in ReplaceChar(s, from, to)
    ensures ReplaceChar(ReplaceChar(s, from, to), from, to) == ReplaceChar(s, from, to)
  {
    var r := ReplaceChar(s, from, to);
    var rr := ReplaceChar(r, from, to);
    assert forall i :: 0 <= i < |r| ==> rr[i] == r[i];
  }

  /** A string with no `to` in it is produced from nothing but itself. */
  lemma ReplaceCharFixedPoint(s: string, t: string, from: char, to: char)
    requires ReplaceChar(s, from, to) == t
    requires to !in t
    ensures s == t
  {
    forall i | 0 <= i < |s| ensures s[i] == t[i] {
    }
  }

  predicate IsDigit(c: char) { '0' <= c <= '9' }

  predicate AllDigits(s: string) { forall i :: 0 <= i < |s| ==> IsDigit(s[i]) }

  function DigitChar(d: nat): (c: char)
    requires d < 10
    ensures IsDigit(c)
  {
    ('0' as int + d) as char
  }

  function DigitValue(c: char): (d: nat)
    requires IsDigit(c)
    ensures d < 10
  {
    c as int - '0' as int
  }

  /** `str(n)` for a non-negative integer: its decimal digits, without leading zeros. */
  function NatToString(n: nat): (r: string)
    ensures |r| >= 1 && AllDigits(r)
    ensures r[0] == '0' ==> n == 0
  {
    if n < 10 then [DigitChar(n)] else NatToString(n / 10) + [DigitChar(n % 10)]
  }

  /** The value of a string of decimal digits. */
  function DigitsValue(s: string): nat
    requires AllDigits(s)
  {
    if |s| == 0 then 0 else DigitsValue(s[..|s| - 1]) * 10 + DigitValue(s[|s| - 1])
  }

  /** `int(s)`: the value of a non-empty string of decimal digits; any other
      string raises ValueError. */
  function ParseInt(s: string): (r: Result<int, PyException>)
    ensures r.Success? <==> |s| > 0 && AllDigits(s)
    ensures r.Failure? ==> r.error == ValueError
    ensures r.Success? ==> r.value >= 0
  {
    if |s| > 0 && AllDigits(s) then Success(DigitsValue(s)) else Failure(ValueError)
  }

  /** `int(str(n)) == n`. */
  lemma {:induction false} ParseIntNatToString(n: nat)
    ensures ParseInt(NatToString(n)) == Success(n)
  {
    var s := NatToString(n);
    if n >= 10 {
      ParseIntNatToString(n / 10);
      assert s[..|s| - 1] == NatToString(n / 10);
      assert DigitValue(s[|s| - 1]) == n % 10;
    } else {
      assert s == [DigitChar(n)];
      assert s[..|s| - 1] == [];
      assert DigitsValue(s) == DigitValue(s[0]);
      assert DigitValue(s[0]) == n;
    }
  }

  /** Distinct numbers have distinct decimal representations. */
  lemma NatToStringInjective(m: nat, n: nat)
    requires NatToString(m) == NatToString(n)
    ensures m == n
  {
    ParseIntNatToString(m);
    ParseIntNatToString(n);
  }

  /** `sep.join(parts)`. */
  function Join(sep: char, parts: seq<string>): (r: string)
    ensures |parts| == 0 ==> r == ""
    ensures |parts| == 1 ==> r == parts[0]
  {
    if |parts| == 0 then "" else if |parts| == 1 then parts[0] else parts[0] + [sep] + Join(sep, parts[1..])
  }

  /** The index of the first `c` in `s`, or `|s|` when there is none. */
  function IndexOf(s: string, c: char): (i: nat)
    ensures i <= |s|
    ensures i < |s| ==> s[i] == c
    ensures forall j :: 0 <= j < i ==> s[j] != c
  {
    if |s| == 0 then 0 else if s[0] == c then 0 else 1 + IndexOf(s[1..], c)
  }

  /** `s.split(sep)`: the reference inverse of `Join`. */
  function Split(sep: char, s: string): (r: seq<string>)
    ensures |r| >= 1
    decreases |s|
  {
    var i := IndexOf(s, sep);
    if i == |s| then [s] else [s[..i]] + Split(sep, s[i + 1..])
  }

  lemma IndexOfFirst(a: string, c: char, b: string)
    requires c !in a
    ensures IndexOf(a + [c] + b, c) == |a|
  {
    var s := a + [c] + b;
    assert s[|a|] == c;
  }

  /** Joining names that do not contain the separator loses nothing:
      splitting the joined string gives the names back. */
  lemma {:induction false} SplitJoin(sep: char, parts: seq<string>)
    requires |parts| >= 1
    requires forall k :: 0 <= k < |parts| ==> sep !in parts[k]
    ensures Split(sep, Join(sep, parts)) == parts
  {
    if |parts| == 1 {
      assert IndexOf(parts[0], sep) == |parts[0]|;
    } else {
      var rest := Join(sep, parts[1..]);
      var s := parts[0] + [sep] + rest;
      IndexOfFirst(parts[0], sep, rest);
      assert s[..|parts[0]|] == parts[0];
      assert s[|parts[0]| + 1..] == rest;
      SplitJoin(sep, parts[1..]);
      assert [parts[0]] + parts[1..] == parts;
    }
  }
}
