/**
 * Decimal rendering of non-negative integers, as a template literal renders
 * an integral JavaScript number below 10^21, together with the reading that
 * undoes it.
 */
module Decimal {
  import opened Wrappers

  /** A number read off the front of a string, and what follows it. */
  datatype Scan = Scan(value: nat, rest: string)

  predicate IsDigit(c: char) {
    '0' <= c <= '9'
  }

  predicate AllDigits(s: string) {
    forall i :: 0 <= i < |s| ==> IsDigit(s[i])
  }

  function DigitChar(d: nat): (c: char)
    requires d < 10
    ensures IsDigit(c)
  {
    (48 + d) as char
  }

  function DigitValue(c: char): (d: nat)
    requires IsDigit(c)
    ensures d < 10
  {
    c as int - 48
  }

  /** The shortest decimal spelling of `n`: no sign, no leading zero. */
  function Show(n: nat): (s: string)
    ensures 0 < |s|
    ensures AllDigits(s)
    ensures |s| == 1 || s[0] != '0'
    decreases n
  {
    if n < 10 then [DigitChar(n)] else Show(n / 10) + [DigitChar(n % 10)]
  }

  /** The number a string of digits denotes. */
  function Value(s: string): nat
    requires AllDigits(s)
  {
    if |s| == 0 then 0 else Value(s[..|s| - 1]) * 10 + DigitValue(s[|s| - 1])
  }

  /** Length of the longest prefix of `s` made of digits. */
  function DigitRun(s: string): (k: nat)
    ensures k <= |s|
    ensures AllDigits(s[..k])
    ensures k < |s| ==> !IsDigit(s[k])
  {
    if |s| == 0 || !IsDigit(s[0]) then 0 else 1 + DigitRun(s[1..])
  }

  lemma {:induction false} ValueOfShow(n: nat)
    ensures Value(Show(n)) == n
    decreases n
  {
    if n >= 10 {
      var s := Show(n);
      assert s[..|s| - 1] == Show(n / 10);
      ValueOfShow(n / 10);
    }
  }

  /** A digit prefix that cannot be extended is the one `DigitRun` finds. */
  lemma {:induction false} DigitRunExact(s: string, k: nat)
    requires k <= |s|
    requires AllDigits(s[..k])
    requires k < |s| ==> !IsDigit(s[k])
    ensures DigitRun(s) == k
    decreases k
  {
    if k > 0 {
      assert s[..k][0] == s[0];
      assert s[1..][..k - 1] == s[..k][1..];
      DigitRunExact(s[1..], k - 1);
    }
  }

  /** Reads the leading run of digits of `s`, if there is one. */
  function ReadNumber(s: string): (r: Option<Scan>)
    ensures r.None? <==> |s| == 0 || !IsDigit(s[0])
  {
    var k := DigitRun(s);
    if k == 0 then None else Some(Scan(Value(s[..k]), s[k..]))
  }

  /** A rendered number followed by a non-digit is read back as exactly that number. */
  lemma ReadShow(n: nat, rest: string)
    requires |rest| == 0 || !IsDigit(rest[0])
    ensures ReadNumber(Show(n) + rest) == Some(Scan(n, rest))
  {
    var s := Show(n) + rest;
    assert s[..|Show(n)|] == Show(n);
    assert s[|Show(n)|..] == rest;
    DigitRunExact(s, |Show(n)|);
    ValueOfShow(n);
  }
}
