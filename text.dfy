/**
 * Character and number helpers shared by both scripts: the ASCII digit class
 * `\d`, Python's `int(s)` on a digit string, `str(k)` and the zero-padded
 * format `f"{k:03}"`.
 *
 * The predicates over whole strings are recursive rather than quantified, so
 * that the solver unfolds them one step at a time; the lemmas `AllDigitsAt`
 * and `NoDigitsAt` give them in the quantified form where a proof needs it.
 */
module Text {

  predicate IsDigit(c: char) {
    '0' <= c <= '9'
  }

  /** Every character of s is an ASCII digit. */
  predicate AllDigits(s: string) {
    s == [] || (AllDigits(s[..|s| - 1]) && IsDigit(s[|s| - 1]))
  }

  /** No character of s is an ASCII digit. */
  predicate NoDigits(s: string) {
    s == [] || (NoDigits(s[..|s| - 1]) && !IsDigit(s[|s| - 1]))
  }

  lemma {:induction false} AllDigitsAt(s: string)
    ensures AllDigits(s) <==> forall i :: 0 <= i < |s| ==> IsDigit(s[i])
  {
    if s != [] {
      AllDigitsAt(s[..|s| - 1]);
      assert forall i :: 0 <= i < |s| - 1 ==> s[..|s| - 1][i] == s[i];
    }
  }

  lemma {:induction false} NoDigitsAt(s: string)
    ensures NoDigits(s) <==> forall i :: 0 <= i < |s| ==> !IsDigit(s[i])
  {
    if s != [] {
      NoDigitsAt(s[..|s| - 1]);
      assert forall i :: 0 <= i < |s| - 1 ==> s[..|s| - 1][i] == s[i];
    }
  }

  function DigitValue(c: char): nat
    requires IsDigit(c)
  {
    c as int - '0' as int
  }

  function DigitChar(d: nat): (c: char)
    requires d < 10
    ensures IsDigit(c) && DigitValue(c) == d
  {
    ('0' as int + d) as char
  }

  /** Python's `int(s)` for a string of ASCII digits (leading zeros allowed). */
  function Value(s: string): nat
    requires AllDigits(s)
  {
    if s == [] then 0 else 10 * Value(s[..|s| - 1]) + DigitValue(s[|s| - 1])
  }

  /** Python's `str(k)` for a non-negative integer: no leading zero except for 0 itself. */
  function Show(k: nat): (r: string)
    ensures |r| >= 1 && AllDigits(r)
    ensures k > 0 ==> r[0] != '0'
    ensures k < 10 <==> |r| == 1
  {
    if k < 10 then [DigitChar(k)]
    else
      var r := Show(k / 10) + [DigitChar(k % 10)];
      assert r[..|r| - 1] == Show(k / 10);
      r
  }

  /** A run of n zero characters. */
  function Zeros(n: nat): (r: string)
    ensures |r| == n && AllDigits(r)
  {
    if n == 0 then []
    else
      var r := Zeros(n - 1) + ['0'];
      assert r[..n - 1] == Zeros(n - 1);
      r
  }

  /** Python's `f"{k:03}"`: at least three digits, zero-padded on the left, never truncated. */
  function Pad3(k: nat): string
  {
    var s := Show(k);
    if |s| >= 3 then s else Zeros(3 - |s|) + s
  }

  lemma {:induction false} ValueOfShow(k: nat)
    ensures Value(Show(k)) == k
  {
    if k >= 10 {
      var s := Show(k);
      assert s[..|s| - 1] == Show(k / 10);
      ValueOfShow(k / 10);
    }
  }

  lemma {:induction false} ValueIgnoresLeadingZeros(n: nat, s: string)
    requires AllDigits(s)
    ensures AllDigits(Zeros(n) + s) && Value(Zeros(n) + s) == Value(s)
  {
    var w := Zeros(n) + s;
    if s == [] {
      assert w == Zeros(n);
      ZerosHaveValueZero(n);
    } else {
      assert w[..|w| - 1] == Zeros(n) + s[..|s| - 1];
      ValueIgnoresLeadingZeros(n, s[..|s| - 1]);
    }
  }

  lemma {:induction false} ZerosHaveValueZero(n: nat)
    ensures Value(Zeros(n)) == 0
  {
    if n > 0 {
      assert Zeros(n)[..n - 1] == Zeros(n - 1);
      ZerosHaveValueZero(n - 1);
    }
  }

  /**
   * What `f"{k:03}"` produces: a digit string reading back as k, whose length
   * is three or the length of `str(k)`, whichever is larger; past 999 it is
   * `str(k)` itself.
   */
  lemma {:induction false} Pad3Reads(k: nat)
    ensures AllDigits(Pad3(k)) && Value(Pad3(k)) == k
    ensures |Pad3(k)| == if |Show(k)| >= 3 then |Show(k)| else 3
    ensures k >= 100 ==> Pad3(k) == Show(k)
  {
    ValueOfShow(k);
    var s := Show(k);
    if |s| < 3 {
      ValueIgnoresLeadingZeros(3 - |s|, s);
    }
    if k >= 100 {
      assert |Show(k / 10)| >= 2;
    }
  }

  /** Two different numbers are never formatted to the same text. */
  lemma {:induction false} Pad3Injective(j: nat, k: nat)
    requires Pad3(j) == Pad3(k)
    ensures j == k
  {
    Pad3Reads(j);
    Pad3Reads(k);
  }

  /** First position at or after `from` holding a digit, or |s| when there is none. */
  function DigitFrom(s: string, from: nat): (e: nat)
    requires from <= |s|
    ensures from <= e <= |s|
    ensures e < |s| ==> IsDigit(s[e])
    decreases |s| - from
  {
    if from == |s| || IsDigit(s[from]) then from else DigitFrom(s, from + 1)
  }

  lemma {:induction false} DigitFromSkipsNonDigits(s: string, from: nat)
    requires from <= |s|
    ensures forall k :: from <= k < DigitFrom(s, from) ==> !IsDigit(s[k])
    decreases |s| - from
  {
    if from < |s| && !IsDigit(s[from]) {
      DigitFromSkipsNonDigits(s, from + 1);
    }
  }

  /** End of the longest run of digits that starts at `from`. */
  function DigitRunEnd(s: string, from: nat): (e: nat)
    requires from <= |s|
    ensures from <= e <= |s|
    ensures e < |s| ==> !IsDigit(s[e])
    decreases |s| - from
  {
    if from == |s| || !IsDigit(s[from]) then from else DigitRunEnd(s, from + 1)
  }

  lemma {:induction false} DigitRunEndSpansDigits(s: string, from: nat)
    requires from <= |s|
    ensures forall k :: from <= k < DigitRunEnd(s, from) ==> IsDigit(s[k])
    decreases |s| - from
  {
    if from < |s| && IsDigit(s[from]) {
      DigitRunEndSpansDigits(s, from + 1);
    }
  }
}
