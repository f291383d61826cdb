/** Decimal rendering of natural numbers, as JavaScript's `String(n)` gives it. */
module Decimal {

  function DigitChar(d: nat): (c: char)
    requires d < 10
    ensures '0' <= c <= '9'
    ensures c as int - '0' as int == d
  {
    ['0', '1', '2', '3', '4', '5', '6', '7', '8', '9'][d]
  }

  predicate IsDigit(c: char)
  {
    '0' <= c <= '9'
  }

  /** `String(n)` for a non-negative integer: no sign, no leading zeros. */
  function NatToDecimal(n: nat): (s: string)
    ensures |s| >= 1
    ensures forall k :: 0 <= k < |s| ==> IsDigit(s[k])
    ensures s[0] == '0' <==> n == 0
    ensures n == 0 ==> s == "0"
  {
    if n < 10 then [DigitChar(n)] else NatToDecimal(n / 10) + [DigitChar(n % 10)]
  }

  /** The value of a string of decimal digits. */
  function DecimalValue(s: string): nat
    requires forall k :: 0 <= k < |s| ==> IsDigit(s[k])
  {
    if s == [] then 0
    else
      assert IsDigit(s[|s| - 1]);
      DecimalValue(s[..|s| - 1]) * 10 + ((s[|s| - 1] as int) - ('0' as int))
  }

  /** Reading back a rendered number gives the number. */
  lemma {:induction false} DecimalRoundTrip(n: nat)
    ensures DecimalValue(NatToDecimal(n)) == n
  {
    var s := NatToDecimal(n);
    if n >= 10 {
      DecimalRoundTrip(n / 10);
      assert s[..|s| - 1] == NatToDecimal(n / 10);
    }
  }

  /** Distinct numbers render to distinct strings. */
  lemma NatToDecimalInjective(m: nat, n: nat)
    requires NatToDecimal(m) == NatToDecimal(n)
    ensures m == n
  {
    DecimalRoundTrip(m);
    DecimalRoundTrip(n);
  }
}

/** Occurrences of one string inside another. */
module Substrings {
  import opened Wrappers

  /** `s` occurs in `t` starting at position `i`. */
  predicate OccursAt(s: string, t: string, i: nat)
  {
    i + |s| <= |t| && t[i..i + |s|] == s
  }

  /** `s` occurs in `t` at some position. */
  ghost predicate IsSubstring(s: string, t: string)
  {
    exists i: nat :: OccursAt(s, t, i)
  }

  /**
   * `t.indexOf(s, from)`: the first position at or after `from` where `s`
   * occurs in `t`, if any.
   */
  function IndexOf(t: string, s: string, from: nat): (r: Option<nat>)
    requires from <= |t|
    ensures r.Some? ==> from <= r.value && OccursAt(s, t, r.value)
    ensures r.Some? ==> forall j :: from <= j < r.value ==> !OccursAt(s, t, j)
    ensures r.None? <==> forall j: nat :: from <= j ==> !OccursAt(s, t, j)
    decreases |t| - from
  {
    if OccursAt(s, t, from) then Some(from)
    else if from == |t| then None
    else IndexOf(t, s, from + 1)
  }
}
