/** Decimal digit strings: Python's str.isdigit(), int() of such a string, and str() of an int. */
module Decimal {
  /** Python's str.isdigit() on ASCII text: non-empty and every character a digit. */
  predicate IsDigits(s: string)
  {
    |s| > 0 && forall i :: 0 <= i < |s| ==> '0' <= s[i] <= '9'
  }

  /** The decimal digits of n. */
  function NatText(n: nat): string
  {
    var d := ['0' + (n % 10) as char];
    if n < 10 then d else NatText(n / 10) + d
  }

  /** Python's str() of an int. */
  function IntText(n: int): string
  {
    if n < 0 then "-" + NatText(-n) else NatText(n)
  }

  /** The number the first n characters of a string of decimal digits denote. */
  function ValueIn(s: string, n: nat): nat
    requires n <= |s|
    requires forall i :: 0 <= i < |s| ==> '0' <= s[i] <= '9'
  {
    if n == 0 then 0 else ValueIn(s, n - 1) * 10 + (s[n - 1] - '0') as nat
  }

  /** The number a string of decimal digits denotes. */
  function DigitsValue(s: string): nat
    requires forall i :: 0 <= i < |s| ==> '0' <= s[i] <= '9'
  {
    ValueIn(s, |s|)
  }

  /** The value of a prefix of digits depends only on that prefix. */
  lemma {:induction false} ValuePrefix(s: string, t: string, n: nat)
    requires n <= |s| && n <= |t|
    requires forall i :: 0 <= i < |s| ==> '0' <= s[i] <= '9'
    requires forall i :: 0 <= i < |t| ==> '0' <= t[i] <= '9'
    requires forall i :: 0 <= i < n ==> s[i] == t[i]
    ensures ValueIn(s, n) == ValueIn(t, n)
  {
    if n > 0 {
      ValuePrefix(s, t, n - 1);
    }
  }

  /** The decimal text of a number reads back as that number. */
  lemma {:induction false} NatTextValue(n: nat)
    ensures IsDigits(NatText(n))
    ensures DigitsValue(NatText(n)) == n
  {
    var d := ['0' + (n % 10) as char];
    if n >= 10 {
      NatTextValue(n / 10);
      var h := NatText(n / 10);
      var t := h + d;
      assert forall i :: 0 <= i < |h| ==> t[i] == h[i];
      ValuePrefix(t, h, |h|);
      assert t[|h|] == d[0];
      assert ValueIn(t, |t|) == ValueIn(t, |h|) * 10 + n % 10;
    } else {
      assert ValueIn(d, 1) == n % 10;
    }
  }

  /** Different numbers have different decimal texts. */
  lemma NatTextInjective(m: nat, n: nat)
    requires NatText(m) == NatText(n)
    ensures m == n
  {
    NatTextValue(m);
    NatTextValue(n);
  }
}
