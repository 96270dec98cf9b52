/** Canonical decimal text of natural numbers: `std::to_string` and a strict reader of it. */
module Decimal {
  import opened Optional

  function Digit(d: nat): char
    requires d < 10
  {
    '0' + d as char
  }

  predicate IsDigit(c: char) {
    '0' <= c <= '9'
  }

  predicate AllDigits(s: string) {
    forall i :: 0 <= i < |s| ==> IsDigit(s[i])
  }

  function DigitValue(c: char): nat
    requires IsDigit(c)
  {
    c as nat - '0' as nat
  }

  function ToText(n: nat): (s: string)
    ensures s != "" && AllDigits(s) && (|s| > 1 ==> s[0] != '0')
    ensures n < 10 ==> s == [Digit(n)]
  {
    if n < 10 then [Digit(n)] else ToText(n / 10) + [Digit(n % 10)]
  }

  function Value(s: string): nat
    requires AllDigits(s)
  {
    if s == "" then 0 else 10 * Value(s[..|s| - 1]) + DigitValue(s[|s| - 1])
  }

  /** Digits only, at least one, no leading zero. */
  predicate Canonical(s: string) {
    s != "" && AllDigits(s) && (|s| > 1 ==> s[0] != '0')
  }

  lemma {:induction false} ValueOfText(n: nat)
    ensures Value(ToText(n)) == n
  {
    if n < 10 {
      assert ToText(n)[..0] == "";
    } else {
      ValueOfText(n / 10);
      var s := ToText(n);
      assert s[..|s| - 1] == ToText(n / 10);
    }
  }

  lemma {:induction false} TextOfValue(s: string)
    requires Canonical(s)
    ensures ToText(Value(s)) == s
    ensures s[0] != '0' ==> Value(s) > 0
  {
    if |s| == 1 {
      assert s[..0] == "";
      assert Value(s) == DigitValue(s[0]);
      assert s == [s[0]];
    } else {
      var init := s[..|s| - 1];
      TextOfValue(init);
      assert s == init + [s[|s| - 1]];
      assert Value(s) == 10 * Value(init) + DigitValue(s[|s| - 1]);
      assert Value(s) / 10 == Value(init) && Value(s) % 10 == DigitValue(s[|s| - 1]);
    }
  }

  /** `parse_canonical_unsigned`: canonical text of a number that fits 64 bits and the given range. */
  function ParseUnsigned(s: string, minimum: nat, maximum: nat): Option<nat> {
    if Canonical(s) && Value(s) < 0x1_0000_0000_0000_0000 && minimum <= Value(s) <= maximum
    then Some(Value(s)) else None
  }

  function Pow10(k: nat): nat {
    if k == 0 then 1 else 10 * Pow10(k - 1)
  }

  /** A canonical text is at most `k` digits long when its value has at most `k` digits. */
  lemma {:induction false} LengthBound(s: string, k: nat)
    requires Canonical(s) && Value(s) < Pow10(k) && k > 0
    ensures |s| <= k
    decreases |s|
  {
    if |s| > 1 {
      TextOfValue(s);
      var init := s[..|s| - 1];
      assert Value(s) == 10 * Value(init) + DigitValue(s[|s| - 1]);
      TextOfValue(init);
      if k > 1 {
        LengthBound(init, k - 1);
      }
    }
  }
}
