/** Canonical decimal text of natural numbers (the program's `str(int)`), read back as a value. */
module DecimalText {
  import opened Prelude

  const DIGITS: string := "0123456789"

  function DigitChar(d: nat): char
    requires d < 10
  {
    DIGITS[d]
  }

  predicate IsDigit(ch: char) {
    '0' <= ch <= '9'
  }

  function DigitValue(ch: char): (d: nat)
    requires IsDigit(ch)
    ensures d < 10
  {
    (ch - '0') as nat
  }

  predicate AllDigits(s: string) {
    forall i :: 0 <= i < |s| ==> IsDigit(s[i])
  }

  function NatText(n: nat): string {
    if n < 10 then [DigitChar(n)] else NatText(n / 10) + [DigitChar(n % 10)]
  }

  function IntText(n: int): string {
    if n < 0 then "-" + NatText(-n) else NatText(n)
  }

  /** The number a digit string denotes, leading zeros allowed. */
  function Value(s: string): nat
    requires AllDigits(s)
  {
    if s == "" then 0 else 10 * Value(s[..|s| - 1]) + DigitValue(s[|s| - 1])
  }

  lemma {:induction false} NatTextReads(n: nat)
    ensures AllDigits(NatText(n)) && NatText(n) != "" && Value(NatText(n)) == n
    ensures n > 0 ==> NatText(n)[0] != '0'
  {
    assert forall d: nat :: d < 10 ==> IsDigit(DIGITS[d]) && DigitValue(DIGITS[d]) == d;
    if n < 10 {
      assert NatText(n)[..0] == "";
    } else {
      NatTextReads(n / 10);
      var front := NatText(n / 10);
      assert NatText(n)[..|front|] == front;
      assert NatText(n)[|front|] == DigitChar(n % 10);
    }
  }

  lemma {:induction false} NatTextInjective(m: nat, n: nat)
    requires NatText(m) == NatText(n)
    ensures m == n
  {
    NatTextReads(m);
    NatTextReads(n);
  }

  // ---------------------------------------------------------------- order

  function Pow10(k: nat): (p: nat)
    ensures p > 0
  {
    if k == 0 then 1 else 10 * Pow10(k - 1)
  }

  lemma {:induction false} ValueBelow(s: string)
    requires AllDigits(s)
    ensures Value(s) < Pow10(|s|)
  {
    if s != "" { ValueBelow(s[..|s| - 1]); }
  }

  lemma {:induction false} ValueFromLeft(s: string)
    requires AllDigits(s) && s != ""
    ensures Value(s) == DigitValue(s[0]) * Pow10(|s| - 1) + Value(s[1..])
  {
    if |s| == 1 {
      assert s[..0] == "" && s[1..] == "";
    } else {
      var front := s[..|s| - 1];
      ValueFromLeft(front);
      assert front[1..] == s[1..][..|s| - 2];
    }
  }

  /** Lexicographic order on text. */
  predicate TextLess(a: string, b: string) {
    if b == "" then false
    else if a == "" then true
    else if a[0] != b[0] then a[0] < b[0]
    else TextLess(a[1..], b[1..])
  }

  function Sign(x: int): int {
    if x < 0 then -1 else if x > 0 then 1 else 0
  }

  /** The scripts' `compare_decimal`: digits only, then by length, then as text; None is its nil. */
  function CompareDecimal(left: string, right: string): Option<int> {
    if left == "" || right == "" || !AllDigits(left) || !AllDigits(right) then None
    else if |left| < |right| then Some(-1)
    else if |left| > |right| then Some(1)
    else if TextLess(left, right) then Some(-1)
    else if TextLess(right, left) then Some(1)
    else Some(0)
  }

  lemma {:induction false} TextOrderIsNumeric(a: string, b: string)
    requires AllDigits(a) && AllDigits(b) && |a| == |b|
    ensures TextLess(a, b) <==> Value(a) < Value(b)
    ensures Value(a) == Value(b) <==> a == b
  {
    if a != "" {
      ValueFromLeft(a);
      ValueFromLeft(b);
      TextOrderIsNumeric(a[1..], b[1..]);
      ValueBelow(a[1..]);
      ValueBelow(b[1..]);
      var p, x, y := Pow10(|a| - 1), DigitValue(a[0]), DigitValue(b[0]);
      if x < y { DigitDominates(x, y, p, Value(a[1..]), Value(b[1..])); }
      if y < x { DigitDominates(y, x, p, Value(b[1..]), Value(a[1..])); }
      assert a == [a[0]] + a[1..] && b == [b[0]] + b[1..];
    }
  }

  lemma DigitDominates(x: nat, y: nat, p: nat, u: nat, v: nat)
    requires x < y && u < p
    ensures x * p + u < y * p + v
  {
    assert (x + 1) * p <= y * p;
    assert (x + 1) * p == x * p + p;
  }

  /** Canonical text of a longer length denotes a greater number. */
  lemma {:induction false} LongerIsGreater(m: nat, n: nat)
    requires |NatText(m)| < |NatText(n)|
    ensures m < n
  {
    NatTextReads(m);
    NatTextReads(n);
    var a, b := NatText(m), NatText(n);
    ValueBelow(a);
    ValueFromLeft(b);
    PowMonotone(|a|, |b| - 1);
    if n > 0 {
      assert DigitValue(b[0]) >= 1;
      assert DigitValue(b[0]) * Pow10(|b| - 1) >= Pow10(|b| - 1);
    }
  }

  lemma {:induction false} PowMonotone(i: nat, j: nat)
    requires i <= j
    ensures Pow10(i) <= Pow10(j)
    decreases j
  {
    if i < j { PowMonotone(i, j - 1); }
  }

  /** On the decimal text of integers the scripts compare numerically, whatever the size; a negative
  number is not a digit string, and is refused. */
  lemma CompareDecimalExact(m: int, n: int)
    ensures CompareDecimal(IntText(m), IntText(n)) == if m < 0 || n < 0 then None else Some(Sign(m - n))
  {
    if m < 0 || n < 0 {
      if m < 0 { assert !IsDigit(IntText(m)[0]); }
      if n < 0 { assert !IsDigit(IntText(n)[0]); }
    } else {
      NatTextReads(m);
      NatTextReads(n);
      var a, b := NatText(m), NatText(n);
      if |a| < |b| {
        LongerIsGreater(m, n);
      } else if |b| < |a| {
        LongerIsGreater(n, m);
      } else {
        TextOrderIsNumeric(a, b);
        TextOrderIsNumeric(b, a);
      }
    }
  }
}
