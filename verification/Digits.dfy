/** Decimal numerals of a fixed width, as dates are written with. */
module Digits {

  predicate IsDigit(c: char) {
    '0' <= c <= '9'
  }

  predicate AllDigits(s: string) {
    forall i :: 0 <= i < |s| ==> IsDigit(s[i])
  }

  function DigitOf(c: char): nat
    requires IsDigit(c)
  {
    c as int - 48
  }

  function DigitChar(d: nat): (c: char)
    requires d < 10
    ensures IsDigit(c) && DigitOf(c) == d
  {
    (48 + d) as char
  }

  function Power10(w: nat): nat {
    if w == 0 then 1 else 10 * Power10(w - 1)
  }

  /** `+text` on a numeral. */
  function NumberOf(s: string): (n: nat)
    requires AllDigits(s)
    ensures n < Power10(|s|)
  {
    if s == "" then 0 else 10 * NumberOf(s[..|s| - 1]) + DigitOf(s[|s| - 1])
  }

  /** n written with w digits. */
  function Numeral(n: nat, w: nat): (s: string)
    ensures |s| == w && AllDigits(s)
  {
    if w == 0 then "" else Numeral(n / 10, w - 1) + [DigitChar(n % 10)]
  }

  lemma NumberOfSnoc(s: string, c: char)
    requires AllDigits(s) && IsDigit(c)
    ensures AllDigits(s + [c]) && NumberOf(s + [c]) == 10 * NumberOf(s) + DigitOf(c)
  {
    assert (s + [c])[..|s|] == s;
  }

  lemma {:induction false} NumberOfNumeral(n: nat, w: nat)
    requires n < Power10(w)
    ensures NumberOf(Numeral(n, w)) == n
  {
    if w > 0 {
      NumberOfNumeral(n / 10, w - 1);
      NumberOfSnoc(Numeral(n / 10, w - 1), DigitChar(n % 10));
    }
  }

  lemma {:induction false} NumeralOfNumber(s: string)
    requires AllDigits(s)
    ensures Numeral(NumberOf(s), |s|) == s
  {
    if s != "" {
      var front, last := s[..|s| - 1], s[|s| - 1];
      NumeralOfNumber(front);
      NumeralSnoc(NumberOf(front), |front|, DigitOf(last));
      assert s == front + [last];
    }
  }

  lemma NumeralSnoc(n: nat, w: nat, d: nat)
    requires d < 10
    ensures Numeral(10 * n + d, w + 1) == Numeral(n, w) + [DigitChar(d)]
  {
    assert (10 * n + d) / 10 == n && (10 * n + d) % 10 == d;
  }

  /** Texts in the order `<` compares them: by the first difference. */
  predicate TextLess(a: string, b: string) {
    if a == "" || b == "" then a == "" && b != ""
    else if a[0] != b[0] then a[0] < b[0]
    else TextLess(a[1..], b[1..])
  }

  lemma {:induction false} TextLessOfTwo(a: string, b: string, x: string, y: string)
    requires |a| == |b|
    ensures TextLess(a + x, b + y) <==> TextLess(a, b) || (a == b && TextLess(x, y))
  {
    if a == "" {
      assert a + x == x && b + y == y;
    } else {
      assert (a + x)[1..] == a[1..] + x && (b + y)[1..] == b[1..] + y;
      TextLessOfTwo(a[1..], b[1..], x, y);
      assert a == [a[0]] + a[1..] && b == [b[0]] + b[1..];
    }
  }

  /** Numerals of one width are ordered as their numbers. */
  lemma {:induction false} NumeralOrder(a: string, b: string)
    requires |a| == |b| && AllDigits(a) && AllDigits(b)
    ensures TextLess(a, b) <==> NumberOf(a) < NumberOf(b)
    ensures a == b <==> NumberOf(a) == NumberOf(b)
  {
    if a != "" {
      var n := |a| - 1;
      NumeralOrder(a[..n], b[..n]);
      assert a == a[..n] + [a[n]] && b == b[..n] + [b[n]];
      TextLessOfTwo(a[..n], b[..n], [a[n]], [b[n]]);
    }
  }
}
