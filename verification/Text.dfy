/** printf-style text. */
module Text {
  function Digit(d: nat): (c: char)
    requires d < 10
    ensures '0' <= c <= '9'
  {
    ['0', '1', '2', '3', '4', '5', '6', '7', '8', '9'][d]
  }

  /** %llu */
  function Decimal(n: nat): (s: string)
    ensures s != "" && forall i :: 0 <= i < |s| ==> '0' <= s[i] <= '9'
  {
    if n < 10 then [Digit(n)] else Decimal(n / 10) + [Digit(n % 10)]
  }

  /** %ld */
  function SignedDecimal(n: int): string {
    if n < 0 then "-" + Decimal(-n) else Decimal(n)
  }

  function Pow10(k: nat): nat {
    if k == 0 then 1 else 10 * Pow10(k - 1)
  }

  lemma {:induction false} DecimalWidth(n: nat, k: nat)
    requires k > 0 && n < Pow10(k)
    ensures |Decimal(n)| <= k
  {
    assert Pow10(1) == 10;
    if n >= 10 {
      DecimalWidth(n / 10, k - 1);
    }
  }

  lemma Pow10Of20()
    ensures Pow10(3) == 1000 && Pow10(20) == 100000000000000000000
  {
    assert Pow10(5) == 100000;
    assert Pow10(10) == 10000000000;
    assert Pow10(15) == 1000000000000000;
  }

  /** snprintf into a buffer of `size` characters: what does not fit is cut off. */
  function Snprintf(size: nat, text: string): string
    requires size > 0
  {
    if |text| < size then text else text[..size - 1]
  }

  // ---- reading numbers back ----

  predicate IsDigit(c: char) {
    '0' <= c <= '9'
  }

  function DigitValue(c: char): nat
    requires IsDigit(c)
  {
    (c - '0') as nat
  }

  /** The value of a run of decimal digits. */
  function DigitsValue(s: string): nat
    requires forall i :: 0 <= i < |s| ==> IsDigit(s[i])
  {
    if s == "" then 0 else 10 * DigitsValue(s[..|s| - 1]) + DigitValue(s[|s| - 1])
  }

  function LeadingDigits(s: string): (r: string)
    ensures r <= s && forall i :: 0 <= i < |r| ==> IsDigit(r[i])
  {
    if s != "" && IsDigit(s[0]) then [s[0]] + LeadingDigits(s[1..]) else ""
  }

  lemma {:induction false} DigitsValueOfDecimal(n: nat)
    ensures DigitsValue(Decimal(n)) == n
  {
    var s := Decimal(n);
    if n < 10 {
      assert s[..|s| - 1] == "";
      assert DigitsValue("") == 0;
    } else {
      DigitsValueOfDecimal(n / 10);
      assert s[..|s| - 1] == Decimal(n / 10);
    }
    DigitBack(n % 10);
  }

  lemma DigitBack(d: nat)
    requires d < 10
    ensures DigitValue(Digit(d)) == d
  {
  }

  lemma {:induction false} AllDigits(s: string)
    requires forall i :: 0 <= i < |s| ==> IsDigit(s[i])
    ensures LeadingDigits(s) == s
  {
    if s != "" {
      AllDigits(s[1..]);
    }
  }

  lemma {:induction false} DigitsEnd(s: string, rest: string)
    requires (forall i :: 0 <= i < |s| ==> IsDigit(s[i])) && (rest == "" || !IsDigit(rest[0]))
    ensures LeadingDigits(s + rest) == s
  {
    if s == "" {
      assert s + rest == rest;
    } else {
      DigitsEnd(s[1..], rest);
      assert (s + rest)[1..] == s[1..] + rest;
    }
  }
}
