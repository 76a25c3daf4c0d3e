/** Decimal integers as strconv writes and reads them, for 64-bit values. */
module Decimal {
  import opened Option

  const MIN_INT64: int := -0x8000_0000_0000_0000
  const MAX_INT64: int := 0x7FFF_FFFF_FFFF_FFFF

  predicate InInt64(n: int)
  {
    MIN_INT64 <= n <= MAX_INT64
  }

  function DigitChar(d: int): char
    requires 0 <= d < 10
  {
    "0123456789"[d]
  }

  function DigitValue(c: char): int
  {
    c as int - '0' as int
  }

  predicate IsDigit(c: char)
  {
    '0' <= c <= '9'
  }

  predicate AllDigits(s: string)
  {
    forall i :: 0 <= i < |s| ==> IsDigit(s[i])
  }

  function FormatNat(n: nat): (s: string)
    ensures s != "" && AllDigits(s)
  {
    if n < 10 then [DigitChar(n)] else FormatNat(n / 10) + [DigitChar(n % 10)]
  }

  /** strconv.FormatInt(n, 10) */
  function FormatInt(n: int): (s: string)
    ensures s != "" && forall i :: 0 <= i < |s| ==> IsDigit(s[i]) || s[i] == '-'
  {
    if n < 0 then "-" + FormatNat(-n) else FormatNat(n)
  }

  function DigitsValue(s: string): int
  {
    if s == "" then 0 else DigitsValue(s[..|s| - 1]) * 10 + DigitValue(s[|s| - 1])
  }

  /** strconv.ParseInt(s, 10, 64), and Atoi on a 64-bit machine. */
  function ParseInt(s: string): Option<int>
  {
    var signed := s != "" && (s[0] == '-' || s[0] == '+');
    var digits := if signed then s[1..] else s;
    if digits == "" || !AllDigits(digits) then None
    else
      var n := if signed && s[0] == '-' then -DigitsValue(digits) else DigitsValue(digits);
      if InInt64(n) then Some(n) else None
  }

  lemma {:induction false} NatRoundTrip(n: nat)
    ensures DigitsValue(FormatNat(n)) == n
  {
    if n >= 10 {
      NatRoundTrip(n / 10);
      var s := FormatNat(n);
      assert s[..|s| - 1] == FormatNat(n / 10);
    }
  }

  function Power(k: nat): (p: nat)
    ensures p > 0
  {
    if k == 0 then 1 else 10 * Power(k - 1)
  }

  lemma DigitIs(d: int)
    requires 0 <= d < 10
    ensures DigitChar(d) as int - '0' as int == d && (d > 0 ==> DigitChar(d) != '0')
  {
  }

  /** The k-th digit from the right is the k-th decimal digit, and there is no leading zero. */
  lemma {:induction false} DigitsOf(n: nat, k: nat)
    requires k < |FormatNat(n)|
    ensures var s := FormatNat(n);
      && s[|s| - 1 - k] as int - '0' as int == n / Power(k) % 10
      && (s[0] == '0' ==> n == 0 && s == "0")
  {
    hide DigitChar;
    DigitIs(n % 10);
    if n >= 10 {
      var t := FormatNat(n / 10);
      assert FormatNat(n) == t + [DigitChar(n % 10)];
      DigitsOf(n / 10, if k > 0 then k - 1 else 0);
      assert t[0] != '0';
      if k > 0 {
        hide FormatNat;
        DivideTwice(n, Power(k - 1));
      }
    } else {
      assert FormatNat(n) == [DigitChar(n)];
    }
  }

  lemma DivideTwice(n: nat, p: nat)
    requires p > 0
    ensures n / 10 / p == n / (10 * p)
  {
    var q, r := n / 10 / p, n / 10 % p;
    var d := 10 * p;
    assert n / 10 == q * p + r;
    var rest := 10 * r + n % 10;
    assert n == 10 * (q * p + r) + n % 10 == q * d + rest by {
      assert 10 * (q * p) == q * (10 * p);
    }
    assert 0 <= rest < d;
    QuotientIs(n, d, q, rest);
  }

  lemma QuotientIs(n: nat, d: nat, q: nat, r: nat)
    requires d > 0 && n == q * d + r && r < d
    ensures n / d == q
  {
    var e := n / d - q;
    assert n == (n / d) * d + n % d;
    assert e * d == r - n % d;
    assert e > 0 ==> e * d >= d;
    assert e < 0 ==> e * d + d <= 0;
  }

  lemma IntRoundTrip(n: int)
    requires InInt64(n)
    ensures ParseInt(FormatInt(n)) == Some(n)
  {
    NatRoundTrip(if n < 0 then -n else n);
    var s := FormatInt(n);
    if n < 0 {
      assert s[1..] == FormatNat(-n);
    } else {
      assert IsDigit(s[0]);
    }
  }

  /** No decimal contains a vertical bar. */
  lemma BarIsNoDecimal(head: string, tail: string)
    requires head != ""
    ensures ParseInt(head + "|" + tail).None?
  {
    var s := head + "|" + tail;
    var digits := if s[0] == '-' || s[0] == '+' then s[1..] else s;
    assert s[|head|] == '|';
    assert digits[|digits| - |tail| - 1] == '|';
    assert !AllDigits(digits);
  }
}
