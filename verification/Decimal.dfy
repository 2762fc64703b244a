/** Decimal rendering and parsing of integers: Python's `str(int)`, `int(str)` and `str.zfill`. */
module Decimal {
  import Bits

  function Pow10(k: nat): (p: nat)
    ensures p >= 1
  {
    if k == 0 then 1 else 10 * Pow10(k - 1)
  }

  predicate IsDigit(c: char) {
    '0' <= c <= '9'
  }

  predicate AllDigits(s: string) {
    forall i :: 0 <= i < |s| ==> IsDigit(s[i])
  }

  function DigitChar(d: int): (c: char)
    requires 0 <= d < 10
    ensures IsDigit(c) && DigitValue(c) == d
  {
    (d + '0' as int) as char
  }

  function DigitValue(c: char): (d: nat)
    requires IsDigit(c)
    ensures d < 10
  {
    (c as int) - ('0' as int)
  }

  function StrNat(n: nat): (s: string)
    ensures |s| >= 1 && AllDigits(s)
  {
    if n < 10 then [DigitChar(n)] else StrNat(n / 10) + [DigitChar(n % 10)]
  }

  function Str(n: int): string {
    if n < 0 then "-" + StrNat(-n) else StrNat(n)
  }

  /** `int(s)` on a string of digits, leading zeros included. */
  function ParseNat(s: string): nat
    requires AllDigits(s)
  {
    if s == "" then 0
    else 10 * ParseNat(s[..|s| - 1]) + DigitValue(s[|s| - 1])
  }

  function Zeros(k: nat): (s: string)
    ensures |s| == k && forall i :: 0 <= i < k ==> s[i] == '0'
  {
    seq(k, _ => '0')
  }

  function ZFill(s: string, width: int): (r: string)
    ensures |r| == if |s| >= width then |s| else width
  {
    if |s| >= width then s else Zeros(width - |s|) + s
  }

  lemma {:induction false} ParseStrNat(n: nat)
    ensures ParseNat(StrNat(n)) == n
  {
    if n >= 10 {
      ParseStrNat(n / 10);
      assert StrNat(n)[..|StrNat(n)| - 1] == StrNat(n / 10);
    }
  }

  lemma StrInjective(a: int, b: int)
    requires Str(a) == Str(b)
    ensures a == b
  {
    ParseStrNat(if a < 0 then -a else a);
    ParseStrNat(if b < 0 then -b else b);
    if a < 0 {
      assert Str(a)[0] == '-' && Str(a)[1..] == StrNat(-a);
    }
    if b < 0 {
      assert Str(b)[0] == '-' && Str(b)[1..] == StrNat(-b);
    }
    if a >= 0 {
      assert IsDigit(StrNat(a)[0]);
    }
    if b >= 0 {
      assert IsDigit(StrNat(b)[0]);
    }
  }

  lemma {:induction false} ParseBound(s: string)
    requires AllDigits(s)
    ensures ParseNat(s) < Pow10(|s|)
  {
    if s != "" {
      ParseBound(s[..|s| - 1]);
    }
  }

  lemma DivideInSteps(n: nat, p: nat)
    requires p >= 1
    ensures n / (10 * p) == (n / 10) / p
  {
    var q, r := (n / 10) / p, (n / 10) % p;
    assert n == q * (10 * p) + (10 * r + n % 10);
    assert 0 <= 10 * r + n % 10 < 10 * p;
    Bits.DivModUnique(n, 10 * p, q, 10 * r + n % 10);
  }

  /** The first digits of a numeral are the number without its last ones. */
  lemma {:induction false} LeadingDigits(n: nat, k: nat)
    requires 1 <= k <= |StrNat(n)|
    ensures ParseNat(StrNat(n)[..k]) == n / Pow10(|StrNat(n)| - k)
    decreases n
  {
    var text := StrNat(n);
    if k == |text| {
      ParseStrNat(n);
      assert text[..k] == text && Pow10(0) == 1;
    } else {
      var shorter := StrNat(n / 10);
      assert text[..|text| - 1] == shorter && text[..k] == shorter[..k];
      LeadingDigits(n / 10, k);
      assert Pow10(|text| - k) == 10 * Pow10(|shorter| - k);
      DivideInSteps(n, Pow10(|shorter| - k));
    }
  }

  /** A numeral has at most k digits exactly when it is below 10^k. */
  lemma {:induction false} StrNatLength(n: nat, k: nat)
    requires k >= 1
    ensures |StrNat(n)| <= k <==> n < Pow10(k)
    decreases k
  {
    if k == 1 {
      assert Pow10(1) == 10 * Pow10(0);
      if n >= 10 {
        assert |StrNat(n / 10)| >= 1;
      }
    } else if n < 10 {
      assert Pow10(k) == 10 * Pow10(k - 1);
    } else {
      StrNatLength(n / 10, k - 1);
    }
  }

  lemma {:induction false} ParseLeadingZeros(k: nat, s: string)
    requires AllDigits(s)
    ensures ParseNat(Zeros(k) + s) == ParseNat(s)
    decreases |s|, k
  {
    var t := Zeros(k) + s;
    if s != "" {
      assert t[..|t| - 1] == Zeros(k) + s[..|s| - 1];
      ParseLeadingZeros(k, s[..|s| - 1]);
    } else if k > 0 {
      assert t[..|t| - 1] == Zeros(k - 1) + s;
      ParseLeadingZeros(k - 1, s);
    }
  }

  lemma ParseZFill(n: nat, width: int)
    ensures AllDigits(ZFill(StrNat(n), width)) && ParseNat(ZFill(StrNat(n), width)) == n
  {
    ParseStrNat(n);
    if |StrNat(n)| < width {
      ParseLeadingZeros(width - |StrNat(n)|, StrNat(n));
    }
  }
}
