/** Decimal text: `String(n)`, `padStart` with zeros and `Number` on plain digits. */
module Digits {

  predicate IsDigit(c: char) {
    '0' <= c <= '9'
  }

  predicate AllDigits(s: string) {
    forall i :: 0 <= i < |s| ==> IsDigit(s[i])
  }

  function DigitOf(n: nat): char
    requires n < 10
  {
    '0' + n as char
  }

  /** `String(n)` for a non-negative integer. */
  function Decimal(n: nat): string {
    if n < 10 then [DigitOf(n)] else Decimal(n / 10) + [DigitOf(n % 10)]
  }

  /** `String(n)` for any integer. */
  function Text(n: int): string {
    if n < 0 then "-" + Decimal(-n) else Decimal(n)
  }

  /** `padStart(width, "0")`. */
  function Padded(s: string, width: nat): string {
    if |s| < width then seq(width - |s|, _ => '0') + s else s
  }

  /** `Number(s)` for a string of digits. */
  function Value(s: string): nat
    requires AllDigits(s)
  {
    if s == "" then 0 else 10 * Value(s[..|s| - 1]) + (s[|s| - 1] - '0') as nat
  }

  function Power10(k: nat): nat {
    if k == 0 then 1 else 10 * Power10(k - 1)
  }

  /** Printing and reading back is the identity, and there is no leading zero. */
  lemma {:induction false} DecimalReads(n: nat)
    ensures AllDigits(Decimal(n)) && Value(Decimal(n)) == n
    ensures Decimal(n) != "" && (n > 0 ==> Decimal(n)[0] != '0')
  {
    var s := Decimal(n);
    if n >= 10 {
      DecimalReads(n / 10);
      assert s[..|s| - 1] == Decimal(n / 10);
    } else {
      assert s[..|s| - 1] == "";
    }
  }

  /** `k` digits are enough for exactly the numbers below ten to the `k`. */
  lemma {:induction false} DecimalLength(n: nat, k: nat)
    requires k > 0
    ensures |Decimal(n)| <= k <==> n < Power10(k)
  {
    if n < 10 {
      PowerPositive(k - 1);
    } else if k == 1 {
      assert |Decimal(n)| == |Decimal(n / 10)| + 1;
      DecimalReads(n / 10);
    } else {
      DecimalLength(n / 10, k - 1);
      assert |Decimal(n)| == |Decimal(n / 10)| + 1;
      BelowTenfold(n, Power10(k - 1));
    }
  }

  lemma {:induction false} PowerPositive(k: nat)
    ensures Power10(k) >= 1
  {
    if k > 0 {
      PowerPositive(k - 1);
    }
  }

  lemma BelowTenfold(n: nat, p: nat)
    ensures n / 10 < p <==> n < 10 * p
  {
  }

  lemma {:induction false} ZerosCountNothing(k: nat, s: string)
    requires AllDigits(s)
    ensures AllDigits(seq(k, _ => '0') + s) && Value(seq(k, _ => '0') + s) == Value(s)
    decreases |s|
  {
    var zeros := seq(k, _ => '0');
    if s == "" {
      assert zeros + s == zeros;
      ZerosAreZero(k);
    } else {
      ZerosCountNothing(k, s[..|s| - 1]);
      assert (zeros + s)[..|zeros + s| - 1] == zeros + s[..|s| - 1];
    }
  }

  lemma {:induction false} ZerosAreZero(k: nat)
    ensures AllDigits(seq(k, _ => '0')) && Value(seq(k, _ => '0')) == 0
  {
    if k > 0 {
      ZerosAreZero(k - 1);
      var zeros := seq(k, _ => '0');
      assert zeros[..|zeros| - 1] == seq(k - 1, _ => '0');
    }
  }

  /** A padded number reads back, and has exactly the width asked for when it fits. */
  lemma PaddedReads(n: nat, width: nat)
    requires width > 0
    ensures AllDigits(Padded(Decimal(n), width)) && Value(Padded(Decimal(n), width)) == n
    ensures |Padded(Decimal(n), width)| == width <==> n < Power10(width)
  {
    var s := Decimal(n);
    DecimalReads(n);
    DecimalLength(n, width);
    if |s| < width {
      ZerosCountNothing(width - |s|, s);
    }
  }

  /** Reading digits and padding to their number gives them back. */
  lemma {:induction false} ValuePads(s: string)
    requires AllDigits(s) && s != ""
    ensures Value(s) < Power10(|s|)
    ensures Padded(Decimal(Value(s)), |s|) == s
  {
    var last := (s[|s| - 1] - '0') as nat;
    if |s| == 1 {
      assert s[..0] == "";
      assert Value(s) == last;
      assert s == [DigitOf(last)];
    } else {
      var front := s[..|s| - 1];
      ValuePads(front);
      var n := Value(front);
      assert s == front + [DigitOf(last)];
      assert (10 * n + last) / 10 == n && (10 * n + last) % 10 == last;
      if n > 0 {
        assert Decimal(Value(s)) == Decimal(n) + [DigitOf(last)];
      } else {
        assert Decimal(n) == "0";
        assert Decimal(Value(s)) == [DigitOf(last)];
      }
    }
  }
}
