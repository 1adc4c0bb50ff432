/** Natural numbers and their binary texts, as Python's bin, format and int(…, 2)
    make and read them, with the bitwise or. */
module BinaryText {

  function Pow2(k: nat): (p: nat)
    ensures p > 0
  {
    if k == 0 then 1 else 2 * Pow2(k - 1)
  }

  /** The binary digits of `n`, most significant first. */
  function Digits(n: nat): (s: string)
    ensures s != "" && forall i :: 0 <= i < |s| ==> s[i] in {'0', '1'}
  {
    if n == 0 then "0" else if n == 1 then "1" else Digits(n / 2) + (if n % 2 == 1 then "1" else "0")
  }

  function Zeros(k: nat): (s: string)
    ensures |s| == k && forall i :: 0 <= i < k ==> s[i] == '0'
  {
    seq(k, _ => '0')
  }

  /** format(n, '#0{w}b'): the digits after "0b", padded on the left to `w` in all. */
  function FormatBin(n: nat, w: nat): string {
    var d := Digits(n);
    "0b" + (if |d| + 2 < w then Zeros(w - 2 - |d|) else "") + d
  }

  function Value(digits: string): nat {
    if digits == "" then 0
    else 2 * Value(digits[..|digits| - 1]) + if digits[|digits| - 1] == '1' then 1 else 0
  }

  /** int(s, 2) of a text that starts with "0b". */
  function IntOf(s: string): nat {
    if |s| < 2 then 0 else Value(s[2..])
  }

  function Or(a: nat, b: nat): nat {
    if a == 0 then b
    else if b == 0 then a
    else 2 * Or(a / 2, b / 2) + if a % 2 == 1 || b % 2 == 1 then 1 else 0
  }

  predicate HasBit(n: nat, k: nat) {
    if k == 0 then n % 2 == 1 else HasBit(n / 2, k - 1)
  }

  // ---------------------------------------------------------------------

  lemma {:induction false} ValueOfDigits(n: nat)
    ensures Value(Digits(n)) == n
  {
    if n <= 1 {
      assert Digits(n)[..0] == "";
    } else {
      ValueOfDigits(n / 2);
      var d := Digits(n);
      assert d[..|d| - 1] == Digits(n / 2);
    }
  }

  lemma {:induction false} ValueAppend(a: string, b: string)
    ensures Value(a + b) == Value(a) * Pow2(|b|) + Value(b)
    decreases |b|
  {
    if b == "" {
      assert a + b == a;
    } else {
      var init := b[..|b| - 1];
      assert (a + b)[..|a + b| - 1] == a + init;
      ValueAppend(a, init);
      Doubling(Value(a), Pow2(|init|));
    }
  }

  lemma Doubling(v: nat, p: nat)
    ensures v * (2 * p) == 2 * (v * p)
  {}

  lemma {:induction false} ValueOfZeros(k: nat)
    ensures Value(Zeros(k)) == 0
  {
    if k == 0 {
    } else {
      assert Zeros(k)[..k - 1] == Zeros(k - 1);
      ValueOfZeros(k - 1);
    }
  }

  lemma ValueOfPadded(k: nat, d: string)
    ensures Value(Zeros(k) + d) == Value(d)
  {
    ValueAppend(Zeros(k), d);
    ValueOfZeros(k);
  }

  /** Formatting and reading back. */
  lemma FormatReadsBack(n: nat, w: nat)
    ensures IntOf(FormatBin(n, w)) == n && |FormatBin(n, w)| >= 2
  {
    var d := Digits(n);
    ValueOfDigits(n);
    var padding := if |d| + 2 < w then Zeros(w - 2 - |d|) else "";
    assert FormatBin(n, w)[2..] == padding + d;
    if |d| + 2 < w {
      ValueOfPadded(w - 2 - |d|, d);
    } else {
      assert padding + d == d;
    }
  }

  lemma {:induction false} DigitsLength(n: nat, k: nat)
    requires n < Pow2(k) && k > 0
    ensures |Digits(n)| <= k
  {
    if n > 1 { DigitsLength(n / 2, k - 1); }
  }

  /** A number below 2^(w-2) fills the format exactly. */
  lemma FormatLength(n: nat, w: nat)
    requires w > 2 && n < Pow2(w - 2)
    ensures |FormatBin(n, w)| == w
  {
    DigitsLength(n, w - 2);
  }

  lemma {:induction false} OrBits(a: nat, b: nat, k: nat)
    ensures HasBit(Or(a, b), k) <==> HasBit(a, k) || HasBit(b, k)
  {
    if a == 0 {
      NoBits(k);
    } else if b == 0 {
      NoBits(k);
    } else {
      assert Or(a, b) / 2 == Or(a / 2, b / 2);
      if k > 0 { OrBits(a / 2, b / 2, k - 1); }
    }
  }

  lemma {:induction false} NoBits(k: nat)
    ensures !HasBit(0, k)
  {
    if k == 0 {
    } else {
      NoBits(k - 1);
    }
  }

  lemma {:induction false} PowerBits(p: nat, k: nat)
    ensures HasBit(Pow2(p), k) <==> k == p
  {
    if p == 0 {
      if k > 0 { NoBits(k - 1); }
    } else if k > 0 {
      assert Pow2(p) / 2 == Pow2(p - 1);
      PowerBits(p - 1, k - 1);
    }
  }

  /** Numbers with the same bits are equal. */
  lemma {:induction false} SameBitsSameNumber(a: nat, b: nat)
    requires forall k: nat :: HasBit(a, k) <==> HasBit(b, k)
    ensures a == b
    decreases a + b
  {
    assert HasBit(a, 0) <==> HasBit(b, 0);
    if a > 0 || b > 0 {
      forall k: nat
        ensures HasBit(a / 2, k) <==> HasBit(b / 2, k)
      {
        assert HasBit(a, k + 1) <==> HasBit(b, k + 1);
      }
      SameBitsSameNumber(a / 2, b / 2);
    }
  }

  /** A number without bits from `k` on is below 2^k. */
  lemma {:induction false} LowBitsOnly(n: nat, k: nat)
    requires forall i: nat :: i >= k ==> !HasBit(n, i)
    ensures n < Pow2(k)
    decreases k
  {
    if k == 0 {
      forall i: nat
        ensures HasBit(n, i) <==> HasBit(0, i)
      {
        NoBits(i);
      }
      SameBitsSameNumber(n, 0);
    } else {
      forall i: nat | i >= k - 1
        ensures !HasBit(n / 2, i)
      {
        assert !HasBit(n, i + 1);
      }
      LowBitsOnly(n / 2, k - 1);
    }
  }
}
