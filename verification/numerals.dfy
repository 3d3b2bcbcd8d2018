/**
 * Text of natural numbers in a small base (the `%d`, `%u` and `%o` conversions of
 * the C formatters used by the modelled code), with the parser that undoes it and
 * the digit-count bounds the callers rely on when they size their buffers.
 */
module Numerals {

  function Pow(b: nat, k: nat): (p: nat)
    ensures b >= 1 ==> p >= 1
  {
    if k == 0 then 1 else b * Pow(b, k - 1)
  }

  predicate IsDigit(c: char) { '0' as int <= c as int <= '9' as int }

  function DigitChar(d: nat): (c: char)
    requires d < 10
    ensures IsDigit(c) && c as int - '0' as int == d
  {
    (d + '0' as int) as char
  }

  /** `n` written in `base`, most significant digit first, without leading zeros. */
  function NatText(n: nat, base: nat): (s: string)
    requires 2 <= base <= 10
    ensures |s| >= 1
    ensures forall i :: 0 <= i < |s| ==> IsDigit(s[i])
    decreases n
  {
    if n < base then [DigitChar(n)]
    else
      DivModBase(n, base);
      NatText(n / base, base) + [DigitChar(n % base)]
  }

  /** The Euclidean division facts the digit recursion needs. */
  lemma DivModBase(n: nat, base: nat)
    requires 2 <= base && base <= n
    ensures n == (n / base) * base + n % base
    ensures 0 <= n % base < base && 1 <= n / base < n
  {
  }

  function Decimal(n: nat): (s: string) { NatText(n, 10) }

  function Octal(n: nat): (s: string) { NatText(n, 8) }

  /** `%d` of a signed value. */
  function SignedDecimal(i: int): (s: string)
  {
    if i < 0 then "-" + Decimal(-i) else Decimal(i)
  }

  /** Reads a digit string back as a number in `base`. */
  function ParseNat(s: string, base: nat): (n: nat)
    requires 2 <= base <= 10
    requires forall i :: 0 <= i < |s| ==> IsDigit(s[i])
  {
    if s == [] then 0
    else
      assert IsDigit(s[|s| - 1]);
      var d: nat := s[|s| - 1] as int - '0' as int;
      ParseNat(s[..|s| - 1], base) * base + d
  }

  /** Parsing the text of `n` gives `n` back. */
  lemma {:induction false} ParseNatText(n: nat, base: nat)
    requires 2 <= base <= 10
    ensures ParseNat(NatText(n, base), base) == n
    decreases n
  {
    var s := NatText(n, base);
    if n >= base {
      DivModBase(n, base);
      ParseNatText(n / base, base);
      assert s[..|s| - 1] == NatText(n / base, base);
      assert s[|s| - 1] as int - '0' as int == n % base;
    }
  }

  /** Fewer than `k` digits are needed exactly when `n < base^k`. */
  lemma {:induction false} NatTextLength(n: nat, base: nat, k: nat)
    requires 2 <= base <= 10 && k >= 1
    ensures |NatText(n, base)| <= k <==> n < Pow(base, k)
    decreases k
  {
    if n < base {
      assert Pow(base, k) >= base by { PowAtLeastBase(base, k); }
    } else if k == 1 {
      assert Pow(base, 1) == base;
    } else {
      NatTextLength(n / base, base, k - 1);
      QuotientBound(n, base, Pow(base, k - 1));
    }
  }

  /** `n < base * p` exactly when the quotient `n / base` is below `p`. */
  lemma QuotientBound(n: nat, base: nat, p: nat)
    requires 2 <= base
    ensures n < base * p <==> n / base < p
  {
    var q, r := n / base, n % base;
    assert n == q * base + r && 0 <= r < base;
    if q < p {
      assert q * base <= (p - 1) * base by { MulMono(q, p - 1, base); }
    } else {
      assert p * base <= q * base by { MulMono(p, q, base); }
    }
  }

  lemma MulMono(a: nat, b: nat, c: nat)
    requires a <= b
    ensures a * c <= b * c
  {
  }

  lemma {:induction false} PowAtLeastBase(base: nat, k: nat)
    requires base >= 1 && k >= 1
    ensures Pow(base, k) >= base
    decreases k
  {
    if k > 1 {
      PowAtLeastBase(base, k - 1);
    }
  }

  /** A 32-bit signed value prints in at most 11 characters, sign included. */
  lemma Int32TextLength(i: int)
    requires -0x8000_0000 <= i < 0x8000_0000
    ensures |SignedDecimal(i)| <= 11
  {
    var m: nat := if i < 0 then -i else i;
    NatTextLength(m, 10, 10);
    assert Pow(10, 10) == 10_000_000_000;
  }
}
