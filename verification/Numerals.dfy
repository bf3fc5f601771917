/** Little-endian base-256 numerals over the integers: what the integer codecs are measured by. */
module Numerals {
  import opened Arithmetic

  type Digit = d: int | 0 <= d < 256

  function Value(d: seq<Digit>): nat {
    if d == [] then 0 else d[0] + 256 * Value(d[1..])
  }

  function Digits(n: nat, width: nat): (d: seq<Digit>)
    ensures |d| == width
  {
    if width == 0 then [] else [n % 256] + Digits(n / 256, width - 1)
  }

  function Pow256(width: nat): (p: nat)
    ensures p >= 1
  {
    if width == 0 then 1 else 256 * Pow256(width - 1)
  }

  // Two's complement: the number that n stands for in a word of `modulus` values.
  function Signed(n: nat, modulus: nat): int {
    if 2 * n >= modulus then n - modulus else n
  }

  lemma {:induction false} DigitsOfValue(d: seq<Digit>)
    ensures Digits(Value(d), |d|) == d
  {
    if d != [] {
      DigitsOfValue(d[1..]);
      assert Value(d) % 256 == d[0] && Value(d) / 256 == Value(d[1..]);
    }
  }

  lemma ModUnique(n: nat, m: nat, q: nat, r: nat)
    requires m >= 1 && n == q * m + r && r < m
    ensures n % m == r
  {
    var k := n / m - q;
    assert r - n % m == k * m;
    MulMonotone(if k >= 1 then 1 else k, if k >= 1 then k else if k <= -1 then -1 else k, m);
  }

  lemma DivModStep(n: nat, p: nat)
    requires p >= 1
    ensures n % 256 + 256 * (n / 256 % p) == n % (256 * p)
  {
    var q, r := n / 256 / p, n / 256 % p;
    assert n / 256 == q * p + r;
    assert q * (256 * p) == 256 * (q * p);
    ModUnique(n, 256 * p, q, 256 * r + n % 256);
  }

  lemma {:induction false} ValueOfDigits(n: nat, width: nat)
    ensures Value(Digits(n, width)) == n % Pow256(width)
  {
    if width > 0 {
      ValueOfDigits(n / 256, width - 1);
      DivModStep(n, Pow256(width - 1));
      assert Digits(n, width)[1..] == Digits(n / 256, width - 1);
    }
  }

  lemma {:induction false} DigitsPrefix(n: nat, width: nat, wider: nat)
    requires width <= wider
    ensures Digits(n, wider)[..width] == Digits(n, width)
  {
    if width > 0 {
      DigitsPrefix(n / 256, width - 1, wider - 1);
      assert Digits(n, wider)[1..] == Digits(n / 256, wider - 1);
    }
  }
}
