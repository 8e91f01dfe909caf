/**
 * Unsigned machine words as naturals: powers of two, the bitwise operators the library uses on
 * masks, and the facts that turn a mask or a disjoint "or" into arithmetic.
 */
module Bits {

  const U64: nat := 0x1_0000_0000_0000_0000

  function Pow2(n: nat): (p: nat)
    ensures p >= 1
  {
    if n == 0 then 1 else 2 * Pow2(n - 1)
  }

  function Shr(x: nat, n: nat): nat {
    QuotientIsNat(x, Pow2(n));
    x / Pow2(n)
  }

  lemma QuotientIsNat(x: nat, d: nat)
    requires d > 0
    ensures x / d >= 0
  {
    MultipleIsFar(d, x / d);
  }

  // Bitwise "and" of two naturals, least significant bit first.
  function And(a: nat, b: nat): (r: nat)
    ensures r <= a && r <= b
  {
    if a == 0 || b == 0 then 0 else (if a % 2 == 1 && b % 2 == 1 then 1 else 0) + 2 * And(a / 2, b / 2)
  }

  // Bitwise "or" of two naturals, least significant bit first.
  function Or(a: nat, b: nat): (r: nat)
    ensures r >= a && r >= b
  {
    if a == 0 then b else if b == 0 then a
    else (if a % 2 == 1 || b % 2 == 1 then 1 else 0) + 2 * Or(a / 2, b / 2)
  }

  lemma {:induction false} Pow2Add(m: nat, n: nat)
    ensures Pow2(m + n) == Pow2(m) * Pow2(n)
  {
    if m == 0 {
    } else {
      Pow2Add(m - 1, n);
      assert Pow2(m + n) == 2 * Pow2(m + n - 1);
    }
  }

  lemma Pow2Of8()
    ensures Pow2(0) == 1 && Pow2(8) == 256
  {
    assert Pow2(4) == 16;
  }

  lemma Pow2Of32()
    ensures Pow2(0) == 1 && Pow2(32) == 0x1_0000_0000
  {
    hide Pow2;
    Pow2Of8();
    Pow2Add(8, 8);
    Pow2Add(16, 16);
  }

  lemma Pow2Of64()
    ensures Pow2(64) == U64
  {
    hide Pow2;
    Pow2Of32();
    Pow2Add(32, 32);
  }

  // Dividing by two inside a remainder modulo an even number.
  lemma HalfMod(x: nat, m: nat)
    requires m > 0
    ensures x % (2 * m) == x % 2 + 2 * ((x / 2) % m)
  {
    var q := x / 2 / m;
    var r := (x / 2) % m;
    assert x / 2 == q * m + r;
    assert x == (2 * m) * q + (x % 2 + 2 * r);
    DivModUnique(x, 2 * m, q, x % 2 + 2 * r);
  }

  // A non-zero multiple of d is at least d away from zero.
  lemma MultipleIsFar(d: int, k: int)
    requires d > 0
    ensures k >= 1 ==> d * k >= d
    ensures k <= -1 ==> d * k <= -d
  {
    if k >= 1 {
      assert d * k == d + d * (k - 1) && d * (k - 1) >= 0;
    } else if k <= -1 {
      assert d * k == -d + d * (k + 1) && d * (k + 1) <= 0;
    }
  }

  // Quotient and remainder are determined by their defining equation.
  lemma DivModUnique(x: int, d: nat, q: int, r: nat)
    requires d > 0 && r < d && x == d * q + r
    ensures x / d == q && x % d == r
  {
    var q', r' := x / d, x % d;
    assert x == d * q' + r';
    assert d * (q - q') == d * q - d * q';
    MultipleIsFar(d, q - q');
  }

  lemma AndZero(x: nat)
    ensures And(x, 0) == 0 == And(0, x)
  {
  }

  lemma AndOdd(x: nat, h: nat)
    requires x > 0
    ensures And(x, 2 * h + 1) == x % 2 + 2 * And(x / 2, h)
  {
    assert (2 * h + 1) % 2 == 1 && (2 * h + 1) / 2 == h;
  }

  // A mask of k ones is a remainder: this is where a power-of-two size is needed.
  lemma {:induction false} AndLowMask(x: nat, k: nat)
    ensures And(x, Pow2(k) - 1) == x % Pow2(k)
  {
    hide And;
    if k == 0 {
      AndZero(x);
    } else if x == 0 {
      AndZero(Pow2(k) - 1);
      DivModUnique(0, Pow2(k), 0, 0);
    } else {
      var m := Pow2(k - 1);
      AndLowMask(x / 2, k - 1);
      HalfMod(x, m);
      AndOdd(x, m - 1);
    }
  }

  // A multiple of 2^k "or" a number below 2^k is their sum.
  lemma {:induction false} OrDisjoint(a: nat, b: nat, k: nat)
    requires a % Pow2(k) == 0 && b < Pow2(k)
    ensures Or(a, b) == a + b
  {
    if a != 0 && b != 0 {
      assert k > 0;
      HalfMod(a, Pow2(k - 1));
      OrDisjoint(a / 2, b / 2, k - 1);
    }
  }

  // The remainder of a word by a smaller power of two ignores the wrap at 64 bits.
  lemma ModOfU64(k: nat)
    requires k <= 64
    ensures U64 % Pow2(k) == 0 && U64 == Pow2(k) * Pow2(64 - k)
  {
    Pow2Of64();
    Pow2Add(k, 64 - k);
    DivModUnique(U64, Pow2(k), Pow2(64 - k), 0);
  }

  lemma TwoDigits(a: nat, b: nat, q: int, r1: nat, r0: nat)
    requires r0 < a && r1 < b
    ensures 0 <= a * r1 + r0 < a * b
    ensures a * (b * q + r1) + r0 == (a * b) * q + (a * r1 + r0)
  {
    assert a * (b - r1) >= a by {
      MultipleIsFar(a, b - r1);
    }
    assert a * (b - r1) == a * b - a * r1;
  }

  // Two-digit positional notation: the remainder modulo a*b keeps the low digits.
  lemma Digits(x: nat, a: nat, b: nat)
    requires a > 0 && b > 0
    ensures a * b > 0
    ensures x / a / b == x / (a * b)
    ensures (x % (a * b)) / a == (x / a) % b
    ensures (x % (a * b)) % a == x % a
  {
    var r0, q0 := x % a, x / a;
    var r1, q := q0 % b, q0 / b;
    TwoDigits(a, b, q, r1, r0);
    DivModUnique(x, a * b, q, a * r1 + r0);
    DivModUnique(a * r1 + r0, a, r1, r0);
  }
}
