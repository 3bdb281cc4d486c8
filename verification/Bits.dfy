/** Bitwise operations on naturals, and the arithmetic they amount to under a mask or a shift. */
module Bits {
  function Pow2(k: nat): (p: nat)
    ensures p >= 1
  {
    if k == 0 then 1 else 2 * Pow2(k - 1)
  }

  /** `64 - x.leading_zeros()`. */
  function BitLength(x: nat): (k: nat)
    ensures x < Pow2(k)
    ensures k > 0 ==> Pow2(k - 1) <= x
  {
    if x == 0 then 0 else 1 + BitLength(x / 2)
  }

  function And(a: nat, b: nat): (r: nat)
    decreases a + b
  {
    if a == 0 || b == 0 then 0 else 2 * And(a / 2, b / 2) + (if a % 2 == 1 && b % 2 == 1 then 1 else 0)
  }

  function Or(a: nat, b: nat): (r: nat)
    decreases a + b
  {
    if a == 0 && b == 0 then 0 else 2 * Or(a / 2, b / 2) + (if a % 2 == 1 || b % 2 == 1 then 1 else 0)
  }

  function Xor(a: nat, b: nat): (r: nat)
    decreases a + b
  {
    if a == 0 && b == 0 then 0 else 2 * Xor(a / 2, b / 2) + (if a % 2 != b % 2 then 1 else 0)
  }

  /** Bit `k` of the binary expansion. */
  predicate Bit(x: nat, k: nat) {
    x / Pow2(k) % 2 == 1
  }

  lemma BitHalf(x: nat, k: nat)
    requires k > 0
    ensures Bit(x, k) == Bit(x / 2, k - 1)
  {
    var p := Pow2(k - 1);
    var q, r := x / 2 / p, x / 2 % p;
    assert x == 2 * (p * q + r) + x % 2;
    assert (2 * p) * q == 2 * (p * q);
    ModUnique(x, 2 * p, q, 2 * r + x % 2);
  }

  /** The three operators work bit by bit. */
  lemma BitwiseOperators(a: nat, b: nat, k: nat)
    ensures Bit(And(a, b), k) == (Bit(a, k) && Bit(b, k))
    ensures Bit(Or(a, b), k) == (Bit(a, k) || Bit(b, k))
    ensures Bit(Xor(a, b), k) == (Bit(a, k) != Bit(b, k))
  {
    AndBits(a, b, k);
    OrBits(a, b, k);
    XorBits(a, b, k);
  }

  lemma {:induction false} AndBits(a: nat, b: nat, k: nat)
    ensures Bit(And(a, b), k) == (Bit(a, k) && Bit(b, k))
  {
    assert And(a, b) / 2 == And(a / 2, b / 2) && And(a, b) % 2 == if a % 2 == 1 && b % 2 == 1 then 1 else 0;
    if k > 0 {
      AndBits(a / 2, b / 2, k - 1);
      BitHalf(a, k);
      BitHalf(b, k);
      BitHalf(And(a, b), k);
    }
  }

  lemma {:induction false} OrBits(a: nat, b: nat, k: nat)
    ensures Bit(Or(a, b), k) == (Bit(a, k) || Bit(b, k))
  {
    assert Or(a, b) / 2 == Or(a / 2, b / 2) && Or(a, b) % 2 == if a % 2 == 1 || b % 2 == 1 then 1 else 0;
    if k > 0 {
      OrBits(a / 2, b / 2, k - 1);
      BitHalf(a, k);
      BitHalf(b, k);
      BitHalf(Or(a, b), k);
    }
  }

  lemma {:induction false} XorBits(a: nat, b: nat, k: nat)
    ensures Bit(Xor(a, b), k) == (Bit(a, k) != Bit(b, k))
  {
    assert Xor(a, b) / 2 == Xor(a / 2, b / 2) && Xor(a, b) % 2 == if a % 2 != b % 2 then 1 else 0;
    if k > 0 {
      XorBits(a / 2, b / 2, k - 1);
      BitHalf(a, k);
      BitHalf(b, k);
      BitHalf(Xor(a, b), k);
    }
  }

  lemma {:induction false} Pow2Monotone(a: nat, b: nat)
    requires a <= b
    ensures Pow2(a) <= Pow2(b)
  {
    if a < b { Pow2Monotone(a, b - 1); }
  }

  lemma {:induction false} Pow2Add(a: nat, b: nat)
    ensures Pow2(a + b) == Pow2(a) * Pow2(b)
  {
    if a > 0 { Pow2Add(a - 1, b); }
  }

  lemma Pow2Add8(k: nat)
    ensures Pow2(k + 8) == 0x100 * Pow2(k)
  {
    assert Pow2(k + 4) == 0x10 * Pow2(k) by { assert Pow2(k + 2) == 4 * Pow2(k); }
    assert Pow2(k + 8) == 0x10 * Pow2(k + 4) by { assert Pow2(k + 6) == 4 * Pow2(k + 4); }
  }

  const BYTE_POWERS: seq<nat> := [1, 0x100, 0x1_0000, 0x100_0000, 0x1_0000_0000, 0x100_0000_0000,
                                  0x1_0000_0000_0000, 0x100_0000_0000_0000, 0x1_0000_0000_0000_0000]

  lemma {:induction false} Pow2OfBytes(k: nat)
    requires k <= 8
    ensures Pow2(8 * k) == BYTE_POWERS[k]
  {
    if k > 0 {
      Pow2OfBytes(k - 1);
      Pow2Add8(8 * (k - 1));
    }
  }

  lemma WordSizes()
    ensures Pow2(8) == 0x100
    ensures Pow2(32) == 0x1_0000_0000
    ensures Pow2(64) == 0x1_0000_0000_0000_0000
  {
    Pow2OfBytes(1);
    Pow2OfBytes(4);
    Pow2OfBytes(8);
  }

  /** `x & (2^k - 1)` keeps the low `k` bits. */
  lemma {:induction false} AndMask(x: nat, k: nat)
    ensures And(x, Pow2(k) - 1) == x % Pow2(k)
  {
    if x != 0 && k != 0 {
      AndMask(x / 2, k - 1);
      assert (Pow2(k) - 1) / 2 == Pow2(k - 1) - 1;
      ModTwice(x, Pow2(k - 1));
    }
  }

  lemma ModTwice(x: nat, m: nat)
    requires m > 0
    ensures x % (2 * m) == 2 * (x / 2 % m) + x % 2
  {
    var q := x / 2 / m;
    assert x == 2 * (m * q + x / 2 % m) + x % 2;
    assert 2 * (m * q) == (2 * m) * q;
    ModUnique(x, 2 * m, q, 2 * (x / 2 % m) + x % 2);
  }

  lemma ModUnique(x: int, m: int, q: int, r: int)
    requires 0 <= r < m && x == m * q + r
    ensures x % m == r && x / m == q
  {
    var d := x / m - q;
    assert m * d == r - x % m;
    assert (d >= 1 ==> m * d >= m) && (d <= -1 ==> m * d <= -m);
  }

  /** `(l << k) | r` is `l * 2^k + r` when `r` fits below the shift. */
  lemma {:induction false} OrShifted(l: nat, r: nat, k: nat)
    requires r < Pow2(k)
    ensures Or(l * Pow2(k), r) == l * Pow2(k) + r
  {
    if k == 0 {
      OrZero(l);
    } else {
      var h := l * Pow2(k - 1);
      assert l * Pow2(k) == 2 * h;
      OrShifted(l, r / 2, k - 1);
    }
  }

  lemma {:induction false} OrZero(a: nat)
    ensures Or(a, 0) == a
  {
    if a != 0 { OrZero(a / 2); }
  }

  lemma {:induction false} OrBound(a: nat, b: nat, k: nat)
    requires a < Pow2(k) && b < Pow2(k)
    ensures a <= Or(a, b) < Pow2(k)
  {
    if k > 0 && (a != 0 || b != 0) { OrBound(a / 2, b / 2, k - 1); }
  }

  lemma {:induction false} OrOfZero(b: nat)
    ensures Or(0, b) == b
  {
    if b != 0 { OrOfZero(b / 2); }
  }

  lemma {:induction false} XorBound(a: nat, b: nat, k: nat)
    requires a < Pow2(k) && b < Pow2(k)
    ensures Xor(a, b) < Pow2(k)
  {
    if k > 0 && (a != 0 || b != 0) { XorBound(a / 2, b / 2, k - 1); }
  }

  /** XOR with a fixed word is injective. */
  lemma {:induction false} XorCancel(a: nat, b: nat, c: nat)
    requires Xor(a, c) == Xor(b, c)
    ensures a == b
    decreases a + b + c
  {
    if (a != 0 || b != 0 || c != 0) {
      assert Xor(a, c) == 2 * Xor(a / 2, c / 2) + (if a % 2 != c % 2 then 1 else 0);
      assert Xor(b, c) == 2 * Xor(b / 2, c / 2) + (if b % 2 != c % 2 then 1 else 0);
      XorCancel(a / 2, b / 2, c / 2);
    }
  }
}
