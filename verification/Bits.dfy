/** Unsigned machine arithmetic on unbounded naturals: powers of two and the
    bitwise operators of C, defined bit by bit so that laws about them are
    inductions rather than bit-vector queries. */
module Bits {
  newtype uint32 = x: int | 0 <= x < 0x1_0000_0000

  const WORD: nat := 0x1_0000_0000

  function Pow2(k: nat): (p: nat)
    ensures p >= 1
  {
    if k == 0 then 1 else 2 * Pow2(k - 1)
  }

  /** The C operator ^ on unsigned operands. */
  function Xor(a: nat, b: nat): nat
    decreases a + b
  {
    if a == 0 && b == 0 then 0 else 2 * Xor(a / 2, b / 2) + (if a % 2 == b % 2 then 0 else 1)
  }

  /** The C operator & on unsigned operands. */
  function And(a: nat, b: nat): nat
    decreases a
  {
    if a == 0 then 0 else 2 * And(a / 2, b / 2) + (a % 2) * (b % 2)
  }

  /** Masking with 2^k - 1 keeps the remainder modulo 2^k. */
  lemma {:induction false} MaskIsMod(a: nat, k: nat)
    ensures And(a, Pow2(k) - 1) == a % Pow2(k)
    decreases k
  {
    hide And;
    if k == 0 {
      AndZero(a);
    } else {
      var p := Pow2(k - 1);
      MaskIsMod(a / 2, k - 1);
      AndOdd(a, p - 1);
      ModDouble(a, p);
    }
  }

  lemma {:induction false} AndOdd(a: nat, q: nat)
    ensures And(a, 2 * q + 1) == 2 * And(a / 2, q) + a % 2
  {
    assert (2 * q + 1) / 2 == q && (2 * q + 1) % 2 == 1;
  }

  lemma {:induction false} AndZero(a: nat)
    ensures And(a, 0) == 0
    decreases a
  {
    if a != 0 { AndZero(a / 2); }
  }

  lemma {:induction false} ModDouble(a: nat, p: nat)
    requires p >= 1
    ensures a % (2 * p) == 2 * (a / 2 % p) + a % 2
  {
    var q, r := a / 2 / p, a / 2 % p;
    assert a / 2 == p * q + r;
    assert a == (2 * p) * q + (2 * r + a % 2);
    DivModUnique(a, 2 * p, q, 2 * r + a % 2);
  }

  lemma {:induction false} DivModUnique(a: nat, d: nat, q: nat, r: nat)
    requires d > 0 && r < d && a == d * q + r
    ensures a / d == q && a % d == r
  {
    var q', r' := a / d, a % d;
    assert d * q' + r' == d * q + r;
    MulDiff(d, q, q');
  }

  lemma {:induction false} MulDiff(d: nat, q: nat, q': nat)
    ensures q < q' ==> d * q' >= d * q + d
    ensures q' < q ==> d * q >= d * q' + d
  {
    if q < q' {
      MulGrow(d, q, q' - q - 1);
    } else if q' < q {
      MulGrow(d, q', q - q' - 1);
    }
  }

  lemma {:induction false} MulGrow(d: nat, q: nat, k: nat)
    ensures d * (q + 1 + k) >= d * q + d
  {
    assert d * (q + 1 + k) == d * q + d + d * k;
  }

  lemma {:induction false} Pow2Add(j: nat, k: nat)
    ensures Pow2(j + k) == Pow2(j) * Pow2(k)
  {
    if k > 0 {
      Pow2Add(j, k - 1);
      assert j + k - 1 == j + (k - 1);
    }
  }

  lemma {:induction false} XorZero(a: nat)
    ensures Xor(a, 0) == a && Xor(0, a) == a
    decreases a
  {
    if a != 0 { XorZero(a / 2); }
  }

  lemma {:induction false} XorSelf(a: nat)
    ensures Xor(a, a) == 0
    decreases a
  {
    if a != 0 { XorSelf(a / 2); }
  }

  lemma {:induction false} XorComm(a: nat, b: nat)
    ensures Xor(a, b) == Xor(b, a)
    decreases a + b
  {
    if a + b != 0 { XorComm(a / 2, b / 2); }
  }

  lemma {:induction false} XorAssoc(a: nat, b: nat, c: nat)
    ensures Xor(Xor(a, b), c) == Xor(a, Xor(b, c))
    decreases a + b + c
  {
    if a + b + c != 0 {
      XorAssoc(a / 2, b / 2, c / 2);
      XorBits(a, b); XorBits(b, c);
      var x, y := Xor(a, b), Xor(b, c);
      SameBits(Xor(x, c), Xor(a, y)) by {
        XorBits(x, c); XorBits(a, y);
      }
    }
  }

  lemma SameBits(x: nat, y: nat)
    requires x / 2 == y / 2 && x % 2 == y % 2
    ensures x == y
  {
  }

  lemma {:induction false} XorBits(a: nat, b: nat)
    ensures Xor(a, b) / 2 == Xor(a / 2, b / 2)
    ensures Xor(a, b) % 2 == (if a % 2 == b % 2 then 0 else 1)
  {
  }

  /** Bit k, counted from the lowest one. */
  function Bit(a: nat, k: nat): nat {
    if k == 0 then a % 2 else Bit(a / 2, k - 1)
  }

  /** Every bit of a sum is the sum of the bits. */
  lemma {:induction false} XorBitAt(a: nat, b: nat, k: nat)
    ensures Bit(Xor(a, b), k) == (Bit(a, k) + Bit(b, k)) % 2
    decreases k
  {
    hide Xor;
    XorBits(a, b);
    if k > 0 { XorBitAt(a / 2, b / 2, k - 1); }
  }

  /** Adding the same mask twice is no change: the law behind every XOR cipher. */
  lemma {:induction false} XorCancel(a: nat, b: nat)
    ensures Xor(Xor(a, b), b) == a
  {
    XorAssoc(a, b, b); XorSelf(b); XorZero(a);
  }

  lemma {:induction false} XorBound(a: nat, b: nat, k: nat)
    requires a < Pow2(k) && b < Pow2(k)
    ensures Xor(a, b) < Pow2(k)
    decreases k
  {
    if k > 0 { XorBound(a / 2, b / 2, k - 1); }
  }

  lemma {:induction false} XorIsZero(a: nat, b: nat)
    ensures Xor(a, b) == 0 <==> a == b
    decreases a + b
  {
    if a + b != 0 { XorIsZero(a / 2, b / 2); }
  }

  /** The C operator << without a width. */
  function Shl(v: nat, k: nat): (r: nat)
    ensures r % 2 == 0 || k == 0
  {
    if k == 0 then v else 2 * Shl(v, k - 1)
  }

  lemma {:induction false} ShlByte(v: nat)
    ensures Shl(v, 8) == 256 * v
  {
    assert Shl(v, 1) == 2 * v && Shl(v, 2) == 4 * v;
    assert Shl(v, 3) == 8 * v && Shl(v, 4) == 16 * v;
    assert Shl(v, 5) == 32 * v && Shl(v, 6) == 64 * v;
    assert Shl(v, 7) == 128 * v;
  }

  /** Numbers with no common bits add without carries. */
  lemma {:induction false} XorShifted(a: nat, v: nat, k: nat)
    requires a < Pow2(k)
    ensures Xor(a, Shl(v, k)) == a + Shl(v, k)
    decreases k
  {
    if k == 0 {
      XorZero(v);
    } else {
      XorShifted(a / 2, v, k - 1);
      XorBits(a, Shl(v, k));
    }
  }

  /** The C operator >> on an unsigned operand. */
  function Shr(a: nat, k: nat): nat {
    if k == 0 then a else Shr(a / 2, k - 1)
  }

  lemma {:induction false} ShrIsDiv(a: nat, k: nat)
    ensures Shr(a, k) == a / Pow2(k)
    decreases k
  {
    if k > 0 {
      ShrIsDiv(a / 2, k - 1);
      DivDouble(a, Pow2(k - 1));
    }
  }

  /** Xor acts on the bits above position k ... */
  lemma {:induction false} XorHigh(a: nat, b: nat, k: nat)
    ensures Shr(Xor(a, b), k) == Xor(Shr(a, k), Shr(b, k))
    decreases k
  {
    if k > 0 {
      XorHigh(a / 2, b / 2, k - 1);
      XorBits(a, b);
    }
  }

  /** ... and on the low k bits independently. */
  lemma {:induction false} XorLow(a: nat, b: nat, k: nat)
    ensures Xor(a, b) % Pow2(k) == Xor(a % Pow2(k), b % Pow2(k))
    decreases k
  {
    if k > 0 {
      var p := Pow2(k - 1);
      XorLow(a / 2, b / 2, k - 1);
      XorBits(a, b);
      var a', b' := a % (2 * p), b % (2 * p);
      assert a' / 2 == a / 2 % p && a' % 2 == a % 2 by { ModDouble(a, p); Halves(a / 2 % p, a % 2); }
      assert b' / 2 == b / 2 % p && b' % 2 == b % 2 by { ModDouble(b, p); Halves(b / 2 % p, b % 2); }
      XorBits(a', b');
      ModDouble(Xor(a, b), p);
    }
  }

  lemma {:induction false} Halves(h: nat, l: nat)
    requires l < 2
    ensures (2 * h + l) / 2 == h && (2 * h + l) % 2 == l
  {
  }

  lemma {:induction false} DivDouble(a: nat, p: nat)
    requires p >= 1
    ensures a / (2 * p) == a / 2 / p
  {
    var q, r := a / 2 / p, a / 2 % p;
    assert a == (2 * p) * q + (2 * r + a % 2);
    DivModUnique(a, 2 * p, q, 2 * r + a % 2);
  }

  lemma {:induction false} OddOdd(u: nat, v: nat)
    ensures Xor(2 * u + 1, 2 * v + 1) == 2 * Xor(u, v)
  {
    hide Xor;
    XorBits(2 * u + 1, 2 * v + 1);
  }

  /** Adding as many ones as stand at the end takes them away. */
  lemma {:induction false} LowOnes(a: nat, n: nat)
    ensures Xor(a * Pow2(n) + (Pow2(n) - 1), Pow2(n) - 1) == a * Pow2(n)
  {
    hide Xor;
    if n == 0 {
      XorZero(a);
    } else {
      LowOnes(a, n - 1);
      var p := Pow2(n - 1);
      OddOdd(a * p + (p - 1), p - 1);
      assert a * Pow2(n) == 2 * (a * p);
    }
  }
}
