/** Bitwise operations and powers of two on natural numbers. */
module Words {
  type Byte = x: int | 0 <= x < 256

  /** Bit by bit from the low end. */
  function Xor(x: nat, y: nat): nat
    decreases x + y
  {
    if x == 0 && y == 0 then 0 else 2 * Xor(x / 2, y / 2) + if x % 2 == y % 2 then 0 else 1
  }

  lemma XorParts(x: nat, y: nat)
    ensures Xor(x, y) / 2 == Xor(x / 2, y / 2)
    ensures Xor(x, y) % 2 == if x % 2 == y % 2 then 0 else 1
  {
  }

  lemma {:induction false} XorRegroups(x: nat, y: nat, a: nat, b: nat)
    ensures Xor(Xor(x, y), Xor(a, b)) == Xor(Xor(x, a), Xor(y, b))
    decreases x + y + a + b
  {
    if x + y + a + b > 0 {
      XorRegroups(x / 2, y / 2, a / 2, b / 2);
      XorParts(x, y);
      XorParts(a, b);
      XorParts(x, a);
      XorParts(y, b);
      XorParts(Xor(x, y), Xor(a, b));
      XorParts(Xor(x, a), Xor(y, b));
    }
  }

  lemma {:induction false} XorZero(x: nat)
    ensures Xor(x, 0) == x && Xor(0, x) == x
  {
    if x > 0 {
      XorZero(x / 2);
    }
  }

  lemma {:induction false} XorSelf(x: nat)
    ensures Xor(x, x) == 0
  {
    if x > 0 {
      XorSelf(x / 2);
    }
  }

  lemma XorSwaps(x: nat, y: nat, z: nat)
    ensures Xor(Xor(x, y), z) == Xor(Xor(x, z), y)
  {
    XorRegroups(x, y, z, 0);
    XorZero(z);
    XorZero(y);
  }

  function Or(x: nat, y: nat): nat
    decreases x + y
  {
    if x == 0 && y == 0 then 0 else 2 * Or(x / 2, y / 2) + if x % 2 == 0 && y % 2 == 0 then 0 else 1
  }

  lemma {:induction false} OrZero(x: nat)
    ensures Or(x, 0) == x && Or(0, x) == x
  {
    if x > 0 {
      OrZero(x / 2);
    }
  }

  /** A low bit joins a word that is even. */
  lemma OrAbove(high: nat, low: nat)
    ensures Or(2 * high, low) == 2 * Or(high, low / 2) + low % 2
  {
  }

  function Pow2(k: nat): (p: nat)
    ensures p > 0
  {
    if k == 0 then 1 else 2 * Pow2(k - 1)
  }

  lemma {:induction false} XorBelow(x: nat, y: nat, k: nat)
    requires x < Pow2(k) && y < Pow2(k)
    ensures Xor(x, y) < Pow2(k)
    decreases k
  {
    if k > 0 {
      HalfBelow(x, Pow2(k - 1));
      HalfBelow(y, Pow2(k - 1));
      XorBelow(x / 2, y / 2, k - 1);
      XorFromHalves(x, y);
    }
  }

  lemma XorFromHalves(x: nat, y: nat)
    ensures 2 * Xor(x / 2, y / 2) <= Xor(x, y) <= 2 * Xor(x / 2, y / 2) + 1
  {
  }

  lemma HalfBelow(x: nat, m: nat)
    requires x < 2 * m
    ensures x / 2 < m
  {
  }

  lemma PowersOfTwo()
    ensures Pow2(8) == 0x100 && Pow2(15) == 0x8000 && Pow2(16) == 0x1_0000
  {
    assert Pow2(4) == 0x10 && Pow2(6) == 0x40 && Pow2(10) == 0x400 && Pow2(12) == 0x1000 && Pow2(14) == 0x4000;
  }

  lemma XorInRange(x: nat, y: nat)
    requires x < 0x1_0000 && y < 0x1_0000
    ensures Xor(x, y) < 0x1_0000
  {
    PowersOfTwo();
    XorBelow(x, y, 16);
  }

  lemma {:induction false} TopBit(x: nat, y: nat, k: nat)
    requires x < Pow2(k) <= y
    ensures Xor(x, y) >= Pow2(k)
  {
    if k > 0 {
      TopBit(x / 2, y / 2, k - 1);
      XorParts(x, y);
    } else {
      XorZero(y);
    }
  }

  lemma {:induction false} Pow2Grows(a: nat, b: nat)
    requires a <= b
    ensures Pow2(a) <= Pow2(b)
  {
    if a < b {
      Pow2Grows(a, b - 1);
    }
  }

  function Doubled(h: nat, n: nat): nat
    decreases n
  {
    if n == 0 then h else 2 * Doubled(h, n - 1)
  }

  lemma DoubledHalf(h: nat, l: nat, n: nat)
    requires n > 0
    ensures (Doubled(h, n) + l) % 2 == l % 2 && (Doubled(h, n) + l) / 2 == Doubled(h, n - 1) + l / 2
  {
  }

  lemma DoubledEight(h: nat)
    ensures Doubled(h, 8) == 256 * h
  {
    assert Doubled(h, 1) == 2 * h;
    assert Doubled(h, 3) == 4 * Doubled(h, 1);
    assert Doubled(h, 5) == 4 * Doubled(h, 3);
    assert Doubled(h, 7) == 4 * Doubled(h, 5);
  }

  // ----- Single bits -----

  predicate Bit(x: nat, k: nat) { if k == 0 then x % 2 == 1 else Bit(x / 2, k - 1) }

  lemma {:induction false} BitOr(x: nat, y: nat, k: nat)
    ensures Bit(Or(x, y), k) <==> Bit(x, k) || Bit(y, k)
  {
    if k > 0 {
      BitOr(x / 2, y / 2, k - 1);
      OrParts(x, y);
    }
  }

  lemma OrParts(x: nat, y: nat)
    ensures Or(x, y) / 2 == Or(x / 2, y / 2)
    ensures Or(x, y) % 2 == if x % 2 == 0 && y % 2 == 0 then 0 else 1
  {
  }

  lemma {:induction false} BitOfZero(k: nat)
    ensures !Bit(0, k)
  {
    if k > 0 {
      BitOfZero(k - 1);
    }
  }

  lemma {:induction false} BitPow2(j: nat, k: nat)
    ensures Bit(Pow2(j), k) <==> j == k
  {
    if j > 0 && k > 0 {
      BitPow2(j - 1, k - 1);
    } else if k > 0 {
      BitOfZero(k - 1);
    }
  }

  /** Words of n bits with the same bits are the same. */
  lemma {:induction false} BitsDecide(x: nat, y: nat, n: nat)
    requires x < Pow2(n) && y < Pow2(n)
    requires forall k :: 0 <= k < n ==> (Bit(x, k) <==> Bit(y, k))
    ensures x == y
    decreases n
  {
    if n > 0 {
      HalfBelow(x, Pow2(n - 1));
      HalfBelow(y, Pow2(n - 1));
      forall k | 0 <= k < n - 1 ensures Bit(x / 2, k) <==> Bit(y / 2, k) {
        assert Bit(x, k + 1) <==> Bit(y, k + 1);
      }
      BitsDecide(x / 2, y / 2, n - 1);
      assert Bit(x, 0) <==> Bit(y, 0);
    }
  }

  lemma {:induction false} OrBelow(x: nat, y: nat, n: nat)
    requires x < Pow2(n) && y < Pow2(n)
    ensures Or(x, y) < Pow2(n)
    decreases n
  {
    if n > 0 {
      HalfBelow(x, Pow2(n - 1));
      HalfBelow(y, Pow2(n - 1));
      OrBelow(x / 2, y / 2, n - 1);
      OrParts(x, y);
      TwiceBelow(Or(x, y), Pow2(n - 1));
    }
  }

  lemma TwiceBelow(x: nat, m: nat)
    requires x / 2 < m
    ensures x < 2 * m
  {
  }

  lemma {:induction false} Pow2Above(j: nat, n: nat)
    requires j < n
    ensures Pow2(j) < Pow2(n)
  {
    if j < n - 1 {
      Pow2Above(j, n - 1);
    }
  }

  /** A word above n bits and n bits below it. */
  lemma {:induction false} BitSplit(high: nat, low: nat, n: nat, k: nat)
    requires low < Pow2(n)
    ensures Bit(high * Pow2(n) + low, k) <==> if k < n then Bit(low, k) else Bit(high, k - n)
    decreases n
  {
    if n > 0 {
      HalfBelow(low, Pow2(n - 1));
      Regrouped(high, low, Pow2(n - 1));
      if k > 0 {
        BitSplit(high, low / 2, n - 1, k - 1);
      }
    }
  }

  lemma Regrouped(high: nat, low: nat, m: nat)
    ensures (high * (2 * m) + low) / 2 == high * m + low / 2
    ensures (high * (2 * m) + low) % 2 == low % 2
  {
    assert high * (2 * m) == 2 * (high * m);
  }

  lemma {:induction false} Pow2Adds(a: nat, b: nat)
    ensures Pow2(a + b) == Pow2(a) * Pow2(b)
  {
    if a > 0 {
      Pow2Adds(a - 1, b);
      assert Pow2(a) * Pow2(b) == 2 * (Pow2(a - 1) * Pow2(b));
    }
  }
}
