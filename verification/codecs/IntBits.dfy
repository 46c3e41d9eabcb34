/** Python's bit operations on unbounded integers, and what they do to each bit. */
module IntBits {
  import opened Binary

  /** Bit i of an integer in two's complement. */
  predicate Bit(n: int, i: nat)
    decreases i
  {
    if i == 0 then n % 2 == 1 else Bit(n / 2, i - 1)
  }

  function Xor(a: nat, b: nat): (r: nat)
    decreases a + b
  {
    if a == 0 && b == 0 then 0 else 2 * Xor(a / 2, b / 2) + (if a % 2 != b % 2 then 1 else 0)
  }

  function Or(a: nat, b: nat): (r: nat)
    decreases a + b
  {
    if a == 0 && b == 0 then 0 else 2 * Or(a / 2, b / 2) + (if a % 2 == 1 || b % 2 == 1 then 1 else 0)
  }

  function Not(a: int): int {
    -a - 1
  }

  function Shl(n: nat, k: nat): nat {
    n * Pow2(k)
  }

  function Shr(n: nat, k: nat): nat {
    if k == 0 then n else Shr(n / 2, k - 1)
  }

  lemma {:induction false} XorBit(a: nat, b: nat, i: nat)
    ensures Bit(Xor(a, b), i) == (Bit(a, i) != Bit(b, i))
    decreases i
  {
    assert Xor(a, b) / 2 == Xor(a / 2, b / 2);
    if i > 0 {
      XorBit(a / 2, b / 2, i - 1);
    }
  }

  lemma {:induction false} OrBit(a: nat, b: nat, i: nat)
    ensures Bit(Or(a, b), i) == (Bit(a, i) || Bit(b, i))
    decreases i
  {
    assert Or(a, b) / 2 == Or(a / 2, b / 2);
    if i > 0 {
      OrBit(a / 2, b / 2, i - 1);
    }
  }

  /** The first operand may be negative: in the chi step it is a complement. */
  lemma {:induction false} AndBit(a: int, b: nat, i: nat)
    ensures Bit(BitAnd(a, b), i) == (Bit(a, i) && Bit(b, i))
    decreases i
  {
    if a == 0 || b == 0 {
      ZeroBit(i);
    } else {
      assert BitAnd(a, b) / 2 == BitAnd(a / 2, b / 2);
      if i > 0 {
        AndBit(a / 2, b / 2, i - 1);
      }
    }
  }

  lemma {:induction false} AndBound(a: int, b: nat)
    ensures BitAnd(a, b) <= b
    decreases b
  {
    if a != 0 && b != 0 {
      AndBound(a / 2, b / 2);
    }
  }

  lemma {:induction false} ZeroBit(i: nat)
    ensures !Bit(0, i)
    decreases i
  {
    if i > 0 {
      ZeroBit(i - 1);
    }
  }

  lemma {:induction false} NotBit(a: int, i: nat)
    ensures Bit(Not(a), i) == !Bit(a, i)
    decreases i
  {
    if i > 0 {
      assert Not(a) / 2 == Not(a / 2);
      NotBit(a / 2, i - 1);
    }
  }

  lemma {:induction false} XorBound(a: nat, b: nat, k: nat)
    requires a < Pow2(k) && b < Pow2(k)
    ensures Xor(a, b) < Pow2(k)
  {
    if k > 0 {
      XorBound(a / 2, b / 2, k - 1);
    }
  }

  lemma {:induction false} OrBound(a: nat, b: nat, k: nat)
    requires a < Pow2(k) && b < Pow2(k)
    ensures Or(a, b) < Pow2(k)
  {
    if k > 0 {
      OrBound(a / 2, b / 2, k - 1);
    }
  }

  lemma {:induction false} ShlBit(n: nat, k: nat, i: nat)
    ensures Bit(Shl(n, k), i) == (i >= k && Bit(n, i - k))
    decreases i
  {
    if k > 0 {
      Doubled(n, k);
      if i > 0 {
        ShlBit(n, k - 1, i - 1);
      }
    }
  }

  lemma {:induction false} Doubled(n: nat, k: nat)
    requires k > 0
    ensures Shl(n, k) % 2 == 0 && Shl(n, k) / 2 == Shl(n, k - 1)
  {
    assert n * (2 * Pow2(k - 1)) == 2 * (n * Pow2(k - 1));
  }

  lemma {:induction false} ShrBit(n: nat, k: nat, i: nat)
    ensures Bit(Shr(n, k), i) == Bit(n, i + k)
    decreases k
  {
    if k > 0 {
      ShrBit(n / 2, k - 1, i);
    }
  }

  /** Above its length a number has no bits. */
  lemma {:induction false} HighBit(n: nat, k: nat, i: nat)
    requires n < Pow2(k) && i >= k
    ensures !Bit(n, i)
    decreases k
  {
    if k == 0 {
      ZeroBit(i);
    } else {
      HighBit(n / 2, k - 1, i - 1);
    }
  }

  lemma {:induction false} MaskBit(k: nat, i: nat)
    ensures Bit(Pow2(k) - 1, i) == (i < k)
    decreases i
  {
    if k == 0 {
      ZeroBit(i);
    } else {
      assert (Pow2(k) - 1) / 2 == Pow2(k - 1) - 1;
      if i > 0 {
        MaskBit(k - 1, i - 1);
      }
    }
  }

  /** Numbers with the same bits are the same. */
  lemma {:induction false} SameBits(a: nat, b: nat)
    requires forall i: nat :: Bit(a, i) == Bit(b, i)
    ensures a == b
    decreases a + b
  {
    assert Bit(a, 0) == Bit(b, 0);
    if a + b > 0 {
      forall i: nat
        ensures Bit(a / 2, i) == Bit(b / 2, i)
      {
        assert Bit(a, i + 1) == Bit(b, i + 1);
      }
      SameBits(a / 2, b / 2);
    }
  }

  /** A sum of a number and a higher power of two sets one bit. */
  lemma {:induction false} PlusPower(n: nat, k: nat, i: nat)
    requires n < Pow2(k)
    ensures Bit(n + Pow2(k), i) == (i == k || Bit(n, i))
    decreases k
  {
    if k == 0 {
      assert n == 0;
      if i > 0 {
        ZeroBit(i - 1);
        ZeroBit(i);
      }
    } else {
      assert (n + Pow2(k)) / 2 == n / 2 + Pow2(k - 1);
      if i > 0 {
        PlusPower(n / 2, k - 1, i - 1);
      }
    }
  }
}
