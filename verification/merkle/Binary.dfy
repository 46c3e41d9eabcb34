/** The binary arithmetic behind the tree shape: bit lengths, the split point and `m & (m - 1)`. */
module Binary {

  function Pow2(e: nat): (p: nat)
    ensures p >= 1
  {
    if e == 0 then 1 else 2 * Pow2(e - 1)
  }

  /** Python's int.bit_length. */
  function BitLength(n: nat): nat {
    if n == 0 then 0 else 1 + BitLength(n / 2)
  }

  predicate IsPow2(n: nat) {
    n == 1 || (n > 1 && n % 2 == 0 && IsPow2(n / 2))
  }

  /** Bitwise conjunction of two integers of any width, the second not negative. */
  function BitAnd(a: int, b: nat): nat
    decreases b
  {
    if a == 0 || b == 0 then 0 else 2 * BitAnd(a / 2, b / 2) + if a % 2 == 1 && b % 2 == 1 then 1 else 0
  }

  /** The largest power of two strictly below n, by halving. */
  function Split(n: nat): (k: nat)
    requires n > 1
    ensures 1 <= k < n <= 2 * k
  {
    if n == 2 then 1 else 2 * Split((n + 1) / 2)
  }

  /** The split index as the proof generator computes it: 1 << ((n - 1).bit_length() - 1). */
  function SplitByBitLength(n: nat): nat
    requires n > 1
  {
    Pow2(BitLength(n - 1) - 1)
  }

  lemma {:induction false} BitLengthBrackets(n: nat)
    requires n > 0
    ensures Pow2(BitLength(n) - 1) <= n < Pow2(BitLength(n))
  {
    if n > 1 {
      BitLengthBrackets(n / 2);
    }
  }

  lemma BitLengthHalves(n: nat)
    requires n > 0
    ensures BitLength(n) == 1 + BitLength(n / 2)
    ensures Pow2(BitLength(n)) == 2 * Pow2(BitLength(n / 2))
  {
  }

  /** The generator's shift yields the split point of section 2.1 of RFC 6962: the largest power of two below n. */
  lemma {:induction false} SplitByBitLengthIsSplit(n: nat)
    requires n > 1
    ensures SplitByBitLength(n) == Split(n)
    ensures IsPow2(Split(n)) && Split(n) < n <= 2 * Split(n)
  {
    hide BitLength, Pow2;
    BitLengthHalves(n - 1);
    if n > 2 {
      var m := (n + 1) / 2;
      assert (n - 1) / 2 == m - 1;
      SplitByBitLengthIsSplit(m);
      BitLengthHalves(m - 1);
    } else {
      SplitOfTwo();
    }
  }

  lemma SplitOfTwo()
    ensures SplitByBitLength(2) == 1 == Split(2)
  {
    assert BitLength(1) == 1 + BitLength(0);
  }

  lemma EvenShift(i: nat, j: nat)
    requires 2 * j <= i
    ensures (i - 2 * j) / 2 == i / 2 - j && (i - 2 * j) % 2 == i % 2
  {
  }

  lemma {:induction false} BitAndIdempotent(a: nat)
    ensures BitAnd(a, a) == a
  {
    if a > 0 {
      BitAndIdempotent(a / 2);
    }
  }

  /** The verifier's test `(m & (m - 1)) == 0` recognises exactly the powers of two. */
  lemma {:induction false} BitAndRecognisesPow2(m: nat)
    requires m > 0
    ensures BitAnd(m, m - 1) == 0 <==> IsPow2(m)
  {
    var q := m / 2;
    if m > 1 {
      if m % 2 == 1 {
        assert (m - 1) / 2 == q;
        BitAndIdempotent(q);
      } else {
        assert (m - 1) / 2 == q - 1;
        BitAndRecognisesPow2(q);
      }
    }
  }

  lemma {:induction false} PowersMultiply(a: nat, b: nat)
    ensures Pow2(a + b) == Pow2(a) * Pow2(b)
  {
    if a > 0 {
      PowersMultiply(a - 1, b);
      assert 2 * (Pow2(a - 1) * Pow2(b)) == 2 * Pow2(a - 1) * Pow2(b);
    }
  }
}
