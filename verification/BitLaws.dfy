/** Laws of the bitwise operations that the rewriting passes and the hash table rely on. */
module BitLaws {
  import opened Words

  lemma {:induction false} AndZero(a: nat, n: nat)
    ensures Bits(BitAnd, a, 0, n) == 0
  {
    if n > 0 { AndZero(a / 2, n - 1); }
  }

  lemma {:induction false} AndOnes(a: nat, n: nat)
    requires a < Pow2(n)
    ensures Bits(BitAnd, a, Pow2(n) - 1, n) == a
  {
    if n > 0 {
      assert (Pow2(n) - 1) % 2 == 1 && (Pow2(n) - 1) / 2 == Pow2(n - 1) - 1;
      AndOnes(a / 2, n - 1);
    }
  }

  /** Or and exclusive or with zero change nothing. */
  lemma {:induction false} OrZero(k: BitKind, a: nat, n: nat)
    requires a < Pow2(n) && !k.BitAnd?
    ensures Bits(k, a, 0, n) == a
  {
    if n > 0 { OrZero(k, a / 2, n - 1); }
  }

  lemma {:induction false} OrOnes(a: nat, n: nat)
    ensures Pow2(n) >= 1 && Bits(BitOr, a, Pow2(n) - 1, n) == Pow2(n) - 1
  {
    Pow2Positive(n);
    if n > 0 {
      assert (Pow2(n) - 1) % 2 == 1 && (Pow2(n) - 1) / 2 == Pow2(n - 1) - 1;
      OrOnes(a / 2, n - 1);
    }
  }

  lemma {:induction false} XorSelf(a: nat, n: nat)
    ensures Bits(BitXor, a, a, n) == 0
  {
    if n > 0 { XorSelf(a / 2, n - 1); }
  }

  lemma {:induction false} AndSelf(a: nat, n: nat)
    requires a < Pow2(n)
    ensures Bits(BitAnd, a, a, n) == a
  {
    if n > 0 { AndSelf(a / 2, n - 1); }
  }

  lemma {:induction false} BitsCommute(k: BitKind, a: nat, b: nat, n: nat)
    ensures Bits(k, a, b, n) == Bits(k, b, a, n)
  {
    if n > 0 { BitsCommute(k, a / 2, b / 2, n - 1); }
  }

  /** How often a number can be halved before it is at most one. */
  function Log2(v: nat): nat {
    if v <= 1 then 0 else 1 + Log2(v / 2)
  }

  lemma {:induction false} Log2Bound(v: nat, n: nat)
    requires v < Pow2(n) && n > 0
    ensures Log2(v) < n
  {
    if v > 1 { Log2Bound(v / 2, n - 1); }
  }

  /** Clearing the lowest set bit leaves nothing exactly for the powers of two. */
  lemma {:induction false} SingleBit(v: nat, n: nat)
    requires 0 < v < Pow2(n)
    ensures Bits(BitAnd, v, v - 1, n) == 0 <==> v == Pow2(Log2(v))
  {
    if v % 2 == 1 {
      assert (v - 1) / 2 == v / 2 && (v - 1) % 2 == 0;
      AndSelf(v / 2, n - 1);
      if v > 1 { assert Pow2(Log2(v)) == 2 * Pow2(Log2(v / 2)); }
    } else {
      assert (v - 1) / 2 == v / 2 - 1;
      SingleBit(v / 2, n - 1);
    }
  }
}
