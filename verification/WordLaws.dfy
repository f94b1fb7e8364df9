/** What the word operations are, apart from how they are computed. */
module WordLaws {
  import opened Wrappers
  import opened Words

  /** The signed reading is the one number in the two's complement range that wraps to the word. */
  lemma SignedIs(w: Word, x: int)
    requires -0x8000_0000_0000_0000 <= x < 0x8000_0000_0000_0000
    ensures Signed(w) == x <==> Wrap(x) == w
  {
  }

  /** Each unsigned comparison by the strict one. */
  lemma Comparisons(a: Word, b: Word)
    ensures EvalBin(CmpEq, a, b) == Some(if a == b then 1 else 0)
    ensures EvalBin(CmpNe, a, b) == Some(if a == b then 0 else 1)
    ensures EvalBin(CmpUlt, a, b) == EvalBin(CmpUgt, b, a) == Some(if a < b then 1 else 0)
    ensures EvalBin(CmpUle, a, b) == EvalBin(CmpUge, b, a) == Some(if b < a then 0 else 1)
  {
    hide TruncDiv, TruncMod, DivDefined, BitWord, Product, ArithShift, LogicShift, Pow2, Wrap, Signed;
  }

  /** Signed ones compare words of one sign as unsigned, and otherwise say which is negative. */
  lemma SignedComparisons(a: Word, b: Word)
    ensures EvalBin(CmpLt, a, b) == EvalBin(CmpGt, b, a)
         == if (a < 0x8000_0000_0000_0000) == (b < 0x8000_0000_0000_0000) then EvalBin(CmpUlt, a, b)
            else EvalBin(CmpUgt, a, b)
    ensures EvalBin(CmpLe, a, b) == EvalBin(CmpGe, b, a)
         == if a == b then Some(1) else EvalBin(CmpLt, a, b)
  {
    hide TruncDiv, TruncMod, DivDefined, BitWord, Product, ArithShift, LogicShift, Pow2, Wrap;
  }

  /** Logical shifts multiply and divide by powers of two, as long as the count is below the width of a word. */
  lemma Shifts(a: Word, n: Word)
    ensures n < 64 ==> EvalBin(Shl, a, n) == Some(a * Pow2(n) % 0x1_0000_0000_0000_0000)
    ensures n < 64 ==> Pow2(n) > 0 && EvalBin(LShr, a, n) == Some(a / Pow2(n))
    ensures n >= 64 ==> EvalBin(Shl, a, n) == EvalBin(Shr, a, n) == EvalBin(LShr, a, n) == None
  {
    hide TruncDiv, TruncMod, DivDefined, BitWord, ArithShift, Pow2, Signed, Truth;
    Pow2Positive(n);
    if n < 64 { QuotientBound(a, Pow2(n)); }
  }

  lemma DivMod(a: nat, b: nat)
    requires b > 0
    ensures a == b * (a / b) + a % b && a % b < b
  {
  }

  /** Quotient and remainder of division towards zero: the remainder is smaller than the divisor and has the sign of the
      dividend. */
  lemma TruncatedDivision(a: int, b: int)
    requires b != 0
    ensures a == b * TruncDiv(a, b) + TruncMod(a, b) && Abs(TruncMod(a, b)) < Abs(b)
    ensures TruncMod(a, b) != 0 ==> (TruncMod(a, b) < 0 <==> a < 0)
  {
    var q := Abs(a) / Abs(b);
    DivMod(Abs(a), Abs(b));
    assert b * q == if b < 0 then -(Abs(b) * q) else Abs(b) * q;
    assert b * -q == -(b * q);
  }

  /** Negation and complement add up to zero and to all ones. */
  lemma Complements(a: Word)
    ensures Wrap(a + EvalUn(Neg, a)) == 0 && a + EvalUn(BitNot, a) == 0xFFFF_FFFF_FFFF_FFFF
  {
  }

  /** An arithmetic shift to the right divides the signed reading, rounding down. */
  lemma ArithShiftDivides(a: Word, n: nat)
    ensures Pow2(n) > 0 && Signed(ArithShift(a, n)) == Signed(a) / Pow2(n)
  {
    Pow2Positive(n);
    var s, d := Signed(a), Pow2(n);
    if s >= 0 { QuotientBound(s, d); } else { FloorBound(s, d); }
  }

  lemma FloorBound(s: int, d: nat)
    requires s < 0 && d >= 1
    ensures s <= s / d < 0
  {
    var q := s / d;
    assert d * q <= s < d * q + d;
    if q >= 0 {
      ProductNonNegative(d, q);
    } else if q < s {
      ProductNonNegative(d - 1, -q - 1);
    }
  }

  /** Each bit of the result is the operation on the bits. */
  lemma {:induction false} BitOfBits(k: BitKind, a: nat, b: nat, n: nat, i: nat)
    requires i < n
    ensures Pow2(i) > 0
    ensures Bits(k, a, b, n) / Pow2(i) % 2 == OneBit(k, a / Pow2(i) % 2, b / Pow2(i) % 2)
    decreases n
  {
    Pow2Positive(i);
    var r := Bits(k, a, b, n);
    if i > 0 {
      Pow2Positive(i - 1);
      BitOfBits(k, a / 2, b / 2, n - 1, i - 1);
      Halved(r, Pow2(i - 1));
      Halved(a, Pow2(i - 1));
      Halved(b, Pow2(i - 1));
      assert r / 2 == Bits(k, a / 2, b / 2, n - 1);
    }
  }

  lemma Halved(x: nat, d: nat)
    requires d > 0
    ensures x / (2 * d) == x / 2 / d
  {
    var q, r := x / 2 / d, x / 2 % d;
    DivMod(x, 2);
    DivMod(x / 2, d);
    assert x == 2 * (d * q + r) + x % 2 == (2 * d) * q + (2 * r + x % 2);
    assert 0 <= 2 * r + x % 2 < 2 * d;
    QuotientUnique(x, 2 * d, q, 2 * r + x % 2);
  }

  lemma QuotientUnique(x: nat, d: nat, q: nat, r: nat)
    requires d > 0 && x == d * q + r && r < d
    ensures x / d == q
  {
    var p := x / d;
    DivMod(x, d);
    if p < q {
      ProductNonNegative(d, q - p - 1);
    } else if p > q {
      ProductNonNegative(d, p - q - 1);
    }
  }

  /** One bit of each operation. */
  lemma OneBitTable(x: nat, y: nat)
    requires x < 2 && y < 2
    ensures OneBit(BitAnd, x, y) == x * y && OneBit(BitOr, x, y) == x + y - x * y && OneBit(BitXor, x, y) == (x + y) % 2
  {
  }
}
