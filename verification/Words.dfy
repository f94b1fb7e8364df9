/** 64-bit machine words and the arithmetic every stage of the compiler agrees on.

    A word is its unsigned value; `Signed` is its two's-complement reading. Operations that trap or
    are undefined in the source language (division by zero, `INT_MIN / -1`, shift counts of 64 and
    more) have no value. */
module Words {
  import opened Wrappers

  const MODULUS: int := 0x1_0000_0000_0000_0000
  const HALF: int := 0x8000_0000_0000_0000

  type Word = x: int | 0 <= x < 0x1_0000_0000_0000_0000

  function Wrap(x: int): Word {
    x % 0x1_0000_0000_0000_0000
  }

  function Signed(w: Word): int {
    if w < HALF then w else w - MODULUS
  }

  function Abs(x: int): nat {
    if x < 0 then -x else x
  }

  /** Division that truncates towards zero. */
  function TruncDiv(a: int, b: int): int
    requires b != 0
  {
    if (a < 0) == (b < 0) then Abs(a) / Abs(b) else -(Abs(a) / Abs(b))
  }

  function TruncMod(a: int, b: int): int
    requires b != 0
  {
    if a < 0 then -(Abs(a) % Abs(b)) else Abs(a) % Abs(b)
  }

  function Pow2(n: nat): nat {
    if n == 0 then 1 else 2 * Pow2(n - 1)
  }

  predicate IsPowerOfTwo(n: nat) {
    n == 1 || (n > 0 && n % 2 == 0 && IsPowerOfTwo(n / 2))
  }

  datatype BitKind = BitAnd | BitOr | BitXor

  function OneBit(k: BitKind, x: nat, y: nat): nat
    requires x < 2 && y < 2
  {
    match k
    case BitAnd => if x == 1 && y == 1 then 1 else 0
    case BitOr => if x == 1 || y == 1 then 1 else 0
    case BitXor => if x != y then 1 else 0
  }

  /** The bitwise operation on the lowest `n` bits. */
  function Bits(k: BitKind, a: nat, b: nat, n: nat): (r: nat)
    ensures r < Pow2(n)
  {
    if n == 0 then 0 else OneBit(k, a % 2, b % 2) + 2 * Bits(k, a / 2, b / 2, n - 1)
  }

  lemma Pow2Of64()
    ensures Pow2(64) == MODULUS
  {
    assert Pow2(8) == 256;
    Pow2Add(8, 8);
    Pow2Add(16, 16);
    Pow2Add(32, 32);
  }

  lemma {:induction false} Pow2Add(a: nat, b: nat)
    ensures Pow2(a + b) == Pow2(a) * Pow2(b)
  {
    if a > 0 {
      Pow2Add(a - 1, b);
      assert Pow2(a) * Pow2(b) == 2 * (Pow2(a - 1) * Pow2(b));
    }
  }

  function BitWord(k: BitKind, a: Word, b: Word): Word {
    Pow2Of64();
    Bits(k, a, b, 64)
  }

  function Product(a: int, b: int): Word {
    Wrap(a * b)
  }

  datatype BinOp =
    | Add | Sub | Mul | Div | UDiv | Mod | UMod
    | And | Or | Xor | Shl | Shr | LShr
    | CmpEq | CmpNe | CmpLt | CmpLe | CmpGt | CmpGe
    | CmpUlt | CmpUle | CmpUgt | CmpUge

  datatype UnOp = Neg | Not | BitNot

  function Truth(b: bool): Word {
    if b then 1 else 0
  }

  predicate DivDefined(a: Word, b: Word) {
    b != 0 && !(a == HALF && b == MODULUS - 1)
  }

  function EvalBin(op: BinOp, a: Word, b: Word): Option<Word> {
    match op
    case Add => Some(Wrap(a + b))
    case Sub => Some(Wrap(a - b))
    case Mul => Some(Product(a, b))
    case Div => if DivDefined(a, b) then Some(Wrap(TruncDiv(Signed(a), Signed(b)))) else None
    case Mod => if DivDefined(a, b) then Some(Wrap(TruncMod(Signed(a), Signed(b)))) else None
    case UDiv => if b != 0 then Some(a / b) else None
    case UMod => if b != 0 then Some(a % b) else None
    case And => Some(BitWord(BitAnd, a, b))
    case Or => Some(BitWord(BitOr, a, b))
    case Xor => Some(BitWord(BitXor, a, b))
    case Shl => if b < 64 then Some(Product(a, Pow2(b))) else None
    case Shr => if b < 64 then Some(ArithShift(a, b)) else None
    case LShr => if b < 64 then Some(LogicShift(a, b)) else None
    case CmpEq => Some(Truth(a == b))
    case CmpNe => Some(Truth(a != b))
    case CmpLt => Some(Truth(Signed(a) < Signed(b)))
    case CmpLe => Some(Truth(Signed(a) <= Signed(b)))
    case CmpGt => Some(Truth(Signed(a) > Signed(b)))
    case CmpGe => Some(Truth(Signed(a) >= Signed(b)))
    case CmpUlt => Some(Truth(a < b))
    case CmpUle => Some(Truth(a <= b))
    case CmpUgt => Some(Truth(a > b))
    case CmpUge => Some(Truth(a >= b))
  }

  function ArithShift(a: Word, n: nat): Word {
    Pow2Positive(n);
    Wrap(Signed(a) / Pow2(n))
  }

  function LogicShift(a: Word, n: nat): Word {
    Pow2Positive(n);
    QuotientBound(a, Pow2(n));
    a / Pow2(n)
  }

  lemma {:induction false} Pow2Positive(n: nat)
    ensures Pow2(n) >= 1
  {
    if n > 0 {
      Pow2Positive(n - 1);
    }
  }

  lemma {:induction false} ProductNonNegative(x: nat, y: nat)
    ensures x * y >= 0
  {
    if x > 0 {
      ProductNonNegative(x - 1, y);
      assert x * y == (x - 1) * y + y;
    }
  }

  lemma QuotientBound(a: nat, d: nat)
    requires d >= 1
    ensures 0 <= a / d <= a
  {
    var q: nat := a / d;
    ProductNonNegative(q, d - 1);
    assert q * d == q * (d - 1) + q;
  }

  function EvalUn(op: UnOp, a: Word): Word {
    match op
    case Neg => Wrap(0 - a)
    case Not => Truth(a == 0)
    case BitNot => 0xFFFF_FFFF_FFFF_FFFF - a
  }

  predicate IsShift(op: BinOp) {
    op.Shl? || op.Shr? || op.LShr?
  }
}
