/** The code the encoder chooses for a value instruction computes that value in the home of its
    destination and disturbs nothing but the two scratch registers. */
module TwoOperand {
  import opened Wrappers
  import opened Words
  import opened MachineIR
  import opened LinearScan
  import opened X86
  import opened EncoderSpec

  /** Everything except `d` and the scratch registers is as before. */
  ghost predicate OnlyChanges(before: Core, after: Core, d: Reg) {
    && after.stack == before.stack
    && forall r: Reg :: r != d && r != RAX && r != RDX ==> after.regs[r] == before.regs[r]
  }

  ghost predicate Computes(code: seq<Ins>, c: Core, d: Reg, w: Word) {
    var r := ExecSeq(code, c);
    r.Some? && r.value.regs[d] == w && OnlyChanges(c, r.value, d)
  }

  predicate IsHome(r: Reg) {
    r != RAX && r != RDX && r != RSP
  }

  // ---- Running short sequences ----

  lemma ExecOne(i: Ins, c: Core)
    ensures ExecSeq([i], c) == ExecPlain(i, c)
  {
    assert [i] == [i] + [];
    ExecCons(i, [], c);
  }

  lemma ExecThree(i: Ins, j: Ins, k: Ins, c: Core)
    requires ExecPlain(i, c).Some? && ExecPlain(j, ExecPlain(i, c).value).Some?
    ensures ExecSeq([i, j, k], c) == ExecPlain(k, ExecPlain(j, ExecPlain(i, c).value).value)
  {
    assert [i, j, k] == [i] + ([j] + [k]);
    var c1 := ExecPlain(i, c).value;
    ExecCons(i, [j] + [k], c);
    ExecCons(j, [k], c1);
    ExecOne(k, ExecPlain(j, c1).value);
  }

  lemma ExecFour(i: Ins, j: Ins, k: Ins, l: Ins, c: Core)
    requires ExecPlain(i, c).Some? && ExecPlain(j, ExecPlain(i, c).value).Some?
    requires ExecPlain(k, ExecPlain(j, ExecPlain(i, c).value).value).Some?
    ensures ExecSeq([i, j, k, l], c)
         == ExecPlain(l, ExecPlain(k, ExecPlain(j, ExecPlain(i, c).value).value).value)
  {
    assert [i, j, k, l] == [i] + [j, k, l];
    ExecCons(i, [j, k, l], c);
    ExecThree(j, k, l, ExecPlain(i, c).value);
  }

  lemma ExecCopyThen(d: Reg, x: Reg, i: Ins, c: Core)
    requires IsHome(d) && IsHome(x)
    ensures ExecSeq(Copy(d, x) + [i], c) == ExecPlain(i, Put(c, d, c.regs[x]))
  {
    if d == x {
      assert Copy(d, x) + [i] == [i];
      assert Put(c, d, c.regs[x]) == c;
    } else {
      assert Copy(d, x) + [i] == [MovRR(d, x)] + [i];
      ExecCons(MovRR(d, x), [i], c);
    }
    ExecOne(i, Put(c, d, c.regs[x]));
  }

  // ---- Division ----

  lemma HalvedQuotient(a: nat, d: nat)
    requires d >= 2
    ensures 2 * (a / d) <= a
  {
    var q: nat := a / d;
    ProductNonNegative(q, d - 2);
    assert q * d == q * (d - 2) + 2 * q;
  }

  /** A quotient that is not `INT_MIN / -1` fits, so `idiv` does not fault. */
  lemma QuotientFits(a: Word, b: Word)
    requires DivDefined(a, b)
    ensures -HALF <= TruncDiv(Signed(a), Signed(b)) < HALF
  {
    var x, y := Abs(Signed(a)), Abs(Signed(b));
    QuotientBound(x, y);
    if y >= 2 {
      HalvedQuotient(x, y);
    }
  }

  lemma SignedDivision(d: Reg, x: Reg, y: Reg, remainder: bool, c: Core)
    requires IsHome(d) && IsHome(x) && IsHome(y) && DivDefined(c.regs[x], c.regs[y])
    ensures Computes([MovRR(RAX, x), Cqo, Group(GroupIDiv, y), MovRR(d, if remainder then RDX else RAX)], c, d,
      Wrap(if remainder then TruncMod(Signed(c.regs[x]), Signed(c.regs[y]))
           else TruncDiv(Signed(c.regs[x]), Signed(c.regs[y]))))
  {
    var a, b := c.regs[x], c.regs[y];
    QuotientFits(a, b);
    var c1 := Put(c, RAX, a);
    var c2 := ExecPlain(Cqo, c1).value;
    assert Signed(c2.regs[RDX]) * MODULUS + c2.regs[RAX] == Signed(a);
    var c3 := ExecPlain(Group(GroupIDiv, y), c2);
    assert c3.Some? && c3.value.regs[RAX] == Wrap(TruncDiv(Signed(a), Signed(b)));
    ExecFour(MovRR(RAX, x), Cqo, Group(GroupIDiv, y), MovRR(d, if remainder then RDX else RAX), c);
  }

  lemma UnsignedDivision(d: Reg, x: Reg, y: Reg, remainder: bool, c: Core)
    requires IsHome(d) && IsHome(x) && IsHome(y) && c.regs[y] != 0
    ensures 0 <= c.regs[x] % c.regs[y] < MODULUS && 0 <= c.regs[x] / c.regs[y] < MODULUS
    ensures Computes([MovRR(RAX, x), XorEdxEdx, Group(GroupDiv, y), MovRR(d, if remainder then RDX else RAX)], c, d,
      if remainder then c.regs[x] % c.regs[y] else c.regs[x] / c.regs[y])
  {
    var a, b := c.regs[x], c.regs[y];
    QuotientBound(a, b);
    var c2 := Put(Put(c, RAX, a), RDX, 0).(flags := None);
    assert ExecPlain(XorEdxEdx, Put(c, RAX, a)) == Some(c2);
    assert c2.regs[RDX] * MODULUS + c2.regs[RAX] == a;
    var c3 := ExecPlain(Group(GroupDiv, y), c2);
    assert c3.Some? && c3.value.regs[RAX] == Wrap(a / b) == a / b;
    assert c3.value.regs[RDX] == Wrap(a % b) == a % b;
    ExecFour(MovRR(RAX, x), XorEdxEdx, Group(GroupDiv, y), MovRR(d, if remainder then RDX else RAX), c);
  }

  // ---- Comparisons ----

  lemma SetThenWiden(first: Ins, k: Cond, d: Reg, c: Core, holds: bool)
    requires first.CmpRR? || first.TestRR?
    requires IsHome(d) && ExecPlain(first, c).Some?
    requires ExecPlain(first, c).value.regs == c.regs && ExecPlain(first, c).value.stack == c.stack
    requires ExecPlain(first, c).value.flags.Some? && Holds(k, ExecPlain(first, c).value.flags.value) == holds
    ensures Computes([first, SetccAl(k), MovzxAl(d)], c, d, Truth(holds))
  {
    var c1 := ExecPlain(first, c).value;
    var low: int := c1.regs[RAX];
    var c2 := ExecPlain(SetccAl(k), c1).value;
    assert (low - low % 256 + Truth(holds)) % 256 == Truth(holds);
    ExecThree(first, SetccAl(k), MovzxAl(d), c);
  }

  lemma Comparison(b: BinOp, d: Reg, x: Reg, y: Reg, c: Core)
    requires CondOf(b).Some? && IsHome(d) && IsHome(x) && IsHome(y)
    ensures EvalBin(b, c.regs[x], c.regs[y]).Some?
    ensures Computes([CmpRR(x, y), SetccAl(CondOf(b).value), MovzxAl(d)], c, d,
      EvalBin(b, c.regs[x], c.regs[y]).value)
  {
    CompareDecides(c.regs[x], c.regs[y]);
    var w := EvalBin(b, c.regs[x], c.regs[y]).value;
    SetThenWiden(CmpRR(x, y), CondOf(b).value, d, c, w == 1);
  }

  // ---- Every value instruction ----

  lemma BinComputes(b: BinOp, d: Reg, x: Reg, y: Reg, c: Core)
    requires IsHome(d) && IsHome(x) && IsHome(y) && d != y && !IsShift(b)
    requires EvalBin(b, c.regs[x], c.regs[y]).Some? && LowerBin(b, d, x, y).Ok?
    ensures Computes(LowerBin(b, d, x, y).value, c, d, EvalBin(b, c.regs[x], c.regs[y]).value)
  {
    match b
    case Add => ExecCopyThen(d, x, AluRR(AluAdd, d, y), c);
    case Sub => ExecCopyThen(d, x, AluRR(AluSub, d, y), c);
    case And => ExecCopyThen(d, x, AluRR(AluAnd, d, y), c);
    case Or => ExecCopyThen(d, x, AluRR(AluOr, d, y), c);
    case Xor => ExecCopyThen(d, x, AluRR(AluXor, d, y), c);
    case Mul => ExecCopyThen(d, x, ImulRR(d, y), c);
    case Div => SignedDivision(d, x, y, false, c);
    case Mod => SignedDivision(d, x, y, true, c);
    case UDiv => UnsignedDivision(d, x, y, false, c);
    case UMod => UnsignedDivision(d, x, y, true, c);
    case _ => Comparison(b, d, x, y, c);
  }

  lemma ShiftComputes(b: BinOp, d: Reg, x: Reg, n: nat, c: Core)
    requires IsHome(d) && IsHome(x) && IsShift(b) && n < 64
    ensures EvalBin(b, c.regs[x], n).Some?
    ensures Computes(Copy(d, x) + [ShiftImm(ShiftOf(b), d, n % 256)], c, d, EvalBin(b, c.regs[x], n).value)
  {
    ExecCopyThen(d, x, ShiftImm(ShiftOf(b), d, n % 256), c);
    assert n % 256 % 64 == n;
  }

  lemma UnComputes(u: UnOp, d: Reg, x: Reg, c: Core)
    requires IsHome(d) && IsHome(x)
    ensures Computes(LowerUn(u, d, x), c, d, EvalUn(u, c.regs[x]))
  {
    match u
    case Neg => ExecCopyThen(d, x, Group(GroupNeg, d), c);
    case BitNot => ExecCopyThen(d, x, Group(GroupNot, d), c);
    case Not =>
      TestSelf(c.regs[x]);
      SetThenWiden(TestRR(x, x), CondE, d, c, c.regs[x] == 0);
  }

  lemma SelectComputes(d: Reg, k: Reg, t: Reg, f: Reg, c: Core)
    requires IsHome(d) && IsHome(k) && IsHome(t) && IsHome(f) && d != k && d != t
    ensures Computes([MovRR(d, f), TestRR(k, k), CmovNe(d, t)], c, d,
      if c.regs[k] != 0 then c.regs[t] else c.regs[f])
  {
    TestSelf(c.regs[k]);
    ExecThree(MovRR(d, f), TestRR(k, k), CmovNe(d, t), c);
  }

  /** The homes of an instruction's operands hold their values. */
  ghost predicate OperandsInPlace(al: Allocation, mi: Instr, env: map<VReg, Word>, c: Core) {
    forall k :: 0 <= k < |mi.uses| && mi.uses[k] in env && HomeOf(al, mi.uses[k]).Ok? ==>
      c.regs[HomeOf(al, mi.uses[k]).value] == env[mi.uses[k]]
  }

  /** The destination's home is no other operand's home. */
  ghost predicate DestinationApart(al: Allocation, mi: Instr) {
    forall k :: 0 <= k < |mi.uses| && mi.defs != [] && mi.uses[k] != mi.defs[0]
      && HomeOf(al, mi.uses[k]).Ok? && HomeOf(al, mi.defs[0]).Ok?
      ==> HomeOf(al, mi.uses[k]).value != HomeOf(al, mi.defs[0]).value
  }

  /** Only a copy may name its destination among its operands. */
  predicate FreshDestination(mi: Instr) {
    !mi.op.OpMov? ==> forall j, k :: 0 <= j < |mi.defs| && 0 <= k < |mi.uses| ==> mi.defs[j] != mi.uses[k]
  }

  lemma ValueCodeComputes(al: Allocation, mi: Instr, args: seq<Word>, env: map<VReg, Word>, c: Core)
    requires |mi.defs| == 1 && LowerValue(al, mi).Ok? && ValueOf(mi, args, env).Some?
    requires OperandsInPlace(al, mi, env, c) && DestinationApart(al, mi) && FreshDestination(mi)
    ensures HomeOf(al, mi.defs[0]).Ok?
    ensures Computes(LowerValue(al, mi).value, c, HomeOf(al, mi.defs[0]).value, ValueOf(mi, args, env).value)
  {
    hide ExecSeq, EvalBin, EvalUn;
    match mi.op
    case OpMovImm =>
      var (d, _) := Operands(al, mi, 0).value;
      ExecOne(MovImm(d, Wrap(mi.imm.value)), c);
    case OpMov =>
      var (d, xs) := Operands(al, mi, 1).value;
      ExecOne(MovRR(d, xs[0]), c);
    case OpBin(b) =>
      if IsShift(b) {
        var (d, xs) := Operands(al, mi, 1).value;
        ShiftComputes(b, d, xs[0], mi.imm.value, c);
      } else {
        var (d, xs) := Operands(al, mi, 2).value;
        assert mi.uses[1] != mi.defs[0];
        BinComputes(b, d, xs[0], xs[1], c);
      }
    case OpUn(u) =>
      var (d, xs) := Operands(al, mi, 1).value;
      UnComputes(u, d, xs[0], c);
    case OpSelect =>
      var (d, xs) := Operands(al, mi, 3).value;
      assert mi.uses[0] != mi.defs[0] && mi.uses[1] != mi.defs[0];
      SelectComputes(d, xs[0], xs[1], xs[2], c);
  }
}
