/** The x86-64 instructions the encoder emits: what they do to the machine. */
module X86 {
  import opened Wrappers
  import opened Words
  import BitLaws

  type Byte = x: int | 0 <= x < 256

  type Reg = r: nat | r < 16

  const RAX: Reg := 0
  const RCX: Reg := 1
  const RDX: Reg := 2
  const RBX: Reg := 3
  const RSP: Reg := 4
  const RBP: Reg := 5
  const RSI: Reg := 6
  const RDI: Reg := 7
  const R8: Reg := 8
  const R9: Reg := 9
  const R10: Reg := 10
  const R11: Reg := 11
  const R12: Reg := 12
  const R13: Reg := 13
  const R14: Reg := 14
  const R15: Reg := 15

  /** What the System V calling convention lets a caller rely on after a call, the stack pointer apart. */
  predicate CalleeSaved(r: Reg) {
    r == RBX || r == RBP || r == R12 || r == R13 || r == R14 || r == R15
  }

  datatype AluOp = AluAdd | AluOr | AluAnd | AluSub | AluXor

  datatype GroupOp = GroupNot | GroupNeg | GroupDiv | GroupIDiv

  datatype ShiftOp = ShiftShl | ShiftShr | ShiftSar

  datatype Cond = CondE | CondNE | CondL | CondGE | CondLE | CondG

  datatype Ins =
    | MovRR(dst: Reg, src: Reg)
    | MovImm(dst: Reg, imm: Word)
    | AluRR(alu: AluOp, dst: Reg, src: Reg)
    | ImulRR(dst: Reg, src: Reg)
    | CmpRR(a: Reg, b: Reg)
    | TestRR(a: Reg, b: Reg)
    | XorEdxEdx
    | Cqo
    | Group(grp: GroupOp, rm: Reg)
    | ShiftImm(shift: ShiftOp, rm: Reg, count: Byte)
    | SetccAl(cond: Cond)
    | MovzxAl(dst: Reg)
    | CmovNe(dst: Reg, src: Reg)
    | Push(r: Reg)
    | Pop(r: Reg)
    | Ret
    | Jmp(rel: int)
    | Jz(rel: int)
    | Call(rel: int)

  /** `None` stands for flags the architecture leaves undefined or this model does not track. */
  datatype Flags = Flags(zf: bool, sf: bool, of: bool)

  type RegFile = s: seq<Word> | |s| == 16 witness seq(16, _ => 0)

  /** Everything but the instruction pointer. The stack grows at the end of the sequence. */
  datatype Core = Core(regs: RegFile, flags: Option<Flags>, stack: seq<Word>)

  datatype Machine = Machine(core: Core, rip: int)

  /** The stack pointer is not an operand register in this model: the stack is a sequence. */
  predicate NamesStackPointer(i: Ins) {
    match i
    case MovRR(d, s) => d == RSP || s == RSP
    case MovImm(d, _) => d == RSP
    case AluRR(_, d, s) => d == RSP || s == RSP
    case ImulRR(d, s) => d == RSP || s == RSP
    case CmpRR(a, b) => a == RSP || b == RSP
    case TestRR(a, b) => a == RSP || b == RSP
    case Group(_, r) => r == RSP
    case ShiftImm(_, r, _) => r == RSP
    case MovzxAl(d) => d == RSP
    case CmovNe(d, s) => d == RSP || s == RSP
    case Push(r) => r == RSP
    case Pop(r) => r == RSP
    case _ => false
  }

  function AluValue(op: AluOp, a: Word, b: Word): Word {
    match op
    case AluAdd => Wrap(a + b)
    case AluSub => Wrap(a - b)
    case AluAnd => BitWord(BitAnd, a, b)
    case AluOr => BitWord(BitOr, a, b)
    case AluXor => BitWord(BitXor, a, b)
  }

  function CompareFlags(a: Word, b: Word): Flags {
    var d := Signed(a) - Signed(b);
    Flags(Wrap(a - b) == 0, Wrap(a - b) >= HALF, d < -HALF || d >= HALF)
  }

  predicate Holds(c: Cond, f: Flags) {
    match c
    case CondE => f.zf
    case CondNE => !f.zf
    case CondL => f.sf != f.of
    case CondGE => f.sf == f.of
    case CondLE => f.zf || f.sf != f.of
    case CondG => !f.zf && f.sf == f.of
  }

  function Put(c: Core, r: Reg, w: Word): Core {
    c.(regs := c.regs[r := w])
  }

  /** Division of RDX:RAX; `None` is the divide-error exception. */
  function DivideStep(signed: bool, divisor: Word, c: Core): Option<Core> {
    if divisor == 0 then None
    else if signed then
      var n := Signed(c.regs[RDX]) * MODULUS + c.regs[RAX];
      var q := TruncDiv(n, Signed(divisor));
      if -HALF <= q < HALF then
        Some(Core(c.regs[RAX := Wrap(q)][RDX := Wrap(TruncMod(n, Signed(divisor)))], None, c.stack))
      else None
    else
      var n := c.regs[RDX] * MODULUS + c.regs[RAX];
      if n / divisor < MODULUS then
        Some(Core(c.regs[RAX := Wrap(n / divisor)][RDX := Wrap(n % divisor)], None, c.stack))
      else None
  }

  /** One instruction that does not transfer control. */
  function ExecPlain(i: Ins, c: Core): Option<Core> {
    if NamesStackPointer(i) then None
    else match i
      case MovRR(d, s) => Some(Put(c, d, c.regs[s]))
      case MovImm(d, w) => Some(Put(c, d, w))
      case AluRR(op, d, s) => Some(Put(c, d, AluValue(op, c.regs[d], c.regs[s])).(flags := None))
      case ImulRR(d, s) => Some(Put(c, d, Product(c.regs[d], c.regs[s])).(flags := None))
      case CmpRR(a, b) => Some(c.(flags := Some(CompareFlags(c.regs[a], c.regs[b]))))
      case TestRR(a, b) =>
        var t := BitWord(BitAnd, c.regs[a], c.regs[b]);
        Some(c.(flags := Some(Flags(t == 0, t >= HALF, false))))
      case XorEdxEdx => Some(Put(c, RDX, 0).(flags := None))
      case Cqo => Some(Put(c, RDX, if Signed(c.regs[RAX]) < 0 then 0xFFFF_FFFF_FFFF_FFFF else 0))
      case Group(GroupNot, r) => Some(Put(c, r, EvalUn(BitNot, c.regs[r])))
      case Group(GroupNeg, r) => Some(Put(c, r, EvalUn(Neg, c.regs[r])).(flags := None))
      case Group(GroupDiv, r) => DivideStep(false, c.regs[r], c)
      case Group(GroupIDiv, r) => DivideStep(true, c.regs[r], c)
      case ShiftImm(ShiftShl, r, n) =>
        Some(Put(c, r, Product(c.regs[r], Pow2(n % 64))).(flags := None))
      case ShiftImm(ShiftShr, r, n) => Some(Put(c, r, LogicShift(c.regs[r], n % 64)).(flags := None))
      case ShiftImm(ShiftSar, r, n) => Some(Put(c, r, ArithShift(c.regs[r], n % 64)).(flags := None))
      case SetccAl(k) =>
        if c.flags.None? then None
        else Some(Put(c, RAX, c.regs[RAX] - c.regs[RAX] % 256 + Truth(Holds(k, c.flags.value))))
      case MovzxAl(d) => Some(Put(c, d, c.regs[RAX] % 256))
      case CmovNe(d, s) =>
        if c.flags.None? then None
        else Some(if Holds(CondNE, c.flags.value) then Put(c, d, c.regs[s]) else c)
      case Push(r) => Some(c.(stack := c.stack + [c.regs[r]]))
      case Pop(r) =>
        if c.stack == [] then None
        else Some(Put(c, r, c.stack[|c.stack| - 1]).(stack := c.stack[..|c.stack| - 1]))
      case _ => None
  }

  /** One instruction of a machine whose next instruction lies at `next`. */
  function Exec(i: Ins, m: Machine, next: int): Option<Machine> {
    match i
    case Jmp(rel) => Some(m.(rip := next + rel))
    case Jz(rel) =>
      if m.core.flags.None? then None
      else Some(m.(rip := if m.core.flags.value.zf then next + rel else next))
    case Call(rel) => Some(Machine(m.core.(stack := m.core.stack + [Wrap(next)]), next + rel))
    case Ret =>
      if m.core.stack == [] then None
      else
        var top := |m.core.stack| - 1;
        Some(Machine(m.core.(stack := m.core.stack[..top]), m.core.stack[top]))
    case _ =>
      match ExecPlain(i, m.core)
      case Some(c) => Some(Machine(c, next))
      case None => None
  }

  /** A run of instructions none of which transfers control. */
  function ExecSeq(code: seq<Ins>, c: Core): Option<Core>
    decreases |code|
  {
    if code == [] then Some(c)
    else match ExecPlain(code[0], c)
      case Some(c') => ExecSeq(code[1..], c')
      case None => None
  }

  lemma ExecCons(i: Ins, rest: seq<Ins>, c: Core)
    ensures ExecSeq([i] + rest, c) == (match ExecPlain(i, c) case Some(c') => ExecSeq(rest, c') case None => None)
  {
    assert ([i] + rest)[1..] == rest;
  }

  lemma {:induction false} ExecSeqAppend(a: seq<Ins>, b: seq<Ins>, c: Core)
    ensures ExecSeq(a + b, c) == (match ExecSeq(a, c) case Some(c') => ExecSeq(b, c') case None => None)
    decreases |a|
  {
    if a == [] {
      assert a + b == b;
    } else {
      assert (a + b)[1..] == a[1..] + b;
      match ExecPlain(a[0], c)
      case Some(c') => ExecSeqAppend(a[1..], b, c');
      case None =>
    }
  }

  // ---- Facts the instruction sequences rely on ----

  /** The signed condition codes after `cmp` are the signed comparisons. */
  lemma CompareDecides(a: Word, b: Word)
    ensures var f := CompareFlags(a, b);
      && Holds(CondE, f) == (a == b) && Holds(CondNE, f) == (a != b)
      && Holds(CondL, f) == (Signed(a) < Signed(b)) && Holds(CondGE, f) == (Signed(a) >= Signed(b))
      && Holds(CondLE, f) == (Signed(a) <= Signed(b)) && Holds(CondG, f) == (Signed(a) > Signed(b))
  {
    WrapOfDifference(a, b);
  }

  lemma WrapOfDifference(a: Word, b: Word)
    ensures Wrap(a - b) == if a >= b then a - b else a - b + MODULUS
  {
  }

  lemma TestSelf(w: Word)
    ensures BitWord(BitAnd, w, w) == w
  {
    Pow2Of64();
    BitLaws.AndSelf(w, 64);
  }
}
