/** What the executable encoder produces: two-operand lowering of machine instructions over their homes,
    the byte layout of a function, and the displacements of its jumps. */
module EncoderSpec {
  import opened Wrappers
  import opened Words
  import opened MachineIR
  import opened LinearScan
  import opened X86
  import opened X86Bytes
  import opened ParallelMove

  /** Homes by register id; RAX and RDX are scratch, RSP is the stack pointer. */
  const HOMES: seq<Reg> := [RCX, RSI, RDI, R8, R9, R10, R11, RBX, RBP, R12, R13, R14, R15]
  const HOME_COUNT: nat := 13
  const FIRST_CALLEE_SAVED: nat := 7
  const ABI_ARGS: seq<Reg> := [RDI, RSI, RDX, RCX, R8, R9]
  const ABI_MAX_ARGS: nat := 6

  datatype EncodeError =
    | MissingOperand | SpilledOperand | NoHome
    | ParamOutOfRange | MoveCycle | MissingImmediate
    | ShiftByRegister | UnsignedCompare | MemoryOperation
    | NoReturn | UndefinedLabel | DisplacementRange
    | NoFunctions | UnknownCallee

  function HomeOf(al: Allocation, v: VReg): (r: Result<Reg, EncodeError>)
    ensures r.Ok? ==> !al.IsSpilled(v) && al.Assignment(v) < HOME_COUNT && r.value == HOMES[al.Assignment(v)]
    ensures r.Ok? ==> r.value != RAX && r.value != RDX && r.value != RSP
  {
    if al.IsSpilled(v) then Err(SpilledOperand)
    else if al.Assignment(v) >= HOME_COUNT then Err(NoHome)
    else Ok(HOMES[al.Assignment(v)])
  }

  /** The homes from the first callee-saved one on are exactly the registers a callee has to preserve, and all of
      them. */
  lemma CalleeSavedHomes()
    ensures forall i :: 0 <= i < HOME_COUNT ==> (i >= FIRST_CALLEE_SAVED <==> CalleeSaved(HOMES[i]))
    ensures forall r: Reg :: CalleeSaved(r) ==> exists i :: FIRST_CALLEE_SAVED <= i < HOME_COUNT && HOMES[i] == r
  {
    assert HOMES[7] == RBX && HOMES[8] == RBP && HOMES[9] == R12 && HOMES[10] == R13 && HOMES[11] == R14
      && HOMES[12] == R15;
  }

  /** The homes of operand slots `slots[0..n]`, in order; a slot beyond the operands is missing. */
  function HomesOf(al: Allocation, slots: seq<VReg>, n: nat): (r: Result<seq<Reg>, EncodeError>)
    ensures r.Ok? ==> |r.value| == n <= |slots|
    ensures r.Ok? ==> forall k :: 0 <= k < n ==> HomeOf(al, slots[k]) == Ok(r.value[k])
    decreases n
  {
    if n == 0 then Ok([])
    else
      match HomesOf(al, slots, n - 1)
      case Err(e) => Err(e)
      case Ok(front) =>
        if n > |slots| then Err(MissingOperand)
        else match HomeOf(al, slots[n - 1])
          case Err(e) => Err(e)
          case Ok(r) => Ok(front + [r])
  }

  // ---- Two-operand lowering ----

  function Copy(dst: Reg, src: Reg): seq<Ins> {
    if dst != src then [MovRR(dst, src)] else []
  }

  function CondOf(b: BinOp): Option<Cond> {
    match b
    case CmpEq => Some(CondE) case CmpNe => Some(CondNE) case CmpLt => Some(CondL)
    case CmpLe => Some(CondLE) case CmpGt => Some(CondG) case CmpGe => Some(CondGE)
    case _ => None
  }

  function LowerBin(b: BinOp, d: Reg, x: Reg, y: Reg): Result<seq<Ins>, EncodeError> {
    match b
    case Add => Ok(Copy(d, x) + [AluRR(AluAdd, d, y)])
    case Sub => Ok(Copy(d, x) + [AluRR(AluSub, d, y)])
    case And => Ok(Copy(d, x) + [AluRR(AluAnd, d, y)])
    case Or => Ok(Copy(d, x) + [AluRR(AluOr, d, y)])
    case Xor => Ok(Copy(d, x) + [AluRR(AluXor, d, y)])
    case Mul => Ok(Copy(d, x) + [ImulRR(d, y)])
    case Div => Ok([MovRR(RAX, x), Cqo, Group(GroupIDiv, y), MovRR(d, RAX)])
    case Mod => Ok([MovRR(RAX, x), Cqo, Group(GroupIDiv, y), MovRR(d, RDX)])
    case UDiv => Ok([MovRR(RAX, x), XorEdxEdx, Group(GroupDiv, y), MovRR(d, RAX)])
    case UMod => Ok([MovRR(RAX, x), XorEdxEdx, Group(GroupDiv, y), MovRR(d, RDX)])
    case _ =>
      match CondOf(b)
      case Some(c) => Ok([CmpRR(x, y), SetccAl(c), MovzxAl(d)])
      case None => Err(UnsignedCompare)
  }

  function ShiftOf(b: BinOp): ShiftOp {
    match b case Shl => ShiftShl case Shr => ShiftSar case _ => ShiftShr
  }

  function LowerUn(u: UnOp, d: Reg, x: Reg): seq<Ins> {
    match u
    case Neg => Copy(d, x) + [Group(GroupNeg, d)]
    case BitNot => Copy(d, x) + [Group(GroupNot, d)]
    case Not => [TestRR(x, x), SetccAl(CondE), MovzxAl(d)]
  }

  /** The registers of an instruction that has one destination and `n` operands. */
  function Operands(al: Allocation, mi: Instr, n: nat): (r: Result<(Reg, seq<Reg>), EncodeError>)
    ensures r.Ok? ==> |r.value.1| == n <= |mi.uses| && mi.defs != [] && HomeOf(al, mi.defs[0]) == Ok(r.value.0)
    ensures r.Ok? ==> forall k :: 0 <= k < n ==> HomeOf(al, mi.uses[k]) == Ok(r.value.1[k])
  {
    match HomesOf(al, mi.defs, 1)
    case Err(e) => Err(e)
    case Ok(d) =>
      match HomesOf(al, mi.uses, n)
      case Err(e) => Err(e)
      case Ok(xs) => Ok((d[0], xs))
  }

  function LowerShift(al: Allocation, mi: Instr, b: BinOp): Result<seq<Ins>, EncodeError> {
    if |mi.uses| >= 2 then Err(ShiftByRegister)
    else if mi.imm.None? || mi.imm.value < 0 then Err(MissingImmediate)
    else match Operands(al, mi, 1)
      case Err(e) => Err(e)
      case Ok((d, xs)) => Ok(Copy(d, xs[0]) + [ShiftImm(ShiftOf(b), d, mi.imm.value % 256)])
  }

  /** The code of an instruction that computes a value. */
  function LowerValue(al: Allocation, mi: Instr): Result<seq<Ins>, EncodeError> {
    match mi.op
    case OpMovImm =>
      if mi.imm.None? then Err(MissingImmediate)
      else (match Operands(al, mi, 0)
            case Err(e) => Err(e)
            case Ok((d, _)) => Ok([MovImm(d, Wrap(mi.imm.value))]))
    case OpMov =>
      (match Operands(al, mi, 1)
       case Err(e) => Err(e)
       case Ok((d, xs)) => Ok([MovRR(d, xs[0])]))
    case OpBin(b) =>
      if IsShift(b) then LowerShift(al, mi, b)
      else (match Operands(al, mi, 2)
            case Err(e) => Err(e)
            case Ok((d, xs)) => LowerBin(b, d, xs[0], xs[1]))
    case OpUn(u) =>
      (match Operands(al, mi, 1)
       case Err(e) => Err(e)
       case Ok((d, xs)) => Ok(LowerUn(u, d, xs[0])))
    case OpSelect =>
      (match Operands(al, mi, 3)
       case Err(e) => Err(e)
       case Ok((d, xs)) => Ok([MovRR(d, xs[2]), TestRR(xs[0], xs[0]), CmovNe(d, xs[1])]))
    case _ => Err(MemoryOperation)
  }

  // ---- Parameters, calls, return ----

  function ParamMoves(p: Program, al: Allocation, n: nat): Result<seq<Move>, EncodeError>
    requires n <= |p|
  {
    if n == 0 then Ok([])
    else
      match ParamMoves(p, al, n - 1)
      case Err(e) => Err(e)
      case Ok(moves) =>
        if !p[n - 1].op.OpParam? then Ok(moves)
        else if p[n - 1].imm.None? || !(0 <= p[n - 1].imm.value < ABI_MAX_ARGS) then Err(ParamOutOfRange)
        else match HomesOf(al, p[n - 1].defs, 1)
          case Err(e) => Err(e)
          case Ok(d) => Ok(moves + [Move(ABI_ARGS[p[n - 1].imm.value], d[0])])
  }

  function ArgumentMoves(homes: seq<Reg>, n: nat): (r: seq<Move>)
    requires n <= |homes| && n <= ABI_MAX_ARGS
    ensures |r| == n
    ensures forall k :: 0 <= k < n ==> r[k] == Move(homes[k], ABI_ARGS[k])
  {
    if n == 0 then [] else ArgumentMoves(homes, n - 1) + [Move(homes[n - 1], ABI_ARGS[n - 1])]
  }

  /** Operand slots of an instruction: the source's fixed array length. */
  const MAX_USES: nat := 4

  function LowerCall(al: Allocation, mi: Instr): Result<seq<Ins>, EncodeError> {
    if mi.imm.None? then Err(MissingImmediate)
    else
      var n := if |mi.uses| < MAX_USES then |mi.uses| else MAX_USES;
      match HomesOf(al, mi.uses, n)
      case Err(e) => Err(e)
      case Ok(homes) =>
        match Resolve(ArgumentMoves(homes, n))
        case None => Err(MoveCycle)
        case Some(code) =>
          match HomesOf(al, mi.defs, 1)
          case Err(e) => Err(e)
          case Ok(d) => Ok(code + [Call(0), MovRR(d[0], RAX)])
  }

  lemma HomesStep(al: Allocation, slots: seq<VReg>, n: nat, front: seq<Reg>, r: Reg)
    requires 0 < n <= |slots| && HomesOf(al, slots, n - 1) == Ok(front) && HomeOf(al, slots[n - 1]) == Ok(r)
    ensures HomesOf(al, slots, n) == Ok(front + [r])
  {
  }

  /** Four arguments in R8, RCX, R9 and RSI: the second and the fourth have to change places, and staging the first does
      not help. */
  lemma CallSwapsLateArguments(al: Allocation)
    requires al == Allocation([3, 0, 4, 1, 0], [])
    ensures LowerCall(al, Instr(OpCall, [4], [0, 1, 2, 3], Some(0), General)) == Err(MoveCycle)
    ensures Cycle(ArgumentMoves([R8, RCX, R9, RSI], 4), [1, 3])
  {
    var slots: seq<VReg> := [0, 1, 2, 3];
    HomesStep(al, slots, 1, [], R8);
    HomesStep(al, slots, 2, [] + [R8], RCX);
    HomesStep(al, slots, 3, [] + [R8] + [RCX], R9);
    HomesStep(al, slots, 4, [] + [R8] + [RCX] + [R9], RSI);
    assert [] + [R8] + [RCX] + [R9] + [RSI] == [R8, RCX, R9, RSI];
    var moves := ArgumentMoves([R8, RCX, R9, RSI], 4);
    assert Cycle(moves, [1, 3]) && 0 !in [1, 3];
    hide HomesOf;
    ResolveExactly(moves);
  }

  function Pushes(n: nat): seq<Ins>
    requires FIRST_CALLEE_SAVED <= n <= HOME_COUNT
  {
    if n == FIRST_CALLEE_SAVED then [] else Pushes(n - 1) + [Push(HOMES[n - 1])]
  }

  function Pops(n: nat): seq<Ins>
    requires FIRST_CALLEE_SAVED <= n <= HOME_COUNT
  {
    if n == FIRST_CALLEE_SAVED then [] else [Pop(HOMES[n - 1])] + Pops(n - 1)
  }

  // ---- One instruction ----

  predicate HasParamBefore(p: Program, i: nat)
    requires i <= |p|
  {
    exists k :: 0 <= k < i && p[k].op.OpParam?
  }

  /** The code of instruction `i`; transfers still carry a zero displacement. */
  function Lower(p: Program, al: Allocation, moves: seq<Move>, i: nat): Result<seq<Ins>, EncodeError>
    requires i < |p|
  {
    var mi := p[i];
    match mi.op
    case OpParam =>
      if HasParamBefore(p, i) then Ok([])
      else (match Resolve(moves) case Some(code) => Ok(code) case None => Err(MoveCycle))
    case OpRet =>
      (match HomesOf(al, mi.uses, 1)
       case Err(e) => Err(e)
       case Ok(xs) => Ok([MovRR(RAX, xs[0])] + Pops(HOME_COUNT) + [Ret]))
    case OpCall => LowerCall(al, mi)
    case OpLabel => if mi.imm.None? then Err(MissingImmediate) else Ok([])
    case OpJmp => if mi.imm.None? then Err(MissingImmediate) else Ok([Jmp(0)])
    case OpJz =>
      if mi.imm.None? then Err(MissingImmediate)
      else (match HomesOf(al, mi.uses, 1)
            case Err(e) => Err(e)
            case Ok(xs) => Ok([TestRR(xs[0], xs[0]), Jz(0)]))
    case _ => LowerValue(al, mi)
  }

  /** The code of the first `n` instructions, one block each. */
  function Blocks(p: Program, al: Allocation, moves: seq<Move>, n: nat): (r: Result<seq<seq<Ins>>, EncodeError>)
    requires n <= |p|
    ensures r.Ok? ==> |r.value| == n
    ensures r.Ok? ==> forall i :: 0 <= i < n ==> Lower(p, al, moves, i) == Ok(r.value[i])
  {
    if n == 0 then Ok([])
    else
      match Blocks(p, al, moves, n - 1)
      case Err(e) => Err(e)
      case Ok(front) =>
        match Lower(p, al, moves, n - 1)
        case Err(e) => Err(e)
        case Ok(code) => Ok(front + [code])
  }

  // ---- Layout ----

  function EncodeAll(code: seq<Ins>): seq<Byte> {
    if code == [] then [] else EncodeAll(code[..|code| - 1]) + Encode(code[|code| - 1])
  }

  function Flatten(blocks: seq<seq<Ins>>): seq<Byte> {
    if blocks == [] then [] else Flatten(blocks[..|blocks| - 1]) + EncodeAll(blocks[|blocks| - 1])
  }

  function Prologue(): seq<Byte> {
    EncodeAll(Pushes(HOME_COUNT))
  }

  function Layout(blocks: seq<seq<Ins>>): seq<Byte> {
    Prologue() + Flatten(blocks)
  }

  /** Where block `i` starts. */
  function Position(blocks: seq<seq<Ins>>, i: nat): nat
    requires i <= |blocks|
  {
    |Layout(blocks[..i])|
  }

  // ---- Jumps ----

  predicate IsJump(mi: Instr) {
    mi.op.OpJmp? || mi.op.OpJz?
  }

  /** The displacement that takes jump `i` from its end to its label. */
  function Displacement(p: Program, blocks: seq<seq<Ins>>, i: nat): Option<int>
    requires |blocks| == |p| && i < |p| && p[i].imm.Some?
  {
    if p[i].imm.value < 0 then None
    else match LabelIndex(p, p[i].imm.value)
      case None => None
      case Some(t) => Some(Position(blocks, t) - Position(blocks, i + 1))
  }

  /** The first jump among the first `n` instructions that cannot be resolved. */
  function JumpError(p: Program, blocks: seq<seq<Ins>>, n: nat): (r: Option<EncodeError>)
    requires |blocks| == |p| && n <= |p|
    requires forall i :: 0 <= i < |p| && IsJump(p[i]) ==> p[i].imm.Some?
    ensures r.None? ==> forall i :: 0 <= i < n && IsJump(p[i]) ==>
      Displacement(p, blocks, i).Some? && FitsRel32(Displacement(p, blocks, i).value)
  {
    if n == 0 then None
    else
      match JumpError(p, blocks, n - 1)
      case Some(e) => Some(e)
      case None =>
        if !IsJump(p[n - 1]) then None
        else match Displacement(p, blocks, n - 1)
          case None => Some(UndefinedLabel)
          case Some(rel) => if FitsRel32(rel) then None else Some(DisplacementRange)
  }

  /** The code of jump `i` once its displacement is known. */
  function Patched(p: Program, blocks: seq<seq<Ins>>, i: nat): seq<Ins>
    requires |blocks| == |p| && i < |p| && blocks[i] != []
    requires p[i].imm.Some? && Displacement(p, blocks, i).Some?
  {
    var rel := Displacement(p, blocks, i).value;
    blocks[i][..|blocks[i]| - 1] + [if p[i].op.OpJmp? then Jmp(rel) else Jz(rel)]
  }

  /** The shapes of blocks patching relies on. */
  ghost predicate Patchable(p: Program, blocks: seq<seq<Ins>>) {
    && |blocks| == |p|
    && forall i :: 0 <= i < |p| && IsJump(p[i]) ==>
         && p[i].imm.Some?
         && blocks[i] == (if p[i].op.OpJmp? then [Jmp(0)] else [TestRR(JzReg(blocks[i]), JzReg(blocks[i])), Jz(0)])
  }

  function JzReg(block: seq<Ins>): Reg {
    if block != [] && block[0].TestRR? then block[0].a else RAX
  }

  /** The blocks with the jumps among the first `n` instructions resolved. */
  ghost function PatchedTo(p: Program, blocks: seq<seq<Ins>>, n: nat): (r: seq<seq<Ins>>)
    requires Patchable(p, blocks) && n <= |p| && JumpError(p, blocks, n).None?
    ensures |r| == |blocks|
    ensures forall i :: 0 <= i < |r| ==>
      r[i] == if i < n && IsJump(p[i]) then Patched(p, blocks, i) else blocks[i]
  {
    seq(|blocks|, i requires 0 <= i < |blocks| =>
      if i < n && IsJump(p[i]) then Patched(p, blocks, i) else blocks[i])
  }

  // ---- The encoded function ----

  /** A finished function: its bytes, and where its calls have to be linked. */
  datatype Image = Image(bytes: seq<Byte>, callSites: seq<(nat, int)>)

  /** The displacement fields of the calls among the first `n` instructions, with their callees. */
  function CallSites(p: Program, blocks: seq<seq<Ins>>, n: nat): seq<(nat, int)>
    requires n <= |blocks| <= |p|
    requires forall i :: 0 <= i < n && p[i].op.OpCall? ==> p[i].imm.Some? && |blocks[i]| >= 2
  {
    if n == 0 then []
    else
      CallSites(p, blocks, n - 1)
      + (if p[n - 1].op.OpCall? then
           [(Position(blocks, n - 1) + |EncodeAll(blocks[n - 1][..|blocks[n - 1]| - 2])| + 1, p[n - 1].imm.value)]
         else [])
  }

  /** The displacement fields of the jumps among the first `n` instructions, with their labels. */
  function JumpFixups(p: Program, blocks: seq<seq<Ins>>, n: nat): seq<(int, int)>
    requires n <= |blocks| <= |p|
    requires forall i :: 0 <= i < n && IsJump(p[i]) ==> p[i].imm.Some?
  {
    if n == 0 then []
    else
      JumpFixups(p, blocks, n - 1)
      + (if IsJump(p[n - 1]) then [(Position(blocks, n) - 4, p[n - 1].imm.value)]
         else [])
  }

  lemma BlockEnd(blocks: seq<seq<Ins>>, i: nat)
    requires i < |blocks|
    ensures Position(blocks, i + 1) == Position(blocks, i) + |EncodeAll(blocks[i])|
  {
    assert blocks[..i + 1][..i] == blocks[..i];
  }

  predicate HasReturn(p: Program, n: nat)
    requires n <= |p|
  {
    exists i :: 0 <= i < n && p[i].op.OpRet?
  }

  lemma LowerShapes(p: Program, al: Allocation, moves: seq<Move>, i: nat)
    requires i < |p| && Lower(p, al, moves, i).Ok?
    ensures var code := Lower(p, al, moves, i).value;
      && (p[i].op.OpCall? ==> p[i].imm.Some? && |code| >= 2 && code[|code| - 2] == Call(0))
      && (p[i].op.OpJmp? ==> p[i].imm.Some? && code == [Jmp(0)])
      && (p[i].op.OpJz? ==> p[i].imm.Some? && code == [TestRR(JzReg(code), JzReg(code)), Jz(0)])
      && (p[i].op.OpLabel? ==> p[i].imm.Some? && code == [])
  {
  }

  lemma BlocksShapes(p: Program, al: Allocation, moves: seq<Move>)
    requires Blocks(p, al, moves, |p|).Ok?
    ensures var blocks := Blocks(p, al, moves, |p|).value;
      && (forall i :: 0 <= i < |p| && p[i].op.OpCall? ==> p[i].imm.Some? && |blocks[i]| >= 2)
      && (forall i :: 0 <= i < |p| && IsJump(p[i]) ==> p[i].imm.Some?)
      && Patchable(p, blocks)
  {
    forall i | 0 <= i < |p| ensures Lower(p, al, moves, i).Ok? {
    }
    forall i | 0 <= i < |p|
      ensures p[i].op.OpCall? ==> p[i].imm.Some? && |Blocks(p, al, moves, |p|).value[i]| >= 2
      ensures IsJump(p[i]) ==> p[i].imm.Some?
      ensures IsJump(p[i]) ==>
        var b := Blocks(p, al, moves, |p|).value[i];
        b == (if p[i].op.OpJmp? then [Jmp(0)] else [TestRR(JzReg(b), JzReg(b)), Jz(0)])
    {
      LowerShapes(p, al, moves, i);
    }
  }

  /** What encoding a function yields: its resolved layout, or the first error in the source's order. */
  ghost function Assemble(p: Program, al: Allocation): Result<Image, EncodeError> {
    match ParamMoves(p, al, |p|)
    case Err(e) => Err(e)
    case Ok(moves) =>
      match Blocks(p, al, moves, |p|)
      case Err(e) => Err(e)
      case Ok(blocks) =>
        BlocksShapes(p, al, moves);
        if !HasReturn(p, |p|) then Err(NoReturn)
        else match JumpError(p, blocks, |p|)
          case Some(e) => Err(e)
          case None => Ok(Image(Layout(PatchedTo(p, blocks, |p|)), CallSites(p, blocks, |p|)))
  }
}
