/** The machine instructions instruction selection produces, and what a program of them means while
    its operands are still virtual registers. */
module MachineIR {
  import opened Wrappers
  import opened Words

  type VReg = nat

  datatype RegClass = General | Float | Vector

  datatype Mnemonic =
    | OpParam | OpMovImm | OpMov
    | OpBin(bin: BinOp) | OpUn(un: UnOp)
    | OpSelect | OpLabel | OpJmp | OpJz | OpRet
    | OpCall | OpLoad | OpStore

  /** Unused operand slots of the source's fixed-size arrays are left off the end of the sequences. */
  datatype Instr = Instr(op: Mnemonic, defs: seq<VReg>, uses: seq<VReg>, imm: Option<int>, rc: RegClass)

  type Program = seq<Instr>

  predicate Mentions(mi: Instr, v: VReg) {
    v in mi.defs || v in mi.uses
  }

  /** The place of the last `label` with this id among the first `n` instructions. */
  function LabelBefore(p: Program, id: int, n: nat): (r: Option<nat>)
    requires n <= |p|
    ensures r.Some? ==> r.value < n && p[r.value].op.OpLabel? && p[r.value].imm == Some(id)
    ensures r.None? ==> forall i :: 0 <= i < n && p[i].op.OpLabel? ==> p[i].imm != Some(id)
  {
    if n == 0 then None
    else if p[n - 1].op.OpLabel? && p[n - 1].imm == Some(id) then Some(n - 1)
    else LabelBefore(p, id, n - 1)
  }

  function LabelIndex(p: Program, id: int): (r: Option<nat>)
    ensures r.Some? ==> r.value < |p| && p[r.value].op.OpLabel?
  {
    LabelBefore(p, id, |p|)
  }

  // ---- The virtual-register machine ----

  datatype VState = VState(pc: nat, env: map<VReg, Word>)

  datatype Outcome = Next(state: VState) | Returned(value: Word) | Fault

  predicate Readable(env: map<VReg, Word>, vs: seq<VReg>) {
    forall k :: 0 <= k < |vs| ==> vs[k] in env
  }

  /** The value an instruction with one destination gives it; `None` when it traps, reads a register
      that was never written, or is not a value instruction. */
  function ValueOf(mi: Instr, args: seq<Word>, env: map<VReg, Word>): Option<Word> {
    if !Readable(env, mi.uses) then None
    else match mi.op
      case OpParam =>
        if mi.imm.Some? && 0 <= mi.imm.value < |args| && mi.uses == [] then Some(args[mi.imm.value]) else None
      case OpMovImm =>
        if mi.imm.Some? && mi.uses == [] then Some(Wrap(mi.imm.value)) else None
      case OpMov =>
        if |mi.uses| == 1 then Some(env[mi.uses[0]]) else None
      case OpBin(b) =>
        if |mi.uses| == 2 then EvalBin(b, env[mi.uses[0]], env[mi.uses[1]])
        else if |mi.uses| == 1 && IsShift(b) && mi.imm.Some? && 0 <= mi.imm.value < 64
        then EvalBin(b, env[mi.uses[0]], mi.imm.value)
        else None
      case OpUn(u) =>
        if |mi.uses| == 1 then Some(EvalUn(u, env[mi.uses[0]])) else None
      case OpSelect =>
        if |mi.uses| == 3 then Some(if env[mi.uses[0]] != 0 then env[mi.uses[1]] else env[mi.uses[2]])
        else None
      case _ => None
  }

  function JumpTo(p: Program, mi: Instr, s: VState): Outcome {
    if mi.imm.None? then Fault
    else match LabelIndex(p, mi.imm.value)
      case Some(t) => Next(s.(pc := t))
      case None => Fault
  }

  function VStep(p: Program, args: seq<Word>, s: VState): Outcome {
    if s.pc >= |p| then Fault
    else
      var mi := p[s.pc];
      match mi.op
      case OpLabel => Next(s.(pc := s.pc + 1))
      case OpJmp => JumpTo(p, mi, s)
      case OpJz =>
        if |mi.uses| != 1 || mi.uses[0] !in s.env then Fault
        else if s.env[mi.uses[0]] == 0 then JumpTo(p, mi, s)
        else Next(s.(pc := s.pc + 1))
      case OpRet =>
        if |mi.uses| != 1 || mi.uses[0] !in s.env then Fault else Returned(s.env[mi.uses[0]])
      case _ =>
        var v := ValueOf(mi, args, s.env);
        if v.None? || |mi.defs| != 1 then Fault
        else Next(VState(s.pc + 1, s.env[mi.defs[0] := v.value]))
  }

  /** The outcome of at most `n` steps. */
  function VRun(p: Program, args: seq<Word>, s: VState, n: nat): Outcome
    decreases n
  {
    if n == 0 then Next(s)
    else match VStep(p, args, s)
      case Next(s') => VRun(p, args, s', n - 1)
      case Returned(w) => Returned(w)
      case Fault => Fault
  }
}
