/** Encoded code runs like the virtual-register program it was made from, for runs of any length. */
module Simulation {
  import opened Wrappers
  import opened Words
  import opened MachineIR
  import opened LiveIntervals
  import opened LinearScan
  import opened Liveness
  import opened X86
  import opened X86Bytes
  import opened ParallelMove
  import opened EncoderSpec
  import opened ExecEncoder
  import opened TwoOperand
  import opened ByteMachine

  // ---- What a program and its allocation have to satisfy ----

  /** Parameters come first. */
  ghost predicate ParamsFirst(p: Program, k: nat) {
    && k <= |p|
    && (forall i :: 0 <= i < k ==> p[i].op.OpParam?)
    && (forall i :: k <= i < |p| ==> !p[i].op.OpParam?)
  }

  /** Transfers define nothing; only copies may overwrite their own operand; parameters read nothing. */
  predicate WellShaped(mi: Instr) {
    && FreshDestination(mi) && (mi.op.OpParam? ==> mi.uses == [])
    && (mi.op.OpLabel? || mi.op.OpJmp? || mi.op.OpJz? || mi.op.OpRet? ==> mi.defs == [])
  }

  ghost predicate Executable(p: Program, k: nat) {
    && Structured(p) && DefinedOnAllPaths(p) && ParamsFirst(p, k)
    && forall i :: 0 <= i < |p| ==> WellShaped(p[i])
  }

  /** The parameter block loses no parameter that is read later. */
  ghost predicate ParametersArrive(p: Program, al: Allocation, k: nat) {
    ParamMoves(p, al, |p|).Ok? ==> ParamsArrive(p, ParamMoves(p, al, |p|).value, k)
  }

  lemma HomesDistinct(a: nat, b: nat)
    requires a < HOME_COUNT && b < HOME_COUNT && a != b
    ensures HOMES[a] != HOMES[b]
  {
  }

  /** The pieces a successful encoding is made of. */
  ghost predicate EncodedAs(p: Program, al: Allocation, moves: seq<Move>, blocks: seq<seq<Ins>>, bytes: seq<Byte>) {
    && ParamMoves(p, al, |p|) == Ok(moves)
    && Blocks(p, al, moves, |p|) == Ok(blocks)
    && Patchable(p, blocks) && JumpError(p, blocks, |p|).None?
    && bytes == Layout(PatchedTo(p, blocks, |p|))
  }

  lemma AssembledPieces(p: Program, al: Allocation) returns (moves: seq<Move>, blocks: seq<seq<Ins>>)
    requires Assemble(p, al).Ok?
    ensures EncodedAs(p, al, moves, blocks, Assemble(p, al).value.bytes)
  {
    hide Layout, Lower, Displacement;
    moves := ParamMoves(p, al, |p|).value;
    blocks := Blocks(p, al, moves, |p|).value;
    BlocksShapes(p, al, moves);
  }

  // ---- Where the bytes of an instruction lie ----

  lemma BlockAt(p: Program, al: Allocation, moves: seq<Move>, blocks: seq<seq<Ins>>, bytes: seq<Byte>, i: nat)
    requires EncodedAs(p, al, moves, blocks, bytes) && i < |p|
    ensures var code := PatchedTo(p, blocks, |p|)[i];
      && At(bytes, Position(blocks, i), EncodeAll(code))
      && Position(blocks, i + 1) == Position(blocks, i) + |EncodeAll(code)|
  {
    hide Encode, EncodeAll, Layout, Lower, Displacement, Patched, Flatten;
    var patched := PatchedTo(p, blocks, |p|);
    LayoutAround(patched, i);
    forall k | 0 <= k < |p| ensures |EncodeAll(patched[k])| == |EncodeAll(blocks[k])| {
      if IsJump(p[k]) { PatchedSize(p, blocks, k); }
    }
    SameSizes(patched[..i], blocks[..i]);
    BlockEnd(blocks, i);
    assert bytes == Layout(patched[..i]) + EncodeAll(patched[i]) + Flatten(patched[i + 1..]);
    assert Position(blocks, i) == |Layout(patched[..i])|;
  }

  // ---- The relation between the two machines ----

  /** The registers a later instruction may read are in their homes. */
  ghost predicate LiveInPlace(p: Program, al: Allocation, pc: nat, env: map<VReg, Word>, c: Core) {
    forall v: VReg :: LiveAt(p, v, pc) ==>
      v in env && HomeOf(al, v).Ok? && c.regs[HomeOf(al, v).value] == env[v]
  }

  /** Parameter `j` is read later, and no later parameter takes its register. */
  ghost predicate Wanted(p: Program, k: nat, j: nat) {
    && j < k <= |p| && |p[j].defs| == 1 && LiveAt(p, p[j].defs[0], k)
    && forall i :: j < i < k ==> p[j].defs[0] !in p[i].defs
  }

  /** Once the parameter block has run, the wanted parameters still to be named are in their homes. */
  ghost predicate ParamsInPlace(p: Program, al: Allocation, args: seq<Word>, k: nat, from: nat, c: Core) {
    forall j {:trigger Wanted(p, k, j)} :: from <= j < k && Wanted(p, k, j) && p[j].imm.Some?
      && 0 <= p[j].imm.value < |args| && HomeOf(al, p[j].defs[0]).Ok?
      ==> c.regs[HomeOf(al, p[j].defs[0]).value] == args[p[j].imm.value]
  }

  /** No parameter that is read later is overwritten in the parameter block. */
  ghost predicate ParamsArrive(p: Program, moves: seq<Move>, k: nat) {
    |moves| == k && forall j :: 0 <= j < k && Wanted(p, k, j) ==> !Overwritten(moves, j)
  }

  ghost predicate ArgsInPlace(args: seq<Word>, c: Core) {
    forall a :: 0 <= a < |args| && a < ABI_MAX_ARGS ==> c.regs[ABI_ARGS[a]] == args[a]
  }

  ghost predicate Related(p: Program, al: Allocation, args: seq<Word>, k: nat, s: VState, c: Core) {
    && s.pc <= |p| && ForwardReachable(p, s.pc)
    && LiveInPlace(p, al, s.pc, s.env, c)
    && (s.pc == 0 && k > 0 ==> ArgsInPlace(args, c))
    && (s.pc > 0 ==> ParamsInPlace(p, al, args, k, s.pc, c))
  }

  // ---- Preserving the relation ----

  lemma OperandsReady(p: Program, al: Allocation, pc: nat, env: map<VReg, Word>, c: Core)
    requires pc < |p| && LiveInPlace(p, al, pc, env, c)
    ensures OperandsInPlace(al, p[pc], env, c)
  {
    forall n | 0 <= n < |p[pc].uses| ensures LiveAt(p, p[pc].uses[n], pc) {
      UseIsLive(p, p[pc].uses[n], pc);
    }
  }

  lemma ApartHomes(p: Program, al: Allocation, d: VReg, v: VReg, pc: nat)
    requires Structured(p) && DefinedOnAllPaths(p) && KeepsApart(p, al)
    requires pc < |p| && ForwardReachable(p, pc) && d in p[pc].defs && LiveAt(p, v, pc) && d != v
    requires HomeOf(al, d).Ok? && HomeOf(al, v).Ok?
    ensures HomeOf(al, d).value != HomeOf(al, v).value
  {
    hide LiveAt, ForwardReachable, Structured, DefinedOnAllPaths, KeepsApart;
    DefinitionApart(p, al, d, v, pc);
    HomesDistinct(al.Assignment(d), al.Assignment(v));
  }

  lemma DestinationIsApart(p: Program, al: Allocation, pc: nat)
    requires Structured(p) && DefinedOnAllPaths(p) && KeepsApart(p, al)
    requires pc < |p| && ForwardReachable(p, pc)
    ensures TwoOperand.DestinationApart(al, p[pc])
  {
    hide LiveAt, ForwardReachable, Structured, DefinedOnAllPaths, KeepsApart;
    var mi := p[pc];
    forall n | 0 <= n < |mi.uses| && mi.defs != [] && mi.uses[n] != mi.defs[0]
      && HomeOf(al, mi.uses[n]).Ok? && HomeOf(al, mi.defs[0]).Ok?
      ensures HomeOf(al, mi.uses[n]).value != HomeOf(al, mi.defs[0]).value
    {
      UseIsLive(p, mi.uses[n], pc);
      ApartHomes(p, al, mi.defs[0], mi.uses[n], pc);
    }
  }

  /** After a definition, what is live next is in place. */
  lemma DefinitionKeepsLive(p: Program, al: Allocation, pc: nat, d: VReg, w: Word,
                            env: map<VReg, Word>, c: Core, c': Core)
    requires Structured(p) && DefinedOnAllPaths(p) && KeepsApart(p, al)
    requires pc < |p| && ForwardReachable(p, pc) && p[pc].defs == [d] && pc + 1 in Succs(p, pc)
    requires LiveInPlace(p, al, pc, env, c) && HomeOf(al, d).Ok?
    requires c'.regs[HomeOf(al, d).value] == w && OnlyChanges(c, c', HomeOf(al, d).value)
    ensures LiveInPlace(p, al, pc + 1, env[d := w], c')
  {
    hide LiveAt, ForwardReachable, Structured, DefinedOnAllPaths, KeepsApart;
    forall v: VReg | LiveAt(p, v, pc + 1) && v != d
      ensures v in env && HomeOf(al, v).Ok? && c'.regs[HomeOf(al, v).value] == env[v]
    {
      LiveThrough(p, v, pc, pc + 1);
      ApartHomes(p, al, d, v, pc);
    }
  }

  /** A transfer writes no home, so whatever is live at its target was live, and in place, before it. */
  lemma TransferKeepsLive(p: Program, al: Allocation, pc: nat, t: nat, env: map<VReg, Word>, c: Core, c': Core)
    requires pc < |p| && t in Succs(p, pc) && p[pc].defs == []
    requires LiveInPlace(p, al, pc, env, c) && c'.regs == c.regs
    ensures LiveInPlace(p, al, t, env, c')
  {
    hide LiveAt, ForwardReachable;
    forall v: VReg | LiveAt(p, v, t) ensures LiveAt(p, v, pc) {
      LiveThrough(p, v, pc, t);
    }
  }

  // ---- One step ----

  /** The machine after some number of steps from `m`. */
  ghost predicate Reaches(bytes: seq<Byte>, m: Machine, m': Machine) {
    exists n: nat :: MRun(bytes, m, n) == Some(m')
  }

  lemma ReachesTransitive(bytes: seq<Byte>, a: Machine, b: Machine, c: Machine)
    requires Reaches(bytes, a, b) && Reaches(bytes, b, c)
    ensures Reaches(bytes, a, c)
  {
    hide MStep;
    var n: nat :| MRun(bytes, a, n) == Some(b);
    var k: nat :| MRun(bytes, b, k) == Some(c);
    MRunAppend(bytes, a, n, k);
  }

  predicate IsValueOp(op: Mnemonic) {
    op.OpMovImm? || op.OpMov? || op.OpBin? || op.OpUn? || op.OpSelect?
  }

  lemma LowerOfValue(p: Program, al: Allocation, moves: seq<Move>, i: nat)
    requires i < |p| && IsValueOp(p[i].op)
    ensures Lower(p, al, moves, i) == LowerValue(al, p[i])
  {
  }

  /** The code of an instruction that is not a jump. */
  lemma PlainShape(p: Program, al: Allocation, moves: seq<Move>, blocks: seq<seq<Ins>>, bytes: seq<Byte>, i: nat)
    requires EncodedAs(p, al, moves, blocks, bytes) && i < |p| && !IsJump(p[i])
    ensures |blocks| == |p| && Lower(p, al, moves, i) == Ok(blocks[i])
    ensures At(bytes, Position(blocks, i), EncodeAll(blocks[i]))
    ensures Position(blocks, i + 1) == Position(blocks, i) + |EncodeAll(blocks[i])|
  {
    hide Encode, EncodeAll, Layout, Lower, Displacement, Patched, Position;
    BlockAt(p, al, moves, blocks, bytes, i);
  }

  lemma ValueStep(p: Program, al: Allocation, args: seq<Word>, k: nat, moves: seq<Move>, blocks: seq<seq<Ins>>,
                  bytes: seq<Byte>, s: VState, s': VState, c: Core) returns (c': Core)
    requires Executable(p, k) && KeepsApart(p, al) && EncodedAs(p, al, moves, blocks, bytes)
    requires Related(p, al, args, k, s, c) && s.pc < |p| && IsValueOp(p[s.pc].op)
    requires VStep(p, args, s) == Next(s')
    ensures s'.pc <= |p| && s'.pc in Succs(p, s.pc) && s'.pc >= k
    ensures Reaches(bytes, Machine(c, Position(blocks, s.pc)), Machine(c', Position(blocks, s'.pc)))
    ensures c'.stack == c.stack && LiveInPlace(p, al, s'.pc, s'.env, c')
  {
    hide LiveAt, ForwardReachable, Structured, DefinedOnAllPaths, KeepsApart, Encode, EncodeAll, Layout,
         LowerValue, Lower, Decode, ExecSeq, ValueOf, LiveInPlace, Displacement, Flatten, HomeOf, EncodedAs,
         Position, MRun, OperandsInPlace, TwoOperand.DestinationApart;
    var mi := p[s.pc];
    var w := ValueOf(mi, args, s.env).value;
    PlainShape(p, al, moves, blocks, bytes, s.pc);
    LowerOfValue(p, al, moves, s.pc);
    OperandsReady(p, al, s.pc, s.env, c);
    DestinationIsApart(p, al, s.pc);
    ValueCodeComputes(al, mi, args, s.env, c);
    c' := ExecSeq(blocks[s.pc], c).value;
    DefinitionKeepsLive(p, al, s.pc, mi.defs[0], w, s.env, c, c');
    RunPlain(bytes, blocks[s.pc], Machine(c, Position(blocks, s.pc)));
  }

  lemma LabelStep(p: Program, al: Allocation, args: seq<Word>, k: nat, moves: seq<Move>, blocks: seq<seq<Ins>>,
                  bytes: seq<Byte>, s: VState, s': VState, c: Core)
    requires Executable(p, k) && EncodedAs(p, al, moves, blocks, bytes)
    requires Related(p, al, args, k, s, c) && s.pc < |p| && p[s.pc].op.OpLabel?
    requires VStep(p, args, s) == Next(s')
    ensures s'.pc <= |p| && s'.pc in Succs(p, s.pc) && s'.pc >= k
    ensures Reaches(bytes, Machine(c, Position(blocks, s.pc)), Machine(c, Position(blocks, s'.pc)))
    ensures LiveInPlace(p, al, s'.pc, s'.env, c)
  {
    hide LiveAt, ForwardReachable, Structured, DefinedOnAllPaths, Encode, EncodeAll, Layout, Decode, LiveInPlace,
         Displacement, Flatten, MRun, Lower, EncodedAs, Position, Reaches;
    TransferKeepsLive(p, al, s.pc, s.pc + 1, s.env, c, c);
    PlainShape(p, al, moves, blocks, bytes, s.pc);
    LowerShapes(p, al, moves, s.pc);
    NoCode();
    NoSteps(bytes, Machine(c, Position(blocks, s.pc)));
  }

  lemma NoSteps(bytes: seq<Byte>, m: Machine)
    ensures Reaches(bytes, m, m)
  {
    assert MRun(bytes, m, 0) == Some(m);
  }

  lemma JumpShape(p: Program, al: Allocation, moves: seq<Move>, blocks: seq<seq<Ins>>, bytes: seq<Byte>, i: nat)
    returns (rel: int)
    requires EncodedAs(p, al, moves, blocks, bytes) && i < |p| && p[i].op.OpJmp?
    ensures |blocks| == |p| && p[i].imm.Some?
    ensures Displacement(p, blocks, i) == Some(rel) && FitsRel32(rel)
    ensures PatchedTo(p, blocks, |p|)[i] == [] + [Jmp(rel)]
  {
    hide Layout, Position, Lower, LabelIndex;
    rel := Displacement(p, blocks, i).value;
  }

  /** The encoded jump goes to the position of its label. */
  lemma JumpRuns(p: Program, al: Allocation, moves: seq<Move>, blocks: seq<seq<Ins>>, bytes: seq<Byte>, i: nat, c: Core)
    requires EncodedAs(p, al, moves, blocks, bytes) && i < |p| && p[i].op.OpJmp?
    ensures |blocks| == |p| && p[i].imm.Some? && Displacement(p, blocks, i).Some?
    ensures MRun(bytes, Machine(c, Position(blocks, i)), 1)
         == Some(Machine(c, Position(blocks, i + 1) + Displacement(p, blocks, i).value))
  {
    hide Encode, EncodeAll, Layout, Decode, Flatten, MRun, Lower, Position, Displacement, EncodedAs, Patched;
    var rel := JumpShape(p, al, moves, blocks, bytes, i);
    BlockAt(p, al, moves, blocks, bytes, i);
    var m := Machine(c, Position(blocks, i));
    RunThenTransfer(bytes, [], Jmp(rel), m);
    assert MRun(bytes, m, 0 + 1) == MRun(bytes, m, 1);
  }

  lemma JumpStep(p: Program, al: Allocation, args: seq<Word>, k: nat, moves: seq<Move>, blocks: seq<seq<Ins>>,
                 bytes: seq<Byte>, s: VState, s': VState, c: Core)
    requires Executable(p, k) && EncodedAs(p, al, moves, blocks, bytes)
    requires Related(p, al, args, k, s, c) && s.pc < |p| && p[s.pc].op.OpJmp?
    requires VStep(p, args, s) == Next(s')
    ensures s'.pc <= |p| && s'.pc in Succs(p, s.pc) && s'.pc >= k
    ensures Reaches(bytes, Machine(c, Position(blocks, s.pc)), Machine(c, Position(blocks, s'.pc)))
    ensures LiveInPlace(p, al, s'.pc, s'.env, c)
  {
    hide LiveAt, ForwardReachable, Structured, DefinedOnAllPaths, LiveInPlace, MRun, Lower, Position, EncodedAs,
         LabelIndex, Encode, EncodeAll;
    TransferKeepsLive(p, al, s.pc, s'.pc, s.env, c, c);
    JumpRuns(p, al, moves, blocks, bytes, s.pc, c);
  }

  lemma TestThenJz(r: Reg, rel: int, c: Core, at: int, end: int)
    requires IsHome(r)
    ensures ExecSeq([TestRR(r, r)], c).Some?
    ensures var c' := ExecSeq([TestRR(r, r)], c).value;
      && c'.regs == c.regs && c'.stack == c.stack
      && Exec(Jz(rel), Machine(c', at), end)
         == Some(Machine(c', if c.regs[r] == 0 then end + rel else end))
  {
    ExecOne(TestRR(r, r), c);
    TestSelf(c.regs[r]);
  }

  lemma LowerOfBranch(p: Program, al: Allocation, moves: seq<Move>, i: nat)
    requires i < |p| && p[i].op.OpJz? && Lower(p, al, moves, i).Ok?
    ensures p[i].uses != [] && HomeOf(al, p[i].uses[0]).Ok?
    ensures Lower(p, al, moves, i).value
         == [TestRR(HomeOf(al, p[i].uses[0]).value, HomeOf(al, p[i].uses[0]).value), Jz(0)]
  {
    hide HomeOf, LowerValue, Resolve;
    assert HomesOf(al, p[i].uses, 1).Ok?;
  }

  lemma BranchShape(p: Program, al: Allocation, moves: seq<Move>, blocks: seq<seq<Ins>>, bytes: seq<Byte>, i: nat)
    returns (r: Reg, rel: int)
    requires EncodedAs(p, al, moves, blocks, bytes) && i < |p| && p[i].op.OpJz?
    ensures |blocks| == |p|
    ensures p[i].uses != [] && HomeOf(al, p[i].uses[0]) == Ok(r) && IsHome(r)
    ensures Displacement(p, blocks, i) == Some(rel) && FitsRel32(rel)
    ensures PatchedTo(p, blocks, |p|)[i] == [TestRR(r, r)] + [Jz(rel)]
  {
    hide Layout, Position, Lower, LabelIndex;
    assert Lower(p, al, moves, i) == Ok(blocks[i]);
    LowerOfBranch(p, al, moves, i);
    r := HomeOf(al, p[i].uses[0]).value;
    rel := Displacement(p, blocks, i).value;
  }

  /** The encoded branch goes to its label exactly when the home it tests holds zero. */
  lemma BranchRuns(p: Program, al: Allocation, moves: seq<Move>, blocks: seq<seq<Ins>>, bytes: seq<Byte>, i: nat,
                   c: Core) returns (c': Core)
    requires EncodedAs(p, al, moves, blocks, bytes) && i < |p| && p[i].op.OpJz?
    ensures |blocks| == |p| && p[i].uses != [] && HomeOf(al, p[i].uses[0]).Ok?
    ensures c'.regs == c.regs && c'.stack == c.stack
    ensures Displacement(p, blocks, i).Some?
    ensures MRun(bytes, Machine(c, Position(blocks, i)), 2) == Some(Machine(c', Position(blocks, i + 1)
      + if c.regs[HomeOf(al, p[i].uses[0]).value] == 0 then Displacement(p, blocks, i).value else 0))
  {
    hide Encode, EncodeAll, Layout, Decode, Flatten, MRun, Position, Lower, ExecSeq, ExecPlain, Exec, EncodedAs,
         HomeOf, Displacement;
    var r, rel := BranchShape(p, al, moves, blocks, bytes, i);
    BlockAt(p, al, moves, blocks, bytes, i);
    var m := Machine(c, Position(blocks, i));
    var end := Position(blocks, i + 1);
    TestThenJz(r, rel, c, end - |Encode(Jz(rel))|, end);
    c' := ExecSeq([TestRR(r, r)], c).value;
    RunThenTransfer(bytes, [TestRR(r, r)], Jz(rel), m);
    assert MRun(bytes, m, 1 + 1) == MRun(bytes, m, 2);
  }

  lemma BranchStep(p: Program, al: Allocation, args: seq<Word>, k: nat, moves: seq<Move>, blocks: seq<seq<Ins>>,
                   bytes: seq<Byte>, s: VState, s': VState, c: Core) returns (c': Core)
    requires Executable(p, k) && EncodedAs(p, al, moves, blocks, bytes)
    requires Related(p, al, args, k, s, c) && s.pc < |p| && p[s.pc].op.OpJz?
    requires VStep(p, args, s) == Next(s')
    ensures s'.pc <= |p| && s'.pc in Succs(p, s.pc) && s'.pc >= k
    ensures Reaches(bytes, Machine(c, Position(blocks, s.pc)), Machine(c', Position(blocks, s'.pc)))
    ensures c'.stack == c.stack && LiveInPlace(p, al, s'.pc, s'.env, c')
  {
    hide LiveAt, ForwardReachable, Structured, DefinedOnAllPaths, LiveInPlace, MRun, Position, EncodedAs, HomeOf,
         LabelIndex, Encode, EncodeAll, Lower;
    OperandsReady(p, al, s.pc, s.env, c);
    c' := BranchRuns(p, al, moves, blocks, bytes, s.pc, c);
    TransferKeepsLive(p, al, s.pc, s'.pc, s.env, c, c');
  }

  // ---- Parameters ----

  /** The moves of the parameters, in their order. */
  ghost predicate MovesOf(p: Program, al: Allocation, moves: seq<Move>, k: nat) {
    && |moves| == k <= |p|
    && forall j :: 0 <= j < k ==>
         && p[j].imm.Some? && 0 <= p[j].imm.value < ABI_MAX_ARGS && p[j].defs != [] && HomeOf(al, p[j].defs[0]).Ok?
         && moves[j] == Move(ABI_ARGS[p[j].imm.value], HomeOf(al, p[j].defs[0]).value)
  }

  lemma {:induction false} ParamMovesPrefix(p: Program, al: Allocation, k: nat, n: nat)
    requires ParamsFirst(p, k) && n <= |p| && ParamMoves(p, al, n).Ok?
    ensures MovesOf(p, al, ParamMoves(p, al, n).value, if n < k then n else k)
  {
    hide HomeOf;
    if n > 0 {
      ParamMovesPrefix(p, al, k, n - 1);
    }
  }

  lemma MovesAvoidScratch(p: Program, al: Allocation, moves: seq<Move>, k: nat)
    requires MovesOf(p, al, moves, k)
    ensures AvoidsScratch(moves)
  {
  }

  /** A wanted parameter has a home no later parameter is moved into: their intervals overlap. */
  lemma WantedIsLast(p: Program, al: Allocation, moves: seq<Move>, k: nat, j: nat)
    requires Executable(p, k) && KeepsApart(p, al) && MovesOf(p, al, moves, k) && Wanted(p, k, j)
    ensures IsLast(moves, j)
  {
    hide LiveAt, ForwardReachable, Structured, DefinedOnAllPaths, HomeOf, KeepsApart;
    var v := p[j].defs[0];
    ParamsReach(p, k, k);
    assert k < |p| by { LiveInside(p, v, k); }
    forall i | j < i < k ensures moves[i].dst != moves[j].dst {
      LaterParamApart(p, al, v, p[i].defs[0], j, i, k);
      HomesDistinct(al.Assignment(v), al.Assignment(p[i].defs[0]));
    }
  }

  lemma LiveInside(p: Program, v: VReg, i: nat)
    requires LiveAt(p, v, i)
    ensures i < |p|
  {
  }

  lemma LaterParamApart(p: Program, al: Allocation, v: VReg, u: VReg, j: nat, i: nat, k: nat)
    requires Structured(p) && DefinedOnAllPaths(p) && KeepsApart(p, al)
    requires j < i < k < |p| && ForwardReachable(p, k) && LiveAt(p, v, k)
    requires v in p[j].defs && u in p[i].defs && u != v
    ensures al.Assignment(u) != al.Assignment(v)
  {
    hide LiveAt, ForwardReachable, Structured, DefinedOnAllPaths;
    LiveAtCovered(p, v, k);
    assert Mentions(p[j], v) && Mentions(p[i], u);
    IntervalNonEmpty(p, u);
    assert Overlap(IntervalOf(p, v), IntervalOf(p, u));
  }

  /** The parameter block leaves every argument that is wanted in its parameter's home. */
  lemma ParamBlockRuns(p: Program, al: Allocation, args: seq<Word>, k: nat, moves: seq<Move>, c: Core)
    requires Executable(p, k) && KeepsApart(p, al) && MovesOf(p, al, moves, k) && ParamsArrive(p, moves, k)
    requires Resolve(moves).Some? && ArgsInPlace(args, c)
    ensures ExecSeq(Resolve(moves).value, c).Some?
    ensures var c' := ExecSeq(Resolve(moves).value, c).value;
      c'.stack == c.stack && ParamsInPlace(p, al, args, k, 0, c')
  {
    hide Resolve, ExecSeq, HomeOf, Wanted, Executable, KeepsApart, Overwritten, Origin, IsLast;
    MovesAvoidScratch(p, al, moves, k);
    ResolvedCarries(moves, c, RCX);
    var c' := ExecSeq(Resolve(moves).value, c).value;
    forall j | 0 <= j < k && Wanted(p, k, j) && p[j].imm.Some? && 0 <= p[j].imm.value < |args|
      ensures c'.regs[HomeOf(al, p[j].defs[0]).value] == args[p[j].imm.value]
    {
      WantedIsLast(p, al, moves, k, j);
      OriginOfDestination(moves, j);
      ResolvedCarries(moves, c, moves[j].dst);
    }
  }

  /** A state and arguments on which an overwritten parameter does not get its argument. */
  lemma OverwrittenParam(p: Program, al: Allocation, k: nat, moves: seq<Move>, j: nat)
        returns (args: seq<Word>, c: Core)
    requires Executable(p, k) && MovesOf(p, al, moves, k) && Resolve(moves).Some? && j < k && Overwritten(moves, j)
    ensures ArgsInPlace(args, c) && |args| == ABI_MAX_ARGS && ExecSeq(Resolve(moves).value, c).Some?
    ensures p[j].imm.Some? && 0 <= p[j].imm.value < |args| && p[j].defs != [] && HomeOf(al, p[j].defs[0]).Ok?
    ensures ExecSeq(Resolve(moves).value, c).value.regs[HomeOf(al, p[j].defs[0]).value] != args[p[j].imm.value]
  {
    hide Resolve, ExecSeq, HomeOf, Executable;
    MovesAvoidScratch(p, al, moves, k);
    var zeros: RegFile := seq(16, _ => 0);
    var regs: RegFile := zeros[moves[j].dst := 1];
    c := Core(regs, None, []);
    args := seq(ABI_MAX_ARGS, a requires 0 <= a < ABI_MAX_ARGS => regs[ABI_ARGS[a]]);
    OriginOfDestination(moves, j);
    ResolvedCarries(moves, c, moves[j].dst);
  }

  /** The block puts every wanted argument in place, whatever the arguments, exactly when no wanted parameter is
      overwritten. */
  lemma ParamBlockExactly(p: Program, al: Allocation, k: nat, moves: seq<Move>)
    requires Executable(p, k) && KeepsApart(p, al) && ParamMoves(p, al, |p|) == Ok(moves) && Resolve(moves).Some?
    ensures ParamsArrive(p, moves, k) <==> forall args: seq<Word>, c: Core :: BlockPlaces(p, al, args, k, moves, c)
  {
    hide Resolve, ExecSeq, HomeOf, KeepsApart, Overwritten, ParamsInPlace, ParamMoves;
    ParamMovesPrefix(p, al, k, |p|);
    if ParamsArrive(p, moves, k) {
      forall args: seq<Word>, c: Core ensures BlockPlaces(p, al, args, k, moves, c) {
        if ArgsInPlace(args, c) { ParamBlockRuns(p, al, args, k, moves, c); }
      }
    } else {
      var j :| 0 <= j < k && Wanted(p, k, j) && Overwritten(moves, j);
      var args, c := OverwrittenParam(p, al, k, moves, j);
      NotInPlace(p, al, args, k, j, ExecSeq(Resolve(moves).value, c).value);
      assert !BlockPlaces(p, al, args, k, moves, c);
    }
  }

  ghost predicate BlockPlaces(p: Program, al: Allocation, args: seq<Word>, k: nat, moves: seq<Move>, c: Core)
    requires Resolve(moves).Some?
  {
    ArgsInPlace(args, c) ==>
      var o := ExecSeq(Resolve(moves).value, c); o.Some? && ParamsInPlace(p, al, args, k, 0, o.value)
  }

  lemma NotInPlace(p: Program, al: Allocation, args: seq<Word>, k: nat, j: nat, c: Core)
    requires j < k && Wanted(p, k, j) && p[j].imm.Some? && 0 <= p[j].imm.value < |args| && HomeOf(al, p[j].defs[0]).Ok?
    requires c.regs[HomeOf(al, p[j].defs[0]).value] != args[p[j].imm.value]
    ensures !ParamsInPlace(p, al, args, k, 0, c)
  {
  }

  /** What is live among the parameters is read after them and not redefined before. */
  lemma {:induction false} LiveToEnd(p: Program, k: nat, i: nat, v: VReg)
    requires Executable(p, k) && i <= k && LiveAt(p, v, i)
    ensures LiveAt(p, v, k) && forall j :: i <= j < k ==> v !in p[j].defs
    decreases k - i
  {
    hide Structured, DefinedOnAllPaths;
    if i < k {
      var n: nat :| UsedFrom(p, v, i, n);
      assert p[i].op.OpParam? && WellShaped(p[i]);
      var j :| j in Succs(p, i) && UsedFrom(p, v, j, n - 1);
      assert LiveAt(p, v, i + 1);
      LiveToEnd(p, k, i + 1, v);
    }
  }

  lemma ParamStepState(p: Program, al: Allocation, args: seq<Word>, k: nat, s: VState, s': VState, c: Core)
    requires Executable(p, k) && s.pc < k
    requires VStep(p, args, s) == Next(s')
    requires LiveInPlace(p, al, s.pc, s.env, c) && ParamsInPlace(p, al, args, k, s.pc, c)
    requires p[s.pc].defs != [] ==> HomeOf(al, p[s.pc].defs[0]).Ok?
    ensures s'.pc == s.pc + 1 && s'.pc in Succs(p, s.pc)
    ensures LiveInPlace(p, al, s'.pc, s'.env, c) && ParamsInPlace(p, al, args, k, s'.pc, c)
  {
    hide LiveAt, Structured, DefinedOnAllPaths, HomeOf;
    var mi := p[s.pc];
    var d := mi.defs[0];
    forall v: VReg | LiveAt(p, v, s.pc + 1)
      ensures v in s'.env && HomeOf(al, v).Ok? && c.regs[HomeOf(al, v).value] == s'.env[v]
    {
      if v == d {
        LiveToEnd(p, k, s.pc + 1, v);
        assert Wanted(p, k, s.pc);
      } else {
        LiveThrough(p, v, s.pc, s.pc + 1);
      }
    }
  }

  lemma NothingLiveAtEntry(p: Program, al: Allocation, env: map<VReg, Word>, c: Core)
    requires DefinedOnAllPaths(p)
    ensures LiveInPlace(p, al, 0, env, c)
  {
    hide LiveAt;
  }

  /** The first parameter instruction emits the whole block, the others nothing. */
  lemma ParamRuns(p: Program, al: Allocation, args: seq<Word>, k: nat, moves: seq<Move>, blocks: seq<seq<Ins>>,
                  bytes: seq<Byte>, i: nat, c: Core) returns (c': Core)
    requires Executable(p, k) && KeepsApart(p, al) && EncodedAs(p, al, moves, blocks, bytes)
    requires ParamsArrive(p, moves, k) && i < |p| && p[i].op.OpParam?
    requires if i == 0 then ArgsInPlace(args, c) else ParamsInPlace(p, al, args, k, i, c)
    ensures |blocks| == |p| && i < k && c'.stack == c.stack && (i > 0 ==> c' == c)
    ensures Reaches(bytes, Machine(c, Position(blocks, i)), Machine(c', Position(blocks, i + 1)))
    ensures ParamsInPlace(p, al, args, k, i, c')
  {
    hide Encode, EncodeAll, Layout, Decode, Displacement, Flatten, MRun, Position, Lower, ExecSeq, Resolve, HomeOf,
         ParamsInPlace, ParamsArrive, LabelIndex, Structured, DefinedOnAllPaths, KeepsApart, WellShaped, ParamMoves;
    PlainShape(p, al, moves, blocks, bytes, i);
    LowerOfParam(p, al, moves, i, k);
    ParamMovesPrefix(p, al, k, |p|);
    var m := Machine(c, Position(blocks, i));
    if i == 0 {
      ParamBlockRuns(p, al, args, k, moves, c);
      c' := ExecSeq(Resolve(moves).value, c).value;
      RunPlain(bytes, blocks[0], m);
    } else {
      NoCode();
      NoSteps(bytes, m);
      c' := c;
    }
  }

  lemma ParamStep(p: Program, al: Allocation, args: seq<Word>, k: nat, moves: seq<Move>, blocks: seq<seq<Ins>>,
                  bytes: seq<Byte>, s: VState, s': VState, c: Core) returns (c': Core)
    requires Executable(p, k) && KeepsApart(p, al) && EncodedAs(p, al, moves, blocks, bytes)
      && ParamsArrive(p, moves, k)
    requires Related(p, al, args, k, s, c) && s.pc < |p| && p[s.pc].op.OpParam?
    requires VStep(p, args, s) == Next(s')
    ensures |blocks| == |p| && s'.pc == s.pc + 1 <= |p| && s'.pc in Succs(p, s.pc)
    ensures Reaches(bytes, Machine(c, Position(blocks, s.pc)), Machine(c', Position(blocks, s'.pc)))
    ensures c'.stack == c.stack && LiveInPlace(p, al, s'.pc, s'.env, c') && ParamsInPlace(p, al, args, k, s'.pc, c')
  {
    hide LiveAt, ForwardReachable, Structured, DefinedOnAllPaths, KeepsApart, LiveInPlace, Displacement, MRun,
         Position, Lower, HomeOf, ParamsInPlace, VStep, ParamsArrive, Layout, Reaches, ParamMoves;
    ParamMovesPrefix(p, al, k, |p|);
    c' := ParamRuns(p, al, args, k, moves, blocks, bytes, s.pc, c);
    if s.pc == 0 { NothingLiveAtEntry(p, al, s.env, c'); }
    ParamStepState(p, al, args, k, s, s', c');
  }

  lemma LowerOfParam(p: Program, al: Allocation, moves: seq<Move>, i: nat, k: nat)
    requires i < |p| && p[i].op.OpParam? && ParamsFirst(p, k) && Lower(p, al, moves, i).Ok?
    ensures i < k
    ensures i == 0 ==> Resolve(moves).Some? && Lower(p, al, moves, i).value == Resolve(moves).value
    ensures i > 0 ==> Lower(p, al, moves, i).value == []
  {
    hide Resolve, LowerValue;
    if i > 0 {
      assert p[0].op.OpParam?;
    }
  }

  // ---- Any number of steps ----

  lemma StepSimulated(p: Program, al: Allocation, args: seq<Word>, k: nat, moves: seq<Move>, blocks: seq<seq<Ins>>,
                      bytes: seq<Byte>, s: VState, s': VState, c: Core) returns (c': Core)
    requires Executable(p, k) && KeepsApart(p, al) && EncodedAs(p, al, moves, blocks, bytes)
    requires ParamsArrive(p, moves, k) && |blocks| == |p|
    requires Related(p, al, args, k, s, c) && s.pc < |p| && VStep(p, args, s) == Next(s')
    ensures Related(p, al, args, k, s', c') && c'.stack == c.stack
    ensures Reaches(bytes, Machine(c, Position(blocks, s.pc)), Machine(c', Position(blocks, s'.pc)))
  {
    hide LiveAt, Structured, DefinedOnAllPaths, KeepsApart, LiveInPlace, EncodedAs, Position, Reaches, ParamsArrive;
    var op := p[s.pc].op;
    if op.OpParam? {
      c' := ParamStep(p, al, args, k, moves, blocks, bytes, s, s', c);
    } else if op.OpLabel? {
      LabelStep(p, al, args, k, moves, blocks, bytes, s, s', c);
      c' := c;
    } else if op.OpJmp? {
      JumpStep(p, al, args, k, moves, blocks, bytes, s, s', c);
      c' := c;
    } else if op.OpJz? {
      c' := BranchStep(p, al, args, k, moves, blocks, bytes, s, s', c);
    } else {
      c' := ValueStep(p, al, args, k, moves, blocks, bytes, s, s', c);
    }
    ReachabilityStep(p, s.pc, s'.pc);
  }

  /** Whatever state the virtual-register program is in after `n` steps, the encoded machine comes to the
      code of the same instruction with every live register in its home. */
  lemma {:induction false} RunSimulated(p: Program, al: Allocation, args: seq<Word>, k: nat, moves: seq<Move>,
                                        blocks: seq<seq<Ins>>, bytes: seq<Byte>, s: VState, c: Core,
                                        n: nat, s': VState) returns (c': Core)
    requires Executable(p, k) && KeepsApart(p, al) && EncodedAs(p, al, moves, blocks, bytes)
    requires ParamsArrive(p, moves, k) && |blocks| == |p|
    requires Related(p, al, args, k, s, c) && VRun(p, args, s, n) == Next(s')
    ensures Related(p, al, args, k, s', c') && c'.stack == c.stack
    ensures Reaches(bytes, Machine(c, Position(blocks, s.pc)), Machine(c', Position(blocks, s'.pc)))
    decreases n
  {
    hide LiveAt, Structured, DefinedOnAllPaths, KeepsApart, LiveInPlace, EncodedAs, Position, Reaches, ParamsArrive,
         Executable;
    if n == 0 {
      c' := c;
      NoSteps(bytes, Machine(c, Position(blocks, s.pc)));
    } else {
      var s1 := VStep(p, args, s).state;
      var c1 := StepSimulated(p, al, args, k, moves, blocks, bytes, s, s1, c);
      c' := RunSimulated(p, al, args, k, moves, blocks, bytes, s1, c1, n - 1, s');
      ReachesTransitive(bytes, Machine(c, Position(blocks, s.pc)), Machine(c1, Position(blocks, s1.pc)),
        Machine(c', Position(blocks, s'.pc)));
    }
  }

  // ---- Entry and return ----

  /** The callee-saved homes' values, in the order the prologue pushes them. */
  function SavedHomes(regs: RegFile, n: nat): (r: seq<Word>)
    requires FIRST_CALLEE_SAVED <= n <= HOME_COUNT
    ensures |r| == n - FIRST_CALLEE_SAVED
    ensures forall i :: FIRST_CALLEE_SAVED <= i < n ==> r[i - FIRST_CALLEE_SAVED] == regs[HOMES[i]]
  {
    if n == FIRST_CALLEE_SAVED then [] else SavedHomes(regs, n - 1) + [regs[HOMES[n - 1]]]
  }

  lemma {:induction false} PushesRun(n: nat, c: Core)
    requires FIRST_CALLEE_SAVED <= n <= HOME_COUNT
    ensures ExecSeq(Pushes(n), c) == Some(c.(stack := c.stack + SavedHomes(c.regs, n)))
  {
    if n == FIRST_CALLEE_SAVED {
      assert c.stack + [] == c.stack;
    } else {
      PushesRun(n - 1, c);
      ExecSeqAppend(Pushes(n - 1), [Push(HOMES[n - 1])], c);
      var c1 := c.(stack := c.stack + SavedHomes(c.regs, n - 1));
      ExecOne(Push(HOMES[n - 1]), c1);
      assert c1.stack + [c.regs[HOMES[n - 1]]] == c.stack + SavedHomes(c.regs, n);
    }
  }

  ghost predicate Restored(n: nat, saved: RegFile, before: Core, after: Core, base: seq<Word>)
    requires FIRST_CALLEE_SAVED <= n <= HOME_COUNT
  {
    && after.stack == base
    && (forall i :: FIRST_CALLEE_SAVED <= i < n ==> after.regs[HOMES[i]] == saved[HOMES[i]])
    && (forall r: Reg :: (forall i :: FIRST_CALLEE_SAVED <= i < n ==> HOMES[i] != r) ==>
          after.regs[r] == before.regs[r])
  }

  lemma PopLast(n: nat, saved: RegFile, base: seq<Word>, c: Core)
    requires FIRST_CALLEE_SAVED < n <= HOME_COUNT && c.stack == base + SavedHomes(saved, n)
    ensures ExecPlain(Pop(HOMES[n - 1]), c)
         == Some(Put(c, HOMES[n - 1], saved[HOMES[n - 1]]).(stack := base + SavedHomes(saved, n - 1)))
  {
    var top := |c.stack| - 1;
    assert SavedHomes(saved, n) == SavedHomes(saved, n - 1) + [saved[HOMES[n - 1]]];
    hide SavedHomes;
    assert c.stack == (base + SavedHomes(saved, n - 1)) + [saved[HOMES[n - 1]]];
    assert c.stack[..top] == base + SavedHomes(saved, n - 1);
  }

  lemma RestoredStep(n: nat, saved: RegFile, c: Core, c1: Core, after: Core, base: seq<Word>)
    requires FIRST_CALLEE_SAVED < n <= HOME_COUNT
    requires c1.regs == c.regs[HOMES[n - 1] := saved[HOMES[n - 1]]] && Restored(n - 1, saved, c1, after, base)
    ensures Restored(n, saved, c, after, base)
  {
    forall i | FIRST_CALLEE_SAVED <= i < n - 1 ensures HOMES[i] != HOMES[n - 1] {
      HomesDistinct(i, n - 1);
    }
  }

  /** Popping in the opposite order restores exactly the pushed homes. */
  lemma {:induction false} PopsRun(n: nat, saved: RegFile, base: seq<Word>, c: Core)
    requires FIRST_CALLEE_SAVED <= n <= HOME_COUNT && c.stack == base + SavedHomes(saved, n)
    ensures ExecSeq(Pops(n), c).Some? && Restored(n, saved, c, ExecSeq(Pops(n), c).value, base)
  {
    hide ExecPlain;
    if n == FIRST_CALLEE_SAVED {
      assert base + [] == base;
    } else {
      hide Restored;
      var h := HOMES[n - 1];
      var c1 := Put(c, h, saved[h]).(stack := base + SavedHomes(saved, n - 1));
      PopLast(n, saved, base, c);
      ExecCons(Pop(h), Pops(n - 1), c);
      PopsRun(n - 1, saved, base, c1);
      RestoredStep(n, saved, c, c1, ExecSeq(Pops(n - 1), c1).value, base);
    }
  }

  /** What the caller sees when the function has returned. */
  ghost predicate ReturnedTo(m: Machine, value: Word, entry: Core, base: seq<Word>, back: Word) {
    && m.rip == back && m.core.stack == base && m.core.regs[RAX] == value
    && forall r: Reg :: CalleeSaved(r) ==> m.core.regs[r] == entry.regs[r]
  }

  lemma LowerOfReturn(p: Program, al: Allocation, moves: seq<Move>, i: nat)
    requires i < |p| && p[i].op.OpRet? && Lower(p, al, moves, i).Ok?
    ensures p[i].uses != [] && HomeOf(al, p[i].uses[0]).Ok?
    ensures Lower(p, al, moves, i).value
         == ([MovRR(RAX, HomeOf(al, p[i].uses[0]).value)] + Pops(HOME_COUNT)) + [Ret]
  {
    hide HomeOf, LowerValue, Resolve, Pops;
    assert HomesOf(al, p[i].uses, 1).Ok?;
  }

  lemma ReturnPops(c: Core, base: seq<Word>, back: Word, at: int, end: int)
    requires c.stack == base + [back]
    ensures Exec(Ret, Machine(c, at), end) == Some(Machine(c.(stack := base), back))
  {
    assert c.stack[..|c.stack| - 1] == base;
  }

  lemma ReturnRuns(p: Program, al: Allocation, moves: seq<Move>, blocks: seq<seq<Ins>>, bytes: seq<Byte>, i: nat,
                   entry: Core, base: seq<Word>, back: Word, c: Core) returns (m: Machine)
    requires EncodedAs(p, al, moves, blocks, bytes) && i < |p| && p[i].op.OpRet?
    requires c.stack == base + [back] + SavedHomes(entry.regs, HOME_COUNT)
    ensures |blocks| == |p| && p[i].uses != [] && HomeOf(al, p[i].uses[0]).Ok?
    ensures Reaches(bytes, Machine(c, Position(blocks, i)), m)
    ensures ReturnedTo(m, c.regs[HomeOf(al, p[i].uses[0]).value], entry, base, back)
  {
    hide Encode, EncodeAll, Layout, Decode, Displacement, Flatten, MRun, Position, Lower, HomeOf, LabelIndex,
         Pops, ExecSeq, Exec, Restored, SavedHomes, Patched, EncodedAs;
    PlainShape(p, al, moves, blocks, bytes, i);
    LowerOfReturn(p, al, moves, i);
    var h := HomeOf(al, p[i].uses[0]).value;
    var c1 := Put(c, RAX, c.regs[h]);
    var code := [MovRR(RAX, h)] + Pops(HOME_COUNT);
    ExecCons(MovRR(RAX, h), Pops(HOME_COUNT), c);
    PopsRun(HOME_COUNT, entry.regs, base + [back], c1);
    var c2 := ExecSeq(Pops(HOME_COUNT), c1).value;
    var from := Machine(c, Position(blocks, i));
    var end := Position(blocks, i + 1);
    RestoredFacts(entry.regs, c1, c2, base + [back]);
    RunThenTransfer(bytes, code, Ret, from);
    ReturnPops(c2, base, back, end - |Encode(Ret)|, end);
    m := Machine(c2.(stack := base), back);
    assert MRun(bytes, from, |code| + 1) == Some(m);
  }

  lemma RestoredFacts(saved: RegFile, before: Core, after: Core, base: seq<Word>)
    requires Restored(HOME_COUNT, saved, before, after, base)
    ensures after.stack == base && after.regs[RAX] == before.regs[RAX]
    ensures forall r: Reg :: CalleeSaved(r) ==> after.regs[r] == saved[r]
  {
    CalleeSavedHomes();
    assert forall i :: FIRST_CALLEE_SAVED <= i < HOME_COUNT ==> HOMES[i] != RAX;
  }

  // ---- The theorem ----

  /** How a function is entered: at its first byte, the return address on the stack, the first six arguments in the
      registers of the System V calling convention. */
  ghost predicate Entered(m: Machine, args: seq<Word>, base: seq<Word>, back: Word) {
    && m.rip == 0 && m.core.stack == base + [back]
    && (|args| > 0 ==> m.core.regs[RDI] == args[0]) && (|args| > 1 ==> m.core.regs[RSI] == args[1])
    && (|args| > 2 ==> m.core.regs[RDX] == args[2]) && (|args| > 3 ==> m.core.regs[RCX] == args[3])
    && (|args| > 4 ==> m.core.regs[R8] == args[4]) && (|args| > 5 ==> m.core.regs[R9] == args[5])
  }

  lemma EnteredInPlace(m: Machine, args: seq<Word>, base: seq<Word>, back: Word)
    requires Entered(m, args, base, back)
    ensures ArgsInPlace(args, m.core)
  {
  }

  lemma PrologueRuns(p: Program, al: Allocation, moves: seq<Move>, blocks: seq<seq<Ins>>, bytes: seq<Byte>,
                     m: Machine) returns (c: Core)
    requires EncodedAs(p, al, moves, blocks, bytes) && m.rip == 0
    ensures |blocks| == |p| && c.regs == m.core.regs
    ensures c.stack == m.core.stack + SavedHomes(m.core.regs, HOME_COUNT)
    ensures Reaches(bytes, m, Machine(c, Position(blocks, 0)))
  {
    hide Encode, EncodeAll, Decode, Displacement, MRun, Lower, HomeOf, LabelIndex, Pushes, ExecSeq;
    PushesRun(HOME_COUNT, m.core);
    c := ExecSeq(Pushes(HOME_COUNT), m.core).value;
    var code := Pushes(HOME_COUNT);
    assert At(bytes, 0, EncodeAll(code)) by {
      assert bytes[..|EncodeAll(code)|] == EncodeAll(code);
    }
    assert blocks[..0] == [];
    assert Position(blocks, 0) == |EncodeAll(code)|;
    RunPlain(bytes, code, m);
  }

  lemma LastStep(p: Program, args: seq<Word>, s: VState, n: nat) returns (k: nat, s': VState)
    requires VRun(p, args, s, n).Returned?
    ensures VRun(p, args, s, k) == Next(s') && VStep(p, args, s') == VRun(p, args, s, n)
    decreases n
  {
    hide VStep;
    match VStep(p, args, s)
    case Next(s1) =>
      k, s' := LastStep(p, args, s1, n - 1);
      k := k + 1;
    case _ =>
      k, s' := 0, s;
  }

  /** Whenever the virtual-register program returns a value, the encoded bytes, entered as a function on
      the same arguments, return that value in RAX with the caller's stack and registers intact. */
  lemma EncodedFunctionReturns(p: Program, al: Allocation, args: seq<Word>, k: nat, n: nat, value: Word,
                               m: Machine, base: seq<Word>, back: Word) returns (m': Machine)
    requires Assemble(p, al).Ok? && Executable(p, k) && KeepsApart(p, al) && ParametersArrive(p, al, k)
    requires VRun(p, args, VState(0, map[]), n) == Returned(value)
    requires Entered(m, args, base, back)
    ensures Reaches(Assemble(p, al).value.bytes, m, m')
    ensures ReturnedTo(m', value, m.core, base, back)
  {
    hide LiveAt, Structured, DefinedOnAllPaths, KeepsApart, Position, Reaches, ParamsArrive, Assemble, HomeOf, Resolve,
         Lower, LabelIndex, Layout, Displacement;
    EnteredInPlace(m, args, base, back);
    var moves, blocks := AssembledPieces(p, al);
    var bytes := Assemble(p, al).value.bytes;
    var c := PrologueRuns(p, al, moves, blocks, bytes, m);
    var s0 := VState(0, map[]);
    NothingLiveAtEntry(p, al, map[], c);
    var j, s := LastStep(p, args, s0, n);
    var c1 := RunSimulated(p, al, args, k, moves, blocks, bytes, s0, c, j, s);
    OperandsReady(p, al, s.pc, s.env, c1);
    m' := ReturnRuns(p, al, moves, blocks, bytes, s.pc, m.core, base, back, c1);
    ReachesTransitive(bytes, m, Machine(c, Position(blocks, 0)), Machine(c1, Position(blocks, s.pc)));
    ReachesTransitive(bytes, m, Machine(c1, Position(blocks, s.pc)), m');
  }

  // ---- Calls ----

  /** When the registers from the first callee-saved home on are set aside for them, whatever is live across a call sits
      in a register the callee preserves. */
  lemma LiveAcrossCall(ra: LinearScanAllocator, i: nat, v: VReg)
    requires ra.AllHomed() && ra.numGpr == HOME_COUNT && ra.calleeSavedFrom == FIRST_CALLEE_SAVED
    requires Structured(ra.program) && DefinedOnAllPaths(ra.program) && ForwardReachable(ra.program, i)
    requires i < |ra.program| && ra.program[i].op.OpCall? && v !in ra.program[i].defs
    requires LiveAt(ra.program, v, i + 1) && ClassOf(ra.program, v, |ra.program|).General?
    ensures HomeOf(ra.Tables(), v).Ok? && CalleeSaved(HomeOf(ra.Tables(), v).value)
  {
    hide LiveAt, Structured, DefinedOnAllPaths, ForwardReachable, Begin, Finish, ClassOf, Live;
    var p := ra.program;
    assert i + 1 in Succs(p, i);
    LiveThrough(p, v, i, i + 1);
    LiveInside(p, v, i + 1);
    LiveAtCovered(p, v, i);
    assert ForwardReachable(p, i + 1) by { ForwardNext(p, i); }
    LiveAtCovered(p, v, i + 1);
    CalleeSavedHomes();
  }

  lemma ForwardNext(p: Program, i: nat)
    requires ForwardReachable(p, i) && i < |p| && i + 1 in Succs(p, i)
    ensures ForwardReachable(p, i + 1)
  {
  }

  // ---- A zero-spill allocation provides all of this ----

  /** An allocation over the executable homes that did not spill keeps every pair of overlapping registers
      in different homes. */
  lemma ZeroSpillAllocation(ra: LinearScanAllocator)
    requires ra.NoConflict() && ra.AllHomed() && ra.numGpr == HOME_COUNT
    ensures KeepsApart(ra.program, ra.Tables())
    ensures forall v: VReg :: Live(ra.program, v) && ClassOf(ra.program, v, |ra.program|).General? ==>
      HomeOf(ra.Tables(), v).Ok?
  {
  }

  /** Parameters that are all read sit in different homes, so none is overwritten. */
  lemma ReadParamsArrive(p: Program, al: Allocation, k: nat)
    requires Executable(p, k) && KeepsApart(p, al)
    requires forall j :: 0 <= j < k ==> Wanted(p, k, j)
    ensures ParametersArrive(p, al, k)
  {
    hide HomeOf, KeepsApart, Executable, Wanted, IsLast;
    if ParamMoves(p, al, |p|).Err? { return; }
    var moves := ParamMoves(p, al, |p|).value;
    assert ParamsFirst(p, k) by { ExecutableFirst(p, k); }
    ParamMovesPrefix(p, al, k, |p|);
    forall j | 0 <= j < k ensures !Overwritten(moves, j) {
      forall i | 0 <= i < j ensures moves[i].dst != moves[j].dst {
        WantedIsLast(p, al, moves, k, i);
        LastDiffers(moves, i, j);
      }
    }
  }

  lemma ExecutableFirst(p: Program, k: nat)
    requires Executable(p, k)
    ensures ParamsFirst(p, k)
  {
  }

  lemma LastDiffers(moves: seq<Move>, i: nat, j: nat)
    requires i < j < |moves| && IsLast(moves, i)
    ensures moves[i].dst != moves[j].dst
  {
  }

  lemma {:induction false} ParamsReach(p: Program, k: nat, i: nat)
    requires ParamsFirst(p, k) && i <= k
    ensures ForwardReachable(p, i)
  {
    if i > 0 {
      ParamsReach(p, k, i - 1);
      assert i in Succs(p, i - 1);
    }
  }
}
