/** When the encoder accepts a program, whatever its jumps and calls: what each instruction has to be, and that the
    jumps of any program of fewer than ten million instructions reach. */
module EncoderAccepts {
  import opened Wrappers
  import opened MachineIR
  import opened LinearScan
  import opened X86
  import opened X86Bytes
  import opened ParallelMove
  import opened EncoderSpec
  import opened StraightEncoding

  /** One of the thirteen homes is assigned. */
  predicate HasHome(al: Allocation, v: VReg) {
    !al.IsSpilled(v) && al.Assignment(v) < 13
  }

  predicate HaveHomes(al: Allocation, slots: seq<VReg>, n: nat) {
    n <= |slots| && forall k :: 0 <= k < n ==> HasHome(al, slots[k])
  }

  function HomesAt(al: Allocation, slots: seq<VReg>, n: nat): (r: seq<Reg>)
    requires HaveHomes(al, slots, n)
    ensures |r| == n
    ensures forall k :: 0 <= k < n ==> r[k] == HOMES[al.Assignment(slots[k])]
  {
    seq(n, k requires 0 <= k < n => HOMES[al.Assignment(slots[k])])
  }

  /** The operation leads from homes to a home. */
  predicate Computes(al: Allocation, mi: Instr, n: nat) {
    HaveHomes(al, mi.defs, 1) && HaveHomes(al, mi.uses, n)
  }

  /** All cycles of the moves pass through the first of them. */
  ghost predicate Untangled(moves: seq<Move>) {
    forall c :: Cycle(moves, c) ==> 0 in c
  }

  /** Only the first four operands of a call are passed. */
  function Passed(mi: Instr): (n: nat)
    ensures n <= |mi.uses| && n <= 4
  {
    if |mi.uses| < 4 then |mi.uses| else 4
  }

  /** What an instruction has to be for the encoder to take it. */
  ghost predicate Acceptable(al: Allocation, mi: Instr) {
    match mi.op
    case OpParam => mi.imm.Some? && 0 <= mi.imm.value < 6 && HaveHomes(al, mi.defs, 1)
    case OpMovImm => mi.imm.Some? && Computes(al, mi, 0)
    case OpMov => Computes(al, mi, 1)
    case OpUn(_) => Computes(al, mi, 1)
    case OpSelect => Computes(al, mi, 3)
    case OpBin(b) =>
      if b.Shl? || b.Shr? || b.LShr? then |mi.uses| == 1 && mi.imm.Some? && mi.imm.value >= 0 && Computes(al, mi, 1)
      else !b.CmpUlt? && !b.CmpUle? && !b.CmpUgt? && !b.CmpUge? && Computes(al, mi, 2)
    case OpRet => HaveHomes(al, mi.uses, 1)
    case OpLabel => mi.imm.Some?
    case OpJmp => mi.imm.Some?
    case OpJz => mi.imm.Some? && HaveHomes(al, mi.uses, 1)
    case OpCall => mi.imm.Some? && Computes(al, mi, Passed(mi))
      && Untangled(ArgumentMoves(HomesAt(al, mi.uses, Passed(mi)), Passed(mi)))
    case OpLoad => false
    case OpStore => false
  }

  /** The moves that put the parameters into their homes. */
  ghost predicate ParamsUntangled(p: Program, al: Allocation) {
    match ParamMoves(p, al, |p|)
    case Ok(moves) => Untangled(moves)
    case Err(_) => false
  }

  /** The jump has a label to go to. */
  ghost predicate Labelled(p: Program, mi: Instr) {
    mi.imm.Some? && mi.imm.value >= 0 && exists t :: 0 <= t < |p| && p[t].op.OpLabel? && p[t].imm == mi.imm
  }

  ghost predicate AllLabelled(p: Program) {
    forall i :: 0 <= i < |p| && (p[i].op.OpJmp? || p[i].op.OpJz?) ==> Labelled(p, p[i])
  }

  /** Every distance to a label fits 32 bits. */
  ghost predicate AllReach(p: Program, al: Allocation) {
    match ParamMoves(p, al, |p|)
    case Err(_) => true
    case Ok(moves) =>
      match Blocks(p, al, moves, |p|)
      case Err(_) => true
      case Ok(blocks) =>
        forall i :: 0 <= i < |p| && IsJump(p[i]) && p[i].imm.Some? ==>
          match Displacement(p, blocks, i)
          case Some(rel) => -0x8000_0000 <= rel < 0x8000_0000
          case None => true
  }

  // ---- One instruction ----

  lemma HomeExactly(al: Allocation, v: VReg)
    ensures HomeOf(al, v).Ok? <==> HasHome(al, v)
    ensures HasHome(al, v) ==> HomeOf(al, v) == Ok(HOMES[al.Assignment(v)])
  {
  }

  lemma {:induction false} HomesExactly(al: Allocation, slots: seq<VReg>, n: nat)
    ensures HomesOf(al, slots, n).Ok? <==> HaveHomes(al, slots, n)
    ensures HaveHomes(al, slots, n) ==> HomesOf(al, slots, n) == Ok(HomesAt(al, slots, n))
  {
    hide HomeOf, HasHome;
    if n > 0 {
      HomesExactly(al, slots, n - 1);
      if n <= |slots| {
        HomeExactly(al, slots[n - 1]);
        if HaveHomes(al, slots, n) {
          assert HaveHomes(al, slots, n - 1);
          assert HomesAt(al, slots, n) == HomesAt(al, slots, n - 1) + [HOMES[al.Assignment(slots[n - 1])]];
        }
      }
    }
  }

  lemma OperandsExactly(al: Allocation, mi: Instr, n: nat)
    ensures Operands(al, mi, n).Ok? <==> Computes(al, mi, n)
  {
    hide HomesOf, HaveHomes, HomesAt;
    HomesExactly(al, mi.defs, 1);
    HomesExactly(al, mi.uses, n);
  }

  lemma ValueExactly(al: Allocation, mi: Instr)
    requires mi.op.OpMovImm? || mi.op.OpMov? || mi.op.OpBin? || mi.op.OpUn? || mi.op.OpSelect? || mi.op.OpLoad?
      || mi.op.OpStore?
    ensures LowerValue(al, mi).Ok? <==> Acceptable(al, mi)
  {
    hide Operands, HaveHomes, Computes;
    OperandsExactly(al, mi, 0);
    OperandsExactly(al, mi, 1);
    OperandsExactly(al, mi, 2);
    OperandsExactly(al, mi, 3);
    ShiftNeedsOne(al, mi);
  }

  lemma ShiftNeedsOne(al: Allocation, mi: Instr)
    ensures Computes(al, mi, 1) ==> |mi.uses| >= 1
  {
  }

  lemma CallExactly(al: Allocation, mi: Instr)
    requires mi.op.OpCall?
    ensures LowerCall(al, mi).Ok? <==> Acceptable(al, mi)
  {
    hide HomesOf, Resolve, Cycle;
    var n := Passed(mi);
    HomesExactly(al, mi.uses, n);
    HomesExactly(al, mi.defs, 1);
    if HaveHomes(al, mi.uses, n) {
      var moves := ArgumentMoves(HomesAt(al, mi.uses, n), n);
      assert AvoidsScratch(moves);
      ResolveExactly(moves);
    }
    hide HaveHomes, AvoidsScratch, ArgumentMoves;
  }

  lemma LowerExactly(p: Program, al: Allocation, moves: seq<Move>, i: nat)
    requires i < |p| && !p[i].op.OpParam?
    ensures Lower(p, al, moves, i).Ok? <==> Acceptable(al, p[i])
  {
    hide LowerValue, LowerCall, HomesOf, Resolve, HaveHomes, Untangled;
    HomesExactly(al, p[i].uses, 1);
    var op := p[i].op;
    if op.OpCall? {
      CallExactly(al, p[i]);
    } else if !op.OpRet? && !op.OpJz? && !op.OpJmp? && !op.OpLabel? {
      ValueExactly(al, p[i]);
    }
  }

  // ---- The program ----

  lemma {:induction false} MovesExactly(p: Program, al: Allocation, n: nat)
    requires n <= |p|
    ensures ParamMoves(p, al, n).Ok? <==> forall i :: 0 <= i < n && p[i].op.OpParam? ==> Acceptable(al, p[i])
  {
    hide HomesOf, HaveHomes;
    if n > 0 {
      MovesExactly(p, al, n - 1);
      HomesExactly(al, p[n - 1].defs, 1);
    }
  }

  ghost predicate OthersAcceptable(p: Program, al: Allocation) {
    forall i :: 0 <= i < |p| && !p[i].op.OpParam? ==> Acceptable(al, p[i])
  }

  lemma BlocksAcceptable(p: Program, al: Allocation, moves: seq<Move>)
    requires ParamMoves(p, al, |p|) == Ok(moves)
    ensures Blocks(p, al, moves, |p|).Ok? <==> OthersAcceptable(p, al) && Untangled(moves)
  {
    MovesAvoidScratch(p, al, |p|);
    ResolveExactly(moves);
    BlocksExactly(p, al, moves, |p|);
    hide Resolve, ParamMoves, Cycle, Acceptable, AvoidsScratch, Blocks;
    forall i: nat | i < |p|
      ensures Lower(p, al, moves, i).Ok? <==>
        if p[i].op.OpParam? then HasParamBefore(p, i) || Resolve(moves).Some? else Acceptable(al, p[i])
    {
      if !p[i].op.OpParam? { LowerExactly(p, al, moves, i); } else { ParamLowers(p, al, moves, i); }
    }
    hide Lower;
    if HasParamBefore(p, |p|) {
      var first := FirstParam(p, |p|);
    } else {
      assert moves == [];
      NoCycle();
    }
  }

  lemma ParamLowers(p: Program, al: Allocation, moves: seq<Move>, i: nat)
    requires i < |p| && p[i].op.OpParam?
    ensures Lower(p, al, moves, i).Ok? <==> HasParamBefore(p, i) || Resolve(moves).Some?
  {
    hide Resolve, HasParamBefore;
  }

  lemma LabelExactly(p: Program, blocks: seq<seq<Ins>>, i: nat)
    requires |blocks| == |p| && i < |p| && p[i].imm.Some?
    ensures Displacement(p, blocks, i).Some? <==> Labelled(p, p[i])
  {
    hide Position;
  }

  lemma {:induction false} JumpsExactly(p: Program, blocks: seq<seq<Ins>>, n: nat)
    requires |blocks| == |p| && n <= |p|
    requires forall i :: 0 <= i < |p| && IsJump(p[i]) ==> p[i].imm.Some?
    ensures JumpError(p, blocks, n).None? <==> forall i :: 0 <= i < n && IsJump(p[i]) ==>
      Displacement(p, blocks, i).Some? && FitsRel32(Displacement(p, blocks, i).value)
  {
    hide Displacement;
    if n > 0 { JumpsExactly(p, blocks, n - 1); }
  }

  /** The encoder accepts a program exactly when every instruction can be encoded, no cycle of the parameter moves
      avoids the first, something returns, and every jump has a label within reach. */
  lemma AcceptedExactly(p: Program, al: Allocation)
    ensures Assemble(p, al).Ok? <==>
      && (forall i :: 0 <= i < |p| ==> Acceptable(al, p[i]))
      && ParamsUntangled(p, al)
      && (exists i :: 0 <= i < |p| && p[i].op.OpRet?)
      && AllLabelled(p) && AllReach(p, al)
  {
    hide Acceptable, ParamMoves, Blocks, Untangled, Displacement, JumpError, Layout, CallSites, Labelled;
    MovesExactly(p, al, |p|);
    if ParamMoves(p, al, |p|).Ok? {
      var moves := ParamMoves(p, al, |p|).value;
      BlocksAcceptable(p, al, moves);
      if Blocks(p, al, moves, |p|).Ok? {
        var blocks := Blocks(p, al, moves, |p|).value;
        BlocksShapes(p, al, moves);
        hide Patchable;
        JumpsExactly(p, blocks, |p|);
        forall i: nat | i < |p| && IsJump(p[i]) ensures Displacement(p, blocks, i).Some? <==> Labelled(p, p[i]) {
          LabelExactly(p, blocks, i);
        }
      }
    }
  }

  // ---- Distances ----

  /** Ten bytes at most for each machine instruction. */
  lemma {:induction false} SizeOfCode(code: seq<Ins>)
    ensures |EncodeAll(code)| <= 10 * |code|
  {
    if code != [] {
      SizeOfCode(code[..|code| - 1]);
      assert |Encode(code[|code| - 1])| <= 10;
    }
  }

  lemma SizeOfResolved(moves: seq<Move>)
    requires Resolve(moves).Some?
    ensures |Resolve(moves).value| <= |moves| + 1
  {
    hide Safe;
  }

  lemma {:induction false} PopsSize(n: nat)
    requires FIRST_CALLEE_SAVED <= n <= HOME_COUNT
    ensures |Pops(n)| == n - 7 && |Pushes(n)| == n - 7
  {
    if n > FIRST_CALLEE_SAVED { PopsSize(n - 1); }
  }

  /** Eight machine instructions at most for each but the first parameter, which carries all moves. */
  lemma SizeOfLowered(p: Program, al: Allocation, moves: seq<Move>, i: nat)
    requires i < |p| && Lower(p, al, moves, i).Ok?
    ensures |Lower(p, al, moves, i).value|
         <= if p[i].op.OpParam? && !HasParamBefore(p, i) then |moves| + 1 else 8
  {
    hide Resolve, HomesOf, HasParamBefore;
    PopsSize(HOME_COUNT);
    if p[i].op.OpCall? {
      CallSize(al, p[i]);
    } else if p[i].op.OpParam? {
      if Resolve(moves).Some? { SizeOfResolved(moves); }
    } else {
      hide Pops;
    }
  }

  lemma CallSize(al: Allocation, mi: Instr)
    requires LowerCall(al, mi).Ok?
    ensures |LowerCall(al, mi).value| <= 8
  {
    hide HomesOf, Resolve;
    var n := Passed(mi);
    var moves := ArgumentMoves(HomesOf(al, mi.uses, n).value, n);
    SizeOfResolved(moves);
  }

  lemma {:induction false} MovesCount(p: Program, al: Allocation, n: nat)
    requires n <= |p| && ParamMoves(p, al, n).Ok?
    ensures |ParamMoves(p, al, n).value| <= n
  {
    hide HomesOf;
    if n > 0 { MovesCount(p, al, n - 1); }
  }

  /** Room for `n` blocks, the one with the parameter moves among them if a parameter came. */
  ghost function Room(p: Program, n: nat): nat
    requires n <= |p|
  {
    80 * n + if HasParamBefore(p, n) then 10 * (|p| + 1) else 0
  }

  lemma {:induction false} SizeOfBlocks(p: Program, al: Allocation, moves: seq<Move>, n: nat)
    requires n <= |p| && |moves| <= |p| && Blocks(p, al, moves, n).Ok?
    ensures |Flatten(Blocks(p, al, moves, n).value)| <= Room(p, n)
  {
    hide Lower, EncodeAll;
    if n > 0 {
      SizeOfBlocks(p, al, moves, n - 1);
      var code := Lower(p, al, moves, n - 1).value;
      SizeOfLowered(p, al, moves, n - 1);
      SizeOfCode(code);
      var front := Blocks(p, al, moves, n - 1).value;
      assert (front + [code])[..n - 1] == front;
    }
  }

  lemma {:induction false} BlocksPrefix(p: Program, al: Allocation, moves: seq<Move>, n: nat, m: nat)
    requires n <= m <= |p| && Blocks(p, al, moves, m).Ok?
    ensures Blocks(p, al, moves, n) == Ok(Blocks(p, al, moves, m).value[..n])
    decreases m
  {
    hide Lower;
    if n < m {
      BlocksPrefix(p, al, moves, n, m - 1);
      var front := Blocks(p, al, moves, m - 1).value;
      assert Blocks(p, al, moves, m).value[..n] == front[..n];
    } else {
      assert Blocks(p, al, moves, m).value[..m] == Blocks(p, al, moves, m).value;
    }
  }

  lemma PositionBound(p: Program, al: Allocation, moves: seq<Move>, n: nat)
    requires n <= |p| && |moves| <= |p| && Blocks(p, al, moves, |p|).Ok?
    ensures Position(Blocks(p, al, moves, |p|).value, n) <= 90 * |p| + 70
  {
    hide Blocks, EncodeAll, Flatten;
    BlocksPrefix(p, al, moves, n, |p|);
    SizeOfBlocks(p, al, moves, n);
    PopsSize(HOME_COUNT);
    SizeOfCode(Pushes(HOME_COUNT));
  }

  /** Ten million instructions are never too far apart. */
  lemma ShortReaches(p: Program, al: Allocation)
    requires |p| <= 10_000_000
    ensures AllReach(p, al)
  {
    hide ParamMoves, Blocks, Position, LabelIndex;
    if ParamMoves(p, al, |p|).Ok? {
      var moves := ParamMoves(p, al, |p|).value;
      MovesCount(p, al, |p|);
      if Blocks(p, al, moves, |p|).Ok? {
        forall n: nat | n <= |p| ensures Position(Blocks(p, al, moves, |p|).value, n) <= 90 * |p| + 70 {
          PositionBound(p, al, moves, n);
        }
      }
    }
  }
}
