/** When the encoder accepts straight-line code over a spill-free allocation: exactly what can go wrong, and that
    nothing can when every parameter is read. */
module StraightEncoding {
  import opened Wrappers
  import opened Words
  import opened MachineIR
  import opened LiveIntervals
  import opened LinearScan
  import opened Liveness
  import opened X86
  import opened ParallelMove
  import opened EncoderSpec
  import opened Simulation

  // ---- Straight-line code, as selection leaves it ----

  predicate StraightInstr(mi: Instr) {
    match mi.op
    case OpParam => |mi.defs| == 1 && mi.uses == [] && mi.imm.Some? && mi.imm.value >= 0
    case OpMovImm => |mi.defs| == 1 && mi.uses == [] && mi.imm.Some?
    case OpUn(_) => |mi.defs| == 1 && |mi.uses| == 1
    case OpBin(b) => |mi.defs| == 1 && StraightBin(b, mi)
    case OpRet => |mi.uses| == 1
    case _ => false
  }

  /** Comparisons are signed; a shift has its count in a register or as an immediate. */
  predicate StraightBin(b: BinOp, mi: Instr) {
    if IsShift(b) && |mi.uses| == 1 then mi.imm.Some? && 0 <= mi.imm.value < 64
    else |mi.uses| == 2 && (IsShift(b) || b.Add? || b.Sub? || b.Mul? || b.Div? || b.UDiv? || b.Mod? || b.UMod?
                            || b.And? || b.Or? || b.Xor? || CondOf(b).Some?)
  }

  ghost predicate StraightProgram(p: Program) {
    (forall i :: 0 <= i < |p| ==> StraightInstr(p[i])) && HasReturn(p, |p|)
  }

  predicate ShiftsByRegister(mi: Instr) {
    mi.op.OpBin? && IsShift(mi.op.bin) && |mi.uses| == 2
  }

  /** Every register mentioned has a home. */
  ghost predicate Homed(p: Program, al: Allocation) {
    forall i, v :: 0 <= i < |p| && Mentions(p[i], v) ==> HomeOf(al, v).Ok?
  }

  predicate InRegister(mi: Instr) {
    mi.op.OpParam? ==> mi.imm.Some? && mi.imm.value < ABI_MAX_ARGS
  }

  /** Every parameter is passed in a register, and no shift takes its count from one. */
  ghost predicate Supported(p: Program) {
    forall i :: 0 <= i < |p| ==> InRegister(p[i]) && !ShiftsByRegister(p[i])
  }

  /** What the encoder asks of straight-line code beyond homes: supported instructions, and parameter moves all of whose
      cycles pass through the first. */
  ghost predicate Encodes(p: Program, al: Allocation) {
    && Supported(p)
    && match ParamMoves(p, al, |p|)
       case Ok(moves) => forall c :: Cycle(moves, c) ==> 0 in c
       case Err(_) => false
  }

  // ---- One instruction ----

  lemma OneHome(al: Allocation, slots: seq<VReg>)
    requires slots != [] && HomeOf(al, slots[0]).Ok?
    ensures HomesOf(al, slots, 1) == Ok([HomeOf(al, slots[0]).value])
  {
    HomesStep(al, slots, 1, [], HomeOf(al, slots[0]).value);
    assert [] + [HomeOf(al, slots[0]).value] == [HomeOf(al, slots[0]).value];
  }

  lemma TwoHomes(al: Allocation, slots: seq<VReg>)
    requires |slots| >= 2 && HomeOf(al, slots[0]).Ok? && HomeOf(al, slots[1]).Ok?
    ensures HomesOf(al, slots, 2).Ok?
  {
    OneHome(al, slots);
    HomesStep(al, slots, 2, [HomeOf(al, slots[0]).value], HomeOf(al, slots[1]).value);
  }

  /** A value instruction is encoded unless it shifts by a register. */
  lemma ValueEncodes(al: Allocation, mi: Instr)
    requires StraightInstr(mi) && !mi.op.OpParam? && !mi.op.OpRet?
    requires forall v :: Mentions(mi, v) ==> HomeOf(al, v).Ok?
    ensures LowerValue(al, mi).Ok? <==> !ShiftsByRegister(mi)
  {
    hide HomeOf, HomesOf;
    assert mi.defs[0] in mi.defs;
    OneHome(al, mi.defs);
    NoHomes(al, mi.uses);
    if |mi.uses| >= 1 {
      assert mi.uses[0] in mi.uses;
      OneHome(al, mi.uses);
    }
    if |mi.uses| >= 2 {
      assert mi.uses[1] in mi.uses;
      TwoHomes(al, mi.uses);
    }
  }

  lemma NoHomes(al: Allocation, slots: seq<VReg>)
    ensures HomesOf(al, slots, 0) == Ok([])
  {
  }

  /** Any instruction: parameters after the first emit nothing, the first emits all moves. */
  lemma InstrEncodes(p: Program, al: Allocation, moves: seq<Move>, i: nat)
    requires i < |p| && StraightInstr(p[i]) && Homed(p, al)
    ensures Lower(p, al, moves, i).Ok? <==>
      !ShiftsByRegister(p[i]) && (p[i].op.OpParam? && !HasParamBefore(p, i) ==> Resolve(moves).Some?)
  {
    hide Resolve, LowerValue, HomesOf, HomeOf;
    if p[i].op.OpRet? {
      assert p[i].uses[0] in p[i].uses;
      OneHome(al, p[i].uses);
    } else if !p[i].op.OpParam? {
      ValueEncodes(al, p[i]);
    }
  }

  // ---- The whole program ----

  lemma {:induction false} MovesCollected(p: Program, al: Allocation, n: nat)
    requires n <= |p| && Homed(p, al) && forall i :: 0 <= i < |p| ==> StraightInstr(p[i])
    ensures ParamMoves(p, al, n).Ok? <==> forall i :: 0 <= i < n ==> InRegister(p[i])
  {
    hide HomesOf, HomeOf;
    if n > 0 {
      MovesCollected(p, al, n - 1);
      if p[n - 1].op.OpParam? {
        assert p[n - 1].defs[0] in p[n - 1].defs;
        OneHome(al, p[n - 1].defs);
      }
    }
  }

  lemma {:induction false} BlocksExactly(p: Program, al: Allocation, moves: seq<Move>, n: nat)
    requires n <= |p|
    ensures Blocks(p, al, moves, n).Ok? <==> forall i :: 0 <= i < n ==> Lower(p, al, moves, i).Ok?
  {
    hide Lower;
    if n > 0 { BlocksExactly(p, al, moves, n - 1); }
  }

  lemma {:induction false} NoJumps(p: Program, blocks: seq<seq<Ins>>, n: nat)
    requires |blocks| == |p| && n <= |p| && forall i :: 0 <= i < |p| ==> !IsJump(p[i])
    ensures JumpError(p, blocks, n).None?
  {
    if n > 0 { NoJumps(p, blocks, n - 1); }
  }

  /** Parameters make moves, and only they do. */
  lemma {:induction false} MovesAvoidScratch(p: Program, al: Allocation, n: nat)
    requires n <= |p| && ParamMoves(p, al, n).Ok?
    ensures AvoidsScratch(ParamMoves(p, al, n).value)
    ensures ParamMoves(p, al, n).value == [] <==> !HasParamBefore(p, n)
  {
    hide HomeOf;
    if n > 0 {
      MovesAvoidScratch(p, al, n - 1);
      if !p[n - 1].op.OpParam? { assert HasParamBefore(p, n) <==> HasParamBefore(p, n - 1); }
    }
  }

  lemma FirstParam(p: Program, n: nat) returns (i: nat)
    requires n <= |p| && HasParamBefore(p, n)
    ensures i < n && p[i].op.OpParam? && !HasParamBefore(p, i)
  {
    i := 0;
    while !p[i].op.OpParam?
      invariant i < n && !HasParamBefore(p, i)
      decreases n - i
    {
      i := i + 1;
    }
  }

  lemma AllEncode(p: Program, al: Allocation, moves: seq<Move>)
    requires StraightProgram(p) && Homed(p, al) && ParamMoves(p, al, |p|) == Ok(moves)
    ensures Blocks(p, al, moves, |p|).Ok? <==>
      (forall i :: 0 <= i < |p| ==> !ShiftsByRegister(p[i])) && forall c :: Cycle(moves, c) ==> 0 in c
  {
    MovesAvoidScratch(p, al, |p|);
    ResolveExactly(moves);
    BlocksExactly(p, al, moves, |p|);
    hide Lower, Resolve, ParamMoves, Cycle, StraightInstr, ShiftsByRegister, Homed, AvoidsScratch;
    forall i: nat | i < |p|
      ensures Lower(p, al, moves, i).Ok? <==>
        !ShiftsByRegister(p[i]) && (p[i].op.OpParam? && !HasParamBefore(p, i) ==> Resolve(moves).Some?)
    {
      InstrEncodes(p, al, moves, i);
    }
    if HasParamBefore(p, |p|) {
      var first := FirstParam(p, |p|);
    } else {
      assert moves == [];
      NoCycle();
    }
  }

  lemma NoCycle()
    ensures forall c :: !Cycle([], c)
  {
  }

  lemma StraightHasNoJumps(p: Program)
    requires StraightProgram(p)
    ensures forall i :: 0 <= i < |p| ==> !IsJump(p[i])
  {
  }

  /** The encoder accepts a straight-line program with homes exactly when `Encodes` holds. */
  lemma AssembleExactly(p: Program, al: Allocation)
    requires StraightProgram(p) && Homed(p, al)
    ensures Assemble(p, al).Ok? <==> Encodes(p, al)
  {
    StraightHasNoJumps(p);
    hide StraightInstr, Homed, ShiftsByRegister, InRegister, Cycle, ParamMoves, Blocks, Layout, Displacement, IsJump;
    MovesCollected(p, al, |p|);
    if ParamMoves(p, al, |p|).Ok? {
      var moves := ParamMoves(p, al, |p|).value;
      AllEncode(p, al, moves);
      if Blocks(p, al, moves, |p|).Ok? {
        BlocksShapes(p, al, moves);
        NoJumps(p, Blocks(p, al, moves, |p|).value, |p|);
      }
    }
  }

  /** The registers of an accepted instruction have homes. */
  lemma AcceptedInstr(p: Program, al: Allocation, moves: seq<Move>, i: nat, v: VReg)
    requires i < |p| && StraightInstr(p[i]) && !p[i].op.OpParam? && Lower(p, al, moves, i).Ok?
      && v in p[i].uses + p[i].defs
    requires p[i].op.OpRet? ==> v in p[i].uses
    ensures HomeOf(al, v).Ok?
  {
    hide HomeOf, LowerBin, LowerUn;
    var mi := p[i];
    assert forall j :: 0 <= j < |mi.uses| && mi.uses[j] == v ==> j == 0 || (j == 1 && mi.op.OpBin?);
  }

  lemma {:induction false} AcceptedParam(p: Program, al: Allocation, n: nat, i: nat)
    requires i < n <= |p| && StraightInstr(p[i]) && p[i].op.OpParam? && ParamMoves(p, al, n).Ok?
    ensures HomeOf(al, p[i].defs[0]).Ok?
  {
    hide HomeOf;
    if i < n - 1 { AcceptedParam(p, al, n - 1, i); }
  }

  /** A program that mentions a spilled register is refused. */
  lemma SpilledIsRefused(p: Program, al: Allocation, v: VReg)
    requires StraightProgram(p) && Live(p, v) && al.IsSpilled(v) && forall i :: 0 <= i < |p| && p[i].op.OpRet? ==>
      p[i].defs == []
    ensures Assemble(p, al).Err?
  {
    if ParamMoves(p, al, |p|).Ok? {
      var moves := ParamMoves(p, al, |p|).value;
      BlocksExactly(p, al, moves, |p|);
      var i :| 0 <= i < |p| && Mentions(p[i], v);
      assert HomeOf(al, v).Err? && StraightInstr(p[i]);
      hide Lower, ParamMoves, StraightInstr, HomeOf, Live;
      if Blocks(p, al, moves, |p|).Ok? {
        MentionHomed(p, al, moves, i, v);
      }
    }
  }

  lemma MentionHomed(p: Program, al: Allocation, moves: seq<Move>, i: nat, v: VReg)
    requires i < |p| && StraightInstr(p[i]) && Mentions(p[i], v) && (p[i].op.OpRet? ==> p[i].defs == [])
    requires Lower(p, al, moves, i).Ok? && ParamMoves(p, al, |p|).Ok?
    ensures HomeOf(al, v).Ok?
  {
    hide Lower, ParamMoves, HomeOf;
    if p[i].op.OpParam? {
      AcceptedParam(p, al, |p|, i);
    } else {
      AcceptedInstr(p, al, moves, i, v);
    }
  }

  // ---- When every parameter is read ----

  ghost predicate AllRead(p: Program, k: nat) {
    forall j :: 0 <= j < k ==> Wanted(p, k, j)
  }

  /** The parameters ask for different arguments, in order. */
  predicate InSignatureOrder(p: Program, k: nat)
    requires k <= |p|
  {
    && (forall j :: 0 <= j < k ==> p[j].imm.Some? && p[j].imm.value >= 0)
    && forall i, j :: 0 <= i < j < k ==> p[i].imm.value < p[j].imm.value
  }

  /** The register parameter `j` goes to. */
  function ParamReg(p: Program, j: nat): VReg {
    if j < |p| && p[j].defs != [] then p[j].defs[0] else 0
  }

  lemma ReadParam(p: Program, k: nat, j: nat)
    requires Executable(p, k) && AllRead(p, k) && j < k
    ensures k <= |p| && p[j].defs == [ParamReg(p, j)] && p[j].uses == [] && LiveAt(p, ParamReg(p, j), k)
    ensures forall i :: j < i < k ==> ParamReg(p, i) != ParamReg(p, j)
  {
    assert Wanted(p, k, j) && WellShaped(p[j]) && p[j].op.OpParam?;
    forall i | j < i < k ensures ParamReg(p, i) != ParamReg(p, j) {
      assert Wanted(p, k, i);
      assert ParamReg(p, i) in p[i].defs;
    }
  }

  /** A parameter that is read starts where it is named. */
  lemma ParamBegins(p: Program, k: nat, j: nat)
    requires Executable(p, k) && AllRead(p, k) && j < k
    ensures Live(p, ParamReg(p, j)) && Begin(p, ParamReg(p, j)) == j
  {
    hide Executable, AllRead;
    var v := ParamReg(p, j);
    ReadParam(p, k, j);
    assert Mentions(p[j], v);
    forall i | 0 <= i < j ensures !Mentions(p[i], v) {
      ReadParam(p, k, i);
    }
  }

  lemma OpenIsEarlier(p: Program, k: nat, j: nat, u: VReg) returns (i: nat)
    requires Executable(p, k) && AllRead(p, k) && j < k && u in OpenAtStart(p, ParamReg(p, j))
    ensures i < j && u == ParamReg(p, i)
  {
    hide Executable, AllRead;
    ParamBegins(p, k, j);
    i := Begin(p, u);
    assert i <= j && Mentions(p[i], u);
    ReadParam(p, k, i);
  }

  lemma ReadApart(p: Program, al: Allocation, k: nat, i: nat, j: nat)
    requires Executable(p, k) && KeepsApart(p, al) && AllRead(p, k) && i < j < k
    ensures al.Assignment(ParamReg(p, i)) != al.Assignment(ParamReg(p, j))
  {
    assert Structured(p) && DefinedOnAllPaths(p);
    ReadParam(p, k, i);
    ReadParam(p, k, j);
    hide LiveAt, ForwardReachable, Structured, DefinedOnAllPaths, KeepsApart, AllRead;
    ParamsReach(p, k, k);
    LiveInside(p, ParamReg(p, i), k);
    LivePairApart(p, al, ParamReg(p, i), ParamReg(p, j), k);
  }

  /** Parameters that are all read take the homes in order. */
  lemma {:induction false} ReadParamHome(p: Program, al: Allocation, k: nat, j: nat)
    requires Executable(p, k) && KeepsApart(p, al) && FitsFirst(p, al) && AllRead(p, k) && j < k
    ensures al.Assignment(ParamReg(p, j)) == j
    decreases j
  {
    hide Executable, KeepsApart, AllRead, OpenAtStart, Begin, Live, ParamReg;
    var v := ParamReg(p, j);
    ParamBegins(p, k, j);
    if al.Assignment(v) < j {
      var i := al.Assignment(v);
      ReadParamHome(p, al, k, i);
      ReadApart(p, al, k, i, j);
    } else if al.Assignment(v) > j {
      assert TakenBy(p, al, v, j);
      var u :| u in OpenAtStart(p, v) && al.Assignment(u) == j;
      var i := OpenIsEarlier(p, k, j, u);
      ReadParamHome(p, al, k, i);
    }
  }

  /** Moves that take ascending arguments into the homes in order form no cycle that avoids the first. */
  lemma OrderedMovesResolve(moves: seq<Move>, from: seq<nat>)
    requires |from| == |moves| <= ABI_MAX_ARGS
    requires forall j :: 0 <= j < |moves| ==> from[j] < ABI_MAX_ARGS && moves[j] == Move(ABI_ARGS[from[j]], HOMES[j])
    requires forall i, j :: 0 <= i < j < |moves| ==> from[i] < from[j]
    ensures forall c :: Cycle(moves, c) ==> 0 in c
  {
    forall j: nat | j < |moves| ensures from[j] >= j { AtLeastPlace(from, j); }
    forall c | Cycle(moves, c) ensures 0 in c {
      if 0 !in c { NoLateCycle(moves, from, c); }
    }
  }

  lemma NoLateCycle(moves: seq<Move>, from: seq<nat>, c: seq<nat>)
    requires Placed(moves, from) && Cycle(moves, c)
    ensures 0 in c
  {
    if 0 !in c {
      forall k: nat | k < |c| ensures c[k] == 3 || c[k] == 4 {
        var b := if k == 0 then |c| - 1 else k - 1;
        assert MustPrecede(moves, c[b], c[k]);
        EdgeEnds(moves, from, c[b], c[k]);
      }
      assert MustPrecede(moves, c[|c| - 1], c[0]) && MustPrecede(moves, c[0], c[1]);
      LastEdge(moves, from, c[|c| - 1], c[0]);
      LastEdge(moves, from, c[0], c[1]);
    }
  }

  /** Ascending arguments into the homes in order. */
  ghost predicate Placed(moves: seq<Move>, from: seq<nat>) {
    && |from| == |moves| <= ABI_MAX_ARGS
    && (forall j :: 0 <= j < |moves| ==> j <= from[j] < ABI_MAX_ARGS && moves[j] == Move(ABI_ARGS[from[j]], HOMES[j]))
    && forall i, j :: 0 <= i < j < |moves| ==> from[i] < from[j]
  }

  lemma EdgeEnds(moves: seq<Move>, from: seq<nat>, b: nat, a: nat)
    requires Placed(moves, from) && 0 < a < |moves| && 0 < b < |moves| && MustPrecede(moves, b, a)
    ensures a == 3 || a == 4
  {
    assert ABI_ARGS[from[b]] == HOMES[a];
  }

  lemma LastEdge(moves: seq<Move>, from: seq<nat>, b: nat, a: nat)
    requires Placed(moves, from) && a < |moves| && b < |moves| && MustPrecede(moves, b, a)
    requires (a == 3 || a == 4) && (b == 3 || b == 4)
    ensures a == 3 && b == 4
  {
    assert ABI_ARGS[from[b]] == HOMES[a];
  }

  lemma {:induction false} AtLeastPlace(from: seq<nat>, j: nat)
    requires j < |from| && forall a, b :: 0 <= a < b < |from| ==> from[a] < from[b]
    ensures from[j] >= j
  {
    if j > 0 { AtLeastPlace(from, j - 1); }
  }

  lemma ReadMoves(p: Program, al: Allocation, k: nat, moves: seq<Move>, j: nat)
    requires Executable(p, k) && KeepsApart(p, al) && FitsFirst(p, al) && AllRead(p, k) && j < k
    requires MovesOf(p, al, moves, k)
    ensures p[j].imm.Some? && 0 <= p[j].imm.value < ABI_MAX_ARGS && j < HOME_COUNT
    ensures moves[j] == Move(ABI_ARGS[p[j].imm.value], HOMES[j])
  {
    hide Executable, KeepsApart, FitsFirst, AllRead;
    ReadParam(p, k, j);
    ReadParamHome(p, al, k, j);
  }

  /** With every parameter read, supported code is always accepted. */
  lemma ReadEncodes(p: Program, al: Allocation, k: nat)
    requires Executable(p, k) && KeepsApart(p, al) && FitsFirst(p, al) && AllRead(p, k) && InSignatureOrder(p, k)
    requires StraightProgram(p) && Homed(p, al) && Supported(p)
    ensures Encodes(p, al)
  {
    MovesCollected(p, al, |p|);
    ExecutableFirst(p, k);
    ParamMovesPrefix(p, al, k, |p|);
    var moves := ParamMoves(p, al, |p|).value;
    assert |moves| == k;
    hide Executable, KeepsApart, FitsFirst, AllRead, ParamMoves, Cycle, StraightProgram, Homed, MovesOf, ParamsFirst;
    forall j: nat | j < k
      ensures 0 <= p[j].imm.value < ABI_MAX_ARGS && j < HOME_COUNT
      ensures moves[j] == Move(ABI_ARGS[p[j].imm.value], HOMES[j])
    {
      ReadMoves(p, al, k, moves, j);
    }
    var from: seq<nat> := seq(k, j requires 0 <= j < k => p[j].imm.value);
    if k > 0 { AtLeastPlace(from, k - 1); }
    OrderedMovesResolve(moves, from);
  }
}
