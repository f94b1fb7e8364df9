/** A function that is compiled wrongly although nothing in it is dead: three parameters are read only by values that
    are never read, give up the register they share with the fourth, and are moved into it before the fourth is moved
    onto itself. */
module LostParameter {
  import opened Wrappers
  import opened Words
  import opened Finite
  import opened IR
  import opened MachineIR
  import opened LiveIntervals
  import opened LinearScan
  import opened InstrSel
  import opened Scheduler
  import opened StraightLineCode
  import opened X86
  import opened X86Bytes
  import opened ParallelMove
  import opened EncoderSpec
  import opened ExecEncoder
  import opened ByteMachine
  import opened Simulation
  import Ast
  import Interpreter
  import TypeChecker
  import L = Lowering
  import PlainLowering

  // ---- The program ----

  function ParamInstr(v: VReg, i: nat): Instr {
    Instr(OpParam, [v], [], Some(i), General)
  }

  /** Four parameters, of which the last is returned. */
  function FourParams(v: seq<VReg>): Program
    requires |v| == 4
  {
    [ParamInstr(v[0], 0), ParamInstr(v[1], 1), ParamInstr(v[2], 2), ParamInstr(v[3], 3),
     Instr(OpRet, [], [v[3]], None, General)]
  }

  /** All four in the home of the fourth argument. */
  predicate AllInRcx(al: Allocation, v: seq<VReg>)
    requires |v| == 4
  {
    forall j :: 0 <= j < 4 ==> HomeOf(al, v[j]) == Ok(RCX)
  }

  const MOVES: seq<Move> := [Move(RDI, RCX), Move(RSI, RCX), Move(RDX, RCX), Move(RCX, RCX)]

  lemma MovesOfFour(v: seq<VReg>, al: Allocation)
    requires |v| == 4 && AllInRcx(al, v)
    ensures ParamMoves(FourParams(v), al, 5) == Ok(MOVES)
  {
    hide HomeOf;
    var p := FourParams(v);
    forall j | 0 <= j < 4 ensures HomesOf(al, p[j].defs, 1) == Ok([RCX]) {
      OneHome(al, v[j], RCX);
    }
    hide HomesOf;
    assert ParamMoves(p, al, 0) == Ok(MOVES[..0]);
    assert ParamMoves(p, al, 1) == Ok(MOVES[..1]) by { assert MOVES[..0] + [MOVES[0]] == MOVES[..1]; }
    assert ParamMoves(p, al, 2) == Ok(MOVES[..2]) by { assert MOVES[..1] + [MOVES[1]] == MOVES[..2]; }
    assert ParamMoves(p, al, 3) == Ok(MOVES[..3]) by { assert MOVES[..2] + [MOVES[2]] == MOVES[..3]; }
    assert ParamMoves(p, al, 4) == Ok(MOVES) by { assert MOVES[..3] + [MOVES[3]] == MOVES; }
  }

  lemma OneHome(al: Allocation, v: VReg, r: Reg)
    requires HomeOf(al, v) == Ok(r)
    ensures HomesOf(al, [v], 1) == Ok([r])
  {
    hide HomeOf;
    var none: seq<Reg> := [];
    assert HomesOf(al, [v], 0) == Ok(none) && none + [r] == [r];
  }

  /** No move clobbers a source another still reads, so the search accepts the list as it stands; but the register the
      last keeps holds the third argument by then. */
  lemma MovesResolved(c: Core)
    ensures Resolve(MOVES).Some? && AvoidsScratch(MOVES) && Overwritten(MOVES, 3)
    ensures var o := ExecSeq(Resolve(MOVES).value, c);
      o.Some? && o.value.stack == c.stack && o.value.regs[RCX] == c.regs[RDX]
  {
    hide SafeOrder, ExecSeq, Origin, Identity, Staged;
    assert IsPermutation(Identity(4), 4) && InBounds(MOVES, Identity(4)) && Safe(MOVES, Identity(4));
    assert SafeOrder(MOVES).Some?;
    assert Writes(MOVES[2], RCX);
    OriginOfLast(MOVES, 4, RCX, 2);
    hide Resolve;
    ResolvedCarries(MOVES, c, RCX);
  }

  lemma {:induction false} NoJumps(p: Program, blocks: seq<seq<Ins>>, n: nat)
    requires |blocks| == |p| && n <= |p| && forall i :: 0 <= i < |p| ==> !IsJump(p[i])
    ensures JumpError(p, blocks, n).None?
  {
    if n > 0 { NoJumps(p, blocks, n - 1); }
  }

  lemma BlocksOfFour(v: seq<VReg>, al: Allocation)
    requires |v| == 4 && AllInRcx(al, v) && Resolve(MOVES).Some?
    ensures Blocks(FourParams(v), al, MOVES, 5).Ok?
  {
    hide HomeOf, Resolve, Pops, LowerValue;
    var p := FourParams(v);
    OneHome(al, v[3], RCX);
    assert HasParamBefore(p, 1) && HasParamBefore(p, 2) && HasParamBefore(p, 3) by { assert p[0].op.OpParam?; }
    forall i | 0 <= i < 5 ensures Lower(p, al, MOVES, i).Ok? {
    }
    AllBlocks(p, al, MOVES, 5);
  }

  lemma {:induction false} AllBlocks(p: Program, al: Allocation, moves: seq<Move>, n: nat)
    requires n <= |p| && forall i :: 0 <= i < n ==> Lower(p, al, moves, i).Ok?
    ensures Blocks(p, al, moves, n).Ok?
  {
    hide Lower;
    if n > 0 { AllBlocks(p, al, moves, n - 1); }
  }

  lemma FourAssembled(v: seq<VReg>, al: Allocation)
    requires |v| == 4 && AllInRcx(al, v)
    ensures Assemble(FourParams(v), al).Ok?
  {
    hide HomeOf, Resolve, Lower, Layout, CallSites, Blocks, ParamMoves, Displacement;
    var p := FourParams(v);
    MovesOfFour(v, al);
    MovesResolved(Core(seq(16, _ => 0), None, []));
    BlocksOfFour(v, al);
    BlocksShapes(p, al, MOVES);
    assert HasReturn(p, 5) by { assert p[4].op.OpRet?; }
    NoJumps(p, Blocks(p, al, MOVES, 5).value, 5);
  }

  lemma SameFirst(v: seq<VReg>, al: Allocation, moves: seq<Move>, blocks: seq<seq<Ins>>, bytes: seq<Byte>, i: nat)
    requires |v| == 4 && EncodedAs(FourParams(v), al, moves, blocks, bytes) && 0 < i < 4
    ensures |blocks| == 5 && Position(blocks, i + 1) == Position(blocks, i)
  {
    hide Encode, EncodeAll, Layout, Lower, Displacement, Patched, Position, EncodedAs;
    var p := FourParams(v);
    PlainShape(p, al, moves, blocks, bytes, i);
    EmptyParam(p, al, moves, i);
    NoCode();
  }

  lemma EmptyParam(p: Program, al: Allocation, moves: seq<Move>, i: nat)
    requires 0 < i < |p| && p[0].op.OpParam? && p[i].op.OpParam?
    ensures Lower(p, al, moves, i) == Ok([])
  {
    hide Resolve, LowerValue;
  }

  lemma FirstBlock(p: Program, al: Allocation, moves: seq<Move>)
    requires p != [] && p[0].op.OpParam? && Resolve(moves).Some?
    ensures Lower(p, al, moves, 0) == Ok(Resolve(moves).value)
  {
    hide Resolve, LowerValue;
  }

  /** The encoded program returns its third argument. */
  lemma FourReturnThird(v: seq<VReg>, al: Allocation, args: seq<Word>, m: Machine, base: seq<Word>, back: Word)
    requires |v| == 4 && AllInRcx(al, v) && |args| >= 4 && Entered(m, args, base, back)
    ensures Assemble(FourParams(v), al).Ok?
    ensures ReturnsValue(Assemble(FourParams(v), al).value.bytes, m, args[2], base, back)
  {
    hide Encode, EncodeAll, Layout, Lower, Displacement, Patched, Position, HomeOf, Resolve, ExecSeq, Assemble, MRun,
         SavedHomes, EncodedAs, ReturnedTo;
    var p := FourParams(v);
    FourAssembled(v, al);
    MovesOfFour(v, al);
    var bytes := Assemble(p, al).value.bytes;
    var moves, blocks := AssembledPieces(p, al);
    var c := PrologueRuns(p, al, moves, blocks, bytes, m);
    PlainShape(p, al, moves, blocks, bytes, 0);
    MovesAre(p, al, moves, blocks, bytes);
    MovesResolved(c);
    FirstBlock(p, al, moves);
    var c' := ExecSeq(Resolve(MOVES).value, c).value;
    var m0 := Machine(c, Position(blocks, 0));
    RunPlain(bytes, blocks[0], m0);
    SameFirst(v, al, moves, blocks, bytes, 1);
    SameFirst(v, al, moves, blocks, bytes, 2);
    SameFirst(v, al, moves, blocks, bytes, 3);
    assert Reaches(bytes, m0, Machine(c', Position(blocks, 4)));
    var m' := ReturnRuns(p, al, moves, blocks, bytes, 4, m.core, base, back, c');
    assert c.regs[RDX] == args[2] by { assert ABI_ARGS[2] == RDX; }
    ReachesTransitive(bytes, m, m0, Machine(c', Position(blocks, 4)));
    ReachesTransitive(bytes, m, Machine(c', Position(blocks, 4)), m');
  }

  lemma MovesAre(p: Program, al: Allocation, moves: seq<Move>, blocks: seq<seq<Ins>>, bytes: seq<Byte>)
    requires EncodedAs(p, al, moves, blocks, bytes)
    ensures ParamMoves(p, al, |p|) == Ok(moves)
  {
    hide Layout, Lower, Displacement, Patched;
  }

  // ---- The allocation ----

  ghost predicate Apart(v: seq<VReg>)
    requires |v| == 4
  {
    forall i, j :: 0 <= i < j < 4 ==> v[i] != v[j]
  }

  lemma FourMentions(v: seq<VReg>, j: nat)
    requires |v| == 4 && Apart(v) && j < 4
    ensures forall i :: 0 <= i < 5 ==> (Mentions(FourParams(v)[i], v[j]) <==> i == j || (j == 3 && i == 4))
  {
  }

  lemma FourIntervals(v: seq<VReg>, j: nat)
    requires |v| == 4 && Apart(v) && j < 4
    ensures var p := FourParams(v);
      Live(p, v[j]) && Begin(p, v[j]) == j && Finish(p, v[j]) == (if j == 3 then 4 else j)
  {
    var p := FourParams(v);
    FourMentions(v, j);
    assert Mentions(p[j], v[j]);
    assert SpanAt(p, 0).None? && SpanAt(p, 1).None? && SpanAt(p, 2).None? && SpanAt(p, 3).None? && SpanAt(p, 4).None?;
    assert SpansTo(p, 0) == [] && SpansTo(p, 1) == [] && SpansTo(p, 2) == [];
    assert SpansTo(p, 3) == [] && SpansTo(p, 4) == [] && SpansTo(p, 5) == [];
    assert LastOf(p, v[j], 5) == if j == 3 then 4 else j;
  }

  lemma FourLive(v: seq<VReg>, u: VReg)
    requires |v| == 4 && Live(FourParams(v), u)
    ensures u in v
  {
    var p := FourParams(v);
    var i :| 0 <= i < 5 && i < |p| && Mentions(p[i], u);
  }

  /** None of the four is in use where another starts: nothing is spilled, and each has the first home. */
  lemma NothingOpen(ra: LinearScanAllocator, v: seq<VReg>, j: nat)
    requires |v| == 4 && Apart(v) && j < 4 && ra.program == FourParams(v)
    ensures OpenAtStart(ra.program, v[j]) == {}
  {
    hide Begin, Finish;
    FourIntervals(v, j);
    forall u | u in OpenAtStart(ra.program, v[j]) ensures false {
      FourLive(v, u);
      var i :| 0 <= i < 4 && v[i] == u;
      FourIntervals(v, i);
    }
  }

  lemma FourAllocated(ra: LinearScanAllocator, v: seq<VReg>, spills: nat)
    requires |v| == 4 && Apart(v) && ra.program == FourParams(v) && ra.numGpr == HOME_COUNT && ra.calleeSavedFrom == 0
    requires spills == 0 ==> ra.AllHomed() && ra.FirstFit()
    requires spills > 0 ==> exists u: VReg :: Live(ra.program, u) && ra.Outnumbered(u)
    ensures spills == 0 && AllInRcx(ra.Tables(), v)
  {
    hide Begin, Finish, Live, SpansCall;
    var p := ra.program;
    forall u: VReg | Live(p, u) ensures !ra.Outnumbered(u) {
      FourLive(v, u);
      var i :| 0 <= i < 4 && v[i] == u;
      NothingOpen(ra, v, i);
      FourGeneral(v, i);
    }
    forall j | 0 <= j < 4 ensures HomeOf(ra.Tables(), v[j]) == Ok(RCX) {
      FourIntervals(v, j);
      NothingOpen(ra, v, j);
      assert !TakenBy(p, ra.Tables(), v[j], 0) && HOMES[0] == RCX;
    }
  }

  lemma FourGeneral(v: seq<VReg>, j: nat)
    requires |v| == 4 && j < 4
    ensures ClassOf(FourParams(v), v[j], 5).General?
  {
    assert forall i :: 0 <= i < 5 ==> FourParams(v)[i].rc.General?;
    GeneralClass(FourParams(v), v[j], 5);
  }

  lemma {:induction false} GeneralClass(p: Program, v: VReg, n: nat)
    requires n <= |p| && forall i :: 0 <= i < |p| ==> p[i].rc.General?
    ensures ClassOf(p, v, n).General?
  {
    if n > 0 { GeneralClass(p, v, n - 1); }
  }

  // ---- The graph ----

  /** Four parameters; the first three negated, the results unused; the fourth returned. */
  function UnreadGraph(): seq<Node> {
    [L.START, L.Bare(Proj, [0], 0), L.Bare(Proj, [0], 1),
     L.Bare(Parameter, [], 0), L.Bare(Parameter, [], 0), L.Bare(Parameter, [], 0), L.Bare(Parameter, [], 0),
     L.Bare(Un(Neg), [3], 0), L.Bare(Un(Neg), [4], 0), L.Bare(Un(Neg), [5], 0), L.Bare(Return, [1, 2, 6], 0)]
  }

  lemma UnreadSurvivors(id: NodeId)
    ensures Survives(UnreadGraph(), id) <==> 3 <= id <= 6 || id == 10
  {
    var g := UnreadGraph();
    assert OperandNodes(g, 7) == [3] && OperandNodes(g, 8) == [4] && OperandNodes(g, 9) == [5]
      && OperandNodes(g, 10) == [6];
    assert OperandNodes(g, 3) == [] && OperandNodes(g, 4) == [] && OperandNodes(g, 5) == [] && OperandNodes(g, 6) == [];
    if id == 3 { assert id in OperandNodes(g, 7); }
    if id == 4 { assert id in OperandNodes(g, 8); }
    if id == 5 { assert id in OperandNodes(g, 9); }
    if id == 6 { assert id in OperandNodes(g, 10); }
  }

  lemma {:induction false} AscendFrom(ids: seq<NodeId>, k: nat, j: nat)
    requires j < k <= |ids| && ids[0] >= 3 && forall a, b :: 0 <= a < b < k ==> ids[a] < ids[b]
    ensures ids[j] >= 3 + j
  {
    if j > 0 { AscendFrom(ids, k, j - 1); }
  }

  /** Selection can only leave the four parameters, in order, and the return. */
  lemma UnreadIds(ids: seq<NodeId>)
    requires Distinct(ids) && (forall id: NodeId :: id in ids <==> 3 <= id <= 6 || id == 10)
    requires ParamsLead(UnreadGraph(), ids) && ParamsAscend(UnreadGraph(), ids)
    ensures ids == [3, 4, 5, 6, 10]
  {
    var g := UnreadGraph();
    assert forall n: NodeId :: n < |g| ==> (LiveParameter(g, n) <==> 3 <= n <= 6);
    DistinctSize(ids);
    assert Members(ids) == {3, 4, 5, 6, 10};
    assert |ids| == 5;
    hide ParamsLead, ParamsAscend;
    ParametersLead(ids);
    AscendFrom(ids, 4, 0);
    AscendFrom(ids, 4, 1);
    AscendFrom(ids, 4, 2);
    AscendFrom(ids, 4, 3);
    assert ids[3] in ids && ids[2] in ids && ids[1] in ids && ids[0] in ids;
  }

  lemma ParametersLead(ids: seq<NodeId>)
    requires Distinct(ids) && |ids| == 5 && (forall id: NodeId :: id in ids <==> 3 <= id <= 6 || id == 10)
    requires ParamsLead(UnreadGraph(), ids) && ParamsAscend(UnreadGraph(), ids)
    ensures ids[4] == 10 && (forall j :: 0 <= j < 4 ==> 3 <= ids[j] <= 6)
    ensures forall a, b :: 0 <= a < b < 4 ==> ids[a] < ids[b]
  {
    var g := UnreadGraph();
    forall j | 0 <= j < 5 ensures 3 <= ids[j] <= 6 || ids[j] == 10 { assert ids[j] in ids; }
    assert 10 in ids;
    var t :| 0 <= t < 5 && ids[t] == 10;
    assert !LiveParameter(g, 10);
    forall j | 0 <= j < 5 && j != t ensures LiveParameter(g, ids[j]) {
      assert ids[j] != ids[t];
    }
  }

  lemma UnreadProgram(names: Naming, next: VReg, ids: seq<NodeId>, p: Program) returns (v: seq<VReg>)
    requires Selected(UnreadGraph(), names, next, ids, p) && ids == [3, 4, 5, 6, 10]
    ensures |v| == 4 && Apart(v) && p == FourParams(v)
  {
    hide UnreadGraph, AllNamed, CodeOf, CodeOfAll, OperandsFirst, Distinct, IsCollected;
    assert ids[0] == 3 && ids[1] == 4 && ids[2] == 5 && ids[3] == 6 && ids[4] == 10;
    forall j | 0 <= j < 5
      ensures |p| == 5 && ids[j] < |UnreadGraph()| && AllNamed(UnreadGraph(), names, ids[j])
      ensures p[j] == CodeOf(UnreadGraph(), names, ids[j])
    {
      CodeAt(UnreadGraph(), names, next, ids, p, j);
    }
    UnreadParam(names, 0);
    UnreadParam(names, 1);
    UnreadParam(names, 2);
    UnreadParam(names, 3);
    UnreadReturn(names);
    v := [names[3], names[4], names[5], names[6]];
    assert p == FourParams(v);
  }

  lemma UnreadParam(names: Naming, j: nat)
    requires j < 4 && AllNamed(UnreadGraph(), names, 3 + j)
    ensures 3 + j in names && CodeOf(UnreadGraph(), names, 3 + j) == ParamInstr(names[3 + j], j)
  {
    var g := UnreadGraph();
    NamedParts(g, names, 3 + j);
    assert LiveParametersBefore(g, 3) == 0 by {
      assert LiveParametersBefore(g, 0) == 0 && LiveParametersBefore(g, 1) == 0 && LiveParametersBefore(g, 2) == 0;
    }
    assert LiveParametersBefore(g, 4) == 1 && LiveParametersBefore(g, 5) == 2 && LiveParametersBefore(g, 6) == 3;
  }

  lemma UnreadReturn(names: Naming)
    requires AllNamed(UnreadGraph(), names, 10)
    ensures 6 in names && CodeOf(UnreadGraph(), names, 10) == Instr(OpRet, [], [names[6]], None, General)
  {
    hide LiveParametersBefore;
    var g := UnreadGraph();
    assert |g| == 11 && g[10].kind == Return && OperandNodes(g, 10) == [6];
    NamedParts(g, names, 10);
    hide UnreadGraph, OperandNodes;
    assert OperandNodes(g, 10)[0] == 6;
    assert CodeOf(g, names, 10).uses == [names[6]];
  }

  // ---- The source ----

  const A: Ast.Name := 0
  const B: Ast.Name := 1
  const C: Ast.Name := 2
  const D: Ast.Name := 3
  const X: Ast.Name := 4
  const Y: Ast.Name := 5
  const Z: Ast.Name := 6

  function Negated(x: Ast.Name, a: Ast.Name): Ast.Stmt {
    Ast.Let(x, false, Some(Ast.Unary(Ast.MinusSign, Ast.Ident(a))))
  }

  /** `fn f(a, b, c, d) { let x = -a; let y = -b; let z = -c; return d; }` */
  function Unread(): Ast.Fn {
    Ast.Fn([Ast.Param(A, false), Ast.Param(B, false), Ast.Param(C, false), Ast.Param(D, false)],
           [Negated(X, A), Negated(Y, B), Negated(Z, C), Ast.ReturnStmt(Some(Ast.Ident(D)))])
  }

  lemma NegatedChecked(x: Ast.Name, a: Ast.Name, f: TypeChecker.Frame)
    requires Ast.Get<bool>(f, x).None? && Ast.Get<bool>(f, a).Some?
    ensures TypeChecker.CheckStmt(Negated(x, a), f) == Some(f + [(x, false)])
    ensures forall y :: Ast.Get<bool>(f + [(x, false)], y) == if y == x then Some(false) else Ast.Get<bool>(f, y)
  {
    hide Ast.Get;
    TypeChecker.Extended(f, x, false);
    assert TypeChecker.AcceptsExpr(Ast.Ident(a), f);
  }

  lemma {:induction false} FrameOf(names: seq<Ast.Name>) returns (params: seq<Ast.Param>)
    requires forall i, j :: 0 <= i < j < |names| ==> names[i] != names[j]
    ensures |params| == |names| && forall i :: 0 <= i < |names| ==> params[i] == Ast.Param(names[i], false)
    ensures TypeChecker.ParamFrame(params).Some?
    ensures forall y :: Ast.Get<bool>(TypeChecker.ParamFrame(params).value, y) == if y in names then Some(false)
      else None
  {
    if names == [] {
      params := [];
    } else {
      var n := |names| - 1;
      var front := FrameOf(names[..n]);
      params := front + [Ast.Param(names[n], false)];
      assert params[..n] == front;
      TypeChecker.Extended(TypeChecker.ParamFrame(front).value, names[n], false);
      assert forall y :: y in names <==> y in names[..n] || y == names[n];
    }
  }

  lemma UnreadAccepted()
    ensures TypeChecker.Accepts(Unread()) && PlainLowering.AllPlain(Unread().stmts)
  {
    hide Ast.Get, TypeChecker.ParamFrame;
    var params := FrameOf([A, B, C, D]);
    assert params == Unread().params;
    var f := TypeChecker.ParamFrame(params).value;
    var s := Unread().stmts;
    NegatedChecked(X, A, f);
    var f1 := f + [(X, false)];
    NegatedChecked(Y, B, f1);
    var f2 := f1 + [(Y, false)];
    NegatedChecked(Z, C, f2);
    var f3 := f2 + [(Z, false)];
    assert TypeChecker.CheckStmt(s[3], f3) == Some(f3) by { assert TypeChecker.AcceptsExpr(Ast.Ident(D), f3); }
    assert s[1..][1..][1..] == [s[3]] && [s[3]][1..] == [];
    assert TypeChecker.CheckAll(s[1..][1..][1..], f3) == Some(f3);
    assert s[1..][1..][0] == s[2] && s[1..][0] == s[1];
    assert PlainLowering.AllPlain([s[3]]);
    assert PlainLowering.AllPlain(s[1..][1..]);
  }

  lemma NegatedRuns(x: Ast.Name, a: Ast.Name, env: Interpreter.Env)
    requires a in env
    ensures Interpreter.Exec(Negated(x, a), env) == Interpreter.Go(env[x := EvalUn(Neg, env[a])])
  {
    assert Interpreter.EvalExpr(Ast.Ident(a), env) == Some((env[a], env));
  }

  lemma {:induction false} BoundAt(params: seq<Ast.Param>, args: seq<Word>, i: nat)
    requires i < |params| <= |args| && forall j :: i < j < |params| ==> params[j].name != params[i].name
    ensures params[i].name in Interpreter.Bound(params, args)
    ensures Interpreter.Bound(params, args)[params[i].name] == args[i]
  {
    if i < |params| - 1 { BoundAt(params[..|params| - 1], args, i); }
  }

  /** The interpreter returns the fourth argument. */
  lemma UnreadReturnsFourth(args: seq<Word>)
    requires |args| >= 4
    ensures Interpreter.Call(Unread(), args) == Some(args[3])
  {
    hide EvalUn, Interpreter.Bound;
    var s := Unread().stmts;
    var env := Interpreter.Bound(Unread().params, args);
    BoundAt(Unread().params, args, 0);
    BoundAt(Unread().params, args, 1);
    BoundAt(Unread().params, args, 2);
    BoundAt(Unread().params, args, 3);
    NegatedRuns(X, A, env);
    var e1 := env[X := EvalUn(Neg, env[A])];
    NegatedRuns(Y, B, e1);
    var e2 := e1[Y := EvalUn(Neg, e1[B])];
    NegatedRuns(Z, C, e2);
    var e3 := e2[Z := EvalUn(Neg, e2[C])];
    assert Interpreter.Exec(s[3], e3) == Interpreter.Done(args[3]) by {
      assert Interpreter.EvalExpr(Ast.Ident(D), e3) == Some((args[3], e3));
    }
    assert s[1..][1..][1..] == [s[3]];
    assert Interpreter.ExecAll([s[3]], e3) == Interpreter.Done(args[3]);
    assert s[1..][1..][0] == s[2] && s[1..][0] == s[1];
    assert Interpreter.ExecAll(s[1..][1..], e2) == Interpreter.Done(args[3]);
  }

  /** Lowering `let x = -a;` adds one node. */
  lemma NegatedLowered(x: Ast.Name, a: Ast.Name, s: L.Lower, n: NodeId)
    requires Ast.Get<NodeId>(s.names, a) == Some(n) && (Un(Neg), [n]) !in s.table
    ensures L.LowerStmt(Negated(x, a), s) == Some(s.(g := s.g + [L.Bare(Un(Neg), [n], 0)],
      table := s.table[(Un(Neg), [n]) := |s.g|], names := Ast.Put<NodeId>(s.names, x, |s.g|)))
  {
    hide Ast.Get, Ast.Put;
    assert L.LowerExpr(Ast.Ident(a), s) == (s, n);
  }

  ghost predicate ParamsAt(s: L.Lower, params: seq<Ast.Param>) {
    |s.g| == 3 + |params| && forall i: nat :: i < |params| ==> ParamAt(s, params, i)
  }

  ghost predicate ParamAt(s: L.Lower, params: seq<Ast.Param>, i: nat)
    requires i < |params| && |s.g| == 3 + |params|
  {
    s.g[3 + i] == L.Bare(Parameter, [], 0) && Ast.Get<NodeId>(s.names, params[i].name) == Some(3 + i)
  }

  lemma {:induction false} LoweredParams(params: seq<Ast.Param>)
    requires forall i, j :: 0 <= i < j < |params| ==> params[i].name != params[j].name
    ensures var s := L.LowerParams(params, L.Fresh());
      && |s.g| == 3 + |params| && s.g[..3] == L.Fresh().g && s.table == map[] && s.ctrl == 1 && s.eff == 2
      && ParamsAt(s, params)
  {
    if params != [] {
      var n := |params| - 1;
      LoweredParams(params[..n]);
      var front := L.LowerParams(params[..n], L.Fresh());
      var s := L.LowerParams(params, L.Fresh());
      assert s == L.Make(front, Parameter, [], 0).(names := Ast.Put<NodeId>(front.names, params[n].name, |front.g|));
      OneMoreParam(front, params);
    }
  }

  lemma OneMoreParam(front: L.Lower, params: seq<Ast.Param>)
    requires params != [] && ParamsAt(front, params[..|params| - 1])
    requires forall i, j :: 0 <= i < j < |params| ==> params[i].name != params[j].name
    ensures var p := params[|params| - 1].name;
      ParamsAt(L.Make(front, Parameter, [], 0).(names := Ast.Put<NodeId>(front.names, p, |front.g|)), params)
  {
    hide Ast.Put;
    var n := |params| - 1;
    var s := L.Make(front, Parameter, [], 0).(names := Ast.Put<NodeId>(front.names, params[n].name, |front.g|));
    forall i: nat | i < |params| ensures ParamAt(s, params, i) {
      if i < n {
        assert ParamAt(front, params[..n], i) && params[..n][i] == params[i] && params[i].name != params[n].name;
      }
    }
  }

  lemma LowerCons(stmts: seq<Ast.Stmt>, s: L.Lower, s1: L.Lower)
    requires stmts != [] && L.LowerStmt(stmts[0], s) == Some(s1)
    ensures L.LowerAll(stmts, s) == L.LowerAll(stmts[1..], s1)
  {
    hide L.LowerStmt;
  }

  lemma UnreadParams()
    ensures var s := L.LowerParams(Unread().params, L.Fresh());
      && s.g == UnreadGraph()[..7] && s.table == map[] && s.ctrl == 1 && s.eff == 2
      && Ast.Get<NodeId>(s.names, A) == Some(3) && Ast.Get<NodeId>(s.names, B) == Some(4)
      && Ast.Get<NodeId>(s.names, C) == Some(5) && Ast.Get<NodeId>(s.names, D) == Some(6)
  {
    LoweredParams(Unread().params);
    var s := L.LowerParams(Unread().params, L.Fresh());
    var params := Unread().params;
    hide Ast.Get, L.LowerParams;
    assert params[0].name == A && params[1].name == B && params[2].name == C && params[3].name == D;
    assert |s.g| == 7 && s.g[..3] == L.Fresh().g && ParamsAt(s, params);
    hide Unread;
    assert ParamAt(s, params, 0) && ParamAt(s, params, 1) && ParamAt(s, params, 2) && ParamAt(s, params, 3);
    SevenNodes(s.g);
  }

  lemma SevenNodes(g: seq<Node>)
    requires |g| == 7 && g[..3] == L.Fresh().g && forall i :: 3 <= i < 7 ==> g[i] == L.Bare(Parameter, [], 0)
    ensures g == UnreadGraph()[..7]
  {
    forall n | 0 <= n < 7 ensures g[n] == UnreadGraph()[n] {
      if n < 3 { assert g[..3][n] == L.Fresh().g[n]; }
    }
  }

  lemma ReturnLowered(s: L.Lower, n: NodeId)
    requires Ast.Get<NodeId>(s.names, D) == Some(n)
    ensures L.LowerStmt(Ast.ReturnStmt(Some(Ast.Ident(D))), s)
         == Some(s.(g := s.g + [L.Bare(Return, [s.ctrl, s.eff, n], 0)], ctrl := INVALID, eff := INVALID))
  {
    hide Ast.Get;
    assert L.LowerExpr(Ast.Ident(D), s) == (s, n);
  }

  lemma UnreadStatements(s0: L.Lower) returns (s4: L.Lower)
    requires s0.g == UnreadGraph()[..7] && s0.table == map[] && s0.ctrl == 1 && s0.eff == 2
    requires Ast.Get<NodeId>(s0.names, A) == Some(3) && Ast.Get<NodeId>(s0.names, B) == Some(4)
    requires Ast.Get<NodeId>(s0.names, C) == Some(5) && Ast.Get<NodeId>(s0.names, D) == Some(6)
    ensures L.LowerAll(Unread().stmts, s0) == Some(s4) && s4.g == UnreadGraph() && s4.ctrl == INVALID
  {
    hide Ast.Get, Ast.Put, L.LowerStmt, L.LowerAll, Negated;
    var s := Unread().stmts;
    NegatedLowered(X, A, s0, 3);
    var s1 := L.LowerStmt(s[0], s0).value;
    NegatedLowered(Y, B, s1, 4);
    var s2 := L.LowerStmt(s[1], s1).value;
    NegatedLowered(Z, C, s2, 5);
    var s3 := L.LowerStmt(s[2], s2).value;
    ReturnLowered(s3, 6);
    s4 := L.LowerStmt(s[3], s3).value;
    LowerCons(s, s0, s1);
    LowerCons(s[1..], s1, s2);
    LowerCons(s[1..][1..], s2, s3);
    LowerCons(s[1..][1..][1..], s3, s4);
    assert s[1..][1..][1..][1..] == [];
    NoneLeft(s4);
  }

  lemma NoneLeft(s: L.Lower)
    ensures L.LowerAll([], s) == Some(s)
  {
  }

  lemma UnreadLowered()
    ensures L.LowerFn(Unread()).Some? && L.LowerFn(Unread()).value.g == UnreadGraph()
  {
    hide L.LowerAll, L.LowerParams, Ast.Get, UnreadGraph, Unread;
    UnreadParams();
    var s4 := UnreadStatements(L.LowerParams(Unread().params, L.Fresh()));
  }

  // ---- From source to bytes ----

  lemma UnreadCompilable()
    ensures Compilable(UnreadGraph(), 10)
  {
    hide *;
    UnreadAccepted();
    UnreadLowered();
    assert |UnreadGraph()| < INVALID by { UnreadSize(); }
    var ret := PlainLowering.FunctionCompilable(Unread());
    OnlyReturn(ret);
  }

  lemma UnreadSize()
    ensures |UnreadGraph()| == 11 < INVALID
  {
  }

  lemma OnlyReturn(ret: NodeId)
    requires Compilable(UnreadGraph(), ret)
    ensures ret == 10
  {
    assert FirstReturn(UnreadGraph(), ret);
    hide Compilable, StraightLine;
    assert forall n: NodeId :: n < 10 ==> !UnreadGraph()[n].kind.Return?;
  }

  /** The function goes through checking, lowering, selection, allocation and encoding without a report and without a
      spill, and its bytes return the third argument, where the interpreter returns the fourth. */
  method CompileUnread() returns (r: Result<Image, EncodeError>, spills: nat)
    ensures TypeChecker.Accepts(Unread()) && spills == 0 && r.Ok?
    ensures forall args: seq<Word> :: |args| >= 4 ==> Interpreter.Call(Unread(), args) == Some(args[3])
    ensures forall args: seq<Word>, m: Machine, base: seq<Word>, back: Word ::
      |args| >= 4 && Entered(m, args, base, back) ==> ReturnsValue(r.value.bytes, m, args[2], base, back)
  {
    hide Selected, Selectable, ParametersIntact, Executable, ParamsLead, ParamsAscend, ReturnAt, Assemble,
      FourParams, HomeOf, Entered,
         ReturnsValue, TypeChecker.Accepts, Interpreter.Call, L.LowerFn, UnreadGraph, Survives, AllInRcx;
    UnreadAccepted();
    UnreadCompilable();
    UnreadLowered();
    var s := L.LowerFn(Unread()).value;
    var p;
    ghost var ids, names, next, at;
    p, ids, names, next, at := StraightLineCode.Select(s.g, 10);
    forall id: NodeId ensures Survives(UnreadGraph(), id) <==> 3 <= id <= 6 || id == 10 { UnreadSurvivors(id); }
    StraightLineCode.SelectedDistinct(s.g, names, next, ids, p);
    UnreadIds(ids);
    ghost var v := UnreadProgram(names, next, ids, p);
    FourSize(v);
    var ra := new LinearScanAllocator(p, HOME_COUNT, 0);
    spills := ra.Run();
    r := EncodeOne(p, ra.Tables());
    FourAllocated(ra, v, spills);
    FourAssembled(v, ra.Tables());
    forall args: seq<Word> | |args| >= 4 ensures Interpreter.Call(Unread(), args) == Some(args[3]) {
      UnreadReturnsFourth(args);
    }
    forall args: seq<Word>, m: Machine, base: seq<Word>, back: Word | |args| >= 4 && Entered(m, args, base, back)
      ensures ReturnsValue(r.value.bytes, m, args[2], base, back)
    {
      FourReturnThird(v, ra.Tables(), args, m, base, back);
    }
  }

  lemma FourSize(v: seq<VReg>)
    requires |v| == 4
    ensures |FourParams(v)| == 5
  {
  }
}
