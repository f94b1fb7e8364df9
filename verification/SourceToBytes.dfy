/** From source to machine code: a function without branches, checked, lowered, selected, allocated and encoded,
    returns from its bytes what the interpreter says it returns. */
module SourceToBytes {
  import opened Wrappers
  import opened Words
  import opened IR
  import opened MachineIR
  import opened Ast
  import opened Interpreter
  import opened TypeChecker
  import opened Lowering
  import opened LoweringMeaning
  import opened LoweredFunctions
  import opened NestedAssignments
  import opened SeaSemantics
  import opened PlainLowering
  import LinearScan
  import InstrSel
  import StraightEncoding
  import StraightLineCode
  import X86
  import EncoderSpec
  import Simulation

  /** Bytes that compute the graph of a function compute the function: for all arguments the interpreter gives a value
      for, on every machine the function is entered on, that value is returned and the caller's state kept. */
  ghost predicate ComputesFunction(fn: Fn, bytes: seq<X86.Byte>) {
    forall args: seq<Word>, value: Word, m: X86.Machine, base: seq<Word>, back: Word ::
      |fn.params| <= |args| && Call(fn, args) == Some(value) && Simulation.Entered(m, args, base, back)
      ==> StraightLineCode.ReturnsValue(bytes, m, value, base, back)
  }

  lemma GraphToFunction(fn: Fn, s: Lower, ret: NodeId, bytes: seq<X86.Byte>)
    requires Accepts(fn) && AllPlain(fn.stmts) && PlainNestedAll(fn.stmts)
    requires LowerFn(fn) == Some(s) && StraightLineCode.Compilable(s.g, ret)
    requires StraightLineCode.ComputesGraph(s.g, ret, bytes)
    ensures ComputesFunction(fn, bytes)
  {
    hide Accepts, AllPlain, PlainNestedAll, LowerFn, StraightLineCode.Valuation, StraightLineCode.Compilable, Call,
         StraightLineCode.ReturnsValue, StraightLineCode.Demanded;
    forall args: seq<Word>, value: Word, m: X86.Machine, base: seq<Word>, back: Word
      | |fn.params| <= |args| && Call(fn, args) == Some(value) && Simulation.Entered(m, args, base, back)
      ensures StraightLineCode.ReturnsValue(bytes, m, value, base, back)
    {
      var val, d := GraphHasValue(fn, args, s, ret, value);
    }
  }

  lemma {:induction false} AsLoweredPlain(st: Stmt)
    requires Plain(st)
    ensures Plain(AsLoweredS(st))
    decreases st
  {
    if st.BlockStmt? { AllAsLoweredPlain(st.stmts); }
  }

  lemma {:induction false} AllAsLoweredPlain(stmts: seq<Stmt>)
    requires AllPlain(stmts)
    ensures AllPlain(AsLoweredAll(stmts))
    decreases stmts
  {
    if stmts != [] {
      AsLoweredPlain(stmts[0]);
      AllAsLoweredPlain(stmts[1..]);
      assert AsLoweredAll(stmts)[1..] == AsLoweredAll(stmts[1..]);
    }
  }

  /** The program is what selection makes of the function's graph. */
  ghost predicate SelectedFrom(fn: Fn, names: InstrSel.Naming, next: VReg, ids: seq<NodeId>, p: Program) {
    && LowerFn(fn).Some?
    && StraightLineCode.Selected(LowerFn(fn).value.g, names, next, ids, p)
    && forall id: NodeId :: id in ids <==> StraightLineCode.Survives(LowerFn(fn).value.g, id)
  }

  /** The whole path. The encoder accepts the function exactly when no place in its code is too crowded, its
      parameters are passed in registers, no shift takes its count from one, and all cycles of the parameter moves
      pass through the first, as they do when every parameter is read. If it does, and the parameter block overwrites
      no parameter that is read, what the machine runs is the function as it is lowered: the function itself, when no
      `-=`, `*=` or `/=` stands inside one of its expressions. */
  method CompileFunction(fn: Fn)
    returns (r: Result<EncoderSpec.Image, EncoderSpec.EncodeError>, spills: nat, p: Program, al: LinearScan.Allocation,
             ghost ids: seq<NodeId>, ghost names: InstrSel.Naming, ghost next: VReg, ghost k: nat)
    requires Accepts(fn) && AllPlain(fn.stmts) && (LowerFn(fn).Some? ==> |LowerFn(fn).value.g| < INVALID)
    ensures SelectedFrom(fn, names, next, ids, p)
    ensures r == EncoderSpec.Assemble(p, al) && Simulation.Executable(p, k)
    ensures spills > 0 <==> StraightLineCode.Crowded(p)
    ensures spills == 0 ==> StraightLineCode.FirstFitting(p, al)
    ensures r.Ok? <==> !StraightLineCode.Crowded(p) && StraightEncoding.Encodes(p, al)
    ensures StraightEncoding.AllRead(p, k) ==>
      && (r.Ok? <==> !StraightLineCode.Crowded(p) && StraightEncoding.Supported(p))
      && (r.Ok? ==> Simulation.ParametersArrive(p, al, k))
    ensures r.Ok? && Simulation.ParametersArrive(p, al, k) ==>
      && ComputesFunction(AsLoweredFn(fn), r.value.bytes)
      && (PlainNestedAll(fn.stmts) ==> ComputesFunction(fn, r.value.bytes))
  {
    hide Accepts, AllPlain, LowerFn, StraightLineCode.Compilable, ComputesFunction, StraightLineCode.ComputesGraph,
         Simulation.ParametersArrive, Simulation.Executable, PlainNestedAll, AsLoweredAll, EncoderSpec.Assemble,
         StraightLineCode.Selected, StraightLineCode.Survives, StraightLineCode.Crowded, StraightLineCode.FirstFitting,
         StraightEncoding.AllRead, StraightEncoding.Encodes, StraightEncoding.Supported;
    FunctionPlain(fn);
    var s := LowerFn(fn).value;
    ghost var ret := FunctionCompilable(fn);
    r, spills, p, al, ids, names, next := StraightLineCode.Compile(s.g, ret);
    k := StraightLineCode.ParamPrefix(s.g, ids);
    if r.Ok? && Simulation.ParametersArrive(p, al, k) {
      SameFunction(fn);
      AllUnchanged(fn.stmts);
      UnchangedExactly(fn);
      AllAsLoweredPlain(fn.stmts);
      GraphToFunction(AsLoweredFn(fn), s, ret, r.value.bytes);
    }
  }

  // ---- A compound assignment inside an expression ----

  const S: Name := 0

  /** `var s = 10; return s -= 3;` */
  function NestedDecrement(): Fn {
    Fn([], [Let(S, true, Some(IntLit(10))), ReturnStmt(Some(Assign(S, MinusEq, IntLit(3))))])
  }

  lemma DecrementMeans()
    ensures Accepts(NestedDecrement()) && AllPlain(NestedDecrement().stmts) && FunctionSeen(NestedDecrement())
    ensures Call(NestedDecrement(), []) == Some(7) && Call(AsLoweredFn(NestedDecrement()), []) == Some(13)
  {
    var first, second := Let(S, true, Some(IntLit(10))), ReturnStmt(Some(Assign(S, MinusEq, IntLit(3))));
    var fn := NestedDecrement();
    assert fn.stmts[0] == first && fn.stmts[1..] == [second] && [second][1..] == [];
    var none: Frame := [];
    var f: Frame := [(S, true)];
    assert none + f == f && Get(none, S).None? && f[0].0 == S && Get(f, S) == Some(true);
    assert CheckStmt(first, none) == Some(f);
    assert CheckStmt(second, f) == Some(f);
    assert CheckAll([second], f) == Some(f);
    var env: Env := map[S := 10];
    assert Exec(first, map[]) == Go(map[][S := 10]) && map[][S := 10] == env;
    assert Assigned(S, MinusEq, 3, env) == Some((7, env[S := 7]));
    assert EvalExpr(Assign(S, MinusEq, IntLit(3)), env) == Some((7, env[S := 7]));
    assert Exec(second, env) == Done(7);
    assert ExecAll([second], env) == Done(7);
    var plus := ReturnStmt(Some(Assign(S, PlusEq, IntLit(3))));
    assert AsLoweredAll(fn.stmts) == [first, plus];
    assert [first, plus][1..] == [plus] && [plus][1..] == [];
    assert Assigned(S, PlusEq, 3, env) == Some((13, env[S := 13]));
    assert EvalExpr(Assign(S, PlusEq, IntLit(3)), env) == Some((13, env[S := 13]));
    assert Exec(plus, env) == Done(13);
    assert ExecAll([plus], env) == Done(13);
  }

  function DecrementGraph(): seq<Node> {
    [Lowering.START, Bare(Proj, [0], 0), Bare(Proj, [0], 1), Bare(Constant, [], 10), Bare(Constant, [], 3),
     Bare(Bin(Add), [3, 4], 0), Bare(Return, [1, 2, 5], 0)]
  }

  lemma DecrementLowered()
    ensures LowerFn(NestedDecrement()).Some? && LowerFn(NestedDecrement()).value.g == DecrementGraph()
  {
    var first, second := Let(S, true, Some(IntLit(10))), ReturnStmt(Some(Assign(S, MinusEq, IntLit(3))));
    var s0 := Fresh();
    var s1 := Make(s0, Constant, [], 10).(names := Put<NodeId>(s0.names, S, 3));
    assert LowerStmt(first, s0) == Some(s1);
    assert Get<NodeId>(s1.names, S) == Some(3);
    var s2 := Make(s1, Constant, [], 3);
    assert LowerExpr(IntLit(3), s1) == (s2, 4);
    var (s3, n) := Intern(s2, Bin(Add), [3, 4]);
    assert n == 5;
    assert LowerAssign(S, Some(Add), s2, 4) == (s3.(names := Put<NodeId>(s3.names, S, 5)), 5);
    assert LowerAll([second], s1).Some? by { assert [second][1..] == []; }
    assert [first, second][1..] == [second] && [second][1..] == [];
    assert LowerAll([first, second], s0) == LowerAll([second], s1);
  }

  /** The checker accepts the function and the interpreter returns 7 from it; the graph it is lowered to returns 13 and
      nothing else. */
  lemma NestedDecrementReturnsSum()
    ensures Accepts(NestedDecrement()) && Call(NestedDecrement(), []) == Some(7) && LowerFn(NestedDecrement()).Some?
    ensures forall value: Word :: Returns(LowerFn(NestedDecrement()).value.g, [], Entry(), value) <==> value == 13
  {
    DecrementMeans();
    DecrementLowered();
    GraphMeansAsLowered(NestedDecrement(), [], LowerFn(NestedDecrement()).value, 13);
  }
}
