/** Compound assignments inside expressions. The lowerer builds an addition for each of them, so what it lowers is the
    function with every such operator read as `+=`; that is the function itself exactly when there is no other. */
module NestedAssignments {
  import opened Wrappers
  import opened Words
  import opened IR
  import opened Ast
  import opened Interpreter
  import opened TypeChecker
  import opened Lowering
  import opened LoweringShape
  import opened LoweringMeaning
  import opened LoweredFunctions
  import opened SeaSemantics
  import OneWalk

  // ---- The function as it is lowered ----

  function AsLowered(e: Expr): Expr {
    match e
    case Binary(op, l, r) => Binary(op, AsLowered(l), AsLowered(r))
    case Unary(op, x) => Unary(op, AsLowered(x))
    case Assign(x, how, r) => Assign(x, if how.Eq? then Eq else PlusEq, AsLowered(r))
    case _ => e
  }

  function AsLoweredOpt(e: Option<Expr>): Option<Expr> {
    match e case None => None case Some(x) => Some(AsLowered(x))
  }

  function AsLoweredS(s: Stmt): Stmt
    decreases s
  {
    match s
    case Let(x, isVar, init) => Let(x, isVar, AsLoweredOpt(init))
    case Do(e) => Do(AsLowered(e))
    case AssignStmt(x, how, r) => AssignStmt(x, how, AsLowered(r))
    case ReturnStmt(result) => ReturnStmt(AsLoweredOpt(result))
    case IfStmt(c, y, n) => IfStmt(AsLowered(c), AsLoweredS(y), if n.Some? then Some(AsLoweredS(n.value)) else None)
    case BlockStmt(stmts) => BlockStmt(AsLoweredAll(stmts))
    case ForStmt(x, lo, hi, body) => ForStmt(x, AsLowered(lo), AsLowered(hi), AsLoweredS(body))
    case MatchStmt => MatchStmt
  }

  function AsLoweredAll(stmts: seq<Stmt>): (r: seq<Stmt>)
    ensures |r| == |stmts|
    ensures forall i :: 0 <= i < |r| ==> r[i] == AsLoweredS(stmts[i])
    decreases stmts
  {
    if stmts == [] then [] else [AsLoweredS(stmts[0])] + AsLoweredAll(stmts[1..])
  }

  function AsLoweredFn(fn: Fn): Fn {
    Fn(fn.params, AsLoweredAll(fn.stmts))
  }

  // ---- It is the same function exactly when no other operator is nested ----

  lemma {:induction false} ExprUnchanged(e: Expr)
    ensures PlainNested(AsLowered(e)) && (AsLowered(e) == e <==> PlainNested(e))
  {
    match e
    case Binary(_, l, r) => ExprUnchanged(l); ExprUnchanged(r);
    case Unary(_, x) => ExprUnchanged(x);
    case Assign(_, _, r) => ExprUnchanged(r);
    case _ =>
  }

  lemma {:induction false} StmtUnchanged(s: Stmt)
    ensures PlainNestedS(AsLoweredS(s)) && (AsLoweredS(s) == s <==> PlainNestedS(s))
    decreases s
  {
    match s
    case Let(_, _, init) => if init.Some? { ExprUnchanged(init.value); }
    case Do(e) => ExprUnchanged(e);
    case AssignStmt(_, _, r) => ExprUnchanged(r);
    case ReturnStmt(result) => if result.Some? { ExprUnchanged(result.value); }
    case IfStmt(c, y, n) =>
      ExprUnchanged(c);
      StmtUnchanged(y);
      if n.Some? { StmtUnchanged(n.value); }
    case BlockStmt(stmts) => AllUnchanged(stmts);
    case ForStmt(_, lo, hi, body) =>
      ExprUnchanged(lo);
      ExprUnchanged(hi);
      StmtUnchanged(body);
    case MatchStmt =>
  }

  lemma {:induction false} AllUnchanged(stmts: seq<Stmt>)
    ensures PlainNestedAll(AsLoweredAll(stmts)) && (AsLoweredAll(stmts) == stmts <==> PlainNestedAll(stmts))
    decreases stmts
  {
    if stmts != [] {
      StmtUnchanged(stmts[0]);
      AllUnchanged(stmts[1..]);
      var r := AsLoweredAll(stmts);
      assert r[1..] == AsLoweredAll(stmts[1..]) && r[0] == AsLoweredS(stmts[0]);
      assert r == stmts <==> r[0] == stmts[0] && r[1..] == stmts[1..] by {
        assert r == [r[0]] + r[1..] && stmts == [stmts[0]] + stmts[1..];
      }
    }
  }

  /** What a function is lowered as is the function itself exactly when no `-=`, `*=` or `/=` stands inside an
      expression. */
  lemma UnchangedExactly(fn: Fn)
    ensures AsLoweredFn(fn) == fn <==> PlainNestedAll(fn.stmts)
  {
    AllUnchanged(fn.stmts);
  }

  /** What the node built for an assignment inside an expression computes from the old and the assigned value. */
  function NestedValue(how: AssignToken, a: Word, b: Word): Option<Word> {
    match NestedKindOf(how) case None => Some(b) case Some(op) => EvalBin(op, a, b)
  }

  function MeantValue(how: AssignToken, a: Word, b: Word): Option<Word> {
    match CompoundMeaning(how) case None => Some(b) case Some(op) => EvalBin(op, a, b)
  }

  /** The node is right for all values exactly when the operator is `=` or `+=`. */
  lemma OperatorRightExactly(how: AssignToken)
    ensures (forall a: Word, b: Word :: NestedValue(how, a, b) == MeantValue(how, a, b)) <==> how.Eq? || how.PlusEq?
  {
    if !how.Eq? && !how.PlusEq? {
      assert NestedValue(how, 1, 1) == Some(2);
      assert MeantValue(how, 1, 1) == (if how.MinusEq? then Some(0) else Some(1)) by { OnesCombined(); }
    }
  }

  lemma OnesCombined()
    ensures EvalBin(Sub, 1, 1) == Some(0) && EvalBin(Mul, 1, 1) == Some(1) && EvalBin(Div, 1, 1) == Some(1)
  {
  }

  // ---- Checking and lowering do not tell the two apart ----

  lemma {:induction false} SameExpr(e: Expr, f: Frame, s: Lower)
    ensures AcceptsExpr(AsLowered(e), f) == AcceptsExpr(e, f) && AssignedE(AsLowered(e)) == AssignedE(e)
    ensures LowerExpr(AsLowered(e), s) == LowerExpr(e, s)
    decreases e
  {
    hide Intern, LowerAssign, Make;
    match e
    case Binary(_, l, r) =>
      SameExpr(l, f, s);
      SameExpr(r, f, LowerExpr(l, s).0);
    case Unary(_, x) => SameExpr(x, f, s);
    case Assign(_, _, r) => SameExpr(r, f, s);
    case _ =>
  }

  lemma {:induction false} SameNames(s: Stmt, st: Lower)
    ensures AssignedS(AsLoweredS(s)) == AssignedS(s) && TouchedS(AsLoweredS(s)) == TouchedS(s)
    ensures ContainsUnlowerable(AsLoweredS(s)) == ContainsUnlowerable(s)
    decreases s
  {
    match s
    case Let(_, _, init) => if init.Some? { SameExpr(init.value, [], st); }
    case Do(e) => SameExpr(e, [], st);
    case AssignStmt(_, _, r) => SameExpr(r, [], st);
    case ReturnStmt(result) => if result.Some? { SameExpr(result.value, [], st); }
    case IfStmt(c, y, n) =>
      SameExpr(c, [], st);
      SameNames(y, st);
      if n.Some? { SameNames(n.value, st); }
    case BlockStmt(stmts) =>
      AllSameNames(stmts, st);
      forall i | 0 <= i < |stmts| ensures ContainsUnlowerable(AsLoweredAll(stmts)[i]) == ContainsUnlowerable(stmts[i]) {
        SameNames(stmts[i], st);
      }
    case ForStmt(_, lo, hi, body) =>
      SameExpr(lo, [], st);
      SameExpr(hi, [], st);
      SameNames(body, st);
    case MatchStmt =>
  }

  lemma {:induction false} AllSameNames(stmts: seq<Stmt>, st: Lower)
    ensures AssignedAll(AsLoweredAll(stmts)) == AssignedAll(stmts)
      && TouchedAll(AsLoweredAll(stmts)) == TouchedAll(stmts)
    decreases stmts, 0
  {
    if stmts != [] {
      SameNames(stmts[0], st);
      AllSameNames(stmts[1..], st);
      assert AsLoweredAll(stmts)[1..] == AsLoweredAll(stmts[1..]);
    }
  }

  lemma {:induction false} SameCheck(s: Stmt, f: Frame, st: Lower)
    ensures CheckStmt(AsLoweredS(s), f) == CheckStmt(s, f) && LoopsSeen(AsLoweredS(s), f) == LoopsSeen(s, f)
    decreases s
  {
    hide LowerExpr, AssignedE;
    match s
    case Let(_, _, init) => if init.Some? { SameExpr(init.value, f, st); }
    case Do(e) => SameExpr(e, f, st);
    case AssignStmt(_, _, r) => SameExpr(r, f, st);
    case ReturnStmt(result) => if result.Some? { SameExpr(result.value, f, st); }
    case IfStmt(c, y, n) =>
      SameExpr(c, f, st);
      SameCheck(y, f, st);
      if n.Some? { SameCheck(n.value, f, st); }
    case BlockStmt(stmts) => AllSameCheck(stmts, f, st);
    case ForStmt(x, lo, hi, body) =>
      SameExpr(lo, f, st);
      SameExpr(hi, f, st);
      SameNames(body, st);
      SameCheck(body, f + [(x, false)], st);
    case MatchStmt =>
  }

  lemma {:induction false} AllSameCheck(stmts: seq<Stmt>, f: Frame, st: Lower)
    ensures CheckAll(AsLoweredAll(stmts), f) == CheckAll(stmts, f)
    ensures AllLoopsSeen(AsLoweredAll(stmts), f) == AllLoopsSeen(stmts, f)
    decreases stmts
  {
    if stmts != [] {
      SameCheck(stmts[0], f, st);
      assert AsLoweredAll(stmts)[1..] == AsLoweredAll(stmts[1..]);
      if CheckStmt(stmts[0], f).Some? { AllSameCheck(stmts[1..], CheckStmt(stmts[0], f).value, st); }
    }
  }

  // ---- The accumulator walk ----

  function AsLoweredT(t: Tree): Tree {
    match t case TreeOfExpr(e) => TreeOfExpr(AsLowered(e)) case TreeOfStmt(s) => TreeOfStmt(AsLoweredS(s))
  }

  function AsLoweredTrees(ts: seq<Tree>): (r: seq<Tree>)
    ensures |r| == |ts| && forall i :: 0 <= i < |r| ==> r[i] == AsLoweredT(ts[i])
  {
    seq(|ts|, i requires 0 <= i < |ts| => AsLoweredT(ts[i]))
  }

  lemma SamePushed(t: Tree)
    ensures Pushed(AsLoweredT(t)) == AsLoweredTrees(Pushed(t)) && Assigns(AsLoweredT(t)) == Assigns(t)
  {
  }

  function Noted(t: Tree, outer: Assoc<NodeId>, found: seq<Name>): seq<Name> {
    var x := Assigns(t);
    if x.Some? && Get<NodeId>(outer, x.value).Some? && x.value !in found then found + [x.value] else found
  }

  lemma CollectStep(rest: seq<Tree>, t: Tree, outer: Assoc<NodeId>, found: seq<Name>)
    ensures Collect(rest + [t], outer, found) == Collect(rest + Pushed(t), outer, Noted(t, outer, found))
    ensures SizeTrees(rest + Pushed(t)) < SizeTrees(rest + [t])
  {
    var stack := rest + [t];
    assert stack[..|stack| - 1] == rest && stack[|stack| - 1] == t;
    PushedSmaller(t);
    SizeTreesAppend(rest, Pushed(t));
    hide Pushed, Assigns, SizeT;
  }

  lemma NoTrees(outer: Assoc<NodeId>, found: seq<Name>)
    ensures Collect([], outer, found) == found
  {
  }

  lemma {:induction false} SameCollect(stack: seq<Tree>, outer: Assoc<NodeId>, found: seq<Name>)
    ensures Collect(AsLoweredTrees(stack), outer, found) == Collect(stack, outer, found)
    decreases SizeTrees(stack)
  {
    hide *;
    if stack == [] {
      assert AsLoweredTrees(stack) == [];
      NoTrees(outer, found);
    } else {
      var rest, t := stack[..|stack| - 1], stack[|stack| - 1];
      assert stack == rest + [t];
      CollectStep(rest, t, outer, found);
      SameNoted(t, outer, found);
      SameCollect(rest + Pushed(t), outer, Noted(t, outer, found));
      CollectStep(AsLoweredTrees(rest), AsLoweredT(t), outer, found);
      assert AsLoweredTrees(stack) == AsLoweredTrees(rest) + [AsLoweredT(t)];
      assert AsLoweredTrees(rest + Pushed(t)) == AsLoweredTrees(rest) + AsLoweredTrees(Pushed(t));
    }
  }

  lemma SameNoted(t: Tree, outer: Assoc<NodeId>, found: seq<Name>)
    ensures Noted(AsLoweredT(t), outer, found) == Noted(t, outer, found)
    ensures Pushed(AsLoweredT(t)) == AsLoweredTrees(Pushed(t))
  {
    hide Get;
    SamePushed(t);
  }

  lemma SameAccumulators(body: Stmt, outer: Assoc<NodeId>)
    ensures Accumulators(AsLoweredS(body), outer) == Accumulators(body, outer)
  {
    hide Collect;
    SameCollect([TreeOfStmt(body)], outer, []);
    assert AsLoweredTrees([TreeOfStmt(body)]) == [TreeOfStmt(AsLoweredS(body))];
  }

  // ---- Lowering ----

  lemma {:induction false} SameStmt(st: Stmt, s: Lower)
    ensures LowerStmt(AsLoweredS(st), s) == LowerStmt(st, s)
    decreases st, 1
  {
    hide LowerAssign, LowerExpr, OpenLoop, CloseLoop, MergeNames, BranchOpen, AtElse, AtMerge, AcceptsExpr, AssignedE;
    match st
    case Let(_, _, init) => if init.Some? { SameExpr(init.value, [], s); }
    case Do(e) => SameExpr(e, [], s);
    case AssignStmt(_, _, r) => SameExpr(r, [], s);
    case ReturnStmt(result) => if result.Some? { SameExpr(result.value, [], s); }
    case IfStmt(c, y, n) =>
      SameExpr(c, [], s);
      var (s1, cond) := LowerExpr(c, s);
      var s2 := BranchOpen(s1, cond);
      SameStmt(y, s2.(ctrl := |s1.g| + 1));
      var t := LowerStmt(y, s2.(ctrl := |s1.g| + 1));
      if t.Some? && n.Some? { SameStmt(n.value, AtElse(s2, t.value, |s1.g|)); }
    case BlockStmt(stmts) => SameAll(stmts, s);
    case ForStmt(x, lo, hi, body) => SameFor(x, lo, hi, body, s);
    case MatchStmt =>
  }

  lemma {:induction false} SameFor(x: Name, lo: Expr, hi: Expr, body: Stmt, s: Lower)
    ensures LowerFor(x, AsLowered(lo), AsLowered(hi), AsLoweredS(body), s) == LowerFor(x, lo, hi, body, s)
    decreases body, 2
  {
    hide LowerExpr, LowerStmt, OpenPhis, CloseLoop, AcceptsExpr, AssignedE, Accumulators;
    SameExpr(lo, [], s);
    var (s1, a) := LowerExpr(lo, s);
    SameExpr(hi, [], s1);
    var (s2, b) := LowerExpr(hi, s1);
    SameAccumulators(body, s2.names);
    SameStmt(body, OpenLoop(x, a, b, body, s2).0);
  }

  lemma {:induction false} SameAll(stmts: seq<Stmt>, s: Lower)
    ensures LowerAll(AsLoweredAll(stmts), s) == LowerAll(stmts, s)
    decreases stmts, 0
  {
    hide LowerStmt;
    if stmts != [] {
      SameStmt(stmts[0], s);
      assert AsLoweredAll(stmts)[1..] == AsLoweredAll(stmts[1..]);
      if LowerStmt(stmts[0], s).Some? { SameAll(stmts[1..], LowerStmt(stmts[0], s).value); }
    }
  }

  /** Both are accepted or neither, with the same loops seen, and they are lowered to one and the same graph. */
  lemma SameFunction(fn: Fn)
    ensures Accepts(AsLoweredFn(fn)) == Accepts(fn) && FunctionSeen(AsLoweredFn(fn)) == FunctionSeen(fn)
    ensures LowerFn(AsLoweredFn(fn)) == LowerFn(fn)
  {
    hide LowerAll, CheckAll, AllLoopsSeen;
    SameAll(fn.stmts, LowerParams(fn.params, Fresh()));
    if ParamFrame(fn.params).Some? { AllSameCheck(fn.stmts, ParamFrame(fn.params).value, Fresh()); }
  }

  /** The lowered graph of any accepted function whose loops are seen returns what the function would return if every
      compound assignment inside an expression were `+=`, and nothing else. */
  lemma GraphMeansAsLowered(fn: Fn, args: seq<Word>, s: Lower, value: Word)
    requires Accepts(fn) && FunctionSeen(fn) && |fn.params| <= |args|
    requires LowerFn(fn) == Some(s) && |s.g| < INVALID
    requires Call(AsLoweredFn(fn), args) == Some(value)
    ensures forall w: Word :: Returns(s.g, args, Entry(), w) <==> w == value
  {
    hide LowerFn, Accepts, FunctionSeen, Call, Returns;
    SameFunction(fn);
    AllUnchanged(fn.stmts);
    OneWalk.FunctionMeansExactly(AsLoweredFn(fn), args, s, value);
  }
}
