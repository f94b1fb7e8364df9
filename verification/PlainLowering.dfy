/** Functions without branches: the graph they are lowered to is one the straight-line path takes, and when the
    interpreter returns, every node up to the first return has a value, the interpreter's at the return. */
module PlainLowering {
  import opened Wrappers
  import opened Words
  import opened Finite
  import opened IR
  import opened Ast
  import opened Interpreter
  import opened TypeChecker
  import opened Lowering
  import opened LoweringShape
  import opened LoweringMeaning
  import opened LoweredFunctions
  import opened SeaSemantics
  import S = InstrSel
  import Scheduler
  import StraightLineCode

  /** No branches and no loops. */
  predicate Plain(st: Stmt)
    decreases st
  {
    match st
    case IfStmt(_, _, _) => false
    case ForStmt(_, _, _, _) => false
    case BlockStmt(stmts) => AllPlain(stmts)
    case _ => true
  }

  predicate AllPlain(stmts: seq<Stmt>)
    decreases stmts
  {
    stmts == [] || (Plain(stmts[0]) && AllPlain(stmts[1..]))
  }

  // ---- The shape of the graph ----

  predicate IsValue(g: seq<Node>, n: NodeId) {
    n < |g| && S.IsValueKind(g[n].kind)
  }

  /** The start's projections, and no control at all. */
  predicate IsControl(n: NodeId) {
    n == 1 || n == 2 || n == INVALID
  }

  ghost predicate PlainNode(g: seq<Node>, n: NodeId)
    requires n < |g|
  {
    var ins := g[n].inputs;
    && !g[n].dead
    && match g[n].kind
       case Start => true
       case Proj => true
       case Constant => ins == []
       case Parameter => ins == []
       case Un(_) => |ins| == 1 && ins[0] < n && IsValue(g, ins[0])
       case Bin(b) => S.HasMnemonic(b) && |ins| == 2 && ins[0] < n && IsValue(g, ins[0]) && ins[1] < n
         && IsValue(g, ins[1])
       case Return =>
         |ins| == RETURN_INPUTS && IsControl(ins[0]) && IsControl(ins[1]) && ins[RETURN_VALUE] < n
         && IsValue(g, ins[RETURN_VALUE])
       case _ => false
  }

  ghost predicate PlainGraph(g: seq<Node>) {
    && |g| >= FIRST_PARAM && g[0].kind.Start? && g[1].kind.Proj? && g[2].kind.Proj?
    && forall n: NodeId :: n < |g| ==> PlainNode(g, n)
  }

  ghost predicate HasReturn(g: seq<Node>) {
    exists n: NodeId :: n < |g| && g[n].kind.Return?
  }

  /** Names and interned nodes are values; where control has ended there is a return. */
  ghost predicate PlainState(s: Lower) {
    && PlainGraph(s.g)
    && (forall x: Name :: Get<NodeId>(s.names, x).Some? ==> IsValue(s.g, Get<NodeId>(s.names, x).value))
    && (forall key :: key in s.table ==> IsValue(s.g, s.table[key]))
    && IsControl(s.ctrl) && IsControl(s.eff)
    && (s.ctrl == INVALID || s.eff == INVALID ==> HasReturn(s.g))
  }

  lemma MakePlain(s: Lower, kind: NodeKind, inputs: seq<NodeId>, payload: Word)
    requires PlainState(s) && PlainNode(Make(s, kind, inputs, payload).g, |s.g|)
    ensures PlainState(Make(s, kind, inputs, payload))
    ensures S.IsValueKind(kind) ==> IsValue(Make(s, kind, inputs, payload).g, |s.g|)
  {
    var g := Make(s, kind, inputs, payload).g;
    hide Get;
    forall n: NodeId | n < |g| ensures PlainNode(g, n) {
      if n < |s.g| { assert PlainNode(s.g, n) && g[n] == s.g[n]; }
    }
    if HasReturn(s.g) {
      var n: NodeId :| n < |s.g| && s.g[n].kind.Return?;
      assert g[n].kind.Return?;
    }
  }

  lemma LeafPlain(s: Lower, kind: NodeKind, payload: Word)
    requires PlainState(s) && (kind.Constant? || kind.Parameter?)
    ensures PlainState(Make(s, kind, [], payload)) && IsValue(Make(s, kind, [], payload).g, |s.g|)
  {
    hide PlainState;
    MakePlain(s, kind, [], payload);
  }

  lemma InternPlain(s: Lower, kind: NodeKind, inputs: seq<NodeId>)
    requires PlainState(s)
    requires kind.Un? || (kind.Bin? && S.HasMnemonic(kind.bin))
    requires |inputs| == (if kind.Un? then 1 else 2) && forall i :: 0 <= i < |inputs| ==> IsValue(s.g, inputs[i])
    ensures var (s', n) := Intern(s, kind, inputs); PlainState(s') && IsValue(s'.g, n)
  {
    hide Get;
    if (kind, inputs) !in s.table {
      MakePlain(s, kind, inputs, 0);
    }
  }

  lemma PutPlain(s: Lower, x: Name, n: NodeId)
    requires PlainState(s) && IsValue(s.g, n)
    ensures PlainState(s.(names := Put<NodeId>(s.names, x, n)))
  {
  }

  lemma CurrentPlain(s: Lower, x: Name)
    requires PlainState(s)
    ensures var (s1, cur) := Current(s, x);
      PlainState(s1) && IsValue(s1.g, cur) && forall n: NodeId :: IsValue(s.g, n) ==> IsValue(s1.g, n)
  {
    LeafPlain(s, Constant, 0);
  }

  lemma AssignPlain(x: Name, op: Option<BinOp>, s: Lower, b: NodeId)
    requires PlainState(s) && IsValue(s.g, b) && (op.Some? ==> S.HasMnemonic(op.value))
    ensures var (s', n) := LowerAssign(x, op, s, b); PlainState(s') && IsValue(s'.g, n)
  {
    hide PlainState, Intern, Get, Put, Current;
    match op
    case None => PutPlain(s, x, b);
    case Some(k) =>
      CurrentPlain(s, x);
      var (s1, cur) := Current(s, x);
      InternPlain(s1, Bin(k), [cur, b]);
      var (s2, n) := Intern(s1, Bin(k), [cur, b]);
      PutPlain(s2, x, n);
  }

  lemma ContinuesValue(a: Lower, b: Lower, n: NodeId)
    requires Continues(a, b) && IsValue(a.g, n)
    ensures IsValue(b.g, n)
  {
  }

  lemma {:induction false} ExprPlain(e: Expr, s: Lower)
    requires Inv(s) && PhisOrdered(s.g) && PlainState(s)
    ensures var (s', n) := LowerExpr(e, s); PlainState(s') && IsValue(s'.g, n)
    decreases e
  {
    hide PlainState, Inv, PhisOrdered, Intern, Continues, LowerAssign, Make, Get;
    match e
    case IntLit(w) => LeafPlain(s, Constant, w);
    case BoolLit(b) => LeafPlain(s, Constant, Truth(b));
    case Ident(x) =>
      LeafPlain(s, Parameter, 0);
      if Get<NodeId>(s.names, x).Some? { BoundValue(s, x); }
    case Binary(op, l, r) =>
      ExprPlain(l, s);
      ExprKeeps(l, s);
      var (s1, a) := LowerExpr(l, s);
      ExprPlain(r, s1);
      ExprKeeps(r, s1);
      var (s2, b) := LowerExpr(r, s1);
      ContinuesValue(s1, s2, a);
      InternPlain(s2, Bin(NodeKindOf(op)), [a, b]);
    case Unary(op, x) =>
      ExprPlain(x, s);
      var (s1, a) := LowerExpr(x, s);
      InternPlain(s1, Un(UnaryKindOf(op)), [a]);
    case Assign(x, how, r) =>
      ExprPlain(r, s);
      var (s1, b) := LowerExpr(r, s);
      AssignPlain(x, NestedKindOf(how), s1, b);
    case NotLowered => LeafPlain(s, Constant, 0);
  }

  lemma BoundValue(s: Lower, x: Name)
    requires PlainState(s) && Get<NodeId>(s.names, x).Some?
    ensures IsValue(s.g, Get<NodeId>(s.names, x).value)
  {
  }

  lemma ReturnPlain(s: Lower, n: NodeId)
    requires PlainState(s) && IsValue(s.g, n)
    ensures PlainState(Make(s, Return, [s.ctrl, s.eff, n], 0).(ctrl := INVALID, eff := INVALID))
  {
    hide Get;
    var s1 := Make(s, Return, [s.ctrl, s.eff, n], 0);
    MakePlain(s, Return, [s.ctrl, s.eff, n], 0);
    assert s1.g[|s.g|].kind.Return?;
  }

  lemma {:induction false} StmtPlain(st: Stmt, s: Lower)
    requires Inv(s) && PhisOrdered(s.g) && PlainState(s) && Plain(st)
    ensures LowerStmt(st, s).Some? && PlainState(LowerStmt(st, s).value)
    decreases st, 1
  {
    hide PlainState, Inv, PhisOrdered, Continues, LowerAssign, Make, Get, Put, LowerExpr;
    match st
    case Let(x, _, init) =>
      if init.Some? {
        ExprPlain(init.value, s);
        var (s1, n) := LowerExpr(init.value, s);
        PutPlain(s1, x, n);
      } else {
        LeafPlain(s, Constant, 0);
        NamesKept(s);
        PutPlain(Make(s, Constant, [], 0), x, |s.g|);
      }
    case Do(e) => ExprPlain(e, s);
    case AssignStmt(x, how, r) =>
      ExprPlain(r, s);
      var (s1, b) := LowerExpr(r, s);
      AssignPlain(x, CompoundKindOf(how), s1, b);
    case ReturnStmt(result) =>
      if result.Some? { ExprPlain(result.value, s); } else { LeafPlain(s, Constant, 0); }
      var (s1, n) := if result.Some? then LowerExpr(result.value, s) else (Make(s, Constant, [], 0), |s.g|);
      ReturnPlain(s1, n);
    case BlockStmt(stmts) => AllArePlain(stmts, s);
    case MatchStmt => LeafPlain(s, Constant, 0);
    case _ =>
  }

  lemma NamesKept(s: Lower)
    ensures Make(s, Constant, [], 0).names == s.names
  {
  }

  lemma {:induction false} AllArePlain(stmts: seq<Stmt>, s: Lower)
    requires Inv(s) && PhisOrdered(s.g) && PlainState(s) && AllPlain(stmts)
    ensures LowerAll(stmts, s).Some? && PlainState(LowerAll(stmts, s).value)
    decreases stmts, 0
  {
    hide PlainState, Inv, PhisOrdered, LowerStmt;
    if stmts != [] {
      StmtPlain(stmts[0], s);
      StmtKeeps(stmts[0], s);
      AllArePlain(stmts[1..], LowerStmt(stmts[0], s).value);
    }
  }

  lemma {:induction false} ParamsPlain(params: seq<Param>)
    requires ParamFrame(params).Some?
    ensures PlainState(LowerParams(params, Fresh()))
  {
    hide PlainState;
    if params == [] {
      FreshPlain();
    } else {
      var n := |params| - 1;
      ParamsPlain(params[..n]);
      var s1 := LowerParams(params[..n], Fresh());
      LeafPlain(s1, Parameter, 0);
      PutPlain(Make(s1, Parameter, [], 0), params[n].name, |s1.g|);
    }
  }

  lemma FreshPlain()
    ensures PlainState(Fresh())
  {
    var g := Fresh().g;
    assert PlainNode(g, 0) && PlainNode(g, 1) && PlainNode(g, 2);
  }

  /** Every accepted plain function is lowered, and its graph is plain and has a return. */
  lemma FunctionPlain(fn: Fn)
    requires Accepts(fn) && AllPlain(fn.stmts)
    ensures LowerFn(fn).Some? && PlainGraph(LowerFn(fn).value.g) && HasReturn(LowerFn(fn).value.g)
  {
    hide Inv, PhisOrdered, PlainGraph, LowerAll, LowerParams;
    var s0 := LowerParams(fn.params, Fresh());
    ParamsLowered(fn.params);
    ParamsPlain(fn.params);
    AllArePlain(fn.stmts, s0);
    var s1 := LowerAll(fn.stmts, s0).value;
    LeafPlain(s1, Constant, 0);
    ReturnPlain(Make(s1, Constant, [], 0), |s1.g|);
  }

  // ---- It is a graph the straight-line path takes ----

  lemma {:induction false} LeastReturn(g: seq<Node>, n: nat) returns (ret: NodeId)
    requires n <= |g| && exists i: NodeId :: i < n && g[i].kind.Return?
    ensures ret < n && g[ret].kind.Return? && forall i: NodeId :: i < ret ==> !g[i].kind.Return?
  {
    if i: NodeId :| i < n - 1 && g[i].kind.Return? { ret := LeastReturn(g, n - 1); } else { ret := n - 1; }
  }

  lemma PlainStraight(g: seq<Node>)
    requires PlainGraph(g) && |g| < INVALID
    ensures S.StraightLine(g) && Scheduler.Acyclic(g) && StraightLineCode.ParametersIntact(g)
  {
    forall i: NodeId | IsValue(g, i) ensures S.IsLiveValue(g, i) {
      assert PlainNode(g, i);
    }
    forall n | 0 <= n < |g| && !g[n].dead ensures S.WellFormed(g, g[n]) {
      PlainIsWellFormed(g, n);
    }
    hide S.WellFormed;
    PlainAcyclic(g);
    forall n: NodeId | n < |g| ensures !g[n].dead { assert PlainNode(g, n); }
  }

  lemma PlainIsWellFormed(g: seq<Node>, n: NodeId)
    requires PlainGraph(g) && n < |g| < INVALID && forall i: NodeId :: IsValue(g, i) ==> S.IsLiveValue(g, i)
    ensures S.WellFormed(g, g[n])
  {
    assert PlainNode(g, n);
  }

  lemma PlainAcyclic(g: seq<Node>)
    requires PlainGraph(g) && |g| < INVALID
    ensures Scheduler.Acyclic(g)
  {
    var rank := seq(|g|, i => i);
    forall id: NodeId, input: NodeId | Scheduler.InputOf(g, id, input) ensures rank[input] < rank[id] {
      assert PlainNode(g, id);
    }
    assert Scheduler.Ranked(g, rank);
  }

  /** The first return of a plain function's graph, and all the straight-line path asks of the graph. */
  lemma FunctionCompilable(fn: Fn) returns (ret: NodeId)
    requires Accepts(fn) && AllPlain(fn.stmts) && LowerFn(fn).Some? && |LowerFn(fn).value.g| < INVALID
    ensures StraightLineCode.Compilable(LowerFn(fn).value.g, ret)
  {
    var s := LowerFn(fn).value;
    FunctionPlain(fn);
    ret := LeastReturn(s.g, |s.g|);
    PlainStraight(s.g);
    ParametersAreDeclared(fn, s);
    hide LowerFn, Accepts, AllPlain, S.StraightLine, Scheduler.Acyclic, StraightLineCode.ParametersIntact;
    assert StraightLineCode.FirstReturn(s.g, ret) by { assert PlainNode(s.g, ret); }
    ParametersLow(s.g, |fn.params|);
  }

  lemma ParametersLow(g: seq<Node>, k: nat)
    requires PlainGraph(g) && forall n: nat :: n < |g| ==>
      (g[n].kind.Parameter? <==> FIRST_PARAM <= n < FIRST_PARAM + k)
    ensures StraightLineCode.ParametersLowest(g)
  {
    forall a: NodeId, b: NodeId | StraightLineCode.LiveParameter(g, a) && Scheduler.InRange(g, b)
      && !StraightLineCode.LiveParameter(g, b)
      ensures a < b
    {
      assert b != 0 && b != 1 && b != 2;
    }
  }

  // ---- Which nodes have values ----

  /** Every value node from `lo` up to `hi` has a value. */
  ghost predicate DefinedIn(g: seq<Node>, args: seq<Word>, lo: nat, hi: nat) {
    forall n: NodeId :: lo <= n < hi && IsValue(g, n) ==> Value(g, args, map[], n).Some?
  }

  ghost predicate NoReturns(g: seq<Node>, lo: nat, hi: nat) {
    forall n: NodeId :: lo <= n < hi && n < |g| ==> !g[n].kind.Return?
  }

  lemma DefinedOn(g: seq<Node>, args: seq<Word>, lo: nat, mid: nat, hi: nat)
    requires DefinedIn(g, args, lo, mid) && DefinedIn(g, args, mid, hi)
    ensures DefinedIn(g, args, lo, hi)
  {
    hide Value;
  }

  lemma DefinedOne(g: seq<Node>, args: seq<Word>, lo: nat, hi: nat, n: NodeId)
    requires hi <= lo + 1 && (hi == lo + 1 ==> n == lo) && Value(g, args, map[], n).Some?
    ensures DefinedIn(g, args, lo, hi)
  {
    hide Value;
  }

  lemma InternOne(s: Lower, kind: NodeKind, inputs: seq<NodeId>)
    ensures var (s', n) := Intern(s, kind, inputs);
      |s.g| <= |s'.g| <= |s.g| + 1 && (|s'.g| == |s.g| + 1 ==> n == |s.g| && s'.g[|s.g|].kind == kind)
  {
  }

  lemma AssignOne(x: Name, op: Option<BinOp>, s: Lower, b: NodeId)
    requires Get<NodeId>(s.names, x).Some?
    ensures var (s', n) := LowerAssign(x, op, s, b);
      |s.g| <= |s'.g| <= |s.g| + 1
      && (|s'.g| == |s.g| + 1 ==> n == |s.g| && op.Some? && s'.g[|s.g|].kind == Bin(op.value))
  {
    hide Get, Put, Intern;
    if op.Some? { InternOne(s, Bin(op.value), [Get<NodeId>(s.names, x).value, b]); }
  }

  /** When an expression has a value, so has every node made for it. */
  lemma {:induction false} ExprDefined(e: Expr, s: Lower, f: Frame, g: seq<Node>, args: seq<Word>, env: Env)
    requires Inv(s) && PhisOrdered(s.g) && AcceptsExpr(e, f) && PlainNested(e) && Hosts(g, s, LowerExpr(e, s).0)
    requires Related(g, args, map[], s.names, f, env, |s.g|) && EvalExpr(e, env).Some?
    ensures DefinedIn(g, args, |s.g|, |LowerExpr(e, s).0.g|)
    decreases e
  {
    hide Inv, PhisOrdered, Continues, Intern, Hosts, Related, Value, DefinedIn, EvalBin, EvalUn, LowerAssign, Assigned,
         NodeKindOf, Meaning, UnaryKindOf, UnaryMeaning, NestedKindOf, CompoundMeaning, Get;
    ExprMeans(e, s, f, g, args, map[], env);
    var (s', n) := LowerExpr(e, s);
    match e
    case IntLit(_) => DefinedOne(g, args, |s.g|, |s'.g|, n);
    case BoolLit(_) => DefinedOne(g, args, |s.g|, |s'.g|, n);
    case Ident(x) =>
      NameMeans(x, s, f, g, args, map[], env);
      DefinedOne(g, args, |s.g|, |s'.g|, n);
    case Binary(op, l, r) => BinaryDefined(op, l, r, s, f, g, args, env, n);
    case Unary(op, x) =>
      var (s1, a) := LowerExpr(x, s);
      ExprKeeps(x, s);
      ExprKeeps(e, s);
      InternKeeps(s1, Un(UnaryKindOf(op)), [a]);
      HostsParts(g, s, s1, s');
      ExprDefined(x, s, f, g, args, env);
      InternOne(s1, Un(UnaryKindOf(op)), [a]);
      DefinedOne(g, args, |s1.g|, |s'.g|, n);
      DefinedOn(g, args, |s.g|, |s1.g|, |s'.g|);
    case Assign(x, how, r) =>
      var (s1, b) := LowerExpr(r, s);
      ExprKeeps(r, s);
      AssignParts(x, NestedKindOf(how), s, s1, b, g);
      ExprDefined(r, s, f, g, args, env);
      ExprMeans(r, s, f, g, args, map[], env);
      NameMeans(x, s1, f, g, args, map[], EvalExpr(r, env).value.1);
      AssignOne(x, NestedKindOf(how), s1, b);
      DefinedOne(g, args, |s1.g|, |s'.g|, n);
      DefinedOn(g, args, |s.g|, |s1.g|, |s'.g|);
  }

  lemma {:induction false} BinaryDefined(op: BinaryToken, l: Expr, r: Expr, s: Lower, f: Frame, g: seq<Node>,
                                         args: seq<Word>, env: Env, n: NodeId)
    requires var e := Binary(op, l, r);
      && Inv(s) && PhisOrdered(s.g) && AcceptsExpr(e, f) && PlainNested(e) && Hosts(g, s, LowerExpr(e, s).0)
      && Related(g, args, map[], s.names, f, env, |s.g|) && EvalExpr(e, env).Some?
      && n == LowerExpr(e, s).1 && Value(g, args, map[], n).Some?
    ensures DefinedIn(g, args, |s.g|, |LowerExpr(Binary(op, l, r), s).0.g|)
    decreases Binary(op, l, r), 0
  {
    hide Inv, PhisOrdered, Continues, Intern, Hosts, Related, Value, DefinedIn, EvalBin, NodeKindOf, Meaning;
    var s' := LowerExpr(Binary(op, l, r), s).0;
    var (s1, a) := LowerExpr(l, s);
    ExprKeeps(l, s);
    var (s2, b) := LowerExpr(r, s1);
    ExprKeeps(r, s1);
    GraphGrows(s1, s2);
    InternKeeps(s2, Bin(NodeKindOf(op)), [a, b]);
    ContinuesOn(s1, s2, s');
    HostsParts(g, s, s1, s');
    HostsParts(g, s1, s2, s');
    ExprDefined(l, s, f, g, args, env);
    ExprMeans(l, s, f, g, args, map[], env);
    ExprDefined(r, s1, f, g, args, EvalExpr(l, env).value.1);
    InternOne(s2, Bin(NodeKindOf(op)), [a, b]);
    DefinedOne(g, args, |s2.g|, |s'.g|, n);
    DefinedOn(g, args, |s.g|, |s1.g|, |s2.g|);
    DefinedOn(g, args, |s.g|, |s2.g|, |s'.g|);
  }

  lemma {:induction false} ExprNoReturn(e: Expr, s: Lower, lo: nat)
    requires NoReturns(s.g, lo, |s.g|)
    ensures NoReturns(LowerExpr(e, s).0.g, lo, |LowerExpr(e, s).0.g|)
    decreases e
  {
    hide Get, Put;
    match e
    case Binary(op, l, r) =>
      ExprNoReturn(l, s, lo);
      ExprNoReturn(r, LowerExpr(l, s).0, lo);
    case Unary(_, x) => ExprNoReturn(x, s, lo);
    case Assign(_, _, r) => ExprNoReturn(r, s, lo);
    case _ =>
  }

  lemma HostedNoReturn(g: seq<Node>, s: Lower, s': Lower)
    requires Hosts(g, s, s') && NoReturns(s'.g, |s.g|, |s'.g|)
    ensures NoReturns(g, |s.g|, |s'.g|)
  {
  }

  // ---- Statements ----

  /** A statement that goes on has left only values that are defined, and no return; one that returns has made a return
      of its value after such nodes. */
  ghost predicate Ends(g: seq<Node>, args: seq<Word>, lo: nat, hi: nat, o: Outcome) {
    match o
    case Go(_) => DefinedIn(g, args, lo, hi) && NoReturns(g, lo, hi)
    case Done(v) => exists ret: NodeId :: ReturnsFirst(g, args, lo, hi, ret, v)
    case Stuck => true
  }

  ghost predicate ReturnsFirst(g: seq<Node>, args: seq<Word>, lo: nat, hi: nat, ret: NodeId, v: Word) {
    && lo <= ret < hi <= |g| && g[ret].kind.Return? && DefinedIn(g, args, lo, ret) && NoReturns(g, lo, ret)
    && |g[ret].inputs| == RETURN_INPUTS && Value(g, args, map[], g[ret].inputs[RETURN_VALUE]) == Some(v)
  }

  lemma EndsLater(g: seq<Node>, args: seq<Word>, lo: nat, mid: nat, hi: nat, o: Outcome)
    requires lo <= mid <= hi && DefinedIn(g, args, lo, mid) && NoReturns(g, lo, mid) && Ends(g, args, mid, hi, o)
    ensures Ends(g, args, lo, hi, o)
  {
    hide Value;
    match o
    case Done(v) =>
      var ret: NodeId :| ReturnsFirst(g, args, mid, hi, ret, v);
      assert ReturnsFirst(g, args, lo, hi, ret, v);
    case _ =>
  }

  lemma EndsWiden(g: seq<Node>, args: seq<Word>, lo: nat, mid: nat, hi: nat, o: Outcome)
    requires mid <= hi <= |g| && Ends(g, args, lo, mid, o) && !o.Go?
    ensures Ends(g, args, lo, hi, o)
  {
    hide Value;
    match o
    case Done(v) =>
      var ret: NodeId :| ReturnsFirst(g, args, lo, mid, ret, v);
      assert ReturnsFirst(g, args, lo, hi, ret, v);
    case _ =>
  }

  /** An expression as part of a statement. */
  lemma ExprEnds(e: Expr, s: Lower, f: Frame, g: seq<Node>, args: seq<Word>, env: Env)
    requires Inv(s) && PhisOrdered(s.g) && AcceptsExpr(e, f) && PlainNested(e) && Hosts(g, s, LowerExpr(e, s).0)
    requires Related(g, args, map[], s.names, f, env, |s.g|) && EvalExpr(e, env).Some?
    ensures DefinedIn(g, args, |s.g|, |LowerExpr(e, s).0.g|) && NoReturns(g, |s.g|, |LowerExpr(e, s).0.g|)
  {
    hide Inv, PhisOrdered, Hosts, Related, DefinedIn, LowerExpr;
    ExprDefined(e, s, f, g, args, env);
    assert NoReturns(s.g, |s.g|, |s.g|);
    ExprNoReturn(e, s, |s.g|);
    HostedNoReturn(g, s, LowerExpr(e, s).0);
  }

  lemma ConstantEnds(s: Lower, w: Word, g: seq<Node>, args: seq<Word>)
    requires Hosts(g, s, Make(s, Constant, [], w))
    ensures DefinedIn(g, args, |s.g|, |s.g| + 1) && NoReturns(g, |s.g|, |s.g| + 1)
    ensures Value(g, args, map[], |s.g|) == Some(w)
  {
    hide Value;
    ConstantMeans(g, args, map[], s, w);
    HostedNoReturn(g, s, Make(s, Constant, [], w));
    DefinedOne(g, args, |s.g|, |s.g| + 1, |s.g|);
  }

  lemma SameGraph(g: seq<Node>, s: Lower, s1: Lower, s': Lower)
    requires Hosts(g, s, s') && s'.g == s1.g && s'.table == s1.table
    ensures Hosts(g, s, s1)
  {
  }

  lemma LetEnds(x: Name, isVar: bool, init: Option<Expr>, s: Lower, f: Frame, g: seq<Node>, args: seq<Word>, env: Env)
    requires var st := Let(x, isVar, init);
      && CheckStmt(st, f).Some? && PlainNestedS(st) && Inv(s) && PhisOrdered(s.g) && Hosts(g, s, LowerStmt(st, s).value)
      && Related(g, args, map[], s.names, f, env, |s.g|)
    ensures var st := Let(x, isVar, init); Ends(g, args, |s.g|, |LowerStmt(st, s).value.g|, Exec(st, env))
  {
    hide Inv, PhisOrdered, Hosts, Related, DefinedIn, NoReturns, LowerExpr, Put;
    var s' := LowerStmt(Let(x, isVar, init), s).value;
    if init.Some? {
      SameGraph(g, s, LowerExpr(init.value, s).0, s');
      if EvalExpr(init.value, env).Some? { ExprEnds(init.value, s, f, g, args, env); }
    } else {
      SameGraph(g, s, Make(s, Constant, [], 0), s');
      ConstantEnds(s, 0, g, args);
    }
  }

  lemma AssignStmtEnds(x: Name, how: AssignToken, r: Expr, s: Lower, f: Frame, g: seq<Node>, args: seq<Word>, env: Env)
    requires var st := AssignStmt(x, how, r);
      && CheckStmt(st, f).Some? && PlainNestedS(st) && Inv(s) && PhisOrdered(s.g) && Hosts(g, s, LowerStmt(st, s).value)
      && Related(g, args, map[], s.names, f, env, |s.g|) && Exec(st, env).Go?
    ensures var s' := LowerStmt(AssignStmt(x, how, r), s).value;
      DefinedIn(g, args, |s.g|, |s'.g|) && NoReturns(g, |s.g|, |s'.g|)
  {
    hide Inv, PhisOrdered, Hosts, Related, Value, DefinedIn, NoReturns, LowerExpr, LowerAssign, Continues, Assigned,
         CompoundMeaning, CompoundKindOf, Get;
    var (s1, b) := LowerExpr(r, s);
    var (s', n) := LowerAssign(x, CompoundKindOf(how), s1, b);
    ExprKeeps(r, s);
    AssignParts(x, CompoundKindOf(how), s, s1, b, g);
    ExprEnds(r, s, f, g, args, env);
    ExprMeans(r, s, f, g, args, map[], env);
    var (w, env1) := EvalExpr(r, env).value;
    NameMeans(x, s1, f, g, args, map[], env1);
    SameTables(Plus, Bang, how);
    AssignMeans(x, how, CompoundKindOf(how), s1, b, f, g, args, map[], env1, w);
    AssignOne(x, CompoundKindOf(how), s1, b);
    DefinedOne(g, args, |s1.g|, |s'.g|, n);
    DefinedOn(g, args, |s.g|, |s1.g|, |s'.g|);
    OneNoReturn(g, s1, s', |s.g|);
  }

  lemma OneNoReturn(g: seq<Node>, s1: Lower, s': Lower, lo: nat)
    requires Hosts(g, s1, s') && |s1.g| <= |s'.g| <= |s1.g| + 1 && NoReturns(g, lo, |s1.g|)
    requires |s'.g| == |s1.g| + 1 ==> s'.g[|s1.g|].kind.Bin?
    ensures NoReturns(g, lo, |s'.g|)
  {
  }

  lemma ReturnEnds(result: Option<Expr>, s: Lower, f: Frame, g: seq<Node>, args: seq<Word>, env: Env)
    requires var st := ReturnStmt(result);
      && CheckStmt(st, f).Some? && PlainNestedS(st) && Inv(s) && PhisOrdered(s.g) && Hosts(g, s, LowerStmt(st, s).value)
      && Related(g, args, map[], s.names, f, env, |s.g|)
    ensures var st := ReturnStmt(result); Ends(g, args, |s.g|, |LowerStmt(st, s).value.g|, Exec(st, env))
  {
    hide Inv, PhisOrdered, Related, Value, DefinedIn, NoReturns, LowerExpr, Continues, TableOk, EvalExpr;
    var (s1, n) := if result.Some? then LowerExpr(result.value, s) else (Make(s, Constant, [], 0), |s.g|);
    if result.Some? { ExprKeeps(result.value, s); } else { LeafKeeps(s, Constant, 0); }
    var s2 := Make(s1, Return, [s1.ctrl, s1.eff, n], 0);
    ContinuesContains(s, s1);
    assert Contains(s1, s2);
    assert Hosts(g, s, s2);
    HostsCut(g, s, s1, s2);
    assert g[|s1.g|] == s2.g[|s1.g|];
    if result.None? {
      ConstantEnds(s, 0, g, args);
      assert ReturnsFirst(g, args, |s.g|, |s2.g|, |s1.g|, 0);
    } else if EvalExpr(result.value, env).Some? {
      ExprEnds(result.value, s, f, g, args, env);
      ExprMeans(result.value, s, f, g, args, map[], env);
      assert ReturnsFirst(g, args, |s.g|, |s2.g|, |s1.g|, EvalExpr(result.value, env).value.0);
    }
  }

  // ---- Control goes straight on ----

  lemma StepsNowhere(g: seq<Node>, args: seq<Word>, p: Point, m: Point)
    requires PlainGraph(g)
    ensures !Step(g, args, p, m)
  {
    hide Value;
    forall u: NodeId ensures !Passes(g, args, p, u, m) {
      assert u < |g| ==> PlainNode(g, u);
    }
  }

  lemma NoStep(g: seq<Node>, args: seq<Word>, p: Point, q: Point)
    requires PlainGraph(g) && Reaches(g, args, p, q)
    ensures q == p
  {
    hide Step, PlainGraph;
    var n: nat :| Walk(g, args, p, q, n);
    forall m: Point ensures !Step(g, args, p, m) { StepsNowhere(g, args, p, m); }
  }

  /** What is bound after a plain statement that goes on. */
  lemma BoundAfter(st: Stmt, s: Lower, f: Frame, g: seq<Node>, args: seq<Word>, env: Env)
    requires LowerStmt(st, s).Some? && CheckStmt(st, f).Some? && Plain(st) && PlainNestedS(st)
    requires Inv(s) && PhisOrdered(s.g) && Hosts(g, s, LowerStmt(st, s).value) && |g| < INVALID && PlainGraph(g)
    requires s.ctrl != INVALID && Related(g, args, map[], s.names, f, env, |s.g|) && Exec(st, env).Go?
    ensures var s' := LowerStmt(st, s).value;
      s'.ctrl == s.ctrl && Related(g, args, map[], s'.names, CheckStmt(st, f).value, Exec(st, env).env, |s'.g|)
  {
    hide Inv, PhisOrdered, Hosts, Related, Reaches, SameBelow, PlainGraph, LowerStmt, CheckStmt, Exec, PlainNestedS;
    PlainSeen(st, f);
    StmtMeans(st, s, f, g, args, map[], env);
    var s' := LowerStmt(st, s).value;
    var phis: Phis :| Reaches(g, args, Point(s.ctrl, map[]), Point(s'.ctrl, phis))
      && Related(g, args, phis, s'.names, CheckStmt(st, f).value, Exec(st, env).env, |s'.g|);
    NoStep(g, args, Point(s.ctrl, map[]), Point(s'.ctrl, phis));
  }

  lemma {:induction false} PlainSeen(st: Stmt, f: Frame)
    requires Plain(st)
    ensures LoopsSeen(st, f)
    decreases st
  {
    if st.BlockStmt? { AllPlainSeen(st.stmts, f); }
  }

  lemma {:induction false} AllPlainSeen(stmts: seq<Stmt>, f: Frame)
    requires AllPlain(stmts)
    ensures AllLoopsSeen(stmts, f)
    decreases stmts
  {
    hide CheckStmt;
    if stmts != [] {
      PlainSeen(stmts[0], f);
      if CheckStmt(stmts[0], f).Some? { AllPlainSeen(stmts[1..], CheckStmt(stmts[0], f).value); }
    }
  }

  lemma {:induction false} StmtEnds(st: Stmt, s: Lower, f: Frame, g: seq<Node>, args: seq<Word>, env: Env)
    requires LowerStmt(st, s).Some? && CheckStmt(st, f).Some? && Plain(st) && PlainNestedS(st)
    requires Inv(s) && PhisOrdered(s.g) && Hosts(g, s, LowerStmt(st, s).value) && |g| < INVALID && PlainGraph(g)
    requires s.ctrl != INVALID && Related(g, args, map[], s.names, f, env, |s.g|)
    ensures Ends(g, args, |s.g|, |LowerStmt(st, s).value.g|, Exec(st, env))
    decreases st, 1
  {
    hide Inv, PhisOrdered, Hosts, Related, PlainGraph, DefinedIn, NoReturns, LowerExpr, LowerAssign, ReturnsFirst,
      Assigned;
    match st
    case Let(x, isVar, init) => LetEnds(x, isVar, init, s, f, g, args, env);
    case Do(e) => if EvalExpr(e, env).Some? { ExprEnds(e, s, f, g, args, env); }
    case AssignStmt(x, how, r) =>
      if Exec(st, env).Go? { AssignStmtEnds(x, how, r, s, f, g, args, env); }
    case ReturnStmt(result) => ReturnEnds(result, s, f, g, args, env);
    case BlockStmt(stmts) => AllEnd(stmts, s, f, g, args, env);
    case _ =>
  }

  lemma {:induction false} AllEnd(stmts: seq<Stmt>, s: Lower, f: Frame, g: seq<Node>, args: seq<Word>, env: Env)
    requires LowerAll(stmts, s).Some? && CheckAll(stmts, f).Some? && AllPlain(stmts) && PlainNestedAll(stmts)
    requires Inv(s) && PhisOrdered(s.g) && Hosts(g, s, LowerAll(stmts, s).value) && |g| < INVALID && PlainGraph(g)
    requires s.ctrl != INVALID && Related(g, args, map[], s.names, f, env, |s.g|)
    ensures Ends(g, args, |s.g|, |LowerAll(stmts, s).value.g|, ExecAll(stmts, env))
    ensures ExecAll(stmts, env).Go? ==> LowerAll(stmts, s).value.ctrl == s.ctrl
    decreases stmts, 0
  {
    hide Inv, PhisOrdered, Hosts, Related, PlainGraph, Continues, LowerStmt, CheckStmt, Exec, ReturnsFirst;
    if stmts != [] {
      hide DefinedIn, NoReturns;
      var s1, s' := LowerStmt(stmts[0], s).value, LowerAll(stmts, s).value;
      StmtKeeps(stmts[0], s);
      AllKeeps(stmts[1..], s1);
      HostsParts(g, s, s1, s');
      HostsFit(g, s, s1, s');
      StmtEnds(stmts[0], s, f, g, args, env);
      var o := Exec(stmts[0], env);
      if o.Go? {
        BoundAfter(stmts[0], s, f, g, args, env);
        AllEnd(stmts[1..], s1, CheckStmt(stmts[0], f).value, g, args, o.env);
        EndsLater(g, args, |s.g|, |s1.g|, |s'.g|, ExecAll(stmts, env));
      } else {
        EndsWiden(g, args, |s.g|, |s1.g|, |s'.g|, o);
      }
    }
  }

  lemma HostsFit(g: seq<Node>, s: Lower, s1: Lower, s': Lower)
    requires Hosts(g, s, s1) && Hosts(g, s1, s')
    ensures |s.g| <= |s1.g| <= |s'.g| <= |g|
  {
  }

  // ---- Functions ----

  /** The parameters have values, and nothing before the body is a return. */
  lemma ParamsDefined(fn: Fn, args: seq<Word>, s: Lower)
    requires Accepts(fn) && |fn.params| <= |args| && LowerFn(fn) == Some(s) && PlainGraph(s.g)
    ensures DefinedIn(s.g, args, 0, FIRST_PARAM + |fn.params|) && NoReturns(s.g, 0, FIRST_PARAM + |fn.params|)
  {
    ParametersAreDeclared(fn, s);
    hide Accepts, LowerFn, Value;
    forall n: NodeId | n < FIRST_PARAM + |fn.params| && IsValue(s.g, n) ensures Value(s.g, args, map[], n).Some? {
      assert n != 0 && n != 1 && n != 2;
      ParamValue(s.g, args, n);
    }
    forall n: NodeId | n < FIRST_PARAM + |fn.params| ensures !s.g[n].kind.Return? {
    }
  }

  /** In the graph of a plain function everything up to the first return has a value, the interpreter's result there. */
  lemma FunctionEnds(fn: Fn, args: seq<Word>, s: Lower, value: Word) returns (ret: NodeId)
    requires Accepts(fn) && AllPlain(fn.stmts) && PlainNestedAll(fn.stmts) && |fn.params| <= |args|
    requires LowerFn(fn) == Some(s) && |s.g| < INVALID && Call(fn, args) == Some(value)
    ensures ReturnsFirst(s.g, args, 0, |s.g|, ret, value)
  {
    hide Inv, PhisOrdered, Hosts, Related, PlainGraph, DefinedIn, NoReturns, ReturnsFirst, LowerFn, LowerAll, ExecAll,
         CheckAll, ParamFrame, AllPlain, PlainNestedAll, Continues;
    FunctionPlain(fn);
    var s0, s1 := FunctionHosted(fn, args, s);
    var env := Bound(fn.params, args);
    var o := ExecAll(fn.stmts, env);
    AllEnd(fn.stmts, s0, ParamFrame(fn.params).value, s.g, args, env);
    ParamsDefined(fn, args, s);
    EndsLater(s.g, args, 0, |s0.g|, |s1.g|, o);
    if o.Go? {
      EffectLeft(fn, args, s, s0, s1);
      ret := |s1.g| + 1;
      FallsOffEnds(s, s1, args);
    } else {
      EndsWiden(s.g, args, 0, |s1.g|, |s.g|, o);
      ret :| ReturnsFirst(s.g, args, 0, |s.g|, ret, value);
    }
  }

  lemma FallsOffEnds(s: Lower, s1: Lower, args: seq<Word>)
    requires |s.g| == |s1.g| + 2 && s.g[|s1.g|] == Bare(Constant, [], 0)
    requires s.g[|s1.g| + 1] == Bare(Return, [s1.ctrl, s1.eff, |s1.g|], 0)
    requires DefinedIn(s.g, args, 0, |s1.g|) && NoReturns(s.g, 0, |s1.g|)
    ensures ReturnsFirst(s.g, args, 0, |s.g|, |s1.g| + 1, 0)
  {
    assert Value(s.g, args, map[], |s1.g|) == Some(0);
  }

  function ValueOr(g: seq<Node>, args: seq<Word>, n: NodeId): Word {
    if Value(g, args, map[], n).Some? then Value(g, args, map[], n).value else 0
  }

  lemma ValuesHold(g: seq<Node>, args: seq<Word>, val: seq<Word>, id: NodeId)
    requires S.StraightLine(g) && |val| == |g| && (forall n :: 0 <= n < |g| ==> val[n] == ValueOr(g, args, n))
    requires S.IsLiveValue(g, id) && Value(g, args, map[], id).Some?
    ensures S.WellFormed(g, g[id]) && StraightLineCode.NodeHolds(g, args, val, id)
  {
    hide EvalBin, EvalUn;
    assert S.WellFormed(g, g[id]);
  }

  /** Everything of a plain graph up to its return is all that is demanded. */
  lemma PrefixDemanded(g: seq<Node>, ret: NodeId, d: set<NodeId>)
    requires PlainGraph(g) && ret < |g| < INVALID && forall id: NodeId :: id in d <==> id <= ret
    ensures StraightLineCode.Demanded(g, ret, d)
  {
    forall id: NodeId, input: NodeId | id in d && Scheduler.InputOf(g, id, input) ensures input in d {
      assert PlainNode(g, id);
    }
  }

  /** The graph of a plain function has a valuation of all that is demanded, with the interpreter's result at its
      return. */
  lemma GraphHasValue(fn: Fn, args: seq<Word>, s: Lower, ret: NodeId, value: Word)
        returns (val: seq<Word>, d: set<NodeId>)
    requires Accepts(fn) && AllPlain(fn.stmts) && PlainNestedAll(fn.stmts) && |fn.params| <= |args|
    requires LowerFn(fn) == Some(s) && StraightLineCode.Compilable(s.g, ret) && Call(fn, args) == Some(value)
    ensures StraightLineCode.Demanded(s.g, ret, d) && StraightLineCode.Valuation(s.g, args, val, d)
    ensures ret < |s.g| && |s.g[ret].inputs| == RETURN_INPUTS && s.g[ret].inputs[RETURN_VALUE] < |val|
      && val[s.g[ret].inputs[RETURN_VALUE]] == value
  {
    FunctionPlain(fn);
    var first := FunctionEnds(fn, args, s, value);
    SameReturn(s.g, ret, args, first, value);
    StraightLineCode.ReturnedNode(s.g, ret);
    d := Range(0, ret + 1);
    PrefixDemanded(s.g, ret, d);
    val := seq(|s.g|, n requires 0 <= n < |s.g| => ValueOr(s.g, args, n));
    hide Value, Accepts, LowerFn, Call, AllPlain, PlainNestedAll, PlainGraph, StraightLineCode.Demanded, S.StraightLine,
         StraightLineCode.Compilable, StraightLineCode.NodeHolds;
    forall id: NodeId | id in d && S.IsLiveValue(s.g, id)
      ensures S.WellFormed(s.g, s.g[id]) && StraightLineCode.NodeHolds(s.g, args, val, id)
    {
      assert IsValue(s.g, id) && !s.g[id].kind.Return?;
      ValuesHold(s.g, args, val, id);
    }
  }

  lemma SameReturn(g: seq<Node>, ret: NodeId, args: seq<Word>, first: NodeId, value: Word)
    requires StraightLineCode.FirstReturn(g, ret) && PlainGraph(g) && ReturnsFirst(g, args, 0, |g|, first, value)
    ensures ret == first
  {
    hide Value;
    assert PlainNode(g, first);
    assert Scheduler.InRange(g, first);
  }
}
