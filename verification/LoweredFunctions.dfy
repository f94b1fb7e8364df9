/** Whole functions: the lowered graph returns what the interpreter returns, has no parameter but the
    declared ones, and what goes wrong when an inner loop's range assigns. */
module LoweredFunctions {
  import opened Wrappers
  import opened Words
  import opened IR
  import opened Ast
  import opened Interpreter
  import opened TypeChecker
  import opened Lowering
  import opened LoweringShape
  import opened LoweringMeaning
  import opened SeaSemantics

  // ---- Parameters ----

  const FIRST_PARAM: nat := 3

  lemma {:induction false} ParamsLowered(params: seq<Param>)
    requires ParamFrame(params).Some?
    ensures var s := LowerParams(params, Fresh());
      && Inv(s) && PhisOrdered(s.g) && |s.g| == FIRST_PARAM + |params| && s.ctrl == 1 && s.eff == 2 && s.table == map[]
      && (forall n: nat :: n < |s.g| ==> (s.g[n].kind.Parameter? <==> n >= FIRST_PARAM))
  {
    if params != [] {
      var n := |params| - 1;
      ParamsLowered(params[..n]);
      var s1 := LowerParams(params[..n], Fresh());
      var s2 := Make(s1, Parameter, [], 0);
      LeafKeeps(s1, Parameter, 0);
      Bind(s2, params[n].name, |s1.g|);
    }
  }

  lemma {:induction false} SignatureIndexAt(g: seq<Node>, n: nat)
    requires FIRST_PARAM <= n <= |g|
    requires forall i: nat :: i < n ==> (g[i].kind.Parameter? <==> i >= FIRST_PARAM)
    ensures SignatureIndex(g, n) == n - FIRST_PARAM
  {
    if n > FIRST_PARAM {
      SignatureIndexAt(g, n - 1);
    } else {
      assert SignatureIndex(g, 0) == 0;
      assert SignatureIndex(g, 1) == 0;
      assert SignatureIndex(g, 2) == 0;
    }
  }

  lemma ParamValue(g: seq<Node>, args: seq<Word>, n: nat)
    requires FIRST_PARAM <= n < |g| && n - FIRST_PARAM < |args|
    requires forall i: nat :: i <= n ==> (g[i].kind.Parameter? <==> i >= FIRST_PARAM)
    ensures Value(g, args, map[], n) == Some(args[n - FIRST_PARAM])
  {
    SignatureIndexAt(g, n);
    var i: nat := n - FIRST_PARAM;
    assert g[n].kind.Parameter?;
  }

  /** On entry every parameter's name is bound to a node with its argument. */
  lemma {:induction false} ParamsRelated(params: seq<Param>, g: seq<Node>, args: seq<Word>)
    requires ParamFrame(params).Some? && |params| <= |args| && FIRST_PARAM + |params| <= |g|
    requires forall i: nat :: i < FIRST_PARAM + |params| ==> (g[i].kind.Parameter? <==> i >= FIRST_PARAM)
    ensures var s := LowerParams(params, Fresh());
      Related(g, args, map[], s.names, ParamFrame(params).value, Bound(params, args), FIRST_PARAM + |params|)
  {
    hide Value;
    if params != [] {
      var n := |params| - 1;
      var f := ParamFrame(params[..n]).value;
      ParamsRelated(params[..n], g, args);
      ParamsLowered(params[..n]);
      var s1 := LowerParams(params[..n], Fresh());
      Extended(f, params[n].name, params[n].isMutable);
      ParamValue(g, args, FIRST_PARAM + n);
      RelatedWiden(g, args, map[], s1.names, f, Bound(params[..n], args), FIRST_PARAM + n, FIRST_PARAM + |params|);
      RelatedPut(g, args, map[], s1.names, f, Bound(params[..n], args), FIRST_PARAM + |params|, params[n].name,
        FIRST_PARAM + n, args[n], ParamFrame(params).value);
    }
  }

  // ---- The effect token ----

  /** Statements that can end other than by returning. */
  predicate Falls(s: Stmt)
    decreases s
  {
    match s
    case ReturnStmt(_) => false
    case IfStmt(_, yes, no) => Falls(yes) || no.None? || Falls(no.value)
    case BlockStmt(stmts) => forall i :: 0 <= i < |stmts| ==> Falls(stmts[i])
    case _ => true
  }

  lemma {:induction false} GoMeansFalls(s: Stmt, env: Env)
    requires Exec(s, env).Go?
    ensures Falls(s)
    decreases s
  {
    match s
    case IfStmt(cond, yes, no) =>
      var (w, env1) := EvalExpr(cond, env).value;
      if w != 0 { GoMeansFalls(yes, env1); } else if no.Some? { GoMeansFalls(no.value, env1); }
    case BlockStmt(stmts) => AllGoMeansFalls(stmts, env);
    case _ =>
  }

  lemma {:induction false} AllGoMeansFalls(stmts: seq<Stmt>, env: Env)
    requires ExecAll(stmts, env).Go?
    ensures forall i :: 0 <= i < |stmts| ==> Falls(stmts[i])
    decreases stmts
  {
    if stmts != [] {
      GoMeansFalls(stmts[0], env);
      AllGoMeansFalls(stmts[1..], Exec(stmts[0], env).env);
      forall i | 0 <= i < |stmts| ensures Falls(stmts[i]) {
        if i > 0 { assert stmts[i] == stmts[1..][i - 1]; }
      }
    }
  }

  /** Where control can fall through there is an effect token. */
  lemma {:induction false} EffectKept(st: Stmt, s: Lower)
    requires Inv(s) && PhisOrdered(s.g) && LowerStmt(st, s).Some? && |LowerStmt(st, s).value.g| < INVALID
    requires s.eff != INVALID && Falls(st)
    ensures LowerStmt(st, s).value.eff != INVALID
    decreases st, 1
  {
    hide Inv, PhisOrdered, Continues, OpenLoop, CloseLoop, BranchOpen;
    match st
    case Let(_, _, init) =>
      if init.Some? { ExprKeeps(init.value, s); }
    case Do(e) => ExprKeeps(e, s);
    case AssignStmt(x, how, r) => AssignStmtKeeps(x, how, r, s);
    case IfStmt(cond, yes, no) => IfEffect(cond, yes, no, s);
    case BlockStmt(stmts) => AllEffect(stmts, s);
    case ForStmt(x, lo, hi, body) => ForEffect(x, lo, hi, body, s);
    case _ =>
  }

  lemma ForEffect(x: Name, lo: Expr, hi: Expr, body: Stmt, s: Lower)
    requires LowerFor(x, lo, hi, body, s).Some? && |LowerFor(x, lo, hi, body, s).value.g| < INVALID
    ensures LowerFor(x, lo, hi, body, s).value.eff != INVALID
  {
    hide OpenLoop, CloseLoop, LowerStmt, LowerExpr, Intern, ClosePhis, SetInput;
    ForUnfolds(x, lo, hi, body, s);
    var (s1, a) := LowerExpr(lo, s);
    var (s2, b) := LowerExpr(hi, s1);
    var (s3, phis) := OpenLoop(x, a, b, body, s2);
    var t, n, u := CloseLoopSteps(|s2.g|, s3.ctrl + 1, phis, LowerStmt(body, s3).value, s2);
  }

  lemma {:induction false} IfEffect(cond: Expr, yes: Stmt, no: Option<Stmt>, s: Lower)
    requires var st := IfStmt(cond, yes, no);
      && Inv(s) && PhisOrdered(s.g) && LowerStmt(st, s).Some? && |LowerStmt(st, s).value.g| < INVALID
      && s.eff != INVALID && Falls(st)
    ensures LowerStmt(IfStmt(cond, yes, no), s).value.eff != INVALID
    decreases IfStmt(cond, yes, no), 0
  {
    hide Inv, PhisOrdered, Continues, LowerExpr, MergeNames;
    ExprKeeps(cond, s);
    var s1 := LowerExpr(cond, s).0;
    var s2, t, e := LowerIf(cond, yes, no, s);
    var into := s2.(ctrl := |s1.g| + 1);
    var turn := AtElse(s2, t, |s1.g|);
    BranchOpens(s1, LowerExpr(cond, s).1);
    StmtKeeps(yes, into);
    BranchTurns(s2, t, |s1.g|);
    GraphGrows(into, t);
    if no.Some? { StmtKeeps(no.value, turn); GraphGrows(turn, e); }
    BranchesMeet(t, e);
    MergeKeeps(t.names, e.names, |e.g|, AtMerge(t, e));
    GraphGrows(AtMerge(t, e), MergeNames(t.names, e.names, |e.g|, AtMerge(t, e)));
    if Falls(yes) { EffectKept(yes, into); }
    if no.Some? && Falls(no.value) { EffectKept(no.value, turn); }
  }

  lemma {:induction false} AllEffect(stmts: seq<Stmt>, s: Lower)
    requires Inv(s) && PhisOrdered(s.g) && LowerAll(stmts, s).Some? && |LowerAll(stmts, s).value.g| < INVALID
    requires s.eff != INVALID && forall i :: 0 <= i < |stmts| ==> Falls(stmts[i])
    ensures LowerAll(stmts, s).value.eff != INVALID
    decreases stmts, 0
  {
    hide Inv, PhisOrdered, Continues, LowerStmt;
    if stmts != [] {
      var s1 := LowerStmt(stmts[0], s).value;
      StmtKeeps(stmts[0], s);
      AllKeeps(stmts[1..], s1);
      GraphGrows(s1, LowerAll(stmts, s).value);
      EffectKept(stmts[0], s);
      AllEffect(stmts[1..], s1);
    }
  }

  // ---- The interning table tells the truth ----

  /** Interned nodes are what the table says. */
  ghost predicate TableTrue(s: Lower) {
    forall key :: key in s.table ==>
      && s.table[key] < |s.g| && s.g[s.table[key]].kind == key.0 && s.g[s.table[key]].inputs == key.1
      && (key.0.Bin? || key.0.Un?)
  }

  lemma MakeTrue(s: Lower, kind: NodeKind, inputs: seq<NodeId>, payload: Word)
    requires TableTrue(s)
    ensures TableTrue(Make(s, kind, inputs, payload))
  {
  }

  lemma InternTrue(s: Lower, kind: NodeKind, inputs: seq<NodeId>)
    requires TableTrue(s) && (kind.Bin? || kind.Un?)
    ensures TableTrue(Intern(s, kind, inputs).0)
  {
  }

  /** Redirecting an input of a phi or a loop leaves interned nodes alone. */
  lemma SetInputTrue(s: Lower, n: NodeId, i: nat, v: NodeId)
    requires TableTrue(s) && (n < |s.g| ==> s.g[n].kind.Phi? || s.g[n].kind.Loop?)
    ensures TableTrue(s.(g := SetInput(s.g, n, i, v)))
    ensures forall m: nat :: m < |s.g| ==> SetInput(s.g, n, i, v)[m].kind == s.g[m].kind
  {
  }

  lemma {:induction false} ClosePhisTrue(phis: seq<(Name, NodeId)>, s: Lower)
    requires TableTrue(s) && forall j :: 0 <= j < |phis| ==>
      Get<NodeId>(s.names, phis[j].0).Some? && phis[j].1 < |s.g| && s.g[phis[j].1].kind.Phi?
    ensures TableTrue(ClosePhis(phis, s)) && |ClosePhis(phis, s).g| == |s.g|
    ensures forall m: nat :: m < |s.g| ==> ClosePhis(phis, s).g[m].kind == s.g[m].kind
    decreases |phis|
  {
    hide TableTrue, SetInput, Get;
    if phis != [] {
      var back := Get<NodeId>(s.names, phis[0].0).value;
      assert forall j :: 0 <= j < |phis[1..]| ==> phis[1..][j] == phis[j + 1];
      SetInputTrue(s, phis[0].1, 2, back);
      ClosePhisTrue(phis[1..], s.(g := SetInput(s.g, phis[0].1, 2, back)));
    }
  }

  lemma AssignTrue(x: Name, op: Option<BinOp>, s: Lower, b: NodeId)
    requires TableTrue(s)
    ensures TableTrue(LowerAssign(x, op, s, b).0)
  {
    hide TableTrue, Intern, Make, Get, Put;
    match op
    case None => NamesTrue(s, Put<NodeId>(s.names, x, b));
    case Some(k) =>
      MakeTrue(s, Constant, [], 0);
      var (s1, cur) := Current(s, x);
      InternTrue(s1, Bin(k), [cur, b]);
      var (s2, n) := Intern(s1, Bin(k), [cur, b]);
      NamesTrue(s2, Put<NodeId>(s2.names, x, n));
  }

  lemma {:induction false} ExprTrue(e: Expr, s: Lower)
    requires TableTrue(s)
    ensures TableTrue(LowerExpr(e, s).0)
    decreases e
  {
    hide TableTrue, Intern, Make, Get, Put;
    match e
    case IntLit(w) => MakeTrue(s, Constant, [], w);
    case BoolLit(b) => MakeTrue(s, Constant, [], Truth(b));
    case Ident(x) => MakeTrue(s, Parameter, [], 0);
    case Binary(op, l, r) =>
      ExprTrue(l, s);
      var (s1, a) := LowerExpr(l, s);
      ExprTrue(r, s1);
      var (s2, b) := LowerExpr(r, s1);
      InternTrue(s2, Bin(NodeKindOf(op)), [a, b]);
    case Unary(op, x) =>
      ExprTrue(x, s);
      var (s1, a) := LowerExpr(x, s);
      InternTrue(s1, Un(UnaryKindOf(op)), [a]);
    case Assign(x, how, r) =>
      ExprTrue(r, s);
      var (s1, b) := LowerExpr(r, s);
      AssignTrue(x, NestedKindOf(how), s1, b);
    case NotLowered => MakeTrue(s, Constant, [], 0);
  }

  lemma NamesTrue(s: Lower, names: Assoc<NodeId>)
    requires TableTrue(s)
    ensures TableTrue(s.(names := names))
  {
  }

  /** Only the graph and the table matter. */
  lemma SameTrue(s: Lower, s': Lower)
    requires TableTrue(s) && s'.g == s.g && s'.table == s.table
    ensures TableTrue(s')
  {
  }

  lemma {:induction false} MergeTrue(yes: Assoc<NodeId>, no: Assoc<NodeId>, merge: NodeId, s: Lower)
    requires TableTrue(s)
    ensures TableTrue(MergeNames(yes, no, merge, s))
    decreases |yes|
  {
    hide TableTrue, Put, Get;
    if yes != [] {
      var (x, t) := yes[0];
      var e := Get<NodeId>(no, x);
      if e.Some? && e.value != t {
        MakeTrue(s, Phi, [merge, t, e.value], 0);
        var m := Make(s, Phi, [merge, t, e.value], 0);
        NamesTrue(m, Put<NodeId>(s.names, x, |s.g|));
        MergeTrue(yes[1..], no, merge, m.(names := Put<NodeId>(s.names, x, |s.g|)));
      } else {
        NamesTrue(s, Put<NodeId>(s.names, x, t));
        MergeTrue(yes[1..], no, merge, s.(names := Put<NodeId>(s.names, x, t)));
      }
    }
  }

  lemma {:induction false} StmtTrue(st: Stmt, s: Lower)
    requires Inv(s) && PhisOrdered(s.g) && LowerStmt(st, s).Some? && TableTrue(s)
    ensures TableTrue(LowerStmt(st, s).value)
    decreases st, 1
  {
    hide TableTrue, Inv, PhisOrdered, LowerExpr, Make, Put;
    match st
    case Let(x, _, init) =>
      if init.Some? {
        ExprTrue(init.value, s);
        var (s1, n) := LowerExpr(init.value, s);
        NamesTrue(s1, Put<NodeId>(s1.names, x, n));
      } else {
        MakeTrue(s, Constant, [], 0);
        NamesTrue(Make(s, Constant, [], 0), Put<NodeId>(s.names, x, |s.g|));
      }
    case Do(e) => ExprTrue(e, s);
    case AssignStmt(x, how, r) =>
      ExprTrue(r, s);
      var (s1, b) := LowerExpr(r, s);
      AssignTrue(x, CompoundKindOf(how), s1, b);
    case ReturnStmt(result) =>
      if result.Some? { ExprTrue(result.value, s); } else { MakeTrue(s, Constant, [], 0); }
      var (s1, n) := if result.Some? then LowerExpr(result.value, s) else (Make(s, Constant, [], 0), |s.g|);
      MakeTrue(s1, Return, [s1.ctrl, s1.eff, n], 0);
      var s2 := Make(s1, Return, [s1.ctrl, s1.eff, n], 0);
      SameTrue(s2, s2.(ctrl := INVALID, eff := INVALID));
    case IfStmt(cond, yes, no) => IfTrue(cond, yes, no, s);
    case BlockStmt(stmts) => AllTrue(stmts, s);
    case ForStmt(x, lo, hi, body) => ForTrue(x, lo, hi, body, s);
    case MatchStmt => MakeTrue(s, Constant, [], 0);
  }

  lemma {:induction false} AllTrue(stmts: seq<Stmt>, s: Lower)
    requires Inv(s) && PhisOrdered(s.g) && LowerAll(stmts, s).Some? && TableTrue(s)
    ensures TableTrue(LowerAll(stmts, s).value)
    decreases stmts, 0
  {
    hide TableTrue, Inv, PhisOrdered, LowerStmt;
    if stmts != [] {
      StmtTrue(stmts[0], s);
      StmtKeeps(stmts[0], s);
      AllTrue(stmts[1..], LowerStmt(stmts[0], s).value);
    }
  }

  lemma {:induction false} IfTrue(cond: Expr, yes: Stmt, no: Option<Stmt>, s: Lower)
    requires Inv(s) && PhisOrdered(s.g) && LowerStmt(IfStmt(cond, yes, no), s).Some? && TableTrue(s)
    ensures TableTrue(LowerStmt(IfStmt(cond, yes, no), s).value)
    decreases IfStmt(cond, yes, no), 0
  {
    hide *;
    ExprTrue(cond, s);
    ExprKeeps(cond, s);
    var (s1, c) := LowerExpr(cond, s);
    var s2, t, e := LowerIf(cond, yes, no, s);
    var into := s2.(ctrl := |s1.g| + 1);
    var turn := AtElse(s2, t, |s1.g|);
    BranchOpens(s1, c);
    BranchTrue(s1, c);
    SameTrue(s2, into);
    StmtTrue(yes, into);
    StmtKeeps(yes, into);
    BranchTurns(s2, t, |s1.g|);
    AtElseGraph(s2, t, |s1.g|);
    SameTrue(t, turn);
    if no.Some? { StmtTrue(no.value, turn); }
    AtMergeTrue(t, e);
    MergeTrue(t.names, e.names, |e.g|, AtMerge(t, e));
  }

  lemma BranchTrue(s1: Lower, c: NodeId)
    requires TableTrue(s1)
    ensures TableTrue(BranchOpen(s1, c))
  {
  }

  lemma AtMergeTrue(t: Lower, e: Lower)
    requires TableTrue(e)
    ensures TableTrue(AtMerge(t, e))
  {
  }

  lemma {:induction false} ForTrue(x: Name, lo: Expr, hi: Expr, body: Stmt, s: Lower)
    requires Inv(s) && PhisOrdered(s.g) && LowerFor(x, lo, hi, body, s).Some? && TableTrue(s)
    ensures TableTrue(LowerFor(x, lo, hi, body, s).value)
    decreases body, 2
  {
    hide *;
    ForUnfolds(x, lo, hi, body, s);
    ExprKeeps(lo, s);
    ExprTrue(lo, s);
    var (s1, a) := LowerExpr(lo, s);
    ExprKeeps(hi, s1);
    ExprTrue(hi, s1);
    var (s2, b) := LowerExpr(hi, s1);
    var (s3, phis) := OpenLoop(x, a, b, body, s2);
    OpenLoopKeeps(x, a, b, body, s2);
    OpenTrue(s2, s3);
    StmtTrue(body, s3);
    StmtKeeps(body, s3);
    var s4 := LowerStmt(body, s3).value;
    OpenPhiKinds(x, a, b, body, s2, s4);
    CloseTrue(|s2.g|, s3.ctrl + 1, phis, s4, s2);
  }

  lemma OpenTrue(s: Lower, s': Lower)
    requires TableTrue(s) && Continues(s, s') && s'.table == s.table
    ensures TableTrue(s')
  {
  }

  lemma OpenPhiKinds(x: Name, lo: NodeId, hi: NodeId, body: Stmt, s: Lower, after: Lower)
    requires Inv(s) && PhisOrdered(s.g) && Continues(OpenLoop(x, lo, hi, body, s).0, after)
    ensures var (s', phis) := OpenLoop(x, lo, hi, body, s);
      && |s.g| + 1 < |after.g| && after.g[|s.g|].kind.Loop? && after.g[|s.g| + 1].kind.Phi?
      && forall j :: 0 <= j < |phis| ==>
           Get<NodeId>(after.names, phis[j].0).Some? && phis[j].1 < |after.g| && after.g[phis[j].1].kind.Phi?
  {
    hide Accumulators, PutAll, Put, Get, OpenGraph, OpenLoop, Inv, PhisOrdered, OpenNodes, PhiList, LoopOpen;
    var acc := Accumulators(body, s.names);
    AccumulatorsBound(body, s.names);
    OpenLoopMakes(x, lo, hi, body, s);
    var accs := OpenNodes(acc, |s.g|, s.names);
    OpenNodesAt(acc, |s.g|, s.names);
    PhiListAt(acc, |s.g| + 2);
    OpenGraphNodes(s.g, s.ctrl, lo, hi, accs);
    OpenLoopStands(x, lo, hi, body, s, after);
    var (s', phis) := OpenLoop(x, lo, hi, body, s);
    forall j | 0 <= j < |phis| ensures phis[j].1 < |after.g| && after.g[phis[j].1].kind.Phi? {
      assert s'.g[|s.g| + 2 + j] == accs[j];
    }
  }

  lemma CloseTrue(loop: NodeId, exit: NodeId, phis: seq<(Name, NodeId)>, s: Lower, before: Lower)
    requires TableTrue(s) && loop + 1 < |s.g| && s.g[loop].kind.Loop? && s.g[loop + 1].kind.Phi?
    requires forall j :: 0 <= j < |phis| ==>
      Get<NodeId>(s.names, phis[j].0).Some? && phis[j].1 < |s.g| && s.g[phis[j].1].kind.Phi?
    ensures TableTrue(CloseLoop(loop, exit, phis, s, before))
  {
    hide TableTrue, Intern, ClosePhis, SetInput, PutAll, Get, CloseLoop;
    var s1, next, s2 := CloseLoopSteps(loop, exit, phis, s, before);
    MakeTrue(s, Constant, [], 1);
    InternTrue(Make(s, Constant, [], 1), Bin(Add), [loop + 1, |s.g|]);
    InternGrows(Make(s, Constant, [], 1), Bin(Add), [loop + 1, |s.g|]);
    SetInputTrue(s1, loop + 1, 2, next);
    var o := s1.(g := SetInput(s1.g, loop + 1, 2, next));
    ClosePhisTrue(phis, o);
    SetInputTrue(s2, loop, 0, s.ctrl);
    var c := s2.(g := SetInput(s2.g, loop, 0, s.ctrl));
    MakeTrue(c, Phi, [exit, before.eff, s.eff], 0);
    SameTrue(Make(c, Phi, [exit, before.eff, s.eff], 0), CloseLoop(loop, exit, phis, s, before));
  }

  lemma InternGrows(s: Lower, kind: NodeKind, inputs: seq<NodeId>)
    ensures var s' := Intern(s, kind, inputs).0;
      |s.g| <= |s'.g| && s'.names == s.names && forall n: nat :: n < |s.g| ==> s'.g[n] == s.g[n]
  {
  }

  // ---- The theorem ----

  /** Every loop of the function is seen to assign all the names from outside it that it assigns. */
  predicate FunctionSeen(fn: Fn) {
    ParamFrame(fn.params).Some? ==> AllLoopsSeen(fn.stmts, ParamFrame(fn.params).value)
  }

  lemma WholeHosts(s0: Lower, s1: Lower, g: seq<Node>)
    requires Inv(s1) && TableTrue(s1) && Continues(s0, s1) && PhisOrdered(g)
    requires |s1.g| <= |g| && forall n: nat :: n < |s1.g| ==> g[n] == s1.g[n]
    ensures Hosts(g, s0, s1)
  {
  }

  /** The start of a function: the control projection of the start node. */
  function Entry(): Point {
    Point(1, map[])
  }

  /** Lowering preserves meaning. Whenever the interpreter gives a call of an accepted function a value, the
      lowered graph, entered with the same arguments, returns that value. */
  lemma FunctionMeans(fn: Fn, args: seq<Word>, s: Lower, value: Word)
    requires Accepts(fn) && FunctionSeen(fn) && PlainNestedAll(fn.stmts) && |fn.params| <= |args|
    requires LowerFn(fn) == Some(s) && |s.g| < INVALID
    requires Call(fn, args) == Some(value)
    ensures Returns(s.g, args, Entry(), value)
  {
    hide Inv, PhisOrdered, Hosts, Related, Value, Reaches, Returns, Continues, SameBelow, LowerAll, ExecAll, CheckAll,
         LowerParams, AllLoopsSeen, PlainNestedAll, ParamFrame, LowerFn;
    var s0, s1 := FunctionHosted(fn, args, s);
    var env := Bound(fn.params, args);
    AllMean(fn.stmts, s0, ParamFrame(fn.params).value, s.g, args, map[], env);
    if ExecAll(fn.stmts, env).Go? {
      var phis: Phis :| Reaches(s.g, args, Entry(), Point(s1.ctrl, phis));
      EffectLeft(fn, args, s, s0, s1);
      FallsOff(s1, s, args, phis);
      ReturnsLater(s.g, args, Entry(), Point(s1.ctrl, phis), 0);
    }
  }

  /** The body of a function lies in the finished graph, and starts with every parameter's argument in place. */
  lemma FunctionHosted(fn: Fn, args: seq<Word>, s: Lower) returns (s0: Lower, s1: Lower)
    requires Accepts(fn) && |fn.params| <= |args| && LowerFn(fn) == Some(s)
    ensures s0 == LowerParams(fn.params, Fresh()) && LowerAll(fn.stmts, s0) == Some(s1)
    ensures Inv(s0) && PhisOrdered(s0.g) && s0.ctrl == 1 && s0.eff == 2 && |s0.g| == FIRST_PARAM + |fn.params|
    ensures Inv(s1) && PhisOrdered(s1.g) && Continues(s0, s1) && |s0.g| <= |s1.g| <= |s.g| && Hosts(s.g, s0, s1)
    ensures Related(s.g, args, map[], s0.names, ParamFrame(fn.params).value, Bound(fn.params, args), |s0.g|)
    ensures s1.ctrl != INVALID && s1.eff != INVALID ==>
      |s.g| == |s1.g| + 2 && s.g[|s1.g|] == Bare(Constant, [], 0)
      && s.g[|s1.g| + 1] == Bare(Return, [s1.ctrl, s1.eff, |s1.g|], 0)
    ensures s1.ctrl == INVALID || s1.eff == INVALID ==> s == s1
  {
    s0 := LowerParams(fn.params, Fresh());
    s1 := LowerAll(fn.stmts, s0).value;
    ParamsLowered(fn.params);
    hide Inv, PhisOrdered, Hosts, Related, Value, Continues, LowerAll, LowerParams, ParamFrame;
    AllKeeps(fn.stmts, s0);
    GraphGrows(s0, s1);
    NoTable(s0);
    AllTrue(fn.stmts, s0);
    FinalGraph(fn, s0, s1, s);
    WholeHosts(s0, s1, s.g);
    ContinuesParams(s0, s1, s.g, |fn.params|);
    ParamsRelated(fn.params, s.g, args);
  }

  lemma EffectLeft(fn: Fn, args: seq<Word>, s: Lower, s0: Lower, s1: Lower)
    requires Inv(s0) && PhisOrdered(s0.g) && s0.eff != INVALID && LowerAll(fn.stmts, s0) == Some(s1) && |s1.g| < INVALID
    requires |fn.params| <= |args| && ExecAll(fn.stmts, Bound(fn.params, args)).Go?
    ensures s1.eff != INVALID
  {
    hide Inv, PhisOrdered, LowerAll, ExecAll;
    AllGoMeansFalls(fn.stmts, Bound(fn.params, args));
    AllEffect(fn.stmts, s0);
  }

  lemma NoTable(s: Lower)
    requires s.table == map[]
    ensures TableTrue(s)
  {
  }

  /** The graph of the finished function continues the body's. */
  lemma FinalGraph(fn: Fn, s0: Lower, s1: Lower, s: Lower)
    requires s0 == LowerParams(fn.params, Fresh()) && LowerAll(fn.stmts, s0) == Some(s1) && LowerFn(fn) == Some(s)
    requires Inv(s1) && PhisOrdered(s1.g)
    ensures PhisOrdered(s.g) && |s1.g| <= |s.g| && forall n: nat :: n < |s1.g| ==> s.g[n] == s1.g[n]
    ensures s1.ctrl != INVALID && s1.eff != INVALID ==>
      |s.g| == |s1.g| + 2 && s.g[|s1.g|] == Bare(Constant, [], 0)
      && s.g[|s1.g| + 1] == Bare(Return, [s1.ctrl, s1.eff, |s1.g|], 0)
  {
    hide LowerAll, LowerParams;
  }

  lemma ContinuesParams(s0: Lower, s1: Lower, g: seq<Node>, k: nat)
    requires Continues(s0, s1) && |s1.g| <= |g| && (forall n: nat :: n < |s1.g| ==> g[n] == s1.g[n])
    requires |s0.g| == FIRST_PARAM + k && forall n: nat :: n < |s0.g| ==>
      (s0.g[n].kind.Parameter? <==> n >= FIRST_PARAM)
    ensures forall n: nat :: n < FIRST_PARAM + k ==> (g[n].kind.Parameter? <==> n >= FIRST_PARAM)
    ensures FIRST_PARAM + k <= |g|
  {
  }

  /** Falling off the end returns zero. */
  lemma FallsOff(s1: Lower, s: Lower, args: seq<Word>, phis: Phis)
    requires |s.g| == |s1.g| + 2 && s.g[|s1.g|] == Bare(Constant, [], 0)
    requires s.g[|s1.g| + 1] == Bare(Return, [s1.ctrl, s1.eff, |s1.g|], 0)
    ensures Returns(s.g, args, Point(s1.ctrl, phis), 0)
  {
    hide Reaches;
    Stay(s.g, args, Point(s1.ctrl, phis));
    assert Value(s.g, args, phis, |s1.g|) == Some(0);
    assert ReturnsAt(s.g, args, Point(s1.ctrl, phis), |s1.g| + 1, 0);
  }

  // ---- Assignments in the range of an inner loop ----

  /** `for j in (x = 1)..1 {}` */
  function AssigningRange(x: Name, j: Name): Stmt {
    ForStmt(j, Assign(x, Eq, IntLit(1)), IntLit(1), BlockStmt([]))
  }

  /** The walk does not look into the ranges of inner loops, so a loop around such a range is lowered without a
      phi for the assigned name: after the loop the name is bound to the node it had before, although the
      program has set it to one. */
  lemma RangeAssignmentIsLost(x: Name, i: Name, j: Name, s: Lower, f: Frame, env: Env)
    requires x != i && x != j && i != j && Get<bool>(f, x) == Some(true) && Get<bool>(f, i).None?
      && Get<bool>(f, j).None?
    requires Inv(s) && PhisOrdered(s.g) && CoversFrame(s.names, f) && x in env
    requires var st := ForStmt(i, IntLit(0), IntLit(1), AssigningRange(x, j)); LowerStmt(st, s).Some?
    ensures var st := ForStmt(i, IntLit(0), IntLit(1), AssigningRange(x, j));
      && CheckStmt(st, f).Some?
      && Get<NodeId>(LowerStmt(st, s).value.names, x) == Get<NodeId>(s.names, x)
      && Exec(st, env).Go? && x in Exec(st, env).env && Exec(st, env).env[x] == 1
  {
    var body := AssigningRange(x, j);
    assert AssignedS(body) == {};
    hide Inv, PhisOrdered, LowerFor, Get, CheckStmt, Exec, AssigningRange, AssignedS;
    RangeAccepted(x, i, j, f);
    RangeRuns(x, i, j, env);
    CoveredName(s, f, x);
    ReboundExactly(i, IntLit(0), IntLit(1), body, s, x);
  }

  lemma RangeAccepted(x: Name, i: Name, j: Name, f: Frame)
    requires x != i && x != j && i != j && Get<bool>(f, x) == Some(true) && Get<bool>(f, i).None?
      && Get<bool>(f, j).None?
    ensures CheckStmt(ForStmt(i, IntLit(0), IntLit(1), AssigningRange(x, j)), f).Some?
  {
    hide Get;
    var inner := f + [(i, false)];
    Extended(f, i, false);
    Extended(inner, j, false);
    assert CheckStmt(BlockStmt([]), inner + [(j, false)]).Some?;
    assert !ContainsUnlowerable(BlockStmt([]));
    assert CheckAll([], inner + [(j, false)]).Some?;
    assert AcceptsExpr(IntLit(1), inner) && AcceptsExpr(Assign(x, Eq, IntLit(1)), inner);
    assert CheckStmt(AssigningRange(x, j), inner) == Some(inner);
    assert !ContainsUnlowerable(AssigningRange(x, j));
  }

  /** After a loop a name from outside it has a new node exactly when the walk over the body sees it assigned: whatever
      the body assigns without being seen to is lost. */
  lemma ReboundExactly(x: Name, lo: Expr, hi: Expr, body: Stmt, s: Lower, y: Name)
    requires Inv(s) && PhisOrdered(s.g) && LowerFor(x, lo, hi, body, s).Some?
    ensures var before := LowerExpr(hi, LowerExpr(lo, s).0).0;
      Get<NodeId>(before.names, y).Some? ==>
        (Get<NodeId>(LowerFor(x, lo, hi, body, s).value.names, y) != Get<NodeId>(before.names, y) <==>
          y in AssignedS(body))
  {
    hide Inv, PhisOrdered, LowerFor, LoopGraph, LoopStep, Continues, AssignedS, Get, LoopBinds;
    var l := LoopStagesOf(x, lo, hi, body, s);
    var k := LoopNames(x, body, l, y);
    BoundNames(x, body, l);
    BoundBelow(l.s2, y);
  }

  lemma BoundNames(x: Name, body: Stmt, l: LoopStages)
    requires LoopBinds(x, body, l)
    ensures l.s5.names == l.Names()
  {
  }

  lemma RangeRuns(x: Name, i: Name, j: Name, env: Env)
    requires x in env && x != i
    ensures var o := Exec(ForStmt(i, IntLit(0), IntLit(1), AssigningRange(x, j)), env);
      o.Go? && x in o.env && o.env[x] == 1
  {
    var body := AssigningRange(x, j);
    var e0 := env[i := 0];
    assert EvalExpr(Assign(x, Eq, IntLit(1)), e0) == Some((1, e0[x := 1]));
    assert Turns(j, 1, 1, BlockStmt([]), e0[x := 1]) == Go(e0[x := 1]);
    assert Exec(body, e0) == Go(e0[x := 1]);
    var e1 := Scoped(e0[x := 1], env);
    assert Turns(i, 1, 1, body, e1) == Go(e1);
    assert Turns(i, 0, 1, body, env) == Go(e1);
  }

  // ---- The fallback for unknown names ----

  /** None of the nodes added after the first `k` is a parameter. */
  ghost predicate NoNewParams(s: Lower, k: nat) {
    forall n: nat :: k <= n < |s.g| ==> !s.g[n].kind.Parameter?
  }

  lemma MakeNoParam(s: Lower, k: nat, kind: NodeKind, inputs: seq<NodeId>, payload: Word)
    requires NoNewParams(s, k) && !kind.Parameter?
    ensures NoNewParams(Make(s, kind, inputs, payload), k)
  {
  }

  lemma InternNoParam(s: Lower, k: nat, kind: NodeKind, inputs: seq<NodeId>)
    requires NoNewParams(s, k) && !kind.Parameter?
    ensures NoNewParams(Intern(s, kind, inputs).0, k)
  {
  }

  lemma AssignNoParam(x: Name, op: Option<BinOp>, s: Lower, b: NodeId, k: nat)
    requires NoNewParams(s, k)
    ensures NoNewParams(LowerAssign(x, op, s, b).0, k)
  {
    hide NoNewParams, Intern, Make, Put;
    match op
    case None => NamesNoParam(s, k, Put<NodeId>(s.names, x, b));
    case Some(kind) =>
      MakeNoParam(s, k, Constant, [], 0);
      var (s1, cur) := Current(s, x);
      InternNoParam(s1, k, Bin(kind), [cur, b]);
      var (s2, n) := Intern(s1, Bin(kind), [cur, b]);
      NamesNoParam(s2, k, Put<NodeId>(s2.names, x, n));
  }

  /** Accepted expressions never reach the fallback: every name they mention is bound. */
  lemma {:induction false} ExprNoFallback(e: Expr, s: Lower, f: Frame, k: nat)
    requires Inv(s) && PhisOrdered(s.g) && AcceptsExpr(e, f) && CoversFrame(s.names, f) && NoNewParams(s, k)
    ensures NoNewParams(LowerExpr(e, s).0, k)
    decreases e
  {
    hide Inv, PhisOrdered, CoversFrame, NoNewParams, Intern, Make, Put;
    match e
    case IntLit(w) => MakeNoParam(s, k, Constant, [], w);
    case BoolLit(b) => MakeNoParam(s, k, Constant, [], Truth(b));
    case Ident(x) => CoveredName(s, f, x);
    case Binary(op, l, r) =>
      ExprNoFallback(l, s, f, k);
      ExprKeeps(l, s);
      var (s1, a) := LowerExpr(l, s);
      CoverContinues(s, s1, f);
      ExprNoFallback(r, s1, f, k);
      var (s2, b) := LowerExpr(r, s1);
      InternNoParam(s2, k, Bin(NodeKindOf(op)), [a, b]);
    case Unary(op, x) =>
      ExprNoFallback(x, s, f, k);
      var (s1, a) := LowerExpr(x, s);
      InternNoParam(s1, k, Un(UnaryKindOf(op)), [a]);
    case Assign(x, how, r) =>
      ExprNoFallback(r, s, f, k);
      var (s1, b) := LowerExpr(r, s);
      AssignNoParam(x, NestedKindOf(how), s1, b, k);
  }

  lemma CoveredName(s: Lower, f: Frame, x: Name)
    requires CoversFrame(s.names, f) && Get<bool>(f, x).Some?
    ensures Get<NodeId>(s.names, x).Some?
  {
  }

  lemma NamesNoParam(s: Lower, k: nat, names: Assoc<NodeId>)
    requires NoNewParams(s, k)
    ensures NoNewParams(s.(names := names), k)
  {
  }

  lemma SameNoParam(s: Lower, s': Lower, k: nat)
    requires NoNewParams(s, k) && s'.g == s.g
    ensures NoNewParams(s', k)
  {
  }

  lemma {:induction false} MergeNoParam(yes: Assoc<NodeId>, no: Assoc<NodeId>, merge: NodeId, s: Lower, k: nat)
    requires NoNewParams(s, k)
    ensures NoNewParams(MergeNames(yes, no, merge, s), k)
    decreases |yes|
  {
    hide NoNewParams, Put, Get;
    if yes != [] {
      var (x, t) := yes[0];
      var e := Get<NodeId>(no, x);
      if e.Some? && e.value != t {
        MakeNoParam(s, k, Phi, [merge, t, e.value], 0);
        var m := Make(s, Phi, [merge, t, e.value], 0);
        NamesNoParam(m, k, Put<NodeId>(s.names, x, |s.g|));
        MergeNoParam(yes[1..], no, merge, m.(names := Put<NodeId>(s.names, x, |s.g|)), k);
      } else {
        NamesNoParam(s, k, Put<NodeId>(s.names, x, t));
        MergeNoParam(yes[1..], no, merge, s.(names := Put<NodeId>(s.names, x, t)), k);
      }
    }
  }

  lemma {:induction false} StmtNoFallback(st: Stmt, s: Lower, f: Frame, k: nat)
    requires Inv(s) && PhisOrdered(s.g) && LowerStmt(st, s).Some? && CheckStmt(st, f).Some?
    requires CoversFrame(s.names, f) && NoNewParams(s, k)
    ensures NoNewParams(LowerStmt(st, s).value, k)
    decreases st, 1
  {
    hide Inv, PhisOrdered, CoversFrame, NoNewParams, LowerExpr, Make, Put;
    match st
    case Let(x, _, init) =>
      if init.Some? {
        ExprNoFallback(init.value, s, f, k);
        var (s1, n) := LowerExpr(init.value, s);
        NamesNoParam(s1, k, Put<NodeId>(s1.names, x, n));
      } else {
        MakeNoParam(s, k, Constant, [], 0);
        NamesNoParam(Make(s, Constant, [], 0), k, Put<NodeId>(s.names, x, |s.g|));
      }
    case Do(e) => ExprNoFallback(e, s, f, k);
    case AssignStmt(x, how, r) =>
      ExprNoFallback(r, s, f, k);
      var (s1, b) := LowerExpr(r, s);
      AssignNoParam(x, CompoundKindOf(how), s1, b, k);
    case ReturnStmt(result) =>
      if result.Some? { ExprNoFallback(result.value, s, f, k); } else { MakeNoParam(s, k, Constant, [], 0); }
      var (s1, n) := if result.Some? then LowerExpr(result.value, s) else (Make(s, Constant, [], 0), |s.g|);
      MakeNoParam(s1, k, Return, [s1.ctrl, s1.eff, n], 0);
      var s2 := Make(s1, Return, [s1.ctrl, s1.eff, n], 0);
      SameNoParam(s2, s2.(ctrl := INVALID, eff := INVALID), k);
    case IfStmt(cond, yes, no) => IfNoFallback(cond, yes, no, s, f, k);
    case BlockStmt(stmts) => AllNoFallback(stmts, s, f, k);
    case ForStmt(x, lo, hi, body) => ForNoFallback(x, lo, hi, body, s, f, k);
    case MatchStmt =>
  }

  lemma {:induction false} AllNoFallback(stmts: seq<Stmt>, s: Lower, f: Frame, k: nat)
    requires Inv(s) && PhisOrdered(s.g) && LowerAll(stmts, s).Some? && CheckAll(stmts, f).Some?
    requires CoversFrame(s.names, f) && NoNewParams(s, k)
    ensures NoNewParams(LowerAll(stmts, s).value, k)
    decreases stmts, 0
  {
    hide Inv, PhisOrdered, CoversFrame, NoNewParams, LowerStmt, CheckStmt;
    if stmts != [] {
      StmtKeeps(stmts[0], s);
      StmtCovers(stmts[0], s, f);
      StmtNoFallback(stmts[0], s, f, k);
      AllNoFallback(stmts[1..], LowerStmt(stmts[0], s).value, CheckStmt(stmts[0], f).value, k);
    }
  }

  lemma {:induction false} IfNoFallback(cond: Expr, yes: Stmt, no: Option<Stmt>, s: Lower, f: Frame, k: nat)
    requires Inv(s) && PhisOrdered(s.g) && CoversFrame(s.names, f) && NoNewParams(s, k)
    requires LowerStmt(IfStmt(cond, yes, no), s).Some? && CheckStmt(IfStmt(cond, yes, no), f).Some?
    ensures NoNewParams(LowerStmt(IfStmt(cond, yes, no), s).value, k)
    decreases IfStmt(cond, yes, no), 0
  {
    hide Inv, PhisOrdered, CoversFrame, NoNewParams, LowerExpr, LowerStmt, MergeNames, BranchOpen, AtElse, AtMerge,
         Continues;
    var s2, t, e := ArmsCover(cond, yes, no, s, f);
    var (s1, c) := LowerExpr(cond, s);
    ExprNoFallback(cond, s, f, k);
    BranchNoParam(s1, c, k);
    CoverContinues(s, s1, f);
    var into := s2.(ctrl := |s1.g| + 1);
    var turn := AtElse(s2, t, |s1.g|);
    CoverContinues(s1, into, f);
    SameNoParam(s2, into, k);
    StmtNoFallback(yes, into, f, k);
    AtElseGraph(s2, t, |s1.g|);
    AtElseNames(s2, t, |s1.g|, f);
    SameNoParam(t, turn, k);
    if no.Some? { StmtNoFallback(no.value, turn, f, k); }
    AtMergeNoParam(t, e, k);
    MergeNoParam(t.names, e.names, |e.g|, AtMerge(t, e), k);
  }

  lemma BranchNoParam(s1: Lower, c: NodeId, k: nat)
    requires NoNewParams(s1, k)
    ensures NoNewParams(BranchOpen(s1, c), k)
  {
  }

  lemma AtElseNames(s2: Lower, t: Lower, ifNode: NodeId, f: Frame)
    requires CoversFrame(s2.names, f)
    ensures CoversFrame(AtElse(s2, t, ifNode).names, f) && PhisOrdered(t.g) == PhisOrdered(AtElse(s2, t, ifNode).g)
  {
  }

  lemma AtMergeNoParam(t: Lower, e: Lower, k: nat)
    requires NoNewParams(e, k)
    ensures NoNewParams(AtMerge(t, e), k)
  {
  }

  lemma {:induction false} ForNoFallback(x: Name, lo: Expr, hi: Expr, body: Stmt, s: Lower, f: Frame, k: nat)
    requires Inv(s) && PhisOrdered(s.g) && CoversFrame(s.names, f) && NoNewParams(s, k)
    requires LowerFor(x, lo, hi, body, s).Some? && CheckStmt(ForStmt(x, lo, hi, body), f).Some?
    ensures NoNewParams(LowerFor(x, lo, hi, body, s).value, k)
    decreases body, 2
  {
    hide Inv, PhisOrdered, CoversFrame, NoNewParams, LowerExpr, LowerStmt, OpenLoop, CloseLoop, Continues, Get,
      LowerFor;
    ForUnfolds(x, lo, hi, body, s);
    ExprKeeps(lo, s);
    ExprNoFallback(lo, s, f, k);
    var (s1, a) := LowerExpr(lo, s);
    CoverContinues(s, s1, f);
    ExprKeeps(hi, s1);
    ExprNoFallback(hi, s1, f, k);
    var (s2, b) := LowerExpr(hi, s1);
    CoverContinues(s1, s2, f);
    var (s3, phis) := OpenLoop(x, a, b, body, s2);
    OpenLoopKeeps(x, a, b, body, s2);
    OpenNoParam(x, a, b, body, s2, k);
    OpenCovers(x, a, b, body, s2, f);
    StmtNoFallback(body, s3, f + [(x, false)], k);
    StmtKeeps(body, s3);
    var s4 := LowerStmt(body, s3).value;
    OpenPhiKinds(x, a, b, body, s2, s4);
    CloseNoParam(|s2.g|, s3.ctrl + 1, phis, s4, s2, k);
  }

  lemma OpenNoParam(x: Name, lo: NodeId, hi: NodeId, body: Stmt, s: Lower, k: nat)
    requires NoNewParams(s, k)
    ensures NoNewParams(OpenLoop(x, lo, hi, body, s).0, k)
  {
    hide Accumulators, PutAll, Put, Get, OpenGraph, OpenLoop, OpenNodes, PhiList;
    var acc := Accumulators(body, s.names);
    AccumulatorsBound(body, s.names);
    OpenLoopMakes(x, lo, hi, body, s);
    var accs := OpenNodes(acc, |s.g|, s.names);
    OpenNodesAt(acc, |s.g|, s.names);
    OpenGraphNodes(s.g, s.ctrl, lo, hi, accs);
    var s' := OpenLoop(x, lo, hi, body, s).0;
    forall n: nat | k <= n < |s'.g| ensures !s'.g[n].kind.Parameter? {
      if |s.g| + 2 <= n < |s.g| + 2 + |acc| {
        assert s'.g[|s.g| + 2 + (n - |s.g| - 2)] == accs[n - |s.g| - 2];
      }
    }
  }

  lemma OpenCovers(x: Name, lo: NodeId, hi: NodeId, body: Stmt, s: Lower, f: Frame)
    requires CoversFrame(s.names, f) && Continues(s, OpenLoop(x, lo, hi, body, s).0)
    ensures CoversFrame(OpenLoop(x, lo, hi, body, s).0.names, f + [(x, false)])
  {
    hide Accumulators, PutAll, OpenGraph, OpenLoop, OpenNodes, PhiList;
    AccumulatorsBound(body, s.names);
    OpenLoopMakes(x, lo, hi, body, s);
    Extended(f, x, false);
  }

  lemma CloseNoParam(loop: NodeId, exit: NodeId, phis: seq<(Name, NodeId)>, s: Lower, before: Lower, k: nat)
    requires NoNewParams(s, k) && loop + 1 < |s.g| && s.g[loop].kind.Loop? && s.g[loop + 1].kind.Phi?
    requires forall j :: 0 <= j < |phis| ==>
      Get<NodeId>(s.names, phis[j].0).Some? && phis[j].1 < |s.g| && s.g[phis[j].1].kind.Phi?
    ensures NoNewParams(CloseLoop(loop, exit, phis, s, before), k)
  {
    hide Intern, ClosePhis, SetInput, PutAll, Get, CloseLoop;
    var s1, next, s2 := CloseLoopSteps(loop, exit, phis, s, before);
    MakeNoParam(s, k, Constant, [], 1);
    InternNoParam(Make(s, Constant, [], 1), k, Bin(Add), [loop + 1, |s.g|]);
    InternGrows(Make(s, Constant, [], 1), Bin(Add), [loop + 1, |s.g|]);
    SetInputKinds(s1.g, loop + 1, 2, next);
    var o := s1.(g := SetInput(s1.g, loop + 1, 2, next));
    ClosePhisKinds(phis, o);
    SetInputKinds(s2.g, loop, 0, s.ctrl);
  }

  lemma SetInputKinds(g: seq<Node>, n: NodeId, i: nat, v: NodeId)
    ensures forall m: nat :: m < |g| ==> SetInput(g, n, i, v)[m].kind == g[m].kind
  {
  }

  lemma {:induction false} ClosePhisKinds(phis: seq<(Name, NodeId)>, s: Lower)
    requires forall j :: 0 <= j < |phis| ==> Get<NodeId>(s.names, phis[j].0).Some?
    ensures |ClosePhis(phis, s).g| == |s.g| && forall m: nat :: m < |s.g| ==>
      ClosePhis(phis, s).g[m].kind == s.g[m].kind
    decreases |phis|
  {
    hide SetInput, Get;
    if phis != [] {
      var back := Get<NodeId>(s.names, phis[0].0).value;
      assert forall j :: 0 <= j < |phis[1..]| ==> phis[1..][j] == phis[j + 1];
      SetInputKinds(s.g, phis[0].1, 2, back);
      ClosePhisKinds(phis[1..], s.(g := SetInput(s.g, phis[0].1, 2, back)));
    }
  }

  /** The fallback that turns unknown names into parameters is never reached: the parameters of a lowered
      accepted function are the declared ones, in signature order. */
  lemma ParametersAreDeclared(fn: Fn, s: Lower)
    requires Accepts(fn) && LowerFn(fn) == Some(s)
    ensures FIRST_PARAM + |fn.params| <= |s.g|
    ensures forall n: nat :: n < |s.g| ==> (s.g[n].kind.Parameter? <==> FIRST_PARAM <= n < FIRST_PARAM + |fn.params|)
  {
    var s0 := LowerParams(fn.params, Fresh());
    var s1 := LowerAll(fn.stmts, s0).value;
    var f := ParamFrame(fn.params).value;
    ParamsLowered(fn.params);
    ParamsCover(fn.params);
    hide Inv, PhisOrdered, LowerAll, LowerParams, CheckAll, CoversFrame, Continues;
    AllKeeps(fn.stmts, s0);
    AllNoFallback(fn.stmts, s0, f, |s0.g|);
    FinalGraph(fn, s0, s1, s);
    ContinuesParams(s0, s1, s.g, |fn.params|);
    LastNodes(fn, s0, s1, s);
  }

  lemma LastNodes(fn: Fn, s0: Lower, s1: Lower, s: Lower)
    requires s0 == LowerParams(fn.params, Fresh()) && LowerAll(fn.stmts, s0) == Some(s1) && LowerFn(fn) == Some(s)
    ensures forall n: nat :: |s1.g| <= n < |s.g| ==> !s.g[n].kind.Parameter?
  {
    hide LowerAll, LowerParams;
  }

  lemma {:induction false} ParamsCover(params: seq<Param>)
    requires ParamFrame(params).Some?
    ensures CoversFrame(LowerParams(params, Fresh()).names, ParamFrame(params).value)
  {
    if params != [] {
      var n := |params| - 1;
      ParamsCover(params[..n]);
      Extended(ParamFrame(params[..n]).value, params[n].name, params[n].isMutable);
    }
  }
}
