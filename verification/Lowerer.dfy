/** The lowerer as the compiler runs it: an object whose fields are the graph, the interning table, the current
    control and effect, and the bindings. */
module Lowerer {
  import opened Wrappers
  import opened Words
  import opened IR
  import opened Ast
  import opened Lowering

  class AstLowerer {
    var g: seq<Node>
    var table: map<(NodeKind, seq<NodeId>), NodeId>
    var ctrl: NodeId
    var eff: NodeId
    var names: Assoc<NodeId>

    constructor ()
      ensures State() == Fresh()
    {
      g := [Lowering.START, Bare(Proj, [0], 0), Bare(Proj, [0], 1)];
      table, ctrl, eff, names := map[], 1, 2, [];
    }

    function State(): Lower
      reads this
    {
      Lower(g, table, ctrl, eff, names)
    }

    method MakeNode(kind: NodeKind, inputs: seq<NodeId>, payload: Word) returns (id: NodeId)
      modifies this`g
      ensures id == old(|g|) && State() == Make(old(State()), kind, inputs, payload)
    {
      id := |g|;
      g := g + [Bare(kind, inputs, payload)];
    }

    method LookupOrInsert(kind: NodeKind, inputs: seq<NodeId>) returns (id: NodeId)
      modifies this`g, this`table
      ensures (State(), id) == Intern(old(State()), kind, inputs)
    {
      if (kind, inputs) in table {
        return table[(kind, inputs)];
      }
      id := MakeNode(kind, inputs, 0);
      table := table[(kind, inputs) := id];
    }

    method SetNodeInput(n: NodeId, i: nat, v: NodeId)
      modifies this`g
      ensures State() == old(State()).(g := SetInput(old(g), n, i, v))
    {
      if n < |g| && i < |g[n].inputs| {
        g := g[n := g[n].(inputs := g[n].inputs[i := v])];
      }
    }

    method BindName(x: Name, n: NodeId)
      modifies this`names
      ensures State() == old(State()).(names := Put<NodeId>(old(names), x, n))
    {
      names := Put<NodeId>(names, x, n);
    }

    method CurrentNode(x: Name) returns (n: NodeId)
      modifies this`g
      ensures (State(), n) == Current(old(State()), x)
    {
      var b := Get<NodeId>(names, x);
      if b.Some? {
        n := b.value;
      } else {
        n := MakeNode(Constant, [], 0);
      }
    }

    method AssignNode(x: Name, op: Option<BinOp>, b: NodeId) returns (n: NodeId)
      modifies this
      ensures (State(), n) == LowerAssign(x, op, old(State()), b)
    {
      hide Intern, Make, Current, Put, Get;
      n := b;
      if op.Some? {
        var cur := CurrentNode(x);
        n := LookupOrInsert(Bin(op.value), [cur, b]);
      }
      BindName(x, n);
    }

    method LowerExprNode(e: Expr) returns (n: NodeId)
      modifies this
      ensures (State(), n) == LowerExpr(e, old(State()))
      decreases e
    {
      hide Intern, Make, Current, Put, Get;
      match e
      case IntLit(w) =>
        n := MakeNode(Constant, [], w);
      case BoolLit(b) =>
        n := MakeNode(Constant, [], Truth(b));
      case Ident(x) =>
        var b := Get<NodeId>(names, x);
        if b.Some? { return b.value; }
        n := MakeNode(Parameter, [], 0);
      case Binary(op, l, r) =>
        var a := LowerExprNode(l);
        var b := LowerExprNode(r);
        n := LookupOrInsert(Bin(NodeKindOf(op)), [a, b]);
      case Unary(op, x) =>
        var a := LowerExprNode(x);
        n := LookupOrInsert(Un(UnaryKindOf(op)), [a]);
      case Assign(x, how, r) =>
        var b := LowerExprNode(r);
        n := AssignNode(x, NestedKindOf(how), b);
      case NotLowered =>
        n := MakeNode(Constant, [], 0);
    }

    /** The explicit-stack walk that collects the accumulators of a loop body. */
    method CollectLoopAccumulators(body: Stmt) returns (found: seq<Name>)
      ensures found == Accumulators(body, names)
    {
      found := [];
      var stack := [TreeOfStmt(body)];
      while stack != []
        invariant Collect(stack, names, found) == Accumulators(body, names)
        decreases SizeTrees(stack)
      {
        var t := stack[|stack| - 1];
        PushedSmaller(t);
        SizeTreesAppend(stack[..|stack| - 1], Pushed(t));
        var x := Assigns(t);
        if x.Some? && Get<NodeId>(names, x.value).Some? && x.value !in found {
          found := found + [x.value];
        }
        stack := stack[..|stack| - 1] + Pushed(t);
      }
    }

    /** For every name both arms bind to different nodes, a phi; for the others, the first arm's node. */
    method MergeBindings(yes: Assoc<NodeId>, no: Assoc<NodeId>, merge: NodeId)
      modifies this`g, this`names
      ensures State() == MergeNames(yes, no, merge, old(State()))
    {
      hide Put, Get;
      assert yes[0..] == yes;
      for i := 0 to |yes|
        invariant MergeNames(yes[i..], no, merge, State()) == MergeNames(yes, no, merge, old(State()))
        invariant table == old(table) && ctrl == old(ctrl) && eff == old(eff)
      {
        assert yes[i..][0] == yes[i] && yes[i..][1..] == yes[i + 1..];
        var (x, t) := yes[i];
        var e := Get<NodeId>(no, x);
        if e.Some? && e.value != t {
          var phi := MakeNode(Phi, [merge, t, e.value], 0);
          BindName(x, phi);
        } else {
          BindName(x, t);
        }
      }
    }

    method OpenAccumulators(acc: seq<Name>, loop: NodeId) returns (phis: seq<(Name, NodeId)>)
      modifies this`g, this`names
      ensures (State(), phis) == OpenPhis(acc, loop, old(State()))
      decreases |acc|
    {
      hide Put, Get, Current;
      if acc == [] { return []; }
      var entry := CurrentNode(acc[0]);
      var phi := MakeNode(Phi, [loop, entry, INVALID], 0);
      BindName(acc[0], phi);
      var rest := OpenAccumulators(acc[1..], loop);
      phis := [(acc[0], phi)] + rest;
    }

    method CloseAccumulators(phis: seq<(Name, NodeId)>)
      modifies this`g
      ensures State() == ClosePhis(phis, old(State()))
    {
      hide SetInput, Get, Current;
      assert phis[0..] == phis;
      for i := 0 to |phis|
        invariant ClosePhis(phis[i..], State()) == ClosePhis(phis, old(State()))
        invariant table == old(table) && ctrl == old(ctrl) && eff == old(eff) && names == old(names)
      {
        assert phis[i..][0] == phis[i] && phis[i..][1..] == phis[i + 1..];
        var back := CurrentNode(phis[i].0);
        SetNodeInput(phis[i].1, 2, back);
      }
    }

    method RestoreBindings(before: Assoc<NodeId>, phis: seq<(Name, NodeId)>)
      modifies this`names
      ensures State() == old(State()).(names := PutAll(before, phis))
    {
      hide Put;
      names := before;
      assert phis[0..] == phis;
      for i := 0 to |phis|
        invariant PutAll(names, phis[i..]) == PutAll(before, phis)
      {
        assert phis[i..][0] == phis[i] && phis[i..][1..] == phis[i + 1..];
        names := Put<NodeId>(names, phis[i].0, phis[i].1);
      }
    }

    /** Lowers a statement, or reports that it cannot. */
    method LowerStmtNode(st: Stmt) returns (ok: bool)
      modifies this
      ensures ok <==> LowerStmt(st, old(State())).Some?
      ensures ok ==> State() == LowerStmt(st, old(State())).value
      decreases st, 1
    {
      hide Put, Get, Make, LowerExpr, LowerFor;
      ok := true;
      match st
      case Let(x, _, init) =>
        var n: NodeId;
        if init.Some? { n := LowerExprNode(init.value); } else { n := MakeNode(Constant, [], 0); }
        BindName(x, n);
      case Do(e) =>
        var _ := LowerExprNode(e);
      case AssignStmt(x, how, r) =>
        var b := LowerExprNode(r);
        var _ := AssignNode(x, CompoundKindOf(how), b);
      case ReturnStmt(result) =>
        var n: NodeId;
        if result.Some? { n := LowerExprNode(result.value); } else { n := MakeNode(Constant, [], 0); }
        var _ := MakeNode(Return, [ctrl, eff, n], 0);
        ctrl, eff := INVALID, INVALID;
      case IfStmt(cond, yes, no) =>
        ok := LowerIfNode(cond, yes, no);
      case BlockStmt(stmts) =>
        ok := LowerStmts(stmts);
      case ForStmt(x, lo, hi, body) =>
        ok := LowerForNode(x, lo, hi, body);
      case MatchStmt =>
        var _ := MakeNode(Constant, [], 0);
    }

    method LowerStmts(stmts: seq<Stmt>) returns (ok: bool)
      modifies this
      ensures ok <==> LowerAll(stmts, old(State())).Some?
      ensures ok ==> State() == LowerAll(stmts, old(State())).value
      decreases stmts, 0
    {
      hide LowerStmt;
      ok := true;
      if stmts != [] {
        ok := LowerStmtNode(stmts[0]);
        if ok { ok := LowerStmts(stmts[1..]); }
      }
    }

    method OpenBranch(c: NodeId) returns (ifNode: NodeId)
      modifies this`g
      ensures ifNode == old(|g|) && State() == BranchOpen(old(State()), c)
    {
      ifNode := MakeNode(If, [ctrl, c], 0);
      var onTrue := MakeNode(Proj, [ifNode], 0);
      var onFalse := MakeNode(Proj, [ifNode], 1);
    }

    method MeetArms(ghost yes: Lower, yesCtrl: NodeId, yesEff: NodeId, yesNames: Assoc<NodeId>)
      requires yesCtrl == yes.ctrl && yesEff == yes.eff && yesNames == yes.names
      modifies this
      ensures var e := old(State()); State() == MergeNames(yes.names, e.names, |e.g|, AtMerge(yes, e))
    {
      hide MergeNames;
      var noNames := names;
      var merge := MakeNode(Region, [yesCtrl, ctrl], 0);
      ctrl := merge;
      if yesEff != INVALID { eff := yesEff; }
      MergeBindings(yesNames, noNames, merge);
    }

    method LowerIfNode(cond: Expr, yes: Stmt, no: Option<Stmt>) returns (ok: bool)
      modifies this
      ensures ok <==> LowerStmt(IfStmt(cond, yes, no), old(State())).Some?
      ensures ok ==> State() == LowerStmt(IfStmt(cond, yes, no), old(State())).value
      decreases IfStmt(cond, yes, no), 0
    {
      hide Put, Get, LowerExpr, MergeNames, BranchOpen, AtMerge, LowerAll, LowerFor, LowerAssign;
      var c := LowerExprNode(cond);
      var ifNode := OpenBranch(c);
      var savedEff, before := eff, names;
      ctrl := ifNode + 1;
      ok := LowerStmtNode(yes);
      if !ok { return; }
      ghost var t := State();
      var yesCtrl, yesEff, yesNames := ctrl, eff, names;
      ctrl, eff, names := ifNode + 2, savedEff, before;
      if no.Some? {
        ok := LowerStmtNode(no.value);
        if !ok { return; }
      }
      MeetArms(t, yesCtrl, yesEff, yesNames);
    }

    method LowerForNode(x: Name, lo: Expr, hi: Expr, body: Stmt) returns (ok: bool)
      modifies this
      ensures ok <==> LowerFor(x, lo, hi, body, old(State())).Some?
      ensures ok ==> State() == LowerFor(x, lo, hi, body, old(State())).value
      decreases body, 2
    {
      hide Put, Get, LowerExpr, LowerStmt, OpenLoop, CloseLoop;
      var a := LowerExprNode(lo);
      var b := LowerExprNode(hi);
      ghost var before := State();
      var preNames, entryEff, loop := names, eff, |g|;
      var phis := OpenLoopNode(x, a, b, body);
      var exit := ctrl + 1;
      ok := LowerStmtNode(body);
      if !ok || ctrl == INVALID { return false; }
      CloseLoopNode(loop, exit, phis, preNames, entryEff, before);
    }

    method OpenLoopNode(x: Name, lo: NodeId, hi: NodeId, body: Stmt) returns (phis: seq<(Name, NodeId)>)
      modifies this
      ensures (State(), phis) == OpenLoop(x, lo, hi, body, old(State()))
    {
      hide Put, Get, Accumulators, OpenPhis;
      var loop := MakeNode(Loop, [ctrl, ctrl], 0);
      var index := MakeNode(Phi, [loop, lo, INVALID], 0);
      var acc := CollectLoopAccumulators(body);
      phis := OpenAccumulators(acc, loop);
      var cmp := MakeNode(Bin(CmpLt), [index, hi], 0);
      var ifNode := MakeNode(If, [loop, cmp], 0);
      var onTrue := MakeNode(Proj, [ifNode], 0);
      var onFalse := MakeNode(Proj, [ifNode], 1);
      BindName(x, index);
      ctrl := onTrue;
    }

    method CloseLoopNode(loop: NodeId, exit: NodeId, phis: seq<(Name, NodeId)>, preNames: Assoc<NodeId>,
                         entryEff: NodeId, ghost before: Lower)
      requires preNames == before.names && entryEff == before.eff
      modifies this
      ensures State() == CloseLoop(loop, exit, phis, old(State()), before)
    {
      hide Intern, ClosePhis, SetInput, PutAll;
      var bodyCtrl, bodyEff := ctrl, eff;
      var one := MakeNode(Constant, [], 1);
      var next := LookupOrInsert(Bin(Add), [loop + 1, one]);
      SetNodeInput(loop + 1, 2, next);
      CloseAccumulators(phis);
      SetNodeInput(loop, 0, bodyCtrl);
      var merged := MakeNode(Phi, [exit, entryEff, bodyEff], 0);
      eff, ctrl := merged, exit;
      RestoreBindings(preNames, phis);
    }
  }
}
