/** Nested and consecutive branches as the lowerer lays them out, and what their merges find. */
module LoweredBranches {
  import opened Wrappers
  import opened Words
  import opened IR
  import opened Ast
  import opened Lowering
  import opened LoweringShape
  import opened RegionWalk

  /** No returns and no loops inside. */
  predicate BranchesOnly(st: Stmt)
    decreases st
  {
    match st
    case ReturnStmt(_) => false
    case ForStmt(_, _, _, _) => false
    case IfStmt(_, yes, no) => BranchesOnly(yes) && (no.Some? ==> BranchesOnly(no.value))
    case BlockStmt(stmts) => AllBranchesOnly(stmts)
    case _ => true
  }

  predicate AllBranchesOnly(stmts: seq<Stmt>)
    decreases stmts
  {
    stmts == [] || (BranchesOnly(stmts[0]) && AllBranchesOnly(stmts[1..]))
  }

  /** Where the branches of a statement end up in the graph. */
  function Skeleton(st: Stmt, s: Lower): seq<Fork>
    decreases st, 0
  {
    match st
    case IfStmt(cond, yes, no) =>
      var (s1, c) := LowerExpr(cond, s);
      var s2 := BranchOpen(s1, c);
      var into := s2.(ctrl := |s1.g| + 1);
      (match LowerStmt(yes, into)
       case None => []
       case Some(t) =>
         var turn := AtElse(s2, t, |s1.g|);
         match if no.Some? then LowerStmt(no.value, turn) else Some(turn)
         case None => []
         case Some(e) =>
           [Fork(|s1.g|, Skeleton(yes, into), |t.g|, if no.Some? then Skeleton(no.value, turn) else [], |e.g|)])
    case BlockStmt(stmts) => SkeletonAll(stmts, s)
    case _ => []
  }

  function SkeletonAll(stmts: seq<Stmt>, s: Lower): seq<Fork>
    decreases stmts, 0
  {
    if stmts == [] then []
    else match LowerStmt(stmts[0], s)
      case None => []
      case Some(s1) => Skeleton(stmts[0], s) + SkeletonAll(stmts[1..], s1)
  }

  // ---- The same, counted on the source ----

  /** How many steps of the walk lead from the end of a statement up to its start. */
  function StmtHops(st: Stmt): nat
    decreases st
  {
    match st
    case IfStmt(_, yes, no) => 2 + Less(StmtHops(yes), if no.Some? then StmtHops(no.value) else 0)
    case BlockStmt(stmts) => AllHops(stmts)
    case _ => 0
  }

  function AllHops(stmts: seq<Stmt>): nat
    decreases stmts
  {
    if stmts == [] then 0 else StmtHops(stmts[0]) + AllHops(stmts[1..])
  }

  lemma {:induction false} HopsAppend(a: seq<Fork>, b: seq<Fork>)
    ensures Hops(a + b) == Hops(a) + Hops(b)
    decreases |b|
  {
    if b == [] {
      assert a + b == a;
    } else {
      var n := |b| - 1;
      assert (a + b)[..|a + b| - 1] == a + b[..n];
      assert (a + b)[|a + b| - 1] == b[n];
      HopsAppend(a, b[..n]);
    }
  }

  lemma HopsOfOne(f: Fork)
    ensures Hops([f]) == 2 + Less(Hops(f.yes), Hops(f.no))
  {
    assert [f][..0] == [];
  }

  lemma {:induction false} SkeletonHops(st: Stmt, s: Lower)
    requires BranchesOnly(st)
    ensures LowerStmt(st, s).Some? && Hops(Skeleton(st, s)) == StmtHops(st)
    decreases st, 0
  {
    hide Hops;
    assert Hops([]) == 0 by { NoHops(); }
    match st
    case IfStmt(cond, yes, no) =>
      var (s1, c) := LowerExpr(cond, s);
      var s2 := BranchOpen(s1, c);
      SkeletonHops(yes, s2.(ctrl := |s1.g| + 1));
      var t := LowerStmt(yes, s2.(ctrl := |s1.g| + 1)).value;
      if no.Some? { SkeletonHops(no.value, AtElse(s2, t, |s1.g|)); }
      HopsOfOne(Skeleton(st, s)[0]);
    case BlockStmt(stmts) => SkeletonHopsAll(stmts, s);
    case _ =>
  }

  lemma NoHops()
    ensures Hops([]) == 0
  {
  }

  lemma {:induction false} SkeletonHopsAll(stmts: seq<Stmt>, s: Lower)
    requires AllBranchesOnly(stmts)
    ensures LowerAll(stmts, s).Some? && Hops(SkeletonAll(stmts, s)) == AllHops(stmts)
    decreases stmts, 0
  {
    hide Hops;
    NoHops();
    if stmts != [] {
      SkeletonHops(stmts[0], s);
      var s1 := LowerStmt(stmts[0], s).value;
      SkeletonHopsAll(stmts[1..], s1);
      HopsAppend(Skeleton(stmts[0], s), SkeletonAll(stmts[1..], s1));
    }
  }

  // ---- The layout in the graph ----

  ghost predicate Grown(g: seq<Node>, g': seq<Node>) {
    |g| <= |g'| <= INVALID && forall i :: 0 <= i < |g| ==> g'[i] == g[i]
  }

  lemma {:induction false} LaidGrows(g: seq<Node>, g': seq<Node>, start: NodeId, lo: nat, forks: seq<Fork>, hi: nat,
        hi': nat)
    requires Grown(g, g') && Laid(g, start, lo, forks, hi) && hi <= hi' <= |g'|
    ensures Laid(g', start, lo, forks, hi')
    decreases forks
  {
    if forks != [] {
      var n := |forks| - 1;
      LaidGrows(g, g', start, lo, forks[..n], forks[n].branch, forks[n].branch);
      LaidForkGrows(g, g', End(start, forks[..n]), forks[n], hi, hi');
    }
  }

  lemma {:induction false} LaidForkGrows(g: seq<Node>, g': seq<Node>, c: NodeId, f: Fork, hi: nat, hi': nat)
    requires Grown(g, g') && LaidFork(g, c, f, hi) && hi <= hi' <= |g'|
    ensures LaidFork(g', c, f, hi')
    decreases f
  {
    LaidGrows(g, g', f.branch + 1, f.branch + 3, f.yes, f.turn, f.turn);
    LaidGrows(g, g', f.branch + 2, f.turn, f.no, f.region, f.region);
  }

  lemma {:induction false} LaidAppend(g: seq<Node>, start: NodeId, lo: nat, a: seq<Fork>, mid: nat, b: seq<Fork>,
        hi: nat)
    requires Laid(g, start, lo, a, mid) && Laid(g, End(start, a), mid, b, hi)
    ensures Laid(g, start, lo, a + b, hi) && End(start, a + b) == End(End(start, a), b)
    decreases |b|
  {
    if b == [] {
      assert a + b == a;
      LaidWiden(g, start, lo, a, mid, hi);
    } else {
      var n := |b| - 1;
      assert (a + b)[..|a + b| - 1] == a + b[..n];
      assert (a + b)[|a + b| - 1] == b[n];
      LaidAppend(g, start, lo, a, mid, b[..n], b[n].branch);
    }
  }

  lemma LaidWiden(g: seq<Node>, start: NodeId, lo: nat, a: seq<Fork>, mid: nat, hi: nat)
    requires Laid(g, start, lo, a, mid) && mid <= hi <= |g|
    ensures Laid(g, start, lo, a, hi)
  {
  }

  lemma LaidOne(g: seq<Node>, start: NodeId, lo: nat, f: Fork, hi: nat)
    requires start < lo <= f.branch && LaidFork(g, start, f, hi)
    ensures Laid(g, start, lo, [f], hi) && End(start, [f]) == f.region
  {
    assert [f][..0] == [];
    assert f.branch + 3 <= f.turn <= f.region by {
      assert Laid(g, f.branch + 1, f.branch + 3, f.yes, f.turn) && Laid(g, f.branch + 2, f.turn, f.no, f.region);
    }
    assert Laid(g, start, lo, [], f.branch);
  }

  /** A statement leaves its branches between the old and the new end of the graph, and control at the end of the
      last. */
  ghost predicate LaysTo(s: Lower, s': Lower, forks: seq<Fork>) {
    s'.ctrl == End(s.ctrl, forks) && Laid(s'.g, s.ctrl, |s.g|, forks, |s'.g|)
  }

  /** A state statements can be lowered from. */
  ghost predicate Ready(s: Lower) {
    Inv(s) && PhisOrdered(s.g) && s.ctrl < |s.g| <= INVALID
  }

  lemma NoForks(s: Lower, s': Lower)
    requires Ready(s) && |s.g| <= |s'.g| && s'.ctrl == s.ctrl
    ensures LaysTo(s, s', [])
  {
  }

  lemma LaysEnd(s: Lower, s': Lower, forks: seq<Fork>)
    requires LaysTo(s, s', forks) && s.ctrl < |s.g|
    ensures s'.ctrl < |s'.g| && |s.g| <= |s'.g|
  {
    if forks != [] { LaidRegion(s'.g, s.ctrl, |s.g|, forks, |s'.g|); }
  }

  lemma {:induction false} StmtLays(st: Stmt, s: Lower)
    requires Ready(s) && BranchesOnly(st)
    requires LowerStmt(st, s).Some? && |LowerStmt(st, s).value.g| <= INVALID
    ensures LaysTo(s, LowerStmt(st, s).value, Skeleton(st, s))
    decreases st, 1
  {
    StmtKeeps(st, s);
    hide LaysTo, Laid, Inv, PhisOrdered;
    match st
    case Let(x, _, init) =>
      if init.Some? { ExprKeeps(init.value, s); }
      NoForks(s, LowerStmt(st, s).value);
    case Do(e) =>
      ExprKeeps(e, s);
      NoForks(s, LowerStmt(st, s).value);
    case AssignStmt(x, how, r) =>
      AssignStmtKeeps(x, how, r, s);
      NoForks(s, LowerStmt(st, s).value);
    case IfStmt(cond, yes, no) => IfLays(cond, yes, no, s);
    case BlockStmt(stmts) => AllLay(stmts, s);
    case MatchStmt => NoForks(s, LowerStmt(st, s).value);
    case _ =>
  }

  lemma {:induction false} AllLay(stmts: seq<Stmt>, s: Lower)
    requires Ready(s) && AllBranchesOnly(stmts)
    requires LowerAll(stmts, s).Some? && |LowerAll(stmts, s).value.g| <= INVALID
    ensures LaysTo(s, LowerAll(stmts, s).value, SkeletonAll(stmts, s))
    decreases stmts, 0
  {
    if stmts == [] {
      NoForks(s, s);
    } else {
      var s1, r := LowerStmt(stmts[0], s).value, LowerAll(stmts, s).value;
      StmtKeeps(stmts[0], s);
      AllKeeps(stmts[1..], s1);
      hide LaysTo, Laid, Inv, PhisOrdered;
      assert |s1.g| <= |r.g| && Grown(s1.g, r.g);
      StmtLays(stmts[0], s);
      LaysEnd(s, s1, Skeleton(stmts[0], s));
      AllLay(stmts[1..], s1);
      LaysBoth(s, s1, r, Skeleton(stmts[0], s), SkeletonAll(stmts[1..], s1));
    }
  }

  lemma LaysBoth(s: Lower, s1: Lower, r: Lower, a: seq<Fork>, b: seq<Fork>)
    requires LaysTo(s, s1, a) && LaysTo(s1, r, b) && Grown(s1.g, r.g)
    ensures LaysTo(s, r, a + b)
  {
    LaidGrows(s1.g, r.g, s.ctrl, |s.g|, a, |s1.g|, |s1.g|);
    LaidAppend(r.g, s.ctrl, |s.g|, a, |s1.g|, b, |r.g|);
  }

  /** What a branch statement builds: the branch, the two arms, the region; then only phis. */
  lemma BranchParts(s1: Lower, c: NodeId, r: Lower, t: Lower, e: Lower, into: Lower, turn: Lower)
    requires s1.ctrl < |s1.g| && |r.g| <= INVALID
    requires into == BranchOpen(s1, c).(ctrl := |s1.g| + 1) && turn == AtElse(BranchOpen(s1, c), t, |s1.g|)
    requires Continues(into, t) && Continues(turn, e) && Continues(AtMerge(t, e), r)
    ensures Opens(r.g, s1.ctrl, |s1.g|) && Grown(t.g, r.g) && Grown(e.g, r.g)
    ensures |into.g| == |s1.g| + 3 && turn.g == t.g && turn.ctrl == |s1.g| + 2 && into.ctrl == |s1.g| + 1
    ensures |e.g| < |r.g| && r.g[|e.g|].kind.Region? && r.g[|e.g|].inputs == [t.ctrl, e.ctrl]
  {
    var g1 := BranchOpen(s1, c).g;
    assert g1[|s1.g|] == Bare(If, [s1.ctrl, c], 0);
    assert g1[|s1.g| + 1] == Bare(Proj, [|s1.g|], 0) && g1[|s1.g| + 2] == Bare(Proj, [|s1.g|], 1);
    assert AtMerge(t, e).g[|e.g|] == Bare(Region, [t.ctrl, e.ctrl], 0);
    assert forall i :: 0 <= i < |e.g| ==> AtMerge(t, e).g[i] == e.g[i];
    assert forall i :: 0 <= i < |g1| ==> t.g[i] == g1[i] && e.g[i] == t.g[i] && r.g[i] == e.g[i];
  }

  lemma {:induction false} IfLays(cond: Expr, yes: Stmt, no: Option<Stmt>, s: Lower)
    requires Ready(s) && BranchesOnly(yes) && (no.Some? ==> BranchesOnly(no.value))
    requires LowerStmt(IfStmt(cond, yes, no), s).Some? && |LowerStmt(IfStmt(cond, yes, no), s).value.g| <= INVALID
    ensures var r, forks := LowerStmt(IfStmt(cond, yes, no), s).value, Skeleton(IfStmt(cond, yes, no), s);
      && LaysTo(s, r, forks) && |forks| == 1 && forks[0].region == r.ctrl && forks[0].branch == |LowerExpr(cond, s).0.g|
      && LaidFork(r.g, s.ctrl, forks[0], |r.g|)
    ensures Hops(Skeleton(IfStmt(cond, yes, no), s)[0].yes) == StmtHops(yes)
    ensures Hops(Skeleton(IfStmt(cond, yes, no), s)[0].no) == if no.Some? then StmtHops(no.value) else 0
    decreases IfStmt(cond, yes, no), 0
  {
    hide *;
    var s2, t, e := LowerIf(cond, yes, no, s);
    var s1, c := LowerExpr(cond, s).0, LowerExpr(cond, s).1;
    var r := LowerStmt(IfStmt(cond, yes, no), s).value;
    var into, turn := s2.(ctrl := |s1.g| + 1), AtElse(s2, t, |s1.g|);
    var f := IfFork(yes, no, into, t, turn, e);
    IfSkeleton(cond, yes, no, s, s2, t, e);
    ReadyParts(s);
    IfStages(cond, yes, no, s, s2, t, e);
    BranchParts(s1, c, r, t, e, into, turn);
    ReadyBy(into);
    StmtLays(yes, into);
    ReadyBy(turn);
    if no.Some? { StmtLays(no.value, turn); } else { NoForks(turn, e); }
    ForkLays(s.ctrl, r, t, e, into, turn, f);
    OneLaysTo(s, r, f);
  }

  function IfFork(yes: Stmt, no: Option<Stmt>, into: Lower, t: Lower, turn: Lower, e: Lower): Fork {
    Fork(if into.ctrl == 0 then 0 else into.ctrl - 1, Skeleton(yes, into), |t.g|,
         if no.Some? then Skeleton(no.value, turn) else [], |e.g|)
  }

  lemma ReadyParts(s: Lower)
    requires Ready(s)
    ensures Inv(s) && PhisOrdered(s.g) && s.ctrl < |s.g| <= INVALID
  {
  }

  lemma IfSkeleton(cond: Expr, yes: Stmt, no: Option<Stmt>, s: Lower, s2: Lower, t: Lower, e: Lower)
    requires BranchesOnly(yes) && (no.Some? ==> BranchesOnly(no.value))
    requires var (s1, c) := LowerExpr(cond, s);
      && s2 == BranchOpen(s1, c) && LowerStmt(yes, s2.(ctrl := |s1.g| + 1)) == Some(t)
      && (if no.Some? then LowerStmt(no.value, AtElse(s2, t, |s1.g|)) == Some(e) else e == AtElse(s2, t, |s1.g|))
    ensures var s1 := LowerExpr(cond, s).0;
      var into, turn := s2.(ctrl := |s1.g| + 1), AtElse(s2, t, |s1.g|);
      var f := IfFork(yes, no, into, t, turn, e);
      && Skeleton(IfStmt(cond, yes, no), s) == [f]
      && f.branch == |s1.g| && f.yes == Skeleton(yes, into) && f.turn == |t.g| && f.region == |e.g|
      && f.no == (if no.Some? then Skeleton(no.value, turn) else [])
      && Hops(f.yes) == StmtHops(yes) && Hops(f.no) == if no.Some? then StmtHops(no.value) else 0
  {
    hide Hops, StmtHops, BranchOpen, AtElse, LowerExpr;
    var s1 := LowerExpr(cond, s).0;
    SkeletonHops(yes, s2.(ctrl := |s1.g| + 1));
    if no.Some? { SkeletonHops(no.value, AtElse(s2, t, |s1.g|)); }
    NoHops();
  }

  /** The states a branch statement goes through, each continuing the one before. */
  lemma IfStages(cond: Expr, yes: Stmt, no: Option<Stmt>, s: Lower, s2: Lower, t: Lower, e: Lower)
    requires Inv(s) && PhisOrdered(s.g) && LowerStmt(IfStmt(cond, yes, no), s).Some?
    requires var (s1, c) := LowerExpr(cond, s);
      && s2 == BranchOpen(s1, c) && LowerStmt(yes, s2.(ctrl := |s1.g| + 1)) == Some(t)
      && (if no.Some? then LowerStmt(no.value, AtElse(s2, t, |s1.g|)) == Some(e) else e == AtElse(s2, t, |s1.g|))
      && LowerStmt(IfStmt(cond, yes, no), s) == Some(MergeNames(t.names, e.names, |e.g|, AtMerge(t, e)))
    ensures var s1, r := LowerExpr(cond, s).0, LowerStmt(IfStmt(cond, yes, no), s).value;
      var into, turn := s2.(ctrl := |s1.g| + 1), AtElse(s2, t, |s1.g|);
      && Continues(s, s1) && s1.ctrl == s.ctrl && |s.g| <= |s1.g|
      && Inv(into) && PhisOrdered(into.g) && Continues(into, t) && |into.g| <= |t.g|
      && Inv(turn) && PhisOrdered(turn.g) && Continues(turn, e) && |turn.g| <= |e.g| && turn.g == t.g
      && Continues(AtMerge(t, e), r) && |e.g| < |AtMerge(t, e).g| <= |r.g| && r.ctrl == |e.g|
  {
    hide *;
    ExprKeeps(cond, s);
    var s1 := LowerExpr(cond, s).0;
    var into, turn := s2.(ctrl := |s1.g| + 1), AtElse(s2, t, |s1.g|);
    BranchOpens(s1, LowerExpr(cond, s).1);
    StmtKeeps(yes, into);
    BranchTurns(s2, t, |s1.g|);
    GraphGrows(s, s1);
    GraphGrows(into, t);
    AtElseGraph(s2, t, |s1.g|);
    if no.Some? { StmtKeeps(no.value, turn); } else { ContinuesItself(turn); }
    GraphGrows(turn, e);
    BranchesMeet(t, e);
    MergeKeeps(t.names, e.names, |e.g|, AtMerge(t, e));
    GraphGrows(AtMerge(t, e), LowerStmt(IfStmt(cond, yes, no), s).value);
    MergeControl(t, e);
  }

  lemma ContinuesItself(s: Lower)
    ensures Continues(s, s)
  {
  }

  lemma MergeControl(t: Lower, e: Lower)
    ensures AtMerge(t, e).ctrl == |e.g|
  {
  }

  lemma ReadyBy(s: Lower)
    requires Inv(s) && PhisOrdered(s.g) && s.ctrl < |s.g| <= INVALID
    ensures Ready(s)
  {
  }

  lemma ForkLays(c: NodeId, r: Lower, t: Lower, e: Lower, into: Lower, turn: Lower, f: Fork)
    requires Opens(r.g, c, f.branch) && Grown(t.g, r.g) && Grown(e.g, r.g)
    requires |into.g| == f.branch + 3 && turn.g == t.g && turn.ctrl == f.branch + 2 && into.ctrl == f.branch + 1
    requires LaysTo(into, t, f.yes) && LaysTo(turn, e, f.no) && f.turn == |t.g| && f.region == |e.g| < |r.g|
    requires r.g[|e.g|].kind.Region? && r.g[|e.g|].inputs == [t.ctrl, e.ctrl]
    ensures LaidFork(r.g, c, f, |r.g|)
  {
    LaidGrows(t.g, r.g, f.branch + 1, f.branch + 3, f.yes, f.turn, f.turn);
    LaidGrows(e.g, r.g, f.branch + 2, f.turn, f.no, f.region, f.region);
  }

  lemma OneLaysTo(s: Lower, r: Lower, f: Fork)
    requires LaidFork(r.g, s.ctrl, f, |r.g|) && s.ctrl < |s.g| <= f.branch && r.ctrl == f.region
    ensures LaysTo(s, r, [f])
  {
    LaidOne(r.g, s.ctrl, |s.g|, f, |r.g|);
  }

  // ---- Control edges lead down ----

  ghost predicate AllDescend(g: seq<Node>) {
    Descending(g, |g|)
  }

  lemma MadeDescends(s: Lower, kind: NodeKind, inputs: seq<NodeId>, payload: Word)
    requires AllDescend(s.g)
    requires kind.Proj? || kind.If? || kind.Region? ==>
      forall i :: 0 <= i < |inputs| && (kind.If? ==> i == 0) ==> inputs[i] < |s.g| || inputs[i] == INVALID
    ensures AllDescend(Make(s, kind, inputs, payload).g)
  {
    var g := Make(s, kind, inputs, payload).g;
    forall n: NodeId | n < |g| ensures DescendingNode(g, n) {
      if n < |s.g| { assert DescendingNode(s.g, n) && g[n] == s.g[n]; }
    }
  }

  lemma AssignDescends(x: Name, op: Option<BinOp>, s: Lower, b: NodeId)
    requires AllDescend(s.g)
    ensures AllDescend(LowerAssign(x, op, s, b).0.g)
  {
    hide AllDescend;
    if op.Some? {
      MadeDescends(s, Constant, [], 0);
      var (s1, cur) := Current(s, x);
      MadeDescends(s1, Bin(op.value), [cur, b], 0);
    }
  }

  lemma {:induction false} ExprDescends(e: Expr, s: Lower)
    requires AllDescend(s.g)
    ensures AllDescend(LowerExpr(e, s).0.g)
    decreases e
  {
    hide AllDescend;
    match e
    case IntLit(w) => MadeDescends(s, Constant, [], w);
    case BoolLit(b) => MadeDescends(s, Constant, [], Truth(b));
    case Ident(x) => MadeDescends(s, Parameter, [], 0);
    case Binary(op, l, r) =>
      ExprDescends(l, s);
      var (s1, a) := LowerExpr(l, s);
      ExprDescends(r, s1);
      var (s2, b) := LowerExpr(r, s1);
      MadeDescends(s2, Bin(NodeKindOf(op)), [a, b], 0);
    case Unary(op, x) =>
      ExprDescends(x, s);
      var (s1, a) := LowerExpr(x, s);
      MadeDescends(s1, Un(UnaryKindOf(op)), [a], 0);
    case Assign(x, how, r) =>
      ExprDescends(r, s);
      var (s1, b) := LowerExpr(r, s);
      AssignDescends(x, NestedKindOf(how), s1, b);
    case NotLowered => MadeDescends(s, Constant, [], 0);
  }

  lemma {:induction false} MergeDescends(yes: Assoc<NodeId>, no: Assoc<NodeId>, merge: NodeId, s: Lower)
    requires AllDescend(s.g)
    ensures AllDescend(MergeNames(yes, no, merge, s).g)
    decreases |yes|
  {
    hide AllDescend;
    if yes != [] {
      var (x, t) := yes[0];
      var e := Get<NodeId>(no, x);
      if e.Some? && e.value != t {
        MadeDescends(s, Phi, [merge, t, e.value], 0);
        MergeDescends(yes[1..], no, merge,
                      Make(s, Phi, [merge, t, e.value], 0).(names := Put<NodeId>(s.names, x, |s.g|)));
      } else {
        MergeDescends(yes[1..], no, merge, s.(names := Put<NodeId>(s.names, x, t)));
      }
    }
  }

  lemma BranchDescends(s: Lower, c: NodeId)
    requires AllDescend(s.g) && Inv(s)
    ensures AllDescend(BranchOpen(s, c).g)
  {
    MadeDescends(s, If, [s.ctrl, c], 0);
    var s1 := Make(s, If, [s.ctrl, c], 0);
    MadeDescends(s1, Proj, [|s.g|], 0);
    MadeDescends(Make(s1, Proj, [|s.g|], 0), Proj, [|s.g|], 1);
  }

  lemma RegionDescends(t: Lower, e: Lower)
    requires AllDescend(e.g) && Inv(t) && Inv(e) && |t.g| <= |e.g|
    ensures AllDescend(AtMerge(t, e).g)
  {
    MadeDescends(e, Region, [t.ctrl, e.ctrl], 0);
  }

  /** Statements keep control edges leading down. */
  lemma {:induction false} StmtDescends(st: Stmt, s: Lower)
    requires Inv(s) && PhisOrdered(s.g) && BranchesOnly(st) && AllDescend(s.g)
    ensures LowerStmt(st, s).Some? && AllDescend(LowerStmt(st, s).value.g)
    decreases st, 1
  {
    SkeletonHops(st, s);
    hide AllDescend, Inv, PhisOrdered;
    match st
    case Let(x, _, init) =>
      if init.Some? { ExprDescends(init.value, s); } else { MadeDescends(s, Constant, [], 0); }
    case Do(e) => ExprDescends(e, s);
    case AssignStmt(x, how, r) =>
      ExprDescends(r, s);
      var (s1, b) := LowerExpr(r, s);
      AssignDescends(x, CompoundKindOf(how), s1, b);
    case IfStmt(cond, yes, no) => IfDescends(cond, yes, no, s);
    case BlockStmt(stmts) => AllStmtsDescend(stmts, s);
    case MatchStmt => MadeDescends(s, Constant, [], 0);
    case _ =>
  }

  lemma {:induction false} AllStmtsDescend(stmts: seq<Stmt>, s: Lower)
    requires Inv(s) && PhisOrdered(s.g) && AllBranchesOnly(stmts) && AllDescend(s.g)
    ensures LowerAll(stmts, s).Some? && AllDescend(LowerAll(stmts, s).value.g)
    decreases stmts, 0
  {
    if stmts != [] {
      StmtDescends(stmts[0], s);
      StmtKeeps(stmts[0], s);
      AllStmtsDescend(stmts[1..], LowerStmt(stmts[0], s).value);
    }
  }

  lemma {:induction false} IfDescends(cond: Expr, yes: Stmt, no: Option<Stmt>, s: Lower)
    requires Inv(s) && PhisOrdered(s.g) && BranchesOnly(yes) && (no.Some? ==> BranchesOnly(no.value)) && AllDescend(s.g)
    requires LowerStmt(IfStmt(cond, yes, no), s).Some?
    ensures AllDescend(LowerStmt(IfStmt(cond, yes, no), s).value.g)
    decreases IfStmt(cond, yes, no), 0
  {
    hide *;
    var s2, t, e := LowerIf(cond, yes, no, s);
    IfStages(cond, yes, no, s, s2, t, e);
    var s1, c := LowerExpr(cond, s).0, LowerExpr(cond, s).1;
    var into, turn := s2.(ctrl := |s1.g| + 1), AtElse(s2, t, |s1.g|);
    ExprKeeps(cond, s);
    ExprDescends(cond, s);
    BranchDescends(s1, c);
    StmtDescends(yes, into);
    StmtKeeps(yes, into);
    if no.Some? { StmtDescends(no.value, turn); StmtKeeps(no.value, turn); }
    RegionDescends(t, e);
    MergeDescends(t.names, e.names, |e.g|, AtMerge(t, e));
  }

  /** Every function body starts from such a state. */
  lemma {:induction false} EntryReady(params: seq<Param>)
    requires |params| + 3 <= INVALID
    ensures var s := LowerParams(params, Fresh()); Ready(s) && AllDescend(s.g) && |s.g| == |params| + 3
  {
    if params != [] {
      var n := |params| - 1;
      EntryReady(params[..n]);
      var s1 := LowerParams(params[..n], Fresh());
      hide AllDescend;
      MadeDescends(s1, Parameter, [], 0);
      LeafKeeps(s1, Parameter, 0);
      Bind(Make(s1, Parameter, [], 0), params[n].name, |s1.g|);
    }
  }

  // ---- What the merge of a lowered branch finds ----

  /** In the finished graph the merge of an `if` finds exactly the branch that opened its arms when the walk can cross
      both arms, and otherwise nothing: consecutive branches in an arm cost two steps each, the shorter arm counting. */
  lemma MergeOfBranch(cond: Expr, yes: Stmt, no: Option<Stmt>, s: Lower, g: seq<Node>)
    requires Ready(s) && BranchesOnly(yes) && (no.Some? ==> BranchesOnly(no.value)) && AllDescend(s.g)
    requires LowerStmt(IfStmt(cond, yes, no), s).Some? && Grown(LowerStmt(IfStmt(cond, yes, no), s).value.g, g)
    ensures Governing(g, LowerStmt(IfStmt(cond, yes, no), s).value.ctrl)
         == if StmtHops(yes) <= MAX_DEPTH && (no.Some? ==> StmtHops(no.value) <= MAX_DEPTH)
            then Some(|LowerExpr(cond, s).0.g|) else None
  {
    var st := IfStmt(cond, yes, no);
    var r, f := LowerStmt(st, s).value, Skeleton(st, s)[0];
    IfLays(cond, yes, no, s);
    StmtGrows(cond, s, st);
    assert s.ctrl < f.branch && Descending(r.g, f.branch);
    hide Skeleton, LowerStmt, LowerExpr, StmtHops, Hops, Laid, LaidFork, Governing, BranchesOnly;
    assert Descending(g, f.branch) by { DescendingGrows(r.g, g, f.branch); }
    LaidForkGrows(r.g, g, s.ctrl, f, |r.g|, |g|);
    MergeFinds(g, s.ctrl, f, |g|);
  }

  lemma DescendingGrows(g: seq<Node>, g': seq<Node>, bound: nat)
    requires Descending(g, bound) && Grown(g, g') && bound <= |g|
    ensures Descending(g', bound)
  {
    forall n: NodeId | n < bound && n < |g'| ensures DescendingNode(g', n) {
      assert DescendingNode(g, n);
    }
  }

  lemma StmtGrows(cond: Expr, s: Lower, st: Stmt)
    requires Ready(s) && AllDescend(s.g) && BranchesOnly(st) && st.IfStmt? && st.cond == cond
    requires LowerStmt(st, s).Some? && |LowerStmt(st, s).value.g| <= INVALID
    ensures var b := |LowerExpr(cond, s).0.g|; var r := LowerStmt(st, s).value;
      s.ctrl < b <= |r.g| && Descending(r.g, b)
  {
    StmtDescends(st, s);
    ExprKeeps(cond, s);
    var s2, t, e := LowerIf(cond, st.yes, st.no, s);
    IfStages(cond, st.yes, st.no, s, s2, t, e);
    hide LowerStmt, LowerExpr, BranchesOnly, PhisOrdered;
  }

  // ---- An arm that is too long ----

  /** `if true {}` so many times. */
  function Ifs(n: nat): seq<Stmt> {
    if n == 0 then [] else [IfStmt(BoolLit(true), BlockStmt([]), None)] + Ifs(n - 1)
  }

  /** A constant, a branch, two projections and a region. */
  lemma OneIf(s: Lower)
    requires s.names == []
    ensures var st := IfStmt(BoolLit(true), BlockStmt([]), None);
      && BranchesOnly(st) && StmtHops(st) == 2
      && LowerStmt(st, s).Some? && LowerStmt(st, s).value.names == [] && |LowerStmt(st, s).value.g| == |s.g| + 5
  {
  }

  lemma {:induction false} ManyIfs(n: nat, s: Lower)
    requires s.names == []
    ensures AllBranchesOnly(Ifs(n)) && AllHops(Ifs(n)) == 2 * n
    ensures LowerAll(Ifs(n), s).Some? && LowerAll(Ifs(n), s).value.names == []
      && |LowerAll(Ifs(n), s).value.g| == |s.g| + 5 * n
  {
    if n > 0 {
      OneIf(s);
      assert Ifs(n)[1..] == Ifs(n - 1) && Ifs(n)[0] == IfStmt(BoolLit(true), BlockStmt([]), None);
      ManyIfs(n - 1, LowerStmt(Ifs(n)[0], s).value);
      hide LowerStmt, BranchesOnly, StmtHops;
    }
  }

  function Long(n: nat): Stmt {
    IfStmt(BoolLit(true), BlockStmt(Ifs(n)), None)
  }

  lemma LongLowered(n: nat)
    ensures BranchesOnly(Long(n)) && StmtHops(BlockStmt(Ifs(n))) == 2 * n
    ensures LowerStmt(Long(n), Fresh()).Some? && |LowerStmt(Long(n), Fresh()).value.g| == 8 + 5 * n
    ensures |LowerExpr(BoolLit(true), Fresh()).0.g| == 4
  {
    var s := Fresh();
    var (s1, c) := LowerExpr(BoolLit(true), s);
    var into := BranchOpen(s1, c).(ctrl := |s1.g| + 1);
    ManyIfs(n, into);
    hide LowerAll, AllHops, AllBranchesOnly;
    assert LowerStmt(BlockStmt(Ifs(n)), into) == LowerAll(Ifs(n), into);
  }

  /** `if true { if true {} ... }`: behind thirty-two inner branches the merge still finds its own, behind thirty-three
      it finds none. */
  lemma ThirtyThreeIfs()
    ensures LowerStmt(Long(32), Fresh()).Some? && LowerStmt(Long(33), Fresh()).Some?
    ensures Governing(LowerStmt(Long(32), Fresh()).value.g, LowerStmt(Long(32), Fresh()).value.ctrl) == Some(4)
    ensures Governing(LowerStmt(Long(33), Fresh()).value.g, LowerStmt(Long(33), Fresh()).value.ctrl) == None
  {
    hide *;
    LongGoverned(32);
    LongGoverned(33);
  }

  lemma LongGoverned(n: nat)
    requires n <= 100
    ensures LowerStmt(Long(n), Fresh()).Some?
    ensures Governing(LowerStmt(Long(n), Fresh()).value.g, LowerStmt(Long(n), Fresh()).value.ctrl)
         == if n <= 32 then Some(4) else None
  {
    hide LowerStmt, LowerExpr, StmtHops, Governing, AllBranchesOnly, Ready, AllDescend, Ifs;
    LongLowered(n);
    EntryReady([]);
    assert LowerParams([], Fresh()) == Fresh();
    MergeOfBranch(BoolLit(true), BlockStmt(Ifs(n)), None, Fresh(), LowerStmt(Long(n), Fresh()).value.g);
  }
}
