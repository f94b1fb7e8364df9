/** The walk through a lowered graph never has a choice: control leaves every node by one way only, so a call returns at
    most one value. */
module OneWalk {
  import opened Wrappers
  import opened Words
  import opened IR
  import opened Ast
  import opened Interpreter
  import opened TypeChecker
  import opened Lowering
  import opened LoweringShape
  import opened SeaSemantics
  import opened LoweringMeaning
  import opened LoweredFunctions

  // ---- Who takes control from whom ----

  predicate Steers(k: NodeKind) {
    k.If? || k.Region? || k.Loop? || k.Return? || k.Proj?
  }

  /** Control goes from `c` into the `k`-th place of node `u`. */
  predicate Takes(g: seq<Node>, u: NodeId, k: nat, c: NodeId) {
    && u < |g| && k < |g[u].inputs| && g[u].inputs[k] == c
    && match g[u].kind
       case If => k == 0 && |g[u].inputs| == IF_INPUTS
       case Region => k < 2
       case Loop => k < 2
       case Return => k == 0 && |g[u].inputs| == RETURN_INPUTS
       case _ => false
  }

  /** No node from `lo` to below `hi` deals with control. */
  predicate Quiet(g: seq<Node>, lo: nat, hi: nat) {
    lo <= hi <= |g| && forall u: NodeId :: lo <= u < hi ==> !Steers(g[u].kind)
  }

  ghost predicate Untaken(g: seq<Node>, lo: nat, hi: nat, c: NodeId) {
    forall u: NodeId, k: nat :: lo <= u < hi ==> !Takes(g, u, k, c)
  }

  /** Control is taken from `from` or from nodes between. */
  ghost predicate Within(g: seq<Node>, lo: nat, hi: nat, from: NodeId) {
    forall u: NodeId, k: nat, c: NodeId :: lo <= u < hi && Takes(g, u, k, c) ==>
      c == INVALID || c == from || lo <= c < hi
  }

  /** From no node twice. */
  ghost predicate Once(g: seq<Node>, lo: nat, hi: nat) {
    forall u: NodeId, k: nat, v: NodeId, l: nat, c: NodeId {:trigger Takes(g, u, k, c), Takes(g, v, l, c)} ::
      lo <= u < hi && lo <= v < hi && Takes(g, u, k, c) && Takes(g, v, l, c) && c != INVALID ==> u == v && k == l
  }

  predicate SameProj(a: Node, b: Node) {
    a.kind.Proj? && b.kind.Proj? && a.inputs == b.inputs && a.payload == b.payload
  }

  /** Projections belong to branches between, one for each outcome. */
  ghost predicate Paired(g: seq<Node>, lo: nat, hi: nat) {
    && (forall u: NodeId :: lo <= u < hi && u < |g| && g[u].kind.Proj? ==>
          |g[u].inputs| == 1 && lo <= g[u].inputs[0] < hi)
    && forall u: NodeId, v: NodeId :: lo <= u < hi && lo <= v < hi && u < |g| && v < |g| && SameProj(g[u], g[v]) ==>
         u == v
  }

  /** The nodes from `lo` to below `hi` lead control from `from` to `to`. */
  ghost predicate Line(g: seq<Node>, lo: nat, hi: nat, from: NodeId, to: NodeId) {
    && lo <= hi <= |g|
    && Within(g, lo, hi, from) && Once(g, lo, hi) && Paired(g, lo, hi)
    && (to == INVALID || ((to == from || lo <= to < hi) && Untaken(g, lo, hi, to)))
  }

  ghost predicate Outside(from: NodeId, lo: nat) {
    from == INVALID || from < lo
  }

  lemma QuietLine(g: seq<Node>, lo: nat, hi: nat, c: NodeId)
    requires Quiet(g, lo, hi)
    ensures Line(g, lo, hi, c, c)
  {
  }

  lemma LineFrame(g: seq<Node>, g': seq<Node>, lo: nat, hi: nat, from: NodeId, to: NodeId)
    requires Line(g, lo, hi, from, to) && hi <= |g'| && forall n: nat :: lo <= n < hi ==> g'[n] == g[n]
    ensures Line(g', lo, hi, from, to)
  {
    forall u: NodeId, k: nat, c: NodeId | lo <= u < hi ensures Takes(g', u, k, c) == Takes(g, u, k, c) {
    }
  }

  /** One line after another. */
  lemma LineJoin(g: seq<Node>, lo: nat, mid: nat, hi: nat, from: NodeId, via: NodeId, to: NodeId)
    requires Line(g, lo, mid, from, via) && Line(g, mid, hi, via, to) && Outside(from, lo) && |g| <= INVALID
    ensures Line(g, lo, hi, from, to)
  {
    hide Takes;
    assert Within(g, lo, hi, from);
    assert Paired(g, lo, hi);
    forall u: NodeId, k: nat, v: NodeId, l: nat, c: NodeId |
      lo <= u < hi && lo <= v < hi && Takes(g, u, k, c) && Takes(g, v, l, c) && c != INVALID
      ensures u == v && k == l
    {
      if u < mid && v >= mid {
        JoinApart(g, lo, mid, hi, from, via, to, u, k, v, l, c);
      } else if v < mid && u >= mid {
        JoinApart(g, lo, mid, hi, from, via, to, v, l, u, k, c);
      }
    }
  }

  lemma JoinApart(g: seq<Node>, lo: nat, mid: nat, hi: nat, from: NodeId, via: NodeId, to: NodeId,
                  u: NodeId, k: nat, v: NodeId, l: nat, c: NodeId)
    requires Line(g, lo, mid, from, via) && Line(g, mid, hi, via, to) && Outside(from, lo) && |g| <= INVALID
    requires lo <= u < mid <= v < hi && Takes(g, u, k, c) && c != INVALID
    ensures !Takes(g, v, l, c)
  {
    hide Takes, Once, Paired;
  }

  // ---- Branches and loops ----

  /** A branch at `b`, its arms from `b + 3` on and from `m` on, and the region at `e`. */
  ghost predicate Forked(g: seq<Node>, b: NodeId, m: nat, e: NodeId, from: NodeId, c: NodeId, t: NodeId, r: NodeId) {
    && b + 3 <= m <= e < |g| <= INVALID && Outside(from, b)
    && g[b] == Bare(If, [from, c], 0) && g[b + 1] == Bare(Proj, [b], 0) && g[b + 2] == Bare(Proj, [b], 1)
    && g[e] == Bare(Region, [t, r], 0)
    && Line(g, b + 3, m, b + 1, t) && Line(g, m, e, b + 2, r)
  }

  /** Who takes control from whom in a branch. */
  lemma ForkTakes(g: seq<Node>, b: NodeId, m: nat, e: NodeId, from: NodeId, c: NodeId, t: NodeId, r: NodeId,
                  u: NodeId, k: nat, x: NodeId)
    requires Forked(g, b, m, e, from, c, t, r) && b <= u <= e && Takes(g, u, k, x) && x != INVALID
    ensures u == b ==> k == 0 && x == from
    ensures u != b + 1 && u != b + 2
    ensures b + 3 <= u < m ==> (x == b + 1 || b + 3 <= x < m) && x != t
    ensures m <= u < e ==> (x == b + 2 || m <= x < e) && x != r
    ensures u == e ==>
      (k == 0 && x == t && (t == b + 1 || b + 3 <= t < m)) || (k == 1 && x == r && (r == b + 2 || m <= r < e))
  {
  }

  lemma ForkLine(g: seq<Node>, b: NodeId, m: nat, e: NodeId, from: NodeId, c: NodeId, t: NodeId, r: NodeId)
    requires Forked(g, b, m, e, from, c, t, r)
    ensures Line(g, b, e + 1, from, e)
  {
    ForkPaired(g, b, m, e, from, c, t, r);
    assert Outside(from, b) && b + 3 <= m <= e < |g| <= INVALID;
    assert Once(g, b + 3, m) && Once(g, m, e);
    hide Forked, Takes, Paired, Line;
    forall u: NodeId, k: nat, x: NodeId | b <= u < e + 1 && Takes(g, u, k, x) && x != INVALID
      ensures x == from || b <= x < e + 1
      ensures x != e
    {
      ForkTakes(g, b, m, e, from, c, t, r, u, k, x);
    }
    forall u: NodeId, k: nat, v: NodeId, l: nat, x: NodeId |
      b <= u < e + 1 && b <= v < e + 1 && Takes(g, u, k, x) && Takes(g, v, l, x) && x != INVALID
      ensures u == v && k == l
    {
      ForkTakes(g, b, m, e, from, c, t, r, u, k, x);
      ForkTakes(g, b, m, e, from, c, t, r, v, l, x);
    }
    LineOf(g, b, e + 1, from, e);
  }

  lemma LineOf(g: seq<Node>, lo: nat, hi: nat, from: NodeId, to: NodeId)
    requires lo <= hi <= |g| && Within(g, lo, hi, from) && Once(g, lo, hi) && Paired(g, lo, hi)
    requires lo <= to < hi && Untaken(g, lo, hi, to)
    ensures Line(g, lo, hi, from, to)
  {
  }

  lemma ForkPaired(g: seq<Node>, b: NodeId, m: nat, e: NodeId, from: NodeId, c: NodeId, t: NodeId, r: NodeId)
    requires Forked(g, b, m, e, from, c, t, r)
    ensures Paired(g, b, e + 1)
  {
    hide Takes, Within, Once, Untaken;
  }

  /** A loop at `h`, its test at `cmp`, its body from `cmp + 4` to `m`, and what closes it after that. */
  ghost predicate Looped(g: seq<Node>, h: NodeId, cmp: NodeId, m: nat, e: nat, from: NodeId, back: NodeId) {
    && h < cmp && cmp + 4 <= m <= e <= |g| <= INVALID && Outside(from, h) && back != INVALID
    && g[h] == Bare(Loop, [back, from], 0) && g[cmp + 1] == Bare(If, [h, cmp], 0)
    && g[cmp + 2] == Bare(Proj, [cmp + 1], 0) && g[cmp + 3] == Bare(Proj, [cmp + 1], 1)
    && Quiet(g, h + 1, cmp + 1) && Line(g, cmp + 4, m, cmp + 2, back) && Quiet(g, m, e)
  }

  lemma LoopTakes(g: seq<Node>, h: NodeId, cmp: NodeId, m: nat, e: nat, from: NodeId, back: NodeId,
                  u: NodeId, k: nat, x: NodeId)
    requires Looped(g, h, cmp, m, e, from, back) && h <= u < e && Takes(g, u, k, x) && x != INVALID
    ensures (back == cmp + 2 || cmp + 4 <= back < m)
    ensures u == h ==> (k == 0 && x == back) || (k == 1 && x == from)
    ensures u != h ==> (u == cmp + 1 && k == 0 && x == h)
                       || (cmp + 4 <= u < m && (x == cmp + 2 || cmp + 4 <= x < m) && x != back)
  {
  }

  lemma LoopLine(g: seq<Node>, h: NodeId, cmp: NodeId, m: nat, e: nat, from: NodeId, back: NodeId)
    requires Looped(g, h, cmp, m, e, from, back)
    ensures Line(g, h, e, from, cmp + 3)
  {
    LoopPaired(g, h, cmp, m, e, from, back);
    assert Outside(from, h) && h < cmp && cmp + 4 <= m <= e <= |g| <= INVALID && Once(g, cmp + 4, m);
    hide Looped, Takes, Paired, Line, Quiet;
    forall u: NodeId, k: nat, x: NodeId | h <= u < e && Takes(g, u, k, x) && x != INVALID
      ensures x == from || h <= x < e
      ensures x != cmp + 3
    {
      LoopTakes(g, h, cmp, m, e, from, back, u, k, x);
    }
    forall u: NodeId, k: nat, v: NodeId, l: nat, x: NodeId |
      h <= u < e && h <= v < e && Takes(g, u, k, x) && Takes(g, v, l, x) && x != INVALID
      ensures u == v && k == l
    {
      LoopTakes(g, h, cmp, m, e, from, back, u, k, x);
      LoopTakes(g, h, cmp, m, e, from, back, v, l, x);
    }
    LineOf(g, h, e, from, cmp + 3);
  }

  lemma LoopPaired(g: seq<Node>, h: NodeId, cmp: NodeId, m: nat, e: nat, from: NodeId, back: NodeId)
    requires Looped(g, h, cmp, m, e, from, back)
    ensures Paired(g, h, e)
  {
    hide Takes, Within, Once, Untaken;
  }

  lemma ReturnLine(g: seq<Node>, n: NodeId, from: NodeId, eff: NodeId, v: NodeId)
    requires n < |g| && g[n] == Bare(Return, [from, eff, v], 0)
    ensures Line(g, n, n + 1, from, INVALID)
  {
  }

  // ---- Expressions and bindings make no control ----

  /** The nodes added do not deal with control, and the others keep their kinds. */
  ghost predicate QuietlyGrown(s: Lower, s': Lower) {
    && |s.g| <= |s'.g| && (forall n: nat :: |s.g| <= n < |s'.g| ==> !Steers(s'.g[n].kind))
    && forall n: nat :: n < |s.g| ==> s'.g[n].kind == s.g[n].kind
  }

  lemma QuietOn(a: Lower, b: Lower, c: Lower)
    requires QuietlyGrown(a, b) && QuietlyGrown(b, c)
    ensures QuietlyGrown(a, c)
  {
  }

  lemma QuietMake(s: Lower, kind: NodeKind, inputs: seq<NodeId>, payload: Word)
    requires !Steers(kind)
    ensures QuietlyGrown(s, Make(s, kind, inputs, payload))
  {
  }

  lemma QuietIntern(s: Lower, kind: NodeKind, inputs: seq<NodeId>)
    requires !Steers(kind)
    ensures QuietlyGrown(s, Intern(s, kind, inputs).0)
  {
  }

  lemma QuietCurrent(s: Lower, x: Name)
    ensures QuietlyGrown(s, Current(s, x).0)
  {
    hide Get;
  }

  lemma QuietAssign(x: Name, op: Option<BinOp>, s: Lower, b: NodeId)
    ensures QuietlyGrown(s, LowerAssign(x, op, s, b).0)
  {
    hide Get, Put, Intern, Current;
    match op
    case None =>
    case Some(k) =>
      QuietCurrent(s, x);
      var (s1, cur) := Current(s, x);
      QuietIntern(s1, Bin(k), [cur, b]);
  }

  lemma {:induction false} QuietExpr(e: Expr, s: Lower)
    ensures QuietlyGrown(s, LowerExpr(e, s).0)
    decreases e
  {
    hide QuietlyGrown, Intern, LowerAssign;
    match e
    case IntLit(w) => QuietMake(s, Constant, [], w);
    case BoolLit(b) => QuietMake(s, Constant, [], Truth(b));
    case Ident(x) => QuietMake(s, Parameter, [], 0); QuietSelf(s);
    case Binary(op, l, r) =>
      QuietExpr(l, s);
      var (s1, a) := LowerExpr(l, s);
      QuietExpr(r, s1);
      var (s2, b) := LowerExpr(r, s1);
      QuietIntern(s2, Bin(NodeKindOf(op)), [a, b]);
      QuietOn(s, s1, s2);
      QuietOn(s, s2, Intern(s2, Bin(NodeKindOf(op)), [a, b]).0);
    case Unary(op, x) =>
      QuietExpr(x, s);
      var (s1, a) := LowerExpr(x, s);
      QuietIntern(s1, Un(UnaryKindOf(op)), [a]);
      QuietOn(s, s1, Intern(s1, Un(UnaryKindOf(op)), [a]).0);
    case Assign(x, how, r) =>
      QuietExpr(r, s);
      var (s1, b) := LowerExpr(r, s);
      QuietAssign(x, NestedKindOf(how), s1, b);
      QuietOn(s, s1, LowerAssign(x, NestedKindOf(how), s1, b).0);
    case NotLowered => QuietMake(s, Constant, [], 0);
  }

  lemma QuietSelf(s: Lower)
    ensures QuietlyGrown(s, s)
  {
  }

  lemma {:induction false} QuietMerge(yes: Assoc<NodeId>, no: Assoc<NodeId>, merge: NodeId, s: Lower)
    ensures QuietlyGrown(s, MergeNames(yes, no, merge, s))
    decreases |yes|
  {
    hide Get, Put;
    if yes != [] {
      var (x, t) := yes[0];
      var e := Get<NodeId>(no, x);
      if e.Some? && e.value != t {
        QuietMerge(yes[1..], no, merge, Make(s, Phi, [merge, t, e.value], 0).(names := Put<NodeId>(s.names, x, |s.g|)));
      } else {
        QuietMerge(yes[1..], no, merge, s.(names := Put<NodeId>(s.names, x, t)));
      }
    }
  }

  lemma QuietSet(s: Lower, n: NodeId, i: nat, v: NodeId)
    ensures QuietlyGrown(s, s.(g := SetInput(s.g, n, i, v)))
  {
  }

  lemma {:induction false} QuietClosePhis(phis: seq<(Name, NodeId)>, s: Lower)
    ensures QuietlyGrown(s, ClosePhis(phis, s))
    decreases |phis|
  {
    hide QuietlyGrown, SetInput, Current;
    if phis == [] {
      QuietSelf(s);
    } else {
      var (s1, back) := Current(s, phis[0].0);
      var s2 := s1.(g := SetInput(s1.g, phis[0].1, 2, back));
      QuietCurrent(s, phis[0].0);
      QuietSet(s1, phis[0].1, 2, back);
      QuietClosePhis(phis[1..], s2);
      QuietOn(s, s1, s2);
      QuietOn(s, s2, ClosePhis(phis, s));
    }
  }

  lemma QuietClose(loop: NodeId, exit: NodeId, phis: seq<(Name, NodeId)>, s: Lower, before: Lower)
    ensures QuietlyGrown(s, CloseLoop(loop, exit, phis, s, before))
  {
    hide QuietlyGrown, SetInput, Intern, ClosePhis, PutAll;
    var s1, next, s2 := CloseLoopSteps(loop, exit, phis, s, before);
    var one := Make(s, Constant, [], 1);
    QuietMake(s, Constant, [], 1);
    QuietIntern(one, Bin(Add), [loop + 1, |s.g|]);
    QuietSet(s1, loop + 1, 2, next);
    var s1' := s1.(g := SetInput(s1.g, loop + 1, 2, next));
    QuietClosePhis(phis, s1');
    var s3 := s2.(g := SetInput(s2.g, loop, 0, s.ctrl));
    QuietSet(s2, loop, 0, s.ctrl);
    QuietMake(s3, Phi, [exit, before.eff, s.eff], 0);
    QuietOn(s, one, s1);
    QuietOn(s, s1, s1');
    QuietOn(s, s1', s2);
    QuietOn(s, s2, s3);
    QuietOn(s, s3, Make(s3, Phi, [exit, before.eff, s.eff], 0));
    QuietSame(s, Make(s3, Phi, [exit, before.eff, s.eff], 0), CloseLoop(loop, exit, phis, s, before));
  }

  lemma QuietSame(s: Lower, a: Lower, b: Lower)
    requires QuietlyGrown(s, a) && b.g == a.g
    ensures QuietlyGrown(s, b)
  {
  }

  lemma QuietRange(s: Lower, s': Lower)
    requires QuietlyGrown(s, s')
    ensures Quiet(s'.g, |s.g|, |s'.g|)
  {
  }

  // ---- Statements make lines ----

  ghost predicate Draws(s: Lower, s': Lower) {
    Line(s'.g, |s.g|, |s'.g|, s.ctrl, s'.ctrl)
  }

  lemma QuietDraws(s: Lower, s': Lower)
    requires QuietlyGrown(s, s') && s'.ctrl == s.ctrl
    ensures Draws(s, s')
  {
    QuietLine(s'.g, |s.g|, |s'.g|, s.ctrl);
  }

  lemma DrawsOn(a: Lower, b: Lower, c: Lower)
    requires Draws(a, b) && Draws(b, c) && |c.g| <= INVALID && Outside(a.ctrl, |a.g|)
    requires |b.g| <= |c.g| && forall n: nat :: n < |b.g| ==> c.g[n] == b.g[n]
    ensures Draws(a, c)
  {
    LineFrame(b.g, c.g, |a.g|, |b.g|, a.ctrl, b.ctrl);
    hide Line;
    LineJoin(c.g, |a.g|, |b.g|, |c.g|, a.ctrl, b.ctrl, c.ctrl);
  }

  lemma InvParts(s: Lower)
    requires Inv(s)
    ensures Outside(s.ctrl, |s.g|)
  {
  }

  lemma Grows(a: Lower, b: Lower)
    requires Continues(a, b)
    ensures |a.g| <= |b.g| && forall n: nat :: n < |a.g| ==> b.g[n] == a.g[n]
  {
  }

  /** Every lowered statement leads control on, or nowhere when it returns. */
  lemma {:induction false} StmtDraws(st: Stmt, s: Lower)
    requires Inv(s) && PhisOrdered(s.g) && LowerStmt(st, s).Some? && |LowerStmt(st, s).value.g| <= INVALID
    ensures Draws(s, LowerStmt(st, s).value)
    decreases st, 1
  {
    hide Inv, PhisOrdered, QuietlyGrown, Draws, LowerExpr, LowerAssign, Put, Get;
    var r := LowerStmt(st, s).value;
    match st
    case Let(x, _, init) =>
      if init.Some? {
        QuietExpr(init.value, s);
        ExprKeeps(init.value, s);
        QuietSame(s, LowerExpr(init.value, s).0, r);
      } else {
        QuietMake(s, Constant, [], 0);
        QuietSame(s, Make(s, Constant, [], 0), r);
      }
      QuietDraws(s, r);
    case Do(e) =>
      QuietExpr(e, s);
      ExprKeeps(e, s);
      QuietDraws(s, r);
    case AssignStmt(x, how, e) =>
      QuietExpr(e, s);
      ExprKeeps(e, s);
      var (s1, b) := LowerExpr(e, s);
      QuietAssign(x, CompoundKindOf(how), s1, b);
      QuietOn(s, s1, r);
      AssignKeeps(x, CompoundKindOf(how), s, s1, b);
      QuietDraws(s, r);
    case ReturnStmt(result) => ReturnDraws(result, s);
    case IfStmt(cond, yes, no) => IfDraws(cond, yes, no, s);
    case BlockStmt(stmts) => AllDraw(stmts, s);
    case ForStmt(x, lo, hi, body) => ForDraws(x, lo, hi, body, s);
    case MatchStmt =>
      QuietMake(s, Constant, [], 0);
      QuietDraws(s, r);
  }

  lemma ReturnDraws(result: Option<Expr>, s: Lower)
    requires Inv(s) && PhisOrdered(s.g) && |LowerStmt(ReturnStmt(result), s).value.g| <= INVALID
    ensures Draws(s, LowerStmt(ReturnStmt(result), s).value)
  {
    hide Inv, PhisOrdered, QuietlyGrown, Line, LowerExpr;
    var r := LowerStmt(ReturnStmt(result), s).value;
    var s1, n := Make(s, Constant, [], 0), |s.g|;
    if result.Some? {
      s1, n := LowerExpr(result.value, s).0, LowerExpr(result.value, s).1;
      QuietExpr(result.value, s);
      ExprKeeps(result.value, s);
    } else {
      QuietMake(s, Constant, [], 0);
    }
    QuietDraws(s, s1);
    InvParts(s);
    hide Draws;
    assert r.g == s1.g + [Bare(Return, [s.ctrl, s1.eff, n], 0)] && r.ctrl == INVALID;
    ReturnEnds(s, s1, r, n);
  }

  lemma ReturnEnds(s: Lower, s1: Lower, r: Lower, n: NodeId)
    requires Draws(s, s1) && Outside(s.ctrl, |s.g|) && |r.g| <= INVALID
    requires r.g == s1.g + [Bare(Return, [s1.ctrl, s1.eff, n], 0)] && r.ctrl == INVALID
    ensures Draws(s, r)
  {
    ReturnLine(r.g, |s1.g|, s1.ctrl, s1.eff, n);
    hide Line;
    DrawsOn(s, s1, r);
  }

  lemma {:induction false} AllDraw(stmts: seq<Stmt>, s: Lower)
    requires Inv(s) && PhisOrdered(s.g) && LowerAll(stmts, s).Some? && |LowerAll(stmts, s).value.g| <= INVALID
    ensures Draws(s, LowerAll(stmts, s).value)
    decreases stmts, 0
  {
    hide Inv, PhisOrdered, QuietlyGrown, Draws, LowerStmt;
    if stmts == [] {
      QuietSelf(s);
      QuietDraws(s, s);
    } else {
      var s1, r := LowerStmt(stmts[0], s).value, LowerAll(stmts, s).value;
      StmtKeeps(stmts[0], s);
      AllKeeps(stmts[1..], s1);
      Grows(s1, r);
      StmtDraws(stmts[0], s);
      AllDraw(stmts[1..], s1);
      InvParts(s);
      DrawsOn(s, s1, r);
    }
  }

  lemma {:induction false} IfDraws(cond: Expr, yes: Stmt, no: Option<Stmt>, s: Lower)
    requires Inv(s) && PhisOrdered(s.g) && LowerStmt(IfStmt(cond, yes, no), s).Some?
    requires |LowerStmt(IfStmt(cond, yes, no), s).value.g| <= INVALID
    ensures Draws(s, LowerStmt(IfStmt(cond, yes, no), s).value)
    decreases IfStmt(cond, yes, no), 0
  {
    hide *;
    var s2, t, e := LowerIf(cond, yes, no, s);
    var s1, c := LowerExpr(cond, s).0, LowerExpr(cond, s).1;
    var r := LowerStmt(IfStmt(cond, yes, no), s).value;
    var into, turn := s2.(ctrl := |s1.g| + 1), AtElse(s2, t, |s1.g|);
    BranchStages(cond, yes, no, s, s2, t, e);
    StmtDraws(yes, into);
    if no.Some? { StmtDraws(no.value, turn); } else { QuietSelf(turn); QuietDraws(turn, e); }
    QuietExpr(cond, s);
    QuietDraws(s, s1);
    InvParts(s);
    InvParts(s1);
    BranchDraws(s1, c, t, e, into, turn, r);
    DrawsOn(s, s1, r);
  }

  /** The states of a branch, each continuing the one before. */
  lemma BranchStages(cond: Expr, yes: Stmt, no: Option<Stmt>, s: Lower, s2: Lower, t: Lower, e: Lower)
    requires Inv(s) && PhisOrdered(s.g) && LowerStmt(IfStmt(cond, yes, no), s).Some?
    requires |LowerStmt(IfStmt(cond, yes, no), s).value.g| <= INVALID
    requires var (s1, c) := LowerExpr(cond, s);
      && s2 == BranchOpen(s1, c) && LowerStmt(yes, s2.(ctrl := |s1.g| + 1)) == Some(t)
      && (if no.Some? then LowerStmt(no.value, AtElse(s2, t, |s1.g|)) == Some(e) else e == AtElse(s2, t, |s1.g|))
      && LowerStmt(IfStmt(cond, yes, no), s) == Some(MergeNames(t.names, e.names, |e.g|, AtMerge(t, e)))
    ensures var s1, r := LowerExpr(cond, s).0, LowerStmt(IfStmt(cond, yes, no), s).value;
      var into, turn := s2.(ctrl := |s1.g| + 1), AtElse(s2, t, |s1.g|);
      && Inv(s1) && s1.ctrl == s.ctrl && |s1.g| <= |r.g| <= INVALID
      && (forall n: nat :: n < |s1.g| ==> r.g[n] == s1.g[n])
      && Inv(into) && PhisOrdered(into.g) && Continues(into, t) && |t.g| <= INVALID
      && Inv(turn) && PhisOrdered(turn.g) && Continues(turn, e) && |e.g| <= INVALID
      && Continues(AtMerge(t, e), r) && QuietlyGrown(AtMerge(t, e), r) && r.ctrl == |e.g|
  {
    hide *;
    ExprKeeps(cond, s);
    var s1, r := LowerExpr(cond, s).0, LowerStmt(IfStmt(cond, yes, no), s).value;
    var into, turn := s2.(ctrl := |s1.g| + 1), AtElse(s2, t, |s1.g|);
    BranchOpens(s1, LowerExpr(cond, s).1);
    StmtKeeps(yes, into);
    BranchTurns(s2, t, |s1.g|);
    AtElseGraph(s2, t, |s1.g|);
    if no.Some? { StmtKeeps(no.value, turn); } else { ContinuesSelf(turn); }
    GraphGrows(into, t);
    GraphGrows(turn, e);
    BranchesMeet(t, e);
    MergeKeeps(t.names, e.names, |e.g|, AtMerge(t, e));
    QuietMerge(t.names, e.names, |e.g|, AtMerge(t, e));
    MeetControl(t, e);
    Grows(s1, into);
    Grows(into, t);
    Grows(turn, e);
    Grows(e, AtMerge(t, e));
    Grows(AtMerge(t, e), r);
  }

  lemma MeetControl(t: Lower, e: Lower)
    ensures AtMerge(t, e).ctrl == |e.g| && AtMerge(t, e).g == e.g + [Bare(Region, [t.ctrl, e.ctrl], 0)]
  {
  }

  lemma BranchDraws(s1: Lower, c: NodeId, t: Lower, e: Lower, into: Lower, turn: Lower, r: Lower)
    requires into == BranchOpen(s1, c).(ctrl := |s1.g| + 1) && turn == AtElse(BranchOpen(s1, c), t, |s1.g|)
    requires Continues(into, t) && Continues(turn, e) && Continues(AtMerge(t, e), r) && QuietlyGrown(AtMerge(t, e), r)
    requires Draws(into, t) && Draws(turn, e) && Outside(s1.ctrl, |s1.g|) && |r.g| <= INVALID && r.ctrl == |e.g|
    ensures Draws(s1, r)
  {
    var b := |s1.g|;
    BranchForked(s1, c, t, e, into, turn, r);
    MeetControl(t, e);
    QuietRange(AtMerge(t, e), r);
    hide Line, QuietlyGrown, BranchOpen, AtElse, AtMerge, Forked, Continues;
    QuietLine(r.g, |e.g| + 1, |r.g|, |e.g|);
    ForkLine(r.g, b, |t.g|, |e.g|, s1.ctrl, c, t.ctrl, e.ctrl);
    LineJoin(r.g, b, |e.g| + 1, |r.g|, s1.ctrl, |e.g|, |e.g|);
  }

  lemma BranchForked(s1: Lower, c: NodeId, t: Lower, e: Lower, into: Lower, turn: Lower, r: Lower)
    requires into == BranchOpen(s1, c).(ctrl := |s1.g| + 1) && turn == AtElse(BranchOpen(s1, c), t, |s1.g|)
    requires Continues(into, t) && Continues(turn, e) && Continues(AtMerge(t, e), r)
    requires Draws(into, t) && Draws(turn, e) && Outside(s1.ctrl, |s1.g|) && |r.g| <= INVALID
    ensures Forked(r.g, |s1.g|, |t.g|, |e.g|, s1.ctrl, c, t.ctrl, e.ctrl) && |e.g| < |r.g|
  {
    var b := |s1.g|;
    BranchNodes(s1, c, t, e, into, turn);
    MeetControl(t, e);
    Grows(AtMerge(t, e), r);
    LineDrawn(into, t);
    LineDrawn(turn, e);
    hide Line, BranchOpen, AtElse, AtMerge, Continues, Draws;
    LineFrame(t.g, r.g, b + 3, |t.g|, b + 1, t.ctrl);
    LineFrame(e.g, r.g, |t.g|, |e.g|, b + 2, e.ctrl);
  }

  lemma BranchNodes(s1: Lower, c: NodeId, t: Lower, e: Lower, into: Lower, turn: Lower)
    requires into == BranchOpen(s1, c).(ctrl := |s1.g| + 1) && turn == AtElse(BranchOpen(s1, c), t, |s1.g|)
    requires Continues(into, t) && Continues(turn, e)
    ensures var b := |s1.g|;
      && |into.g| == b + 3 <= |t.g| <= |e.g| && turn.g == t.g && turn.ctrl == b + 2
      && e.g[b] == Bare(If, [s1.ctrl, c], 0) && e.g[b + 1] == Bare(Proj, [b], 0) && e.g[b + 2] == Bare(Proj, [b], 1)
      && forall n: nat :: n < |t.g| ==> e.g[n] == t.g[n]
  {
    var g, b := into.g, |s1.g|;
    assert g[b] == Bare(If, [s1.ctrl, c], 0) && g[b + 1] == Bare(Proj, [b], 0) && g[b + 2] == Bare(Proj, [b], 1);
  }

  lemma {:induction false} ForDraws(x: Name, lo: Expr, hi: Expr, body: Stmt, s: Lower)
    requires Inv(s) && PhisOrdered(s.g) && LowerFor(x, lo, hi, body, s).Some?
    requires |LowerFor(x, lo, hi, body, s).value.g| <= INVALID
    ensures Draws(s, LowerFor(x, lo, hi, body, s).value)
    decreases body, 2
  {
    hide *;
    var l := LoopStagesOf(x, lo, hi, body, s);
    LoopSizes(l);
    StmtDraws(body, l.s3);
    QuietExpr(lo, s);
    QuietExpr(hi, l.s1);
    QuietOn(s, l.s1, l.s2);
    QuietDraws(s, l.s2);
    InvParts(s);
    InvParts(l.s2);
    ForUnfolds(x, lo, hi, body, s);
    assert QuietlyGrown(l.s4, l.s5) by {
      var (s3, phis) := OpenLoop(x, l.lo, l.hi, body, l.s2);
      QuietClose(|l.s2.g|, s3.ctrl + 1, phis, l.s4, l.s2);
      LoopState(x, lo, hi, body, s, l);
    }
    LoopDraws(l);
    Grows(l.s2, l.s5);
    DrawsOn(s, l.s2, l.s5);
  }

  lemma LoopSizes(l: LoopStages)
    requires LoopGraph(l) && |l.s5.g| <= INVALID
    ensures |l.s4.g| <= INVALID
  {
    hide LoopBuilt, AllBound;
  }

  lemma LoopState(x: Name, lo: Expr, hi: Expr, body: Stmt, s: Lower, l: LoopStages)
    requires (l.s1, l.lo) == LowerExpr(lo, s) && (l.s2, l.hi) == LowerExpr(hi, l.s1)
    requires LowerStmt(body, l.s3) == Some(l.s4) && LowerFor(x, lo, hi, body, s) == Some(l.s5)
    requires l.s3 == OpenLoop(x, l.lo, l.hi, body, l.s2).0
    ensures l.s5 == CloseLoop(|l.s2.g|, l.s3.ctrl + 1, OpenLoop(x, l.lo, l.hi, body, l.s2).1, l.s4, l.s2)
  {
    hide LowerExpr, OpenLoop, CloseLoop, LowerStmt;
  }

  lemma LoopDraws(l: LoopStages)
    requires LoopGraph(l) && QuietlyGrown(l.s4, l.s5) && Draws(l.s3, l.s4) && l.s4.ctrl != INVALID
    requires Outside(l.s2.ctrl, |l.s2.g|) && |l.s5.g| <= INVALID
    ensures Draws(l.s2, l.s5)
  {
    var h, cmp := l.Header(), l.Test();
    LineFrame(l.s4.g, l.s5.g, |l.s3.g|, |l.s4.g|, l.s3.ctrl, l.s4.ctrl);
    QuietRange(l.s4, l.s5);
    HeaderQuiet(l);
    hide Line, QuietlyGrown, Quiet;
    assert Looped(l.s5.g, h, cmp, |l.s4.g|, |l.s5.g|, l.s2.ctrl, l.s4.ctrl);
    LoopLine(l.s5.g, h, cmp, |l.s4.g|, |l.s5.g|, l.s2.ctrl, l.s4.ctrl);
  }

  lemma HeaderQuiet(l: LoopStages)
    requires LoopGraph(l)
    ensures Quiet(l.s5.g, l.Header() + 1, l.Test() + 1)
  {
    var g, h := l.s5.g, l.Header();
    forall u: NodeId | h + 1 <= u < l.Test() + 1 ensures u < |g| && !Steers(g[u].kind) {
      if h + 2 <= u < l.Test() { assert g[u].inputs[1] == EntryNodes(l.acc, l.s2.names)[u - h - 2]; }
    }
  }

  // ---- Whole functions ----

  /** Control leaves every node by one way only. */
  ghost predicate OneWay(g: seq<Node>) {
    && |g| <= INVALID && Once(g, 0, |g|)
    && forall u: NodeId, v: NodeId :: u < |g| && v < |g| && SameProj(g[u], g[v]) ==> u == v
  }

  /** What a function starts with takes no control. */
  lemma {:induction false} ParamsTakeNone(params: seq<Param>)
    ensures var g := LowerParams(params, Fresh()).g;
      && |g| == FIRST_PARAM + |params| && g[..FIRST_PARAM] == Fresh().g
      && forall u: nat :: FIRST_PARAM <= u < |g| ==> g[u] == Bare(Parameter, [], 0)
  {
    hide Put;
    if params != [] { ParamsTakeNone(params[..|params| - 1]); }
  }

  lemma {:induction false} ParamsReady(params: seq<Param>)
    ensures var s := LowerParams(params, Fresh()); Inv(s) && PhisOrdered(s.g) && s.ctrl == 1
  {
    if params != [] {
      var n := |params| - 1;
      ParamsReady(params[..n]);
      var s1 := LowerParams(params[..n], Fresh());
      LeafKeeps(s1, Parameter, 0);
      Bind(Make(s1, Parameter, [], 0), params[n].name, |s1.g|);
    }
  }

  lemma WholeLine(g: seq<Node>, lo: nat, to: NodeId)
    requires FIRST_PARAM <= lo <= |g| <= INVALID && Line(g, lo, |g|, 1, to)
    requires g[..FIRST_PARAM] == Fresh().g && forall u: nat :: FIRST_PARAM <= u < lo ==> g[u] == Bare(Parameter, [], 0)
    ensures OneWay(g)
  {
    assert g[0] == g[..FIRST_PARAM][0] && g[1] == g[..FIRST_PARAM][1] && g[2] == g[..FIRST_PARAM][2];
    forall u: NodeId, k: nat, c: NodeId | u < lo ensures !Takes(g, u, k, c) {
    }
    hide Takes;
  }

  lemma FunctionOneWay(fn: Fn, s: Lower)
    requires LowerFn(fn) == Some(s) && |s.g| <= INVALID
    ensures OneWay(s.g)
  {
    hide Inv, PhisOrdered, Line, LowerAll, LowerParams, OneWay;
    var s0 := LowerParams(fn.params, Fresh());
    var s1 := LowerAll(fn.stmts, s0).value;
    ParamsTakeNone(fn.params);
    ParamsReady(fn.params);
    AllKeeps(fn.stmts, s0);
    Grows(s0, s1);
    FinishedGraph(fn, s0, s1, s);
    AllDraw(fn.stmts, s0);
    assert Outside(s0.ctrl, |s0.g|);
    FinishDraws(s0, s1, s);
    assert s.g[..FIRST_PARAM] == s0.g[..FIRST_PARAM];
    hide Draws;
    assert Line(s.g, |s0.g|, |s.g|, 1, s.ctrl) by { LineDrawn(s0, s); }
    WholeLine(s.g, |s0.g|, s.ctrl);
  }

  lemma LineDrawn(a: Lower, b: Lower)
    requires Draws(a, b)
    ensures Line(b.g, |a.g|, |b.g|, a.ctrl, b.ctrl)
  {
  }

  /** A body that falls off its end is finished by a return of zero. */
  lemma FinishedGraph(fn: Fn, s0: Lower, s1: Lower, s: Lower)
    requires s0 == LowerParams(fn.params, Fresh()) && LowerAll(fn.stmts, s0) == Some(s1) && LowerFn(fn) == Some(s)
    ensures s == s1 || (s.ctrl == INVALID
      && s.g == s1.g + [Bare(Constant, [], 0), Bare(Return, [s1.ctrl, s1.eff, |s1.g|], 0)])
  {
    hide LowerAll, LowerParams;
  }

  lemma FinishDraws(s0: Lower, s1: Lower, s: Lower)
    requires Draws(s0, s1) && Outside(s0.ctrl, |s0.g|) && |s.g| <= INVALID
    requires s == s1 || (s.ctrl == INVALID
      && s.g == s1.g + [Bare(Constant, [], 0), Bare(Return, [s1.ctrl, s1.eff, |s1.g|], 0)])
    requires |s0.g| <= |s1.g| && forall n: nat :: n < |s0.g| ==> s1.g[n] == s0.g[n]
    ensures Draws(s0, s) && |s0.g| <= |s.g| && forall n: nat :: n < |s0.g| ==> s.g[n] == s0.g[n]
  {
    if s != s1 {
      var m := Make(s1, Constant, [], 0);
      QuietMake(s1, Constant, [], 0);
      QuietDraws(s1, m);
      hide QuietlyGrown, Draws;
      DrawsOn(s0, s1, m);
      ReturnEnds(s0, m, s, |s1.g|);
    }
  }

  // ---- One walk, one value ----

  lemma SameTaker(g: seq<Node>, u: NodeId, k: nat, v: NodeId, l: nat, c: NodeId)
    requires OneWay(g) && Takes(g, u, k, c) && Takes(g, v, l, c) && c != INVALID
    ensures u == v && k == l
  {
  }

  /** The place in which a step takes control. */
  lemma StepTakes(g: seq<Node>, args: seq<Word>, p: Point, u: NodeId, q: Point) returns (k: nat)
    requires Passes(g, args, p, u, q)
    ensures Takes(g, u, k, p.ctrl) && q.ctrl < |g| && !g[u].kind.Return?
    ensures g[u].kind.If? ==> q.phis == p.phis
    ensures !g[u].kind.If? ==> k < 2 && q == Point(u, Enter(g, args, p.phis, u, k))
  {
    hide Value, Enter;
    if g[u].kind.If? {
      k := 0;
    } else {
      k :| k < 2 && k < |g[u].inputs| && g[u].inputs[k] == p.ctrl && q.phis == Enter(g, args, p.phis, u, k);
    }
  }

  lemma OneStepOn(g: seq<Node>, args: seq<Word>, p: Point, q: Point, r: Point)
    requires OneWay(g) && Step(g, args, p, q) && Step(g, args, p, r) && p.ctrl != INVALID
    ensures q == r && q.ctrl != INVALID
  {
    hide Value, Enter, Once, Takes;
    var u: NodeId :| Passes(g, args, p, u, q);
    var v: NodeId :| Passes(g, args, p, v, r);
    var k := StepTakes(g, args, p, u, q);
    var l := StepTakes(g, args, p, v, r);
    SameTaker(g, u, k, v, l, p.ctrl);
    if g[u].kind.If? { assert SameProj(g[q.ctrl], g[r.ctrl]); }
  }

  lemma NoStepAtReturn(g: seq<Node>, args: seq<Word>, p: Point, u: NodeId, value: Word, q: Point)
    requires OneWay(g) && ReturnsAt(g, args, p, u, value) && p.ctrl != INVALID
    ensures !Step(g, args, p, q)
  {
    hide Value, Enter, Once, OneWay;
    if Step(g, args, p, q) {
      hide Passes;
      var v: NodeId :| Passes(g, args, p, v, q);
      var k := StepTakes(g, args, p, v, q);
      assert Takes(g, u, 0, p.ctrl);
      SameTaker(g, u, 0, v, k, p.ctrl);
    }
  }

  /** Two walks to a return from one point are the same walk. */
  lemma {:induction false} OneEnd(g: seq<Node>, args: seq<Word>, p: Point, q: Point, n: nat, u: NodeId, a: Word,
                                  r: Point, m: nat, v: NodeId, b: Word)
    requires OneWay(g) && p.ctrl != INVALID
    requires Walk(g, args, p, q, n) && ReturnsAt(g, args, q, u, a)
    requires Walk(g, args, p, r, m) && ReturnsAt(g, args, r, v, b)
    ensures a == b
    decreases n
  {
    hide Value, Step, OneWay;
    if n == 0 && m == 0 {
      assert Takes(g, u, 0, p.ctrl) && Takes(g, v, 0, p.ctrl);
      SameTaker(g, u, 0, v, 0, p.ctrl);
    } else if n == 0 {
      var x: Point :| Step(g, args, p, x) && Walk(g, args, x, r, m - 1);
      NoStepAtReturn(g, args, p, u, a, x);
    } else if m == 0 {
      var x: Point :| Step(g, args, p, x) && Walk(g, args, x, q, n - 1);
      NoStepAtReturn(g, args, p, v, b, x);
    } else {
      var x: Point :| Step(g, args, p, x) && Walk(g, args, x, q, n - 1);
      var y: Point :| Step(g, args, p, y) && Walk(g, args, y, r, m - 1);
      OneStepOn(g, args, p, x, y);
      OneEnd(g, args, x, q, n - 1, u, a, r, m - 1, v, b);
    }
  }

  /** From one entry a lowered function returns at most one value. */
  lemma ReturnsOne(fn: Fn, s: Lower, args: seq<Word>, a: Word, b: Word)
    requires LowerFn(fn) == Some(s) && |s.g| <= INVALID
    requires Returns(s.g, args, Entry(), a) && Returns(s.g, args, Entry(), b)
    ensures a == b
  {
    FunctionOneWay(fn, s);
    hide LowerFn, OneWay, ReturnsAt, Walk;
    var q: Point, u: NodeId :| Reaches(s.g, args, Entry(), q) && ReturnsAt(s.g, args, q, u, a);
    var r: Point, v: NodeId :| Reaches(s.g, args, Entry(), r) && ReturnsAt(s.g, args, r, v, b);
    var n: nat :| Walk(s.g, args, Entry(), q, n);
    var m: nat :| Walk(s.g, args, Entry(), r, m);
    OneEnd(s.g, args, Entry(), q, n, u, a, r, m, v, b);
  }

  /** Lowering preserves meaning: where the interpreter gives a value, the lowered graph returns that value and
      nothing else. */
  lemma FunctionMeansExactly(fn: Fn, args: seq<Word>, s: Lower, value: Word)
    requires Accepts(fn) && FunctionSeen(fn) && PlainNestedAll(fn.stmts) && |fn.params| <= |args|
    requires LowerFn(fn) == Some(s) && |s.g| < INVALID && Call(fn, args) == Some(value)
    ensures forall w: Word :: Returns(s.g, args, Entry(), w) <==> w == value
  {
    hide Accepts, FunctionSeen, PlainNestedAll, LowerFn, Call, Returns;
    FunctionMeans(fn, args, s, value);
    forall w: Word | Returns(s.g, args, Entry(), w) ensures w == value {
      ReturnsOne(fn, s, args, w, value);
    }
  }
}
