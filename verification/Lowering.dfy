/** From statements to the sea-of-nodes graph: what the lowerer builds, statement by statement. */
module Lowering {
  import opened Wrappers
  import opened Words
  import opened IR
  import opened Ast

  /** The lowerer's fields. `table` is the hash-consing table; distinct input lists are taken to hash apart. */
  datatype Lower = Lower(g: seq<Node>, table: map<(NodeKind, seq<NodeId>), NodeId>, ctrl: NodeId, eff: NodeId,
                         names: Assoc<NodeId>)

  const NO_TYPE: nat := 0

  function Bare(kind: NodeKind, inputs: seq<NodeId>, payload: Word): Node {
    Node(kind, inputs, NO_TYPE, payload, false, true)
  }

  /** The operator table of binary expressions. */
  function NodeKindOf(op: BinaryToken): BinOp {
    match op
    case Plus => Add case Minus => Sub case Star => Mul case Slash => Div case Percent => Mod
    case Amp => And case Pipe => Or case Caret => Xor case ShlToken => Shl case ShrToken => Shr
    case EqEq => CmpEq case BangEq => CmpNe case Lt => CmpLt case LtEq => CmpLe case Gt => CmpGt case GtEq => CmpGe
    case AndAnd => And case OrOr => Or
  }

  function UnaryKindOf(op: UnaryToken): UnOp {
    match op case MinusSign => Neg case Tilde => BitNot case Bang => Not
  }

  /** The operator of a compound assignment that is a statement. */
  function CompoundKindOf(how: AssignToken): Option<BinOp> {
    match how
    case Eq => None case PlusEq => Some(Add) case MinusEq => Some(Sub)
    case StarEq => Some(Mul) case SlashEq => Some(Div)
  }

  /** The operator of one inside an expression: looked up in the table of binary expressions, which has no entry
      for compound tokens and falls back to addition. */
  function NestedKindOf(how: AssignToken): Option<BinOp> {
    if how.Eq? then None else Some(Add)
  }

  // ---- Building nodes ----

  /** A new node; its id is the old size of the graph. */
  function Make(s: Lower, kind: NodeKind, inputs: seq<NodeId>, payload: Word): (r: Lower)
    ensures |r.g| == |s.g| + 1
  {
    s.(g := s.g + [Bare(kind, inputs, payload)])
  }

  /** The node of this shape, made if it is not there yet. */
  function Intern(s: Lower, kind: NodeKind, inputs: seq<NodeId>): (r: (Lower, NodeId))
    ensures (kind, inputs) in r.0.table && r.0.table[(kind, inputs)] == r.1
  {
    if (kind, inputs) in s.table then (s, s.table[(kind, inputs)])
    else (Make(s, kind, inputs, 0).(table := s.table[(kind, inputs) := |s.g|]), |s.g|)
  }

  function SetInput(g: seq<Node>, n: NodeId, i: nat, v: NodeId): (r: seq<Node>)
    ensures |r| == |g|
  {
    if n < |g| && i < |g[n].inputs| then g[n := g[n].(inputs := g[n].inputs[i := v])] else g
  }

  // ---- Accumulators of a loop ----

  datatype Tree = TreeOfExpr(e: Expr) | TreeOfStmt(s: Stmt)

  function SizeE(e: Expr): nat {
    match e
    case Binary(_, l, r) => 1 + SizeE(l) + SizeE(r)
    case Unary(_, x) => 1 + SizeE(x)
    case Assign(_, _, r) => 1 + SizeE(r)
    case _ => 1
  }

  function SizeS(s: Stmt): nat
    decreases s
  {
    match s
    case Let(_, _, init) => if init.Some? then 1 + SizeE(init.value) else 1
    case Do(e) => 1 + SizeE(e)
    case AssignStmt(_, _, r) => 1 + SizeE(r)
    case ReturnStmt(r) => if r.Some? then 1 + SizeE(r.value) else 1
    case IfStmt(c, y, n) => 1 + SizeE(c) + SizeS(y) + if n.Some? then SizeS(n.value) else 0
    case BlockStmt(stmts) => 1 + SizeAll(stmts)
    case ForStmt(_, _, _, body) => 1 + SizeS(body)
    case MatchStmt => 1
  }

  function SizeAll(stmts: seq<Stmt>): nat
    decreases stmts
  {
    if stmts == [] then 0 else SizeS(stmts[0]) + SizeAll(stmts[1..])
  }

  function SizeT(t: Tree): nat {
    match t case TreeOfExpr(e) => SizeE(e) case TreeOfStmt(s) => SizeS(s)
  }

  function SizeTrees(ts: seq<Tree>): nat {
    if ts == [] then 0 else SizeTrees(ts[..|ts| - 1]) + SizeT(ts[|ts| - 1])
  }

  function TreesOf(stmts: seq<Stmt>): (r: seq<Tree>)
    ensures |r| == |stmts| && forall i :: 0 <= i < |r| ==> r[i] == TreeOfStmt(stmts[i])
  {
    seq(|stmts|, i requires 0 <= i < |stmts| => TreeOfStmt(stmts[i]))
  }

  /** What the walk pushes for a node; the ranges of inner loops are not among it. */
  function Pushed(t: Tree): seq<Tree> {
    match t
    case TreeOfExpr(Binary(_, l, r)) => [TreeOfExpr(l), TreeOfExpr(r)]
    case TreeOfExpr(Unary(_, x)) => [TreeOfExpr(x)]
    case TreeOfExpr(Assign(_, _, r)) => [TreeOfExpr(r)]
    case TreeOfExpr(_) => []
    case TreeOfStmt(Let(_, _, init)) => if init.Some? then [TreeOfExpr(init.value)] else []
    case TreeOfStmt(Do(e)) => [TreeOfExpr(e)]
    case TreeOfStmt(AssignStmt(_, _, r)) => [TreeOfExpr(r)]
    case TreeOfStmt(ReturnStmt(r)) => if r.Some? then [TreeOfExpr(r.value)] else []
    case TreeOfStmt(IfStmt(c, y, n)) =>
      [TreeOfExpr(c), TreeOfStmt(y)] + if n.Some? then [TreeOfStmt(n.value)] else []
    case TreeOfStmt(BlockStmt(stmts)) => TreesOf(stmts)
    case TreeOfStmt(ForStmt(_, _, _, body)) => [TreeOfStmt(body)]
    case TreeOfStmt(MatchStmt) => []
  }

  lemma {:induction false} SizeTreesAppend(a: seq<Tree>, b: seq<Tree>)
    ensures SizeTrees(a + b) == SizeTrees(a) + SizeTrees(b)
  {
    if b == [] {
      assert a + b == a;
    } else {
      assert (a + b)[..|a + b| - 1] == a + b[..|b| - 1];
      SizeTreesAppend(a, b[..|b| - 1]);
    }
  }

  lemma {:induction false} SizeOfTrees(stmts: seq<Stmt>)
    ensures SizeTrees(TreesOf(stmts)) == SizeAll(stmts)
  {
    if stmts != [] {
      var first := [TreeOfStmt(stmts[0])];
      assert TreesOf(stmts) == first + TreesOf(stmts[1..]);
      SizeTreesAppend(first, TreesOf(stmts[1..]));
      SizeOfTrees(stmts[1..]);
      assert SizeTrees(first[..0]) == 0;
    }
  }

  lemma SizeOfOne(t: Tree)
    ensures SizeTrees([t]) == SizeT(t)
  {
    hide SizeT;
    assert [t][..0] == [];
  }

  lemma SizeOfTwo(t: Tree, u: Tree)
    ensures SizeTrees([t, u]) == SizeT(t) + SizeT(u)
  {
    hide SizeT, SizeTrees;
    SizeOfOne(t);
    SizeOfOne(u);
    SizeTreesAppend([t], [u]);
    assert [t] + [u] == [t, u];
  }

  lemma SizeOfNone()
    ensures SizeTrees([]) == 0
  {
  }

  lemma PushedSmaller(t: Tree)
    ensures SizeTrees(Pushed(t)) < SizeT(t)
  {
    hide SizeTrees, SizeAll;
    SizeOfNone();
    match t
    case TreeOfStmt(BlockStmt(stmts)) => SizeOfTrees(stmts);
    case TreeOfStmt(IfStmt(c, y, n)) =>
      SizeOfTwo(TreeOfExpr(c), TreeOfStmt(y));
      var last := if n.Some? then [TreeOfStmt(n.value)] else [];
      if n.Some? { SizeOfOne(TreeOfStmt(n.value)); }
      SizeTreesAppend([TreeOfExpr(c), TreeOfStmt(y)], last);
    case TreeOfStmt(Let(_, _, init)) =>
      if init.Some? { SizeOfOne(TreeOfExpr(init.value)); }
    case TreeOfStmt(Do(e)) => SizeOfOne(TreeOfExpr(e));
    case TreeOfStmt(AssignStmt(_, _, r)) => SizeOfOne(TreeOfExpr(r));
    case TreeOfStmt(ReturnStmt(r)) =>
      if r.Some? { SizeOfOne(TreeOfExpr(r.value)); }
    case TreeOfStmt(ForStmt(_, _, _, body)) => SizeOfOne(TreeOfStmt(body));
    case TreeOfExpr(Binary(_, l, r)) => SizeOfTwo(TreeOfExpr(l), TreeOfExpr(r));
    case TreeOfExpr(Unary(_, x)) => SizeOfOne(TreeOfExpr(x));
    case TreeOfExpr(Assign(_, _, r)) => SizeOfOne(TreeOfExpr(r));
    case _ =>
  }

  /** The name a node assigns, if it is an assignment. */
  function Assigns(t: Tree): Option<Name> {
    match t
    case TreeOfExpr(Assign(x, _, _)) => Some(x)
    case TreeOfStmt(AssignStmt(x, _, _)) => Some(x)
    case _ => None
  }

  /** The walk over a loop body that collects the outer names it assigns, each once. */
  function Collect(stack: seq<Tree>, outer: Assoc<NodeId>, found: seq<Name>): seq<Name>
    decreases SizeTrees(stack)
  {
    if stack == [] then found
    else
      var rest, t := stack[..|stack| - 1], stack[|stack| - 1];
      PushedSmaller(t);
      SizeTreesAppend(rest, Pushed(t));
      var x := Assigns(t);
      Collect(rest + Pushed(t), outer,
        if x.Some? && Get<NodeId>(outer, x.value).Some? && x.value !in found then found + [x.value] else found)
  }

  function Accumulators(body: Stmt, outer: Assoc<NodeId>): seq<Name> {
    Collect([TreeOfStmt(body)], outer, [])
  }

  // ---- Assignments ----

  /** Binds a name to the node `b`, or to what the operator makes of its old node and `b`. */
  function LowerAssign(x: Name, op: Option<BinOp>, s: Lower, b: NodeId): (Lower, NodeId) {
    match op
    case None => (s.(names := Put<NodeId>(s.names, x, b)), b)
    case Some(k) =>
      var (s1, cur) := Current(s, x);
      var (s2, n) := Intern(s1, Bin(k), [cur, b]);
      (s2.(names := Put<NodeId>(s2.names, x, n)), n)
  }

  // ---- Expressions ----

  function LowerExpr(e: Expr, s: Lower): (Lower, NodeId)
    decreases e
  {
    match e
    case IntLit(w) => (Make(s, Constant, [], w), |s.g|)
    case BoolLit(b) => (Make(s, Constant, [], Truth(b)), |s.g|)
    case Ident(x) =>
      (match Get<NodeId>(s.names, x)
       case Some(n) => (s, n)
       case None => (Make(s, Parameter, [], 0), |s.g|))
    case Binary(op, l, r) =>
      var (s1, a) := LowerExpr(l, s);
      var (s2, b) := LowerExpr(r, s1);
      Intern(s2, Bin(NodeKindOf(op)), [a, b])
    case Unary(op, x) =>
      var (s1, a) := LowerExpr(x, s);
      Intern(s1, Un(UnaryKindOf(op)), [a])
    case Assign(x, how, r) =>
      var (s1, b) := LowerExpr(r, s);
      LowerAssign(x, NestedKindOf(how), s1, b)
    case NotLowered => (Make(s, Constant, [], 0), |s.g|)
  }

  /** The node a name is bound to; an unbound name reads as zero. */
  function Current(s: Lower, x: Name): (Lower, NodeId) {
    match Get<NodeId>(s.names, x)
    case Some(n) => (s, n)
    case None => (Make(s, Constant, [], 0), |s.g|)
  }

  // ---- Statements ----

  /** Merges the bindings of two arms: a phi for every name that both bind to different nodes. */
  function MergeNames(yes: Assoc<NodeId>, no: Assoc<NodeId>, merge: NodeId, s: Lower): Lower
    decreases |yes|
  {
    if yes == [] then s
    else
      var (x, t) := yes[0];
      var e := Get<NodeId>(no, x);
      if e.Some? && e.value != t then
        MergeNames(yes[1..], no, merge, Make(s, Phi, [merge, t, e.value], 0).(names := Put<NodeId>(s.names, x, |s.g|)))
      else
        MergeNames(yes[1..], no, merge, s.(names := Put<NodeId>(s.names, x, t)))
  }

  /** A phi for every accumulator, its back edge still open; the body reads the phis. */
  function OpenPhis(acc: seq<Name>, loop: NodeId, s: Lower): (Lower, seq<(Name, NodeId)>)
    decreases |acc|
  {
    if acc == [] then (s, [])
    else
      var (s1, entry) := Current(s, acc[0]);
      var s2 := Make(s1, Phi, [loop, entry, INVALID], 0).(names := Put<NodeId>(s1.names, acc[0], |s1.g|));
      var (s3, rest) := OpenPhis(acc[1..], loop, s2);
      (s3, [(acc[0], |s1.g|)] + rest)
  }

  function ClosePhis(phis: seq<(Name, NodeId)>, s: Lower): Lower
    decreases |phis|
  {
    if phis == [] then s
    else
      var (s1, back) := Current(s, phis[0].0);
      ClosePhis(phis[1..], s1.(g := SetInput(s1.g, phis[0].1, 2, back)))
  }

  function PutAll(names: Assoc<NodeId>, phis: seq<(Name, NodeId)>): Assoc<NodeId>
    decreases |phis|
  {
    if phis == [] then names else PutAll(Put<NodeId>(names, phis[0].0, phis[0].1), phis[1..])
  }

  /** A branch and its two projections. */
  function BranchOpen(s: Lower, c: NodeId): Lower {
    Make(Make(Make(s, If, [s.ctrl, c], 0), Proj, [|s.g|], 0), Proj, [|s.g|], 1)
  }

  /** The second arm starts from the first one's graph, with the bindings and the effect from before it. */
  function AtElse(s2: Lower, t: Lower, ifNode: NodeId): Lower {
    t.(ctrl := ifNode + 2, eff := s2.eff, names := s2.names)
  }

  /** The region where the arms meet; an arm that returned passes on no effect. */
  function AtMerge(t: Lower, e: Lower): Lower {
    Make(e, Region, [t.ctrl, e.ctrl], 0).(ctrl := |e.g|, eff := if t.eff != INVALID then t.eff else e.eff)
  }

  function LowerStmt(st: Stmt, s: Lower): Option<Lower>
    decreases st, 0
  {
    match st
    case Let(x, _, init) =>
      if init.Some? then
        var (s1, n) := LowerExpr(init.value, s);
        Some(s1.(names := Put<NodeId>(s1.names, x, n)))
      else
        Some(Make(s, Constant, [], 0).(names := Put<NodeId>(s.names, x, |s.g|)))
    case Do(e) => Some(LowerExpr(e, s).0)
    case AssignStmt(x, how, r) =>
      var (s1, b) := LowerExpr(r, s);
      Some(LowerAssign(x, CompoundKindOf(how), s1, b).0)
    case ReturnStmt(result) =>
      var (s1, n) := if result.Some? then LowerExpr(result.value, s) else (Make(s, Constant, [], 0), |s.g|);
      Some(Make(s1, Return, [s1.ctrl, s1.eff, n], 0).(ctrl := INVALID, eff := INVALID))
    case IfStmt(cond, yes, no) =>
      var (s1, c) := LowerExpr(cond, s);
      var s2 := BranchOpen(s1, c);
      (match LowerStmt(yes, s2.(ctrl := |s1.g| + 1))
       case None => None
       case Some(t) =>
         var turn := AtElse(s2, t, |s1.g|);
         match if no.Some? then LowerStmt(no.value, turn) else Some(turn)
         case None => None
         case Some(e) => Some(MergeNames(t.names, e.names, |e.g|, AtMerge(t, e))))
    case BlockStmt(stmts) => LowerAll(stmts, s)
    case ForStmt(x, lo, hi, body) => LowerFor(x, lo, hi, body, s)
    case MatchStmt => Some(Make(s, Constant, [], 0))
  }

  function LowerAll(stmts: seq<Stmt>, s: Lower): Option<Lower>
    decreases stmts, 0
  {
    if stmts == [] then Some(s)
    else match LowerStmt(stmts[0], s)
      case None => None
      case Some(s1) => LowerAll(stmts[1..], s1)
  }

  /** Everything a loop builds before its body. */
  function OpenLoop(x: Name, lo: NodeId, hi: NodeId, body: Stmt, s: Lower): (Lower, seq<(Name, NodeId)>) {
    var loop := |s.g|;
    var s1 := Make(Make(s, Loop, [s.ctrl, s.ctrl], 0), Phi, [loop, lo, INVALID], 0);
    var (s2, phis) := OpenPhis(Accumulators(body, s.names), loop, s1);
    var cmp := |s2.g|;
    var s3 := Make(s2, Bin(CmpLt), [loop + 1, hi], 0);
    var s4 := Make(Make(Make(s3, If, [loop, cmp], 0), Proj, [cmp + 1], 0), Proj, [cmp + 1], 1);
    (s4.(names := Put<NodeId>(s4.names, x, loop + 1), ctrl := cmp + 2), phis)
  }

  /** Back edges, the effect phi of the exit, and the bindings after the loop. */
  function CloseLoop(loop: NodeId, exit: NodeId, phis: seq<(Name, NodeId)>, s: Lower, before: Lower): Lower {
    var one := |s.g|;
    var (s1, next) := Intern(Make(s, Constant, [], 1), Bin(Add), [loop + 1, one]);
    var s2 := ClosePhis(phis, s1.(g := SetInput(s1.g, loop + 1, 2, next)));
    var s3 := s2.(g := SetInput(s2.g, loop, 0, s.ctrl));
    Make(s3, Phi, [exit, before.eff, s.eff], 0)
    .(eff := |s3.g|, ctrl := exit, names := PutAll(before.names, phis))
  }

  function LowerFor(x: Name, lo: Expr, hi: Expr, body: Stmt, s: Lower): Option<Lower>
    decreases body, 1
  {
    var (s1, a) := LowerExpr(lo, s);
    var (s2, b) := LowerExpr(hi, s1);
    var (s3, phis) := OpenLoop(x, a, b, body, s2);
    match LowerStmt(body, s3)
    case None => None
    case Some(s4) =>
      if s4.ctrl == INVALID then None
      else Some(CloseLoop(|s2.g|, s3.ctrl + 1, phis, s4, s2))
  }

  // ---- Functions ----

  const START: Node := Node(Start, [], NO_TYPE, 0, false, true)

  function LowerParams(params: seq<Param>, s: Lower): Lower {
    if params == [] then s
    else
      var n := |params| - 1;
      var s1 := LowerParams(params[..n], s);
      Make(s1, Parameter, [], 0).(names := Put<NodeId>(s1.names, params[n].name, |s1.g|))
  }

  function Fresh(): Lower {
    Lower([START, Bare(Proj, [0], 0), Bare(Proj, [0], 1)], map[], 1, 2, [])
  }

  function LowerFn(f: Fn): Option<Lower> {
    match LowerAll(f.stmts, LowerParams(f.params, Fresh()))
    case None => None
    case Some(s) =>
      if s.ctrl == INVALID || s.eff == INVALID then Some(s)
      else Some(Make(Make(s, Constant, [], 0), Return, [s.ctrl, s.eff, |s.g|], 0).(ctrl := INVALID, eff := INVALID))
  }
}
