/** Lowering preserves meaning: the graph built for a function computes what the interpreter computes, for
    nested branches, loops that turn any number of times, and returns inside branches. */
module LoweringMeaning {
  import opened Wrappers
  import opened Words
  import opened Finite
  import opened IR
  import opened Ast
  import opened Interpreter
  import opened TypeChecker
  import opened Lowering
  import opened LoweringShape
  import opened SeaSemantics

  // ---- A graph in which a stretch of lowering is finished ----

  ghost predicate TableOk(g: seq<Node>, table: map<(NodeKind, seq<NodeId>), NodeId>) {
    forall key :: key in table ==>
      && table[key] < |g| && g[table[key]].kind == key.0 && g[table[key]].inputs == key.1
      && (key.0.Bin? || key.0.Un?) && forall i :: 0 <= i < |key.1| ==> key.1[i] < table[key]
  }

  /** `g` holds what lowering added between `s` and `s'`. */
  ghost predicate Hosts(g: seq<Node>, s: Lower, s': Lower) {
    && |s.g| <= |s'.g| <= |g| && PhisOrdered(g) && TableOk(g, s'.table)
    && forall n: nat :: |s.g| <= n < |s'.g| ==> g[n] == s'.g[n]
  }

  /** `later` has the nodes and the table entries of `earlier`. */
  ghost predicate Contains(earlier: Lower, later: Lower) {
    && |earlier.g| <= |later.g| && (forall i: nat :: i < |earlier.g| ==> later.g[i] == earlier.g[i])
    && (forall key :: key in earlier.table ==> key in later.table && later.table[key] == earlier.table[key])
  }

  lemma ContinuesContains(a: Lower, b: Lower)
    requires Continues(a, b)
    ensures Contains(a, b)
  {
  }

  lemma ContainsOn(a: Lower, b: Lower, c: Lower)
    requires Contains(a, b) && Contains(b, c)
    ensures Contains(a, c)
  {
  }

  lemma HostsCut(g: seq<Node>, s: Lower, m: Lower, s': Lower)
    requires Hosts(g, s, s') && Contains(s, m) && Contains(m, s')
    ensures Hosts(g, s, m) && Hosts(g, m, s')
  {
  }

  lemma HostsParts(g: seq<Node>, s: Lower, m: Lower, s': Lower)
    requires Hosts(g, s, s') && Continues(s, m) && Continues(m, s')
    ensures Hosts(g, s, m) && Hosts(g, m, s')
  {
  }

  /** Every visible name has its value, at a node below `k`. */
  ghost predicate Related(g: seq<Node>, args: seq<Word>, phis: Phis, names: Assoc<NodeId>, f: Frame, env: Env, k: nat) {
    forall x: Name :: Get<bool>(f, x).Some? ==>
      && x in env && Get<NodeId>(names, x).Some? && Get<NodeId>(names, x).value < k
      && Value(g, args, phis, Get<NodeId>(names, x).value) == Some(env[x])
  }

  lemma RelatedPut(g: seq<Node>, args: seq<Word>, phis: Phis, names: Assoc<NodeId>, f: Frame, env: Env, k: nat,
                   x: Name, n: NodeId, w: Word, f': Frame)
    requires Related(g, args, phis, names, f, env, k) && n < k && Value(g, args, phis, n) == Some(w)
    requires forall y: Name :: Get<bool>(f', y).Some? ==> y == x || Get<bool>(f, y).Some?
    ensures Related(g, args, phis, Put<NodeId>(names, x, n), f', env[x := w], k)
  {
    hide Value;
  }

  lemma RelatedWiden(g: seq<Node>, args: seq<Word>, phis: Phis, names: Assoc<NodeId>, f: Frame, env: Env, k: nat,
        k': nat)
    requires Related(g, args, phis, names, f, env, k) && k <= k'
    ensures Related(g, args, phis, names, f, env, k')
  {
    hide Value;
  }

  // ---- Expressions ----

  lemma ConstantMeans(g: seq<Node>, args: seq<Word>, phis: Phis, s: Lower, w: Word)
    requires Hosts(g, s, Make(s, Constant, [], w))
    ensures Value(g, args, phis, |s.g|) == Some(w)
  {
    assert g[|s.g|] == Make(s, Constant, [], w).g[|s.g|];
  }

  lemma BinMeans(g: seq<Node>, args: seq<Word>, phis: Phis, s: Lower, op: BinOp, a: NodeId, b: NodeId, x: Word, y: Word)
    requires Value(g, args, phis, a) == Some(x) && Value(g, args, phis, b) == Some(y)
    requires TableOk(g, Intern(s, Bin(op), [a, b]).0.table)
    ensures Value(g, args, phis, Intern(s, Bin(op), [a, b]).1) == EvalBin(op, x, y)
  {
    hide EvalBin, EvalUn;
    var (s', n) := Intern(s, Bin(op), [a, b]);
    assert g[n].inputs == [a, b] && [a, b][0] < n && [a, b][1] < n;
  }

  lemma UnMeans(g: seq<Node>, args: seq<Word>, phis: Phis, s: Lower, op: UnOp, a: NodeId, x: Word)
    requires Value(g, args, phis, a) == Some(x) && TableOk(g, Intern(s, Un(op), [a]).0.table)
    ensures Value(g, args, phis, Intern(s, Un(op), [a]).1) == Some(EvalUn(op, x))
  {
    hide EvalBin, EvalUn;
    var (s', n) := Intern(s, Un(op), [a]);
    assert g[n].inputs == [a] && [a][0] < n;
  }

  lemma SameTables(op: BinaryToken, u: UnaryToken, how: AssignToken)
    ensures NodeKindOf(op) == Meaning(op) && UnaryKindOf(u) == UnaryMeaning(u)
    ensures CompoundKindOf(how) == CompoundMeaning(how)
    ensures NestedKindOf(how) == CompoundMeaning(how) <==> how.Eq? || how.PlusEq?
  {
  }

  /** No `-=`, `*=` or `/=` inside an expression. */
  predicate PlainNested(e: Expr) {
    match e
    case Binary(_, l, r) => PlainNested(l) && PlainNested(r)
    case Unary(_, x) => PlainNested(x)
    case Assign(_, how, r) => (how.Eq? || how.PlusEq?) && PlainNested(r)
    case _ => true
  }

  /** The node of an expression has the expression's value, and the bindings follow its assignments. */
  lemma {:induction false} ExprMeans(e: Expr, s: Lower, f: Frame, g: seq<Node>, args: seq<Word>, phis: Phis, env: Env)
    requires Inv(s) && PhisOrdered(s.g) && AcceptsExpr(e, f) && PlainNested(e) && Hosts(g, s, LowerExpr(e, s).0)
    requires Related(g, args, phis, s.names, f, env, |s.g|) && EvalExpr(e, env).Some?
    ensures var (s', n) := LowerExpr(e, s); var (w, env') := EvalExpr(e, env).value;
      && n < |s'.g| && Value(g, args, phis, n) == Some(w)
      && Related(g, args, phis, s'.names, f, env', |s'.g|)
    decreases e, 2
  {
    hide Inv, PhisOrdered, Continues, Intern, Hosts, Related, Value, EvalBin, EvalUn, NodeKindOf, Meaning,
         UnaryKindOf, UnaryMeaning, NestedKindOf, CompoundMeaning, Assigned, LowerAssign;
    ExprKeeps(e, s);
    match e
    case IntLit(w) =>
      ConstantMeans(g, args, phis, s, w);
      RelatedWiden(g, args, phis, s.names, f, env, |s.g|, |s.g| + 1);
    case BoolLit(b) =>
      ConstantMeans(g, args, phis, s, Truth(b));
      RelatedWiden(g, args, phis, s.names, f, env, |s.g|, |s.g| + 1);
    case Ident(x) => NameMeans(x, s, f, g, args, phis, env);
    case Binary(op, l, r) => BinaryMeans(op, l, r, s, f, g, args, phis, env);
    case Unary(op, x) =>
      var (s1, a) := LowerExpr(x, s);
      ExprKeeps(x, s);
      InternKeeps(s1, Un(UnaryKindOf(op)), [a]);
      var (s', n) := Intern(s1, Un(UnaryKindOf(op)), [a]);
      HostsParts(g, s, s1, s');
      ExprMeans(x, s, f, g, args, phis, env);
      var (v, env1) := EvalExpr(x, env).value;
      HostsTable(g, s, s');
      UnMeans(g, args, phis, s1, UnaryKindOf(op), a, v);
      SameTables(Plus, op, Eq);
      GraphGrows(s1, s');
      RelatedWiden(g, args, phis, s1.names, f, env1, |s1.g|, |s'.g|);
      InternNames(s1, Un(UnaryKindOf(op)), [a]);
    case Assign(x, how, r) =>
      var (s1, b) := LowerExpr(r, s);
      ExprKeeps(r, s);
      AssignParts(x, NestedKindOf(how), s, s1, b, g);
      ExprMeans(r, s, f, g, args, phis, env);
      var (w, env1) := EvalExpr(r, env).value;
      SameTables(Plus, Bang, how);
      AssignMeans(x, how, NestedKindOf(how), s1, b, f, g, args, phis, env1, w);
  }

  /** The graph of an assignment's value is part of the graph of the assignment. */
  lemma AssignParts(x: Name, op: Option<BinOp>, s: Lower, s1: Lower, b: NodeId, g: seq<Node>)
    requires Inv(s1) && PhisOrdered(s1.g) && b < |s1.g|
    requires Continues(s, s1) && Hosts(g, s, LowerAssign(x, op, s1, b).0)
    ensures Hosts(g, s, s1) && Hosts(g, s1, LowerAssign(x, op, s1, b).0)
  {
    hide *;
    ContinuesSelf(s1);
    AssignKeeps(x, op, s1, s1, b);
    HostsParts(g, s, s1, LowerAssign(x, op, s1, b).0);
  }

  lemma HostsTable(g: seq<Node>, s: Lower, s': Lower)
    requires Hosts(g, s, s')
    ensures TableOk(g, s'.table)
  {
  }

  lemma InternNames(s: Lower, kind: NodeKind, inputs: seq<NodeId>)
    ensures Intern(s, kind, inputs).0.names == s.names
  {
  }

  lemma NameMeans(x: Name, s: Lower, f: Frame, g: seq<Node>, args: seq<Word>, phis: Phis, env: Env)
    requires Get<bool>(f, x).Some? && Related(g, args, phis, s.names, f, env, |s.g|)
    ensures Get<NodeId>(s.names, x).Some? && Get<NodeId>(s.names, x).value < |s.g| && x in env
    ensures Value(g, args, phis, Get<NodeId>(s.names, x).value) == Some(env[x])
  {
    hide Value;
  }

  lemma BinaryMeans(op: BinaryToken, l: Expr, r: Expr, s: Lower, f: Frame, g: seq<Node>, args: seq<Word>, phis: Phis,
                    env: Env)
    requires var e := Binary(op, l, r);
      && Inv(s) && PhisOrdered(s.g) && AcceptsExpr(e, f) && PlainNested(e) && Hosts(g, s, LowerExpr(e, s).0)
      && Related(g, args, phis, s.names, f, env, |s.g|) && EvalExpr(e, env).Some?
    ensures var e := Binary(op, l, r);
      var (s', n) := LowerExpr(e, s); var (w, env') := EvalExpr(e, env).value;
      && Value(g, args, phis, n) == Some(w) && Related(g, args, phis, s'.names, f, env', |s'.g|)
    decreases Binary(op, l, r), 0
  {
    hide Inv, PhisOrdered, Continues, Intern, Hosts, Related, Value, EvalBin, NodeKindOf, Meaning;
    var (s1, a) := LowerExpr(l, s);
    ExprKeeps(l, s);
    var (s2, b) := LowerExpr(r, s1);
    ExprKeeps(r, s1);
    GraphGrows(s1, s2);
    var (s', n) := Intern(s2, Bin(NodeKindOf(op)), [a, b]);
    InternKeeps(s2, Bin(NodeKindOf(op)), [a, b]);
    ContinuesOn(s1, s2, s');
    HostsParts(g, s, s1, s');
    HostsParts(g, s1, s2, s');
    ExprMeans(l, s, f, g, args, phis, env);
    var (x, env1) := EvalExpr(l, env).value;
    ExprMeans(r, s1, f, g, args, phis, env1);
    var (y, env2) := EvalExpr(r, env1).value;
    HostsTable(g, s, s');
    BinMeans(g, args, phis, s2, NodeKindOf(op), a, b, x, y);
    SameTables(op, Bang, Eq);
    GraphGrows(s2, s');
    RelatedWiden(g, args, phis, s2.names, f, env2, |s2.g|, |s'.g|);
    InternNames(s2, Bin(NodeKindOf(op)), [a, b]);
  }

  /** An assignment lowered with the operator it means binds the name to a node with its value. */
  lemma AssignMeans(x: Name, how: AssignToken, op: Option<BinOp>, s: Lower, b: NodeId, f: Frame, g: seq<Node>,
                    args: seq<Word>, phis: Phis, env: Env, w: Word)
    requires op == CompoundMeaning(how) && Get<bool>(f, x).Some? && Inv(s) && PhisOrdered(s.g) && b < |s.g|
    requires Hosts(g, s, LowerAssign(x, op, s, b).0) && Related(g, args, phis, s.names, f, env, |s.g|)
    requires Value(g, args, phis, b) == Some(w) && Assigned(x, how, w, env).Some?
    ensures var (s', n) := LowerAssign(x, op, s, b); var (v, env') := Assigned(x, how, w, env).value;
      && Value(g, args, phis, n) == Some(v) && Related(g, args, phis, s'.names, f, env', |s'.g|)
  {
    hide Inv, PhisOrdered, Continues, Intern, Hosts, Related, Value, EvalBin, CompoundMeaning, Get, Put;
    match op
    case None => RelatedPut(g, args, phis, s.names, f, env, |s.g|, x, b, w, f);
    case Some(k) => CompoundMeans(x, k, s, b, f, g, args, phis, env, w);
  }

  lemma CompoundMeans(x: Name, op: BinOp, s1: Lower, b: NodeId, f: Frame, g: seq<Node>, args: seq<Word>, phis: Phis,
                      env: Env, w: Word)
    requires Get<bool>(f, x).Some? && Inv(s1) && PhisOrdered(s1.g) && b < |s1.g|
    requires Hosts(g, s1, LowerAssign(x, Some(op), s1, b).0) && Related(g, args, phis, s1.names, f, env, |s1.g|)
    requires Value(g, args, phis, b) == Some(w) && x in env && EvalBin(op, env[x], w).Some?
    ensures var (s', n) := LowerAssign(x, Some(op), s1, b); var v := EvalBin(op, env[x], w).value;
      && Value(g, args, phis, n) == Some(v) && Related(g, args, phis, s'.names, f, env[x := v], |s'.g|)
  {
    hide Inv, PhisOrdered, Continues, Intern, Hosts, Related, Value, EvalBin, Get, Put;
    CurrentKeeps(s1, x);
    var (s2, cur) := Current(s1, x);
    GraphGrows(s1, s2);
    InternKeeps(s2, Bin(op), [cur, b]);
    var (s3, n) := Intern(s2, Bin(op), [cur, b]);
    ContinuesOn(s1, s2, s3);
    GraphGrows(s1, s3);
    NameMeans(x, s1, f, g, args, phis, env);
    HostsTable(g, s1, LowerAssign(x, Some(op), s1, b).0);
    BinMeans(g, args, phis, s2, op, cur, b, env[x], w);
    RelatedWiden(g, args, phis, s1.names, f, env, |s1.g|, |s3.g|);
    InternNames(s2, Bin(op), [cur, b]);
    RelatedPut(g, args, phis, s1.names, f, env, |s3.g|, x, n, EvalBin(op, env[x], w).value, f);
  }

  // ---- Entering a merge ----

  /** Entering a merge changes no earlier phi. */
  lemma EnterBelow(g: seq<Node>, args: seq<Word>, phis: Phis, merge: NodeId, k: nat)
    requires PhisOrdered(g) && merge < |g| && k < 2 && Proper(g, phis)
    ensures SameBelow(phis, Enter(g, args, phis, merge, k), merge)
    ensures Proper(g, Enter(g, args, phis, merge, k))
  {
    hide Value, PhiChoice;
    forall f: NodeId | f < merge ensures !IsPhiOf(g, f, merge) {
    }
  }

  /** Phis are fixed only for nodes of the graph. */
  ghost predicate Proper(g: seq<Node>, phis: Phis) {
    forall n: NodeId :: n in phis ==> n < |g|
  }

  lemma EnterTakes(g: seq<Node>, args: seq<Word>, phis: Phis, merge: NodeId, k: nat, f: NodeId, w: Word)
    requires merge < |g| && k < 2 && IsPhiOf(g, f, merge) && Value(g, args, phis, PhiChoice(g, merge, f, k)) == Some(w)
    ensures Value(g, args, Enter(g, args, phis, merge, k), f) == Some(w)
  {
  }

  /** What merging two arms binds a name to. */
  ghost predicate Merged(g: seq<Node>, yes: Option<NodeId>, no: Option<NodeId>, was: Option<NodeId>,
                         now: Option<NodeId>, merge: NodeId, lo: nat, hi: nat)
  {
    if yes.None? then now == was
    else if no.Some? && no.value != yes.value then
      now.Some? && lo <= now.value < hi <= |g| && g[now.value] == Bare(Phi, [merge, yes.value, no.value], 0)
    else now == yes
  }

  lemma {:induction false} MergeGets(yes: Assoc<NodeId>, no: Assoc<NodeId>, merge: NodeId, s: Lower, x: Name)
    requires UniqueKeys(yes)
    ensures var s' := MergeNames(yes, no, merge, s);
      && |s'.g| >= |s.g| && (forall n: nat :: n < |s.g| ==> s'.g[n] == s.g[n])
      && Merged(s'.g, Get<NodeId>(yes, x), Get<NodeId>(no, x), Get<NodeId>(s.names, x), Get<NodeId>(s'.names, x),
                merge, |s.g|, |s'.g|)
    decreases |yes|
  {
    if yes != [] {
      var (y, t) := yes[0];
      var e := Get<NodeId>(no, y);
      forall i | 0 <= i < |yes[1..]| ensures yes[1..][i] == yes[i + 1] && yes[1..][i].0 != y {
        assert yes[0].0 != yes[i + 1].0;
      }
      var s1 := if e.Some? && e.value != t
        then Make(s, Phi, [merge, t, e.value], 0).(names := Put<NodeId>(s.names, y, |s.g|))
        else s.(names := Put<NodeId>(s.names, y, t));
      MergeGets(yes[1..], no, merge, s1, x);
      NotThere(yes[1..], y);
    }
  }

  lemma {:induction false} NotThere(m: Assoc<NodeId>, y: Name)
    requires forall i :: 0 <= i < |m| ==> m[i].0 != y
    ensures Get<NodeId>(m, y).None?
    decreases |m|
  {
    if m != [] {
      assert forall i :: 0 <= i < |m[1..]| ==> m[1..][i] == m[i + 1];
      NotThere(m[1..], y);
    }
  }

  /** Coming out of either arm, every name visible after the branch has its value. */
  lemma MergeMeans(g: seq<Node>, args: seq<Word>, phis: Phis, k: nat, yes: Assoc<NodeId>, no: Assoc<NodeId>,
                   merge: NodeId, s: Lower, f: Frame, fy: Frame, fn: Frame, env: Env)
    requires k < 2 && UniqueKeys(yes) && merge < |s.g| && Proper(g, phis)
    requires Hosts(g, s, MergeNames(yes, no, merge, s)) && g[merge].kind.Region?
    requires Grows(f, fy) && Grows(f, fn)
    requires NamesBelow(yes, merge) && NamesBelow(no, merge)
    requires forall x: Name :: Get<bool>(fy, x).Some? && Get<bool>(fn, x).Some? ==>
      Get<NodeId>(yes, x).Some? && Get<NodeId>(no, x).Some?
    requires Related(g, args, phis, if k == 0 then yes else no, if k == 0 then fy else fn, env, merge)
    ensures Related(g, args, Enter(g, args, phis, merge, k), MergeNames(yes, no, merge, s).names,
                    MergeFrames(f, fy, fn), env, |MergeNames(yes, no, merge, s).g|)
  {
    var s' := MergeNames(yes, no, merge, s);
    var phis' := Enter(g, args, phis, merge, k);
    EnterBelow(g, args, phis, merge, k);
    hide Value, Enter, SameBelow, MergeNames, TableOk, PhisOrdered, Get, UniqueKeys;
    forall x: Name | Get<bool>(MergeFrames(f, fy, fn), x).Some?
      ensures x in env && Get<NodeId>(s'.names, x).Some? && Get<NodeId>(s'.names, x).value < |s'.g|
      ensures Value(g, args, phis', Get<NodeId>(s'.names, x).value) == Some(env[x])
    {
      assert Get<bool>(fy, x).Some? && Get<bool>(fn, x).Some?;
      MergeGets(yes, no, merge, s, x);
      var t, e := Get<NodeId>(yes, x).value, Get<NodeId>(no, x).value;
      var n := Get<NodeId>(s'.names, x).value;
      if t == e {
        ValueFrame(g, args, phis, phis', merge, t);
      } else {
        assert g[n] == Bare(Phi, [merge, t, e], 0);
        EnterTakes(g, args, phis, merge, k, n, env[x]);
      }
    }
  }

  // ---- What a loop body leaves alone ----

  /** The names a statement assigns, the ranges of its loops included. */
  function TouchedS(s: Stmt): set<Name>
    decreases s
  {
    match s
    case IfStmt(c, y, n) => AssignedE(c) + TouchedS(y) + if n.Some? then TouchedS(n.value) else {}
    case BlockStmt(stmts) => TouchedAll(stmts)
    case ForStmt(_, lo, hi, body) => AssignedE(lo) + AssignedE(hi) + TouchedS(body)
    case _ => AssignedS(s)
  }

  function TouchedAll(stmts: seq<Stmt>): set<Name>
    decreases stmts
  {
    if stmts == [] then {} else TouchedS(stmts[0]) + TouchedAll(stmts[1..])
  }

  /** The walk over a loop body sees every name from outside the loop that the body assigns. */
  predicate BodySeen(body: Stmt, f: Frame) {
    forall x :: x in TouchedS(body) && Get<bool>(f, x).Some? ==> x in AssignedS(body)
  }

  /** So it is for every loop of the statement. */
  predicate LoopsSeen(s: Stmt, f: Frame)
    decreases s
  {
    match s
    case IfStmt(_, y, n) => LoopsSeen(y, f) && (n.Some? ==> LoopsSeen(n.value, f))
    case BlockStmt(stmts) => AllLoopsSeen(stmts, f)
    case ForStmt(x, _, _, body) => BodySeen(body, f) && LoopsSeen(body, f + [(x, false)])
    case _ => true
  }

  predicate AllLoopsSeen(stmts: seq<Stmt>, f: Frame)
    decreases stmts
  {
    stmts == []
    || (LoopsSeen(stmts[0], f)
        && (CheckStmt(stmts[0], f).Some? ==> AllLoopsSeen(stmts[1..], CheckStmt(stmts[0], f).value)))
  }

  /** That is: the accumulators of a loop are all the names from outside it that its body assigns. */
  lemma AccumulatorsCover(body: Stmt, f: Frame, names: Assoc<NodeId>)
    requires CoversFrame(names, f)
    ensures BodySeen(body, f) <==>
      forall x :: x in TouchedS(body) && Get<bool>(f, x).Some? ==> x in Accumulators(body, names)
  {
    hide Accumulators, TouchedS, AssignedS;
    AccumulatorsAre(body, names);
  }

  /** No `-=`, `*=` or `/=` inside the expressions of a statement. */
  predicate PlainNestedS(s: Stmt)
    decreases s
  {
    match s
    case Let(_, _, init) => init.Some? ==> PlainNested(init.value)
    case Do(e) => PlainNested(e)
    case AssignStmt(_, _, r) => PlainNested(r)
    case ReturnStmt(result) => result.Some? ==> PlainNested(result.value)
    case IfStmt(c, y, n) => PlainNested(c) && PlainNestedS(y) && (n.Some? ==> PlainNestedS(n.value))
    case BlockStmt(stmts) => PlainNestedAll(stmts)
    case ForStmt(_, lo, hi, body) => PlainNested(lo) && PlainNested(hi) && PlainNestedS(body)
    case MatchStmt => true
  }

  predicate PlainNestedAll(stmts: seq<Stmt>)
    decreases stmts
  {
    stmts == [] || (PlainNestedS(stmts[0]) && PlainNestedAll(stmts[1..]))
  }

  lemma {:induction false} EvalFrame(e: Expr, env: Env, x: Name)
    requires x !in AssignedE(e) && x in env && EvalExpr(e, env).Some?
    ensures x in EvalExpr(e, env).value.1 && EvalExpr(e, env).value.1[x] == env[x]
    decreases e
  {
    hide EvalBin, EvalUn, Meaning;
    match e
    case Binary(_, l, r) =>
      EvalFrame(l, env, x);
      EvalFrame(r, EvalExpr(l, env).value.1, x);
    case Unary(_, y) => EvalFrame(y, env, x);
    case Assign(_, _, r) => EvalFrame(r, env, x);
    case _ =>
  }

  ghost predicate Spares(o: Outcome, x: Name, env: Env)
    requires x in env
  {
    o.Go? ==> x in o.env && o.env[x] == env[x]
  }

  /** A visible name that a statement nowhere assigns keeps its value across it. */
  lemma {:induction false} ExecFrame(s: Stmt, f: Frame, env: Env, x: Name)
    requires CheckStmt(s, f).Some? && Get<bool>(f, x).Some? && x !in TouchedS(s) && x in env
    ensures Spares(Exec(s, env), x, env)
    decreases s, 0
  {
    match s
    case Let(y, _, init) =>
      if init.Some? && EvalExpr(init.value, env).Some? { EvalFrame(init.value, env, x); }
    case Do(e) =>
      if EvalExpr(e, env).Some? { EvalFrame(e, env, x); }
    case AssignStmt(_, _, r) =>
      if EvalExpr(r, env).Some? { EvalFrame(r, env, x); }
    case IfStmt(cond, yes, no) =>
      if EvalExpr(cond, env).Some? {
        EvalFrame(cond, env, x);
        ExecFrame(yes, f, EvalExpr(cond, env).value.1, x);
        if no.Some? { ExecFrame(no.value, f, EvalExpr(cond, env).value.1, x); }
      }
    case BlockStmt(stmts) => AllFrame(stmts, f, env, x);
    case ForStmt(y, lo, hi, body) =>
      if EvalExpr(lo, env).Some? {
        EvalFrame(lo, env, x);
        var env1 := EvalExpr(lo, env).value.1;
        if EvalExpr(hi, env1).Some? {
          EvalFrame(hi, env1, x);
          var (b, env2) := EvalExpr(hi, env1).value;
          TurnsFrame(y, Signed(EvalExpr(lo, env).value.0), Signed(b), body, f, env2, x);
        }
      }
    case _ =>
  }

  lemma {:induction false} AllFrame(stmts: seq<Stmt>, f: Frame, env: Env, x: Name)
    requires CheckAll(stmts, f).Some? && Get<bool>(f, x).Some? && x !in TouchedAll(stmts) && x in env
    ensures Spares(ExecAll(stmts, env), x, env)
    decreases stmts, 0
  {
    if stmts != [] {
      ExecFrame(stmts[0], f, env, x);
      CheckGrows(stmts[0], f);
      if Exec(stmts[0], env).Go? {
        AllFrame(stmts[1..], CheckStmt(stmts[0], f).value, Exec(stmts[0], env).env, x);
      }
    }
  }

  lemma {:induction false} TurnsFrame(y: Name, i: int, hi: int, body: Stmt, f: Frame, env: Env, x: Name)
    requires Get<bool>(f, y).None? && CheckStmt(body, f + [(y, false)]).Some? && Get<bool>(f, x).Some?
    requires x !in TouchedS(body) && x in env
    ensures Spares(Turns(y, i, hi, body, env), x, env)
    decreases body, 1, hi - i
  {
    if i < hi {
      var inner := f + [(y, false)];
      GetSnoc(f, y, false, x);
      ExecFrame(body, inner, env[y := Wrap(i)], x);
      if Exec(body, env[y := Wrap(i)]).Go? {
        TurnsFrame(y, i + 1, hi, body, f, Scoped(Exec(body, env[y := Wrap(i)]).env, env), x);
      }
    }
  }

  // ---- Statements ----

  /** The graph does what the interpreter does, from control `from` to control `to`. */
  ghost predicate Follows(g: seq<Node>, args: seq<Word>, from: Point, to: NodeId, names: Assoc<NodeId>, f: Frame,
                          k: nat, low: nat, o: Outcome)
  {
    match o
    case Go(env) => to != INVALID && exists phis: Phis ::
        Reaches(g, args, from, Point(to, phis)) && Related(g, args, phis, names, f, env, k)
        && SameBelow(from.phis, phis, low) && Proper(g, phis)
    case Done(v) => Returns(g, args, from, v)
    case Stuck => true
  }

  lemma SameBelowOn(a: Phis, b: Phis, c: Phis, k: nat, k': nat)
    requires SameBelow(a, b, k) && SameBelow(b, c, k') && k <= k'
    ensures SameBelow(a, c, k)
  {
  }

  /** Getting to a point first. */
  lemma FollowsLater(g: seq<Node>, args: seq<Word>, p: Point, q: Point, to: NodeId, names: Assoc<NodeId>, f: Frame,
                     k: nat, low: nat, low': nat, o: Outcome)
    requires Reaches(g, args, p, q) && SameBelow(p.phis, q.phis, low) && low <= low'
    requires Follows(g, args, q, to, names, f, k, low', o)
    ensures Follows(g, args, p, to, names, f, k, low, o)
  {
    hide Reaches, Related, SameBelow, Returns, Proper;
    match o
    case Go(env) =>
      var phis: Phis :| Reaches(g, args, q, Point(to, phis)) && Related(g, args, phis, names, f, env, k)
        && SameBelow(q.phis, phis, low') && Proper(g, phis);
      GoOn(g, args, p, q, Point(to, phis));
      SameBelowOn(p.phis, q.phis, phis, low, low');
    case Done(v) => ReturnsLater(g, args, p, q, v);
    case Stuck =>
  }

  lemma FollowsHere(g: seq<Node>, args: seq<Word>, p: Point, names: Assoc<NodeId>, f: Frame, k: nat, low: nat, env: Env)
    requires p.ctrl != INVALID && Related(g, args, p.phis, names, f, env, k) && Proper(g, p.phis)
    ensures Follows(g, args, p, p.ctrl, names, f, k, low, Go(env))
  {
    hide Reaches, Related, Proper;
    Stay(g, args, p);
    assert SameBelow(p.phis, p.phis, low);
  }

  // ---- Branches ----

  /** The nodes of a lowered branch. */
  lemma BranchNodes(g: seq<Node>, s1: Lower, c: NodeId, t: Lower, e: Lower)
    requires Hosts(g, s1, BranchOpen(s1, c)) && Hosts(g, e, AtMerge(t, e))
    ensures var i := |s1.g|; var m := |e.g|;
      && i + 3 <= |g| && g[i] == Bare(If, [s1.ctrl, c], 0) && g[i + 1] == Bare(Proj, [i], 0)
      && g[i + 2] == Bare(Proj, [i], 1)
      && m < |g| && g[m] == Bare(Region, [t.ctrl, e.ctrl], 0)
  {
    var s2 := BranchOpen(s1, c);
    assert g[|s1.g|] == s2.g[|s1.g|] && g[|s1.g| + 1] == s2.g[|s1.g| + 1] && g[|s1.g| + 2] == s2.g[|s1.g| + 2];
    assert g[|e.g|] == AtMerge(t, e).g[|e.g|];
  }

  lemma TakeArm(g: seq<Node>, args: seq<Word>, phis: Phis, i: NodeId, ctrl: NodeId, c: NodeId, w: Word)
    requires i + 3 <= |g| && g[i] == Bare(If, [ctrl, c], 0)
    requires g[i + 1] == Bare(Proj, [i], 0) && g[i + 2] == Bare(Proj, [i], 1)
    requires Value(g, args, phis, c) == Some(w)
    ensures Reaches(g, args, Point(ctrl, phis), Point(if w != 0 then i + 1 else i + 2, phis))
  {
    hide Value, Reaches;
    OneStep(g, args, Point(ctrl, phis), i, Point(if w != 0 then i + 1 else i + 2, phis));
  }

  lemma EnterRegion(g: seq<Node>, args: seq<Word>, phis: Phis, merge: NodeId, preds: seq<NodeId>, k: nat)
    requires merge < |g| && g[merge] == Bare(Region, preds, 0) && k < 2 && k < |preds|
    ensures Reaches(g, args, Point(preds[k], phis), Point(merge, Enter(g, args, phis, merge, k)))
  {
    hide Value, Reaches, Enter;
    OneStep(g, args, Point(preds[k], phis), merge, Point(merge, Enter(g, args, phis, merge, k)));
  }

  /** Leaving an arm through the merge. */
  lemma LeaveArm(g: seq<Node>, args: seq<Word>, p: Point, k: nat, arm: Lower, t: Lower, e: Lower, f: Frame, fy: Frame,
                 fn: Frame, low: nat, o: Outcome)
    requires k < 2 && arm == (if k == 0 then t else e) && low <= |e.g| && |t.g| <= |e.g| < |g| < INVALID
    requires Follows(g, args, p, arm.ctrl, arm.names, if k == 0 then fy else fn, |arm.g|, low, o)
    requires Inv(t) && Inv(e) && Grows(f, fy) && Grows(f, fn) && CoversFrame(t.names, fy) && CoversFrame(e.names, fn)
    requires g[|e.g|] == Bare(Region, [t.ctrl, e.ctrl], 0)
    requires Hosts(g, AtMerge(t, e), MergeNames(t.names, e.names, |e.g|, AtMerge(t, e)))
    ensures var s' := MergeNames(t.names, e.names, |e.g|, AtMerge(t, e));
      Follows(g, args, p, |e.g|, s'.names, MergeFrames(f, fy, fn), |s'.g|, low, o)
  {
    hide Reaches, Related, Returns, Enter, Hosts, MergeNames, Grows, MergeFrames, SameBelow;
    var merge := |e.g|;
    match o
    case Go(env) =>
      var phis: Phis :| Reaches(g, args, p, Point(arm.ctrl, phis))
        && Related(g, args, phis, arm.names, if k == 0 then fy else fn, env, |arm.g|)
        && SameBelow(p.phis, phis, low) && Proper(g, phis);
      var phis' := Enter(g, args, phis, merge, k);
      HostsOrdered(g, AtMerge(t, e), MergeNames(t.names, e.names, merge, AtMerge(t, e)));
      EnterRegion(g, args, phis, merge, [t.ctrl, e.ctrl], k);
      GoOn(g, args, p, Point(arm.ctrl, phis), Point(merge, phis'));
      RelatedWiden(g, args, phis, arm.names, if k == 0 then fy else fn, env, |arm.g|, merge);
      InvParts(t, merge);
      InvParts(e, merge);
      MergeMeans(g, args, phis, k, t.names, e.names, merge, AtMerge(t, e), f, fy, fn, env);
      EnterBelow(g, args, phis, merge, k);
      SameBelowOn(p.phis, phis, phis', low, merge);
    case Done(v) =>
    case Stuck =>
  }

  lemma HostsOrdered(g: seq<Node>, s: Lower, s': Lower)
    requires Hosts(g, s, s')
    ensures PhisOrdered(g) && |s'.g| <= |g|
  {
  }

  /** How the pieces of a branch lie in the final graph. */
  lemma IfHosts(g: seq<Node>, s: Lower, s1: Lower, c: NodeId, t: Lower, e: Lower, s': Lower)
    requires Hosts(g, s, s') && Continues(s, s1)
    requires s' == MergeNames(t.names, e.names, |e.g|, AtMerge(t, e))
    requires Contains(BranchOpen(s1, c), t) && Contains(t, e) && Inv(t) && |t.g| <= |e.g| && Inv(e) && PhisOrdered(e.g)
    ensures Hosts(g, s, s1) && Hosts(g, s1, BranchOpen(s1, c)) && Hosts(g, BranchOpen(s1, c), t) && Hosts(g, t, e)
    ensures Hosts(g, e, AtMerge(t, e)) && Hosts(g, AtMerge(t, e), s')
    ensures s'.ctrl == |e.g|
  {
    hide Hosts, Inv, PhisOrdered, Continues, BranchOpen, AtMerge, MergeNames, Contains;
    var s2, s3 := BranchOpen(s1, c), AtMerge(t, e);
    BranchContains(s1, c);
    MergeContains(t, e);
    ContinuesContains(s, s1);
    ContainsOn(s, s1, s2);
    ContainsOn(s, s2, t);
    ContainsOn(s, t, e);
    ContainsOn(s, e, s3);
    HostsCut(g, s, s3, s');
    HostsCut(g, s, e, s3);
    HostsCut(g, s, t, e);
    HostsCut(g, s, s2, t);
    HostsCut(g, s, s1, s2);
  }

  lemma BranchContains(s1: Lower, c: NodeId)
    ensures Contains(s1, BranchOpen(s1, c))
  {
  }

  lemma MergeContains(t: Lower, e: Lower)
    requires Inv(t) && Inv(e) && PhisOrdered(e.g) && |t.g| <= |e.g|
    ensures Contains(e, AtMerge(t, e))
    ensures Contains(AtMerge(t, e), MergeNames(t.names, e.names, |e.g|, AtMerge(t, e)))
    ensures MergeNames(t.names, e.names, |e.g|, AtMerge(t, e)).ctrl == |e.g|
  {
    hide MergeNames;
    BranchesMeet(t, e);
    MergeKeeps(t.names, e.names, |e.g|, AtMerge(t, e));
  }

  // ---- Simple statements ----

  lemma RelatedCovers(g: seq<Node>, args: seq<Word>, phis: Phis, names: Assoc<NodeId>, f: Frame, env: Env, k: nat)
    requires Related(g, args, phis, names, f, env, k)
    ensures CoversFrame(names, f)
  {
    hide Value, Get;
  }

  lemma LetMeans(x: Name, isVar: bool, init: Option<Expr>, s: Lower, f: Frame, g: seq<Node>, args: seq<Word>,
                 phis: Phis, env: Env)
    requires var st := Let(x, isVar, init);
      && CheckStmt(st, f).Some? && PlainNestedS(st) && Inv(s) && PhisOrdered(s.g) && Hosts(g, s, LowerStmt(st, s).value)
      && s.ctrl != INVALID && Proper(g, phis) && Related(g, args, phis, s.names, f, env, |s.g|)
    ensures var st := Let(x, isVar, init); var s' := LowerStmt(st, s).value;
      Follows(g, args, Point(s.ctrl, phis), s'.ctrl, s'.names, CheckStmt(st, f).value, |s'.g|, |s.g|, Exec(st, env))
  {
    hide Inv, PhisOrdered, Hosts, Related, Value, Follows, Get, Put, Continues;
    var st := Let(x, isVar, init);
    var f' := f + [(x, isVar)];
    Extended(f, x, isVar);
    if init.Some? {
      var (s1, n) := LowerExpr(init.value, s);
      ExprKeeps(init.value, s);
      Bind(s1, x, n);
      HostsParts(g, s, s1, LowerStmt(st, s).value);
      if EvalExpr(init.value, env).Some? {
        ExprMeans(init.value, s, f, g, args, phis, env);
        var (w, env1) := EvalExpr(init.value, env).value;
        RelatedPut(g, args, phis, s1.names, f, env1, |s1.g|, x, n, w, f');
        FollowsHere(g, args, Point(s.ctrl, phis), Put<NodeId>(s1.names, x, n), f', |s1.g|, |s.g|, env1[x := w]);
      } else {
        FollowsStuck(g, args, Point(s.ctrl, phis), s1.ctrl, Put<NodeId>(s1.names, x, n), f', |s1.g|, |s.g|);
      }
    } else {
      var s1 := Make(s, Constant, [], 0);
      LeafKeeps(s, Constant, 0);
      Bind(s1, x, |s.g|);
      HostsParts(g, s, s1, LowerStmt(st, s).value);
      ConstantMeans(g, args, phis, s, 0);
      RelatedWiden(g, args, phis, s.names, f, env, |s.g|, |s.g| + 1);
      RelatedPut(g, args, phis, s.names, f, env, |s.g| + 1, x, |s.g|, 0, f');
      FollowsHere(g, args, Point(s.ctrl, phis), Put<NodeId>(s.names, x, |s.g|), f', |s.g| + 1, |s.g|, env[x := 0]);
    }
  }

  lemma FollowsStuck(g: seq<Node>, args: seq<Word>, p: Point, to: NodeId, names: Assoc<NodeId>, f: Frame, k: nat,
        low: nat)
    ensures Follows(g, args, p, to, names, f, k, low, Stuck)
  {
  }

  lemma DoMeans(e: Expr, s: Lower, f: Frame, g: seq<Node>, args: seq<Word>, phis: Phis, env: Env)
    requires AcceptsExpr(e, f) && PlainNested(e) && Inv(s) && PhisOrdered(s.g) && Hosts(g, s, LowerExpr(e, s).0)
    requires s.ctrl != INVALID && Proper(g, phis) && Related(g, args, phis, s.names, f, env, |s.g|)
    ensures var s' := LowerExpr(e, s).0;
      Follows(g, args, Point(s.ctrl, phis), s'.ctrl, s'.names, f, |s'.g|, |s.g|, Exec(Do(e), env))
  {
    hide Inv, PhisOrdered, Hosts, Related, Value, Follows, Continues;
    var s' := LowerExpr(e, s).0;
    ExprKeeps(e, s);
    if EvalExpr(e, env).Some? {
      ExprMeans(e, s, f, g, args, phis, env);
      FollowsHere(g, args, Point(s.ctrl, phis), s'.names, f, |s'.g|, |s.g|, EvalExpr(e, env).value.1);
    } else {
      FollowsStuck(g, args, Point(s.ctrl, phis), s'.ctrl, s'.names, f, |s'.g|, |s.g|);
    }
  }

  /** An assignment that is a statement is lowered with the operator it has. */
  lemma AssignStmtMeans(x: Name, how: AssignToken, r: Expr, s: Lower, f: Frame, g: seq<Node>, args: seq<Word>,
                        phis: Phis, env: Env)
    requires var st := AssignStmt(x, how, r);
      && CheckStmt(st, f).Some? && PlainNestedS(st) && Inv(s) && PhisOrdered(s.g) && Hosts(g, s, LowerStmt(st, s).value)
      && s.ctrl != INVALID && Proper(g, phis) && Related(g, args, phis, s.names, f, env, |s.g|)
    ensures var st := AssignStmt(x, how, r); var s' := LowerStmt(st, s).value;
      Follows(g, args, Point(s.ctrl, phis), s'.ctrl, s'.names, CheckStmt(st, f).value, |s'.g|, |s.g|, Exec(st, env))
  {
    hide Inv, PhisOrdered, Hosts, Related, Value, Follows, Continues, Assigned, LowerAssign, CompoundMeaning,
         CompoundKindOf, LowerExpr;
    var s' := LowerStmt(AssignStmt(x, how, r), s).value;
    AssignStmtKeeps(x, how, r, s);
    ExprKeeps(r, s);
    var (s1, b) := LowerExpr(r, s);
    AssignParts(x, CompoundKindOf(how), s, s1, b, g);
    if EvalExpr(r, env).Some? {
      ExprMeans(r, s, f, g, args, phis, env);
      var (w, env1) := EvalExpr(r, env).value;
      if Assigned(x, how, w, env1).Some? {
        SameTables(Plus, Bang, how);
        AssignMeans(x, how, CompoundKindOf(how), s1, b, f, g, args, phis, env1, w);
        FollowsHere(g, args, Point(s.ctrl, phis), s'.names, f, |s'.g|, |s.g|, Assigned(x, how, w, env1).value.1);
        return;
      }
    }
    FollowsStuck(g, args, Point(s.ctrl, phis), s'.ctrl, s'.names, f, |s'.g|, |s.g|);
  }

  lemma ReturnReached(g: seq<Node>, args: seq<Word>, phis: Phis, s: Lower, n: NodeId, w: Word)
    requires Hosts(g, s, Make(s, Return, [s.ctrl, s.eff, n], 0)) && Value(g, args, phis, n) == Some(w)
    ensures Returns(g, args, Point(s.ctrl, phis), w)
  {
    hide Value, Reaches;
    var s' := Make(s, Return, [s.ctrl, s.eff, n], 0);
    assert g[|s.g|] == s'.g[|s.g|];
    Stay(g, args, Point(s.ctrl, phis));
    assert ReturnsAt(g, args, Point(s.ctrl, phis), |s.g|, w);
  }

  lemma ReturnMeans(result: Option<Expr>, s: Lower, f: Frame, g: seq<Node>, args: seq<Word>, phis: Phis, env: Env)
    requires var st := ReturnStmt(result);
      && CheckStmt(st, f).Some? && PlainNestedS(st) && Inv(s) && PhisOrdered(s.g) && Hosts(g, s, LowerStmt(st, s).value)
      && s.ctrl != INVALID && Proper(g, phis) && Related(g, args, phis, s.names, f, env, |s.g|)
    ensures var st := ReturnStmt(result); var s' := LowerStmt(st, s).value;
      Follows(g, args, Point(s.ctrl, phis), s'.ctrl, s'.names, CheckStmt(st, f).value, |s'.g|, |s.g|, Exec(st, env))
  {
    hide Inv, PhisOrdered, Related, Value, Returns, Continues, TableOk, LowerExpr, EvalExpr;
    var (s1, n) := if result.Some? then LowerExpr(result.value, s) else (Make(s, Constant, [], 0), |s.g|);
    var s2 := Make(s1, Return, [s1.ctrl, s1.eff, n], 0);
    if result.Some? { ExprKeeps(result.value, s); } else { LeafKeeps(s, Constant, 0); }
    ContinuesContains(s, s1);
    assert Hosts(g, s, s2);
    assert Contains(s1, s2);
    HostsCut(g, s, s1, s2);
    if result.None? {
      ConstantMeans(g, args, phis, s, 0);
      ReturnReached(g, args, phis, s1, n, 0);
    } else if EvalExpr(result.value, env).Some? {
      ExprMeans(result.value, s, f, g, args, phis, env);
      ReturnReached(g, args, phis, s1, n, EvalExpr(result.value, env).value.0);
    }
  }

  // ---- The induction ----

  lemma {:induction false} StmtMeans(st: Stmt, s: Lower, f: Frame, g: seq<Node>, args: seq<Word>, phis: Phis, env: Env)
    requires LowerStmt(st, s).Some? && CheckStmt(st, f).Some? && LoopsSeen(st, f) && PlainNestedS(st)
    requires Inv(s) && PhisOrdered(s.g) && Hosts(g, s, LowerStmt(st, s).value) && |g| < INVALID
    requires s.ctrl != INVALID && Proper(g, phis) && Related(g, args, phis, s.names, f, env, |s.g|)
    ensures var s' := LowerStmt(st, s).value;
      Follows(g, args, Point(s.ctrl, phis), s'.ctrl, s'.names, CheckStmt(st, f).value, |s'.g|, |s.g|, Exec(st, env))
    decreases st, 2
  {
    hide Inv, PhisOrdered, Hosts, Related, Follows, Proper;
    match st
    case Let(x, isVar, init) => LetMeans(x, isVar, init, s, f, g, args, phis, env);
    case Do(e) => DoMeans(e, s, f, g, args, phis, env);
    case AssignStmt(x, how, r) => AssignStmtMeans(x, how, r, s, f, g, args, phis, env);
    case ReturnStmt(result) => ReturnMeans(result, s, f, g, args, phis, env);
    case IfStmt(cond, yes, no) => IfMeans(cond, yes, no, s, f, g, args, phis, env);
    case BlockStmt(stmts) => AllMean(stmts, s, f, g, args, phis, env);
    case ForStmt(x, lo, hi, body) => ForMeans(x, lo, hi, body, s, f, g, args, phis, env);
    case MatchStmt =>
  }

  lemma {:induction false} AllMean(stmts: seq<Stmt>, s: Lower, f: Frame, g: seq<Node>, args: seq<Word>, phis: Phis,
        env: Env)
    requires LowerAll(stmts, s).Some? && CheckAll(stmts, f).Some?
    requires AllLoopsSeen(stmts, f) && PlainNestedAll(stmts)
    requires Inv(s) && PhisOrdered(s.g) && Hosts(g, s, LowerAll(stmts, s).value) && |g| < INVALID
    requires s.ctrl != INVALID && Proper(g, phis) && Related(g, args, phis, s.names, f, env, |s.g|)
    ensures var s' := LowerAll(stmts, s).value;
      Follows(g, args, Point(s.ctrl, phis), s'.ctrl, s'.names, CheckAll(stmts, f).value, |s'.g|, |s.g|,
        ExecAll(stmts, env))
    decreases stmts, 0
  {
    hide Inv, PhisOrdered, Hosts, Related, Returns, Reaches, SameBelow, Proper, Continues, LowerStmt, CheckStmt, Exec;
    if stmts == [] {
      FollowsHere(g, args, Point(s.ctrl, phis), s.names, f, |s.g|, |s.g|, env);
    } else {
      var s1, s' := LowerStmt(stmts[0], s).value, LowerAll(stmts, s).value;
      var f1 := CheckStmt(stmts[0], f).value;
      StmtKeeps(stmts[0], s);
      AllKeeps(stmts[1..], s1);
      HostsParts(g, s, s1, s');
      StmtMeans(stmts[0], s, f, g, args, phis, env);
      var o := Exec(stmts[0], env);
      if o.Go? {
        var phis1: Phis :| Reaches(g, args, Point(s.ctrl, phis), Point(s1.ctrl, phis1))
          && Related(g, args, phis1, s1.names, f1, o.env, |s1.g|) && SameBelow(phis, phis1, |s.g|) && Proper(g, phis1);
        GraphGrows(s, s1);
        AllMean(stmts[1..], s1, f1, g, args, phis1, o.env);
        FollowsLater(g, args, Point(s.ctrl, phis), Point(s1.ctrl, phis1), s'.ctrl, s'.names, CheckAll(stmts, f).value,
          |s'.g|, |s.g|, |s1.g|, ExecAll(stmts, env));
      }
    }
  }

  lemma {:induction false} IfMeans(cond: Expr, yes: Stmt, no: Option<Stmt>, s: Lower, f: Frame, g: seq<Node>,
                                   args: seq<Word>, phis: Phis, env: Env)
    requires var st := IfStmt(cond, yes, no);
      && LowerStmt(st, s).Some? && CheckStmt(st, f).Some? && LoopsSeen(st, f) && PlainNestedS(st)
      && Inv(s) && PhisOrdered(s.g) && Hosts(g, s, LowerStmt(st, s).value) && |g| < INVALID
      && s.ctrl != INVALID && Proper(g, phis) && Related(g, args, phis, s.names, f, env, |s.g|)
    ensures var st := IfStmt(cond, yes, no); var s' := LowerStmt(st, s).value;
      Follows(g, args, Point(s.ctrl, phis), s'.ctrl, s'.names, CheckStmt(st, f).value, |s'.g|, |s.g|, Exec(st, env))
    decreases IfStmt(cond, yes, no), 1
  {
    hide Inv, PhisOrdered, Hosts, Related, Follows, Reaches, SameBelow, Proper, Continues, LowerStmt, LowerExpr,
         BranchOpen, AtElse, AtMerge, MergeNames, CoversFrame, Grows, MergeFrames, Contains;
    RelatedCovers(g, args, phis, s.names, f, env, |s.g|);
    var s2, t, e := ArmsCover(cond, yes, no, s, f);
    var (s1, c) := LowerExpr(cond, s);
    var s' := LowerStmt(IfStmt(cond, yes, no), s).value;
    var fy := CheckStmt(yes, f).value;
    var fn := if no.Some? then CheckStmt(no.value, f).value else f;
    CheckGrows(yes, f);
    GrowsSelf(f);
    if no.Some? { CheckGrows(no.value, f); }
    ArmsContain(s2, t, e, |s1.g|);
    IfHosts(g, s, s1, c, t, e, s');
    BranchNodes(g, s1, c, t, e);
    if EvalExpr(cond, env).None? {
      FollowsStuck(g, args, Point(s.ctrl, phis), s'.ctrl, s'.names, MergeFrames(f, fy, fn), |s'.g|, |s.g|);
    } else {
      ExprMeans(cond, s, f, g, args, phis, env);
      var (w, env1) := EvalExpr(cond, env).value;
      TakeArm(g, args, phis, |s1.g|, s1.ctrl, c, w);
      SizesGrow(s, s1, s2, t, e, g, c);
      var from := if w != 0 then Point(|s1.g| + 1, phis) else Point(|s1.g| + 2, phis);
      var arm := if w != 0 then t else e;
      ArmMeans(cond, yes, no, s, f, g, args, phis, env1, w, s1, c, s2, t, e, from);
      LeaveArm(g, args, from, if w != 0 then 0 else 1, arm, t, e, f, fy, fn, |s.g|, ArmOutcome(yes, no, env1, w));
      SameSelf(phis, |s.g|);
      FollowsLater(g, args, Point(s.ctrl, phis), from, s'.ctrl, s'.names, MergeFrames(f, fy, fn), |s'.g|, |s.g|, |s.g|,
        ArmOutcome(yes, no, env1, w));
    }
  }

  function ArmOutcome(yes: Stmt, no: Option<Stmt>, env: Env, w: Word): Outcome {
    if w != 0 then Exec(yes, env) else if no.Some? then Exec(no.value, env) else Go(env)
  }

  lemma GrowsSelf(f: Frame)
    ensures Grows(f, f)
  {
  }

  lemma SameSelf(phis: Phis, k: nat)
    ensures SameBelow(phis, phis, k)
  {
  }

  lemma ArmsContain(s2: Lower, t: Lower, e: Lower, ifNode: NodeId)
    requires Continues(s2.(ctrl := ifNode + 1), t) && Continues(AtElse(s2, t, ifNode), e)
    ensures Contains(s2, t) && Contains(t, e)
  {
  }

  lemma SizesGrow(s: Lower, s1: Lower, s2: Lower, t: Lower, e: Lower, g: seq<Node>, c: NodeId)
    requires Continues(s, s1) && s2 == BranchOpen(s1, c) && Contains(s2, t) && Contains(t, e)
    ensures |s.g| <= |s1.g| && |s2.g| == |s1.g| + 3 && |s2.g| <= |t.g| <= |e.g|
  {
  }

  /** The chosen arm, from its projection. */
  lemma {:induction false} ArmMeans(cond: Expr, yes: Stmt, no: Option<Stmt>, s: Lower, f: Frame, g: seq<Node>,
        args: seq<Word>,
                 phis: Phis, env1: Env, w: Word, s1: Lower, c: NodeId, s2: Lower, t: Lower, e: Lower, from: Point)
    requires s2 == BranchOpen(s1, c) && LowerStmt(yes, s2.(ctrl := |s1.g| + 1)) == Some(t)
    requires if no.Some? then LowerStmt(no.value, AtElse(s2, t, |s1.g|)) == Some(e) else e == AtElse(s2, t, |s1.g|)
    requires CheckStmt(yes, f).Some? && (no.Some? ==> CheckStmt(no.value, f).Some?)
    requires LoopsSeen(yes, f) && PlainNestedS(yes) && (no.Some? ==> LoopsSeen(no.value, f) && PlainNestedS(no.value))
    requires Inv(s2.(ctrl := |s1.g| + 1)) && PhisOrdered(s2.g) && PhisOrdered(t.g) && Inv(AtElse(s2, t, |s1.g|))
    requires Hosts(g, s2, t) && Hosts(g, t, e) && |g| < INVALID && Proper(g, phis)
    requires |s.g| <= |s1.g| && |s2.g| == |s1.g| + 3 && |s2.g| <= |t.g| <= |e.g| && |s1.g| + 3 <= |g|
    requires Related(g, args, phis, s1.names, f, env1, |s1.g|)
    requires from == if w != 0 then Point(|s1.g| + 1, phis) else Point(|s1.g| + 2, phis)
    ensures var arm := if w != 0 then t else e;
      Follows(g, args, from, arm.ctrl, arm.names,
        if w != 0 then CheckStmt(yes, f).value else if no.Some? then CheckStmt(no.value, f).value else f,
        |arm.g|, |s.g|, ArmOutcome(yes, no, env1, w))
    decreases IfStmt(cond, yes, no), 0
  {
    hide Inv, PhisOrdered, Hosts, Related, Follows, Reaches, SameBelow, Proper, LowerStmt, CheckStmt, Exec;
    SameSelf(phis, |s.g|);
    Stay(g, args, from);
    if w != 0 {
      var into := s2.(ctrl := |s1.g| + 1);
      SameHosts(g, s2, into, t);
      RelatedWiden(g, args, phis, s1.names, f, env1, |s1.g|, |s2.g|);
      StmtMeans(yes, into, f, g, args, phis, env1);
      FollowsLater(g, args, from, from, t.ctrl, t.names, CheckStmt(yes, f).value, |t.g|, |s.g|, |s2.g|,
        Exec(yes, env1));
    } else {
      var turn := AtElse(s2, t, |s1.g|);
      RelatedWiden(g, args, phis, s1.names, f, env1, |s1.g|, |t.g|);
      if no.Some? {
        SameHosts(g, t, turn, e);
        StmtMeans(no.value, turn, f, g, args, phis, env1);
        FollowsLater(g, args, from, from, e.ctrl, e.names, CheckStmt(no.value, f).value, |e.g|, |s.g|, |t.g|,
          Exec(no.value, env1));
      } else {
        FollowsHere(g, args, from, e.names, f, |e.g|, |s.g|, env1);
      }
    }
  }

  lemma SameHosts(g: seq<Node>, a: Lower, a': Lower, b: Lower)
    requires Hosts(g, a, b) && a'.g == a.g
    ensures Hosts(g, a', b)
  {
  }

  // ---- Loops ----

  /** The final graph around a lowered loop. */
  ghost predicate LoopHosted(g: seq<Node>, x: Name, body: Stmt, l: LoopStages) {
    && LoopBinds(x, body, l) && NamesBelow(l.s2.names, l.Header()) && l.lo < l.Header() && l.hi < l.Header()
    && LoopBuilt(g, l.Header(), l.s2.ctrl, l.s4.ctrl, l.lo, l.hi, l.next, EntryNodes(l.acc, l.s2.names),
                 EntryNodes(l.acc, l.s4.names))
    && l.s3.ctrl == l.Test() + 2 && |l.s3.g| == l.Test() + 4 && l.s5.ctrl == l.Test() + 3
    && Hosts(g, l.s3, l.s4) && PhisOrdered(g)
    && Steps(g, l)
  }

  /** The back value of the index is the index and one. */
  ghost predicate Steps(g: seq<Node>, l: LoopStages) {
    forall args: seq<Word>, phis: Phis, w: Word ::
      Value(g, args, phis, l.Header() + 1) == Some(w) ==> Value(g, args, phis, l.next) == Some(Wrap(w + 1))
  }

  lemma StepValue(g: seq<Node>, l: LoopStages, args: seq<Word>, phis: Phis, w: Word)
    requires Hosts(g, l.s2, l.s5) && LoopStep(l) && l.Header() < |l.s4.g|
    requires Value(g, args, phis, l.Header() + 1) == Some(w)
    ensures Value(g, args, phis, l.next) == Some(Wrap(w + 1))
  {
    hide SignatureIndex, EvalUn;
    assert g[|l.s4.g|] == Bare(Constant, [], 1);
    var ins := [l.Header() + 1, |l.s4.g|];
    assert g[l.next].kind == Bin(Add) && g[l.next].inputs == ins;
    assert ins[0] < l.next && ins[1] < l.next;
  }

  lemma StepsHold(g: seq<Node>, l: LoopStages)
    requires Hosts(g, l.s2, l.s5) && LoopStep(l) && l.Header() < |l.s4.g|
    ensures Steps(g, l)
  {
    hide Value, Hosts, LoopStep;
    forall args: seq<Word>, phis: Phis, w: Word | Value(g, args, phis, l.Header() + 1) == Some(w)
      ensures Value(g, args, phis, l.next) == Some(Wrap(w + 1))
    {
      StepValue(g, l, args, phis, w);
    }
  }

  lemma BodyHosted(g: seq<Node>, l: LoopStages)
    requires Hosts(g, l.s2, l.s5) && LoopStep(l) && |l.s3.g| <= |l.s4.g| <= |l.s5.g|
    requires forall n: nat :: |l.s3.g| <= n < |l.s4.g| ==> g[n] == l.s4.g[n]
    ensures Hosts(g, l.s3, l.s4) && PhisOrdered(g)
  {
  }

  lemma GraphFacts(l: LoopStages)
    requires LoopGraph(l)
    ensures |l.s3.g| <= |l.s4.g| <= |l.s5.g| && l.Header() < |l.s3.g| && l.lo < l.Header() && l.hi < l.Header()
    ensures AllBound(l.acc, l.s2.names) && AllBound(l.acc, l.s4.names)
    ensures l.s3.ctrl == l.Test() + 2 && |l.s3.g| == l.Test() + 4 && l.s5.ctrl == l.Test() + 3
  {
  }

  lemma LoopIsHosted(g: seq<Node>, x: Name, body: Stmt, l: LoopStages)
    requires Hosts(g, l.s2, l.s5) && LoopBinds(x, body, l) && LoopGraph(l) && LoopStep(l)
    requires NamesBelow(l.s2.names, l.Header())
    ensures LoopHosted(g, x, body, l)
  {
    hide Hosts, LoopBinds, LoopGraph, LoopStep, NamesBelow, LoopBuilt, AllBound, EntryNodes, Steps, PhisOrdered;
    GraphFacts(l);
    BuiltInHost(g, l);
    BodyHosted(g, l);
    StepsHold(g, l);
  }

  lemma BuiltInHost(g: seq<Node>, l: LoopStages)
    requires Hosts(g, l.s2, l.s5) && LoopGraph(l)
    ensures LoopBuilt(g, l.Header(), l.s2.ctrl, l.s4.ctrl, l.lo, l.hi, l.next, EntryNodes(l.acc, l.s2.names),
                      EntryNodes(l.acc, l.s4.names))
    ensures forall n: nat :: |l.s3.g| <= n < |l.s4.g| ==> g[n] == l.s4.g[n]
  {
    hide TableOk, PhisOrdered, AllBound, EntryNodes;
    assert forall n: nat :: |l.s2.g| <= n < |l.s5.g| ==> g[n] == l.s5.g[n];
  }

  lemma PhiNames(acc: seq<Name>, first: NodeId, names: Assoc<NodeId>, y: Name) returns (j: nat)
    requires Distinct(acc)
    ensures y in acc ==>
      j < |acc| && acc[j] == y && Get<NodeId>(PutAll(names, PhiList(acc, first)), y) == Some(first + j)
    ensures y !in acc ==> Get<NodeId>(PutAll(names, PhiList(acc, first)), y) == Get<NodeId>(names, y)
  {
    hide Get, PutAll;
    var phis := PhiList(acc, first);
    PhiListAt(acc, first);
    OpenIds(acc, first, first + |acc|);
    PutAllGets(names, phis, first + |acc|, y);
    if k :| 0 <= k < |acc| && acc[k] == y {
      j := k;
      assert phis[j] == (y, first + j);
    } else {
      j := 0;
    }
  }

  /** The bindings of a loop: accumulators are its phis, everything else is as before it. */
  lemma LoopNames(x: Name, body: Stmt, l: LoopStages, y: Name) returns (j: nat)
    requires LoopBinds(x, body, l)
    ensures y in l.acc ==> j < |l.acc| && l.acc[j] == y && Get<NodeId>(l.Names(), y) == Some(l.Header() + 2 + j)
    ensures y !in l.acc ==> Get<NodeId>(l.Names(), y) == Get<NodeId>(l.s2.names, y)
    ensures y in l.acc <==> Get<NodeId>(l.s2.names, y).Some? && y in AssignedS(body)
  {
    hide Get, PutAll, PhiList, Accumulators, AssignedS, AllBound;
    AccumulatorsAre(body, l.s2.names);
    j := PhiNames(l.acc, l.Header() + 2, l.s2.names, y);
  }

  /** At the head of the loop, about to make turn `i`. */
  ghost predicate AtHead(g: seq<Node>, args: seq<Word>, phis: Phis, l: LoopStages, f: Frame, env: Env, i: int,
        hi: Word)
  {
    && Related(g, args, phis, l.Names(), f, env, |l.s3.g|) && Proper(g, phis)
    && Value(g, args, phis, l.Header() + 1) == Some(Wrap(i)) && Value(g, args, phis, l.hi) == Some(hi)
  }

  lemma LoopPhiEntry(g: seq<Node>, args: seq<Word>, phis: Phis, x: Name, body: Stmt, l: LoopStages, j: nat, k: nat,
        w: Word)
    requires LoopHosted(g, x, body, l) && LoopBinds(x, body, l) && j < |l.acc| && k < 2
    requires Value(g, args, phis, EntryNodes(l.acc, if k == 1 then l.s2.names else l.s4.names)[j]) == Some(w)
    ensures Value(g, args, Enter(g, args, phis, l.Header(), k), l.Header() + 2 + j) == Some(w)
  {
    hide Value, Enter, Hosts, LoopBinds, PhisOrdered;
    HostedParts(g, x, body, l);
    var f := l.Header() + 2 + j;
    assert g[f] == Bare(Phi, [l.Header(), EntryNodes(l.acc, l.s2.names)[j], EntryNodes(l.acc, l.s4.names)[j]], 0);
    EnterTakes(g, args, phis, l.Header(), k, f, w);
  }

  lemma IndexEntry(g: seq<Node>, args: seq<Word>, phis: Phis, x: Name, body: Stmt, l: LoopStages, k: nat, w: Word)
    requires LoopHosted(g, x, body, l) && k < 2 && Value(g, args, phis, if k == 1 then l.lo else l.next) == Some(w)
    ensures Value(g, args, Enter(g, args, phis, l.Header(), k), l.Header() + 1) == Some(w)
  {
    hide Value, Enter, Hosts, LoopBinds, PhisOrdered;
    EnterTakes(g, args, phis, l.Header(), k, l.Header() + 1, w);
  }

  lemma HostedParts(g: seq<Node>, x: Name, body: Stmt, l: LoopStages)
    requires LoopHosted(g, x, body, l)
    ensures LoopBinds(x, body, l) && l.lo < l.Header() && l.hi < l.Header() && PhisOrdered(g) && Hosts(g, l.s3, l.s4)
    ensures forall y: Name :: Get<NodeId>(l.s2.names, y).Some? ==> Get<NodeId>(l.s2.names, y).value < l.Header()
    ensures |l.s3.g| == l.Test() + 4 <= |g| && l.s3.ctrl == l.Test() + 2 && l.s5.ctrl == l.Test() + 3
    ensures AllBound(l.acc, l.s2.names) && AllBound(l.acc, l.s4.names)
    ensures g[l.Header()] == Bare(Loop, [l.s4.ctrl, l.s2.ctrl], 0)
    ensures g[l.Test()] == Bare(Bin(CmpLt), [l.Header() + 1, l.hi], 0)
      && g[l.Test() + 1] == Bare(If, [l.Header(), l.Test()], 0)
    ensures g[l.Test() + 2] == Bare(Proj, [l.Test() + 1], 0) && g[l.Test() + 3] == Bare(Proj, [l.Test() + 1], 1)
    ensures l.s3.names == Put<NodeId>(l.Names(), x, l.Header() + 1) && l.s5.names == l.Names()
  {
    hide Value, Hosts, PhisOrdered, AllBound, Get;
  }

  /** Entering the loop from above. */
  lemma HeadFromAbove(g: seq<Node>, args: seq<Word>, phis: Phis, x: Name, body: Stmt, l: LoopStages, f: Frame, env: Env,
                      a: Word, hi: Word)
    requires LoopHosted(g, x, body, l) && Proper(g, phis) && Related(g, args, phis, l.s2.names, f, env, l.Header())
    requires Value(g, args, phis, l.lo) == Some(a) && Value(g, args, phis, l.hi) == Some(hi)
    ensures AtHead(g, args, Enter(g, args, phis, l.Header(), 1), l, f, env, Signed(a), hi)
  {
    hide Value, Enter, LoopHosted, LoopBinds, PhisOrdered, SameBelow, Get, Hosts, AllBound;
    HostedParts(g, x, body, l);
    var phis1 := Enter(g, args, phis, l.Header(), 1);
    EnterBelow(g, args, phis, l.Header(), 1);
    forall y: Name | Get<bool>(f, y).Some?
      ensures y in env && Get<NodeId>(l.Names(), y).Some? && Get<NodeId>(l.Names(), y).value < |l.s3.g|
      ensures Value(g, args, phis1, Get<NodeId>(l.Names(), y).value) == Some(env[y])
    {
      var j := LoopNames(x, body, l, y);
      var n := Get<NodeId>(l.s2.names, y).value;
      if y in l.acc {
        LoopPhiEntry(g, args, phis, x, body, l, j, 1, env[y]);
      } else {
        ValueFrame(g, args, phis, phis1, l.Header(), n);
      }
    }
    IndexEntry(g, args, phis, x, body, l, 1, a);
    ValueFrame(g, args, phis, phis1, l.Header(), l.hi);
    assert Wrap(Signed(a)) == a;
  }

  /** Coming back to the head after a turn of the body. */
  lemma HeadFromBelow(g: seq<Node>, args: seq<Word>, before: Phis, phis: Phis, x: Name, body: Stmt, l: LoopStages,
                      f: Frame, fb: Frame, env: Env, env1: Env, i: int, hi: Word)
    requires LoopHosted(g, x, body, l) && AtHead(g, args, before, l, f, env, i, hi) && Proper(g, phis)
    requires SameBelow(before, phis, |l.s3.g|) && Related(g, args, phis, l.s4.names, fb, env1, |l.s4.g|)
    requires forall y: Name :: Get<bool>(f, y).Some? ==> Get<bool>(fb, y).Some?
    requires forall y: Name :: Get<bool>(f, y).Some? && y !in AssignedS(body) ==> y in env1 && env1[y] == env[y]
    ensures AtHead(g, args, Enter(g, args, phis, l.Header(), 0), l, f, Scoped(env1, env), i + 1, hi)
  {
    hide Value, Enter, LoopHosted, LoopBinds, PhisOrdered, SameBelow, Get, Hosts, AllBound;
    HostedParts(g, x, body, l);
    var phis2 := Enter(g, args, phis, l.Header(), 0);
    EnterBelow(g, args, phis, l.Header(), 0);
    var next := Scoped(env1, env);
    forall y: Name | Get<bool>(f, y).Some?
      ensures y in next && Get<NodeId>(l.Names(), y).Some? && Get<NodeId>(l.Names(), y).value < |l.s3.g|
      ensures Value(g, args, phis2, Get<NodeId>(l.Names(), y).value) == Some(next[y])
    {
      var j := LoopNames(x, body, l, y);
      var n := Get<NodeId>(l.Names(), y).value;
      assert Get<bool>(fb, y).Some? && y in env1;
      if y in l.acc {
        LoopPhiEntry(g, args, phis, x, body, l, j, 0, env1[y]);
      } else {
        ValueFrame(g, args, before, phis, |l.s3.g|, n);
        ValueFrame(g, args, phis, phis2, l.Header(), n);
      }
    }
    ValueFrame(g, args, before, phis, |l.s3.g|, l.Header() + 1);
    StepOf(g, args, phis, x, body, l, Wrap(i));
    IndexEntry(g, args, phis, x, body, l, 0, Wrap(Wrap(i) + 1));
    ValueFrame(g, args, before, phis, |l.s3.g|, l.hi);
    ValueFrame(g, args, phis, phis2, l.Header(), l.hi);
    WrapNext(i);
  }

  lemma StepOf(g: seq<Node>, args: seq<Word>, phis: Phis, x: Name, body: Stmt, l: LoopStages, w: Word)
    requires LoopHosted(g, x, body, l) && Value(g, args, phis, l.Header() + 1) == Some(w)
    ensures Value(g, args, phis, l.next) == Some(Wrap(w + 1))
  {
    hide Value, LoopBinds, LoopBuilt, Hosts, PhisOrdered;
    assert Steps(g, l);
  }

  lemma WrapNext(i: int)
    ensures Wrap(Wrap(i) + 1) == Wrap(i + 1)
  {
  }

  lemma TestValue(g: seq<Node>, args: seq<Word>, phis: Phis, x: Name, body: Stmt, l: LoopStages, i: int, hi: Word)
    requires LoopHosted(g, x, body, l) && -HALF <= i < HALF
    requires Value(g, args, phis, l.Header() + 1) == Some(Wrap(i)) && Value(g, args, phis, l.hi) == Some(hi)
    ensures Value(g, args, phis, l.Test()) == Some(Truth(i < Signed(hi)))
  {
    hide Hosts, PhisOrdered, LoopHosted;
    HostedParts(g, x, body, l);
    var ins := [l.Header() + 1, l.hi];
    assert g[l.Test()].inputs == ins && ins[0] < l.Test() && ins[1] < l.Test();
    CompareValue(g, args, phis, l.Test(), l.Header() + 1, l.hi, i, hi);
  }

  lemma CompareValue(g: seq<Node>, args: seq<Word>, phis: Phis, n: NodeId, a: NodeId, b: NodeId, i: int, hi: Word)
    requires -HALF <= i < HALF && n < |g| && g[n].kind == Bin(CmpLt) && g[n].inputs == [a, b] && a < n && b < n
    requires Value(g, args, phis, a) == Some(Wrap(i)) && Value(g, args, phis, b) == Some(hi)
    ensures Value(g, args, phis, n) == Some(Truth(i < Signed(hi)))
  {
    hide SignatureIndex, BitWord, TruncDiv, TruncMod, Pow2, Product;
    assert Signed(Wrap(i)) == i;
    assert EvalBin(CmpLt, Wrap(i), hi) == Some(Truth(i < Signed(hi)));
  }

  lemma TakeTest(g: seq<Node>, args: seq<Word>, phis: Phis, x: Name, body: Stmt, l: LoopStages, c: bool)
    requires LoopHosted(g, x, body, l) && Value(g, args, phis, l.Test()) == Some(Truth(c))
    ensures Reaches(g, args, Point(l.Header(), phis), Point(if c then l.Test() + 2 else l.Test() + 3, phis))
  {
    hide Value, Hosts, PhisOrdered, LoopHosted, Reaches, LoopBinds;
    HostedParts(g, x, body, l);
    TakeArm(g, args, phis, l.Test() + 1, l.Header(), l.Test(), Truth(c));
  }

  lemma EnterLoop(g: seq<Node>, args: seq<Word>, phis: Phis, x: Name, body: Stmt, l: LoopStages, k: nat)
    requires LoopHosted(g, x, body, l) && k < 2
    ensures Reaches(g, args, Point(if k == 0 then l.s4.ctrl else l.s2.ctrl, phis),
                    Point(l.Header(), Enter(g, args, phis, l.Header(), k)))
  {
    hide Value, Hosts, PhisOrdered, LoopHosted, Reaches, LoopBinds, Enter;
    HostedParts(g, x, body, l);
    var from := Point(if k == 0 then l.s4.ctrl else l.s2.ctrl, phis);
    assert g[l.Header()].inputs[k] == from.ctrl;
    OneStep(g, args, from, l.Header(), Point(l.Header(), Enter(g, args, phis, l.Header(), k)));
  }

  lemma {:induction false} TurnsMean(x: Name, body: Stmt, l: LoopStages, f: Frame, g: seq<Node>, args: seq<Word>,
        phis: Phis, env: Env, i: int, hi: Word)
    requires LoopHosted(g, x, body, l) && AtHead(g, args, phis, l, f, env, i, hi) && -HALF <= i < HALF && |g| < INVALID
    requires LowerStmt(body, l.s3) == Some(l.s4) && Get<bool>(f, x).None? && CheckStmt(body, f + [(x, false)]).Some?
    requires BodySeen(body, f) && LoopsSeen(body, f + [(x, false)]) && PlainNestedS(body) && Inv(l.s3)
      && PhisOrdered(l.s3.g)
    ensures Follows(g, args, Point(l.Header(), phis), l.Test() + 3, l.Names(), f, |l.s3.g|, l.Header(),
                    Turns(x, i, Signed(hi), body, env))
    decreases body, 3, Signed(hi) - i, 1
  {
    hide Value, Hosts, PhisOrdered, LoopHosted, Reaches, LoopBinds, Enter, Related, Inv, SameBelow, Proper, Exec,
      LowerStmt,
         CheckStmt, Put, Get, Returns;
    HostedParts(g, x, body, l);
    TestValue(g, args, phis, x, body, l, i, hi);
    TakeTest(g, args, phis, x, body, l, i < Signed(hi));
    SameSelf(phis, l.Header());
    var head, exit := Point(l.Header(), phis), Point(l.Test() + 3, phis);
    if i >= Signed(hi) {
      assert l.Test() + 3 < |g|;
      FollowsHere(g, args, exit, l.Names(), f, |l.s3.g|, l.Header(), env);
      FollowsLater(g, args, head, exit, l.Test() + 3, l.Names(), f, |l.s3.g|, l.Header(), l.Header(), Go(env));
    } else {
      TurnMeans(x, body, l, f, g, args, phis, env, i, hi);
      FollowsLater(g, args, head, Point(l.Test() + 2, phis), l.Test() + 3, l.Names(), f, |l.s3.g|, l.Header(),
        l.Header(),
        Turns(x, i, Signed(hi), body, env));
    }
  }

  /** One turn of the body, and the rest of the turns. */
  lemma {:induction false} TurnMeans(x: Name, body: Stmt, l: LoopStages, f: Frame, g: seq<Node>, args: seq<Word>,
        phis: Phis, env: Env, i: int, hi: Word)
    requires LoopHosted(g, x, body, l) && AtHead(g, args, phis, l, f, env, i, hi) && -HALF <= i < Signed(hi)
      && |g| < INVALID
    requires LowerStmt(body, l.s3) == Some(l.s4) && Get<bool>(f, x).None? && CheckStmt(body, f + [(x, false)]).Some?
    requires BodySeen(body, f) && LoopsSeen(body, f + [(x, false)]) && PlainNestedS(body) && Inv(l.s3)
      && PhisOrdered(l.s3.g)
    ensures Follows(g, args, Point(l.Test() + 2, phis), l.Test() + 3, l.Names(), f, |l.s3.g|, l.Header(),
                    Turns(x, i, Signed(hi), body, env))
    decreases body, 3, Signed(hi) - i, 0
  {
    hide Value, Hosts, PhisOrdered, LoopHosted, Reaches, LoopBinds, Enter, Related, Inv, SameBelow, Proper, Exec,
      LowerStmt,
         CheckStmt, Put, Get, Returns, BodySeen, LoopsSeen, PlainNestedS;
    HostedParts(g, x, body, l);
    var inner := f + [(x, false)];
    var turn := env[x := Wrap(i)];
    Extended(f, x, false);
    RelatedPut(g, args, phis, l.Names(), f, env, |l.s3.g|, x, l.Header() + 1, Wrap(i), inner);
    StmtMeans(body, l.s3, inner, g, args, phis, turn);
    var o := Exec(body, turn);
    var fb := CheckStmt(body, inner).value;
    if o.Go? {
      var phisB: Phis :| Reaches(g, args, Point(l.s3.ctrl, phis), Point(l.s4.ctrl, phisB))
        && Related(g, args, phisB, l.s4.names, fb, o.env, |l.s4.g|) && SameBelow(phis, phisB, |l.s3.g|)
        && Proper(g, phisB);
      UntouchedByBody(x, body, f, env, i, g, args, phis, l);
      CheckGrows(body, inner);
      HeadFromBelow(g, args, phis, phisB, x, body, l, f, fb, env, o.env, i, hi);
      var phis2 := Enter(g, args, phisB, l.Header(), 0);
      var next := Scoped(o.env, env);
      TurnsMean(x, body, l, f, g, args, phis2, next, i + 1, hi);
      EnterLoop(g, args, phisB, x, body, l, 0);
      GoOn(g, args, Point(l.s3.ctrl, phis), Point(l.s4.ctrl, phisB), Point(l.Header(), phis2));
      EnterBelow(g, args, phisB, l.Header(), 0);
      SameNarrow(phis, phisB, |l.s3.g|, l.Header());
      SameBelowOn(phis, phisB, phis2, l.Header(), l.Header());
      FollowsLater(g, args, Point(l.s3.ctrl, phis), Point(l.Header(), phis2), l.Test() + 3, l.Names(), f, |l.s3.g|,
        l.Header(), l.Header(), Turns(x, i + 1, Signed(hi), body, next));
    }
  }

  lemma SameNarrow(a: Phis, b: Phis, k: nat, k': nat)
    requires SameBelow(a, b, k) && k' <= k
    ensures SameBelow(a, b, k')
  {
  }

  lemma UntouchedByBody(x: Name, body: Stmt, f: Frame, env: Env, i: int, g: seq<Node>, args: seq<Word>, phis: Phis,
                        l: LoopStages)
    requires Get<bool>(f, x).None? && CheckStmt(body, f + [(x, false)]).Some? && BodySeen(body, f)
    requires Related(g, args, phis, l.Names(), f, env, |l.s3.g|) && Exec(body, env[x := Wrap(i)]).Go?
    ensures var env1 := Exec(body, env[x := Wrap(i)]).env;
      forall y: Name :: Get<bool>(f, y).Some? && y !in AssignedS(body) ==> y in env1 && env1[y] == env[y]
  {
    hide Value, Exec, CheckStmt, AssignedS, TouchedS;
    var env1 := Exec(body, env[x := Wrap(i)]).env;
    forall y: Name | Get<bool>(f, y).Some? && y !in AssignedS(body) ensures y in env1 && env1[y] == env[y] {
      GetSnoc(f, x, false, y);
      ExecFrame(body, f + [(x, false)], env[x := Wrap(i)], y);
    }
  }

  lemma {:induction false} ForMeans(x: Name, lo: Expr, hi: Expr, body: Stmt, s: Lower, f: Frame, g: seq<Node>,
                                    args: seq<Word>, phis: Phis, env: Env)
    requires var st := ForStmt(x, lo, hi, body);
      && LowerStmt(st, s).Some? && CheckStmt(st, f).Some? && LoopsSeen(st, f) && PlainNestedS(st)
      && Inv(s) && PhisOrdered(s.g) && Hosts(g, s, LowerStmt(st, s).value) && |g| < INVALID
      && s.ctrl != INVALID && Proper(g, phis) && Related(g, args, phis, s.names, f, env, |s.g|)
    ensures var st := ForStmt(x, lo, hi, body); var s' := LowerStmt(st, s).value;
      Follows(g, args, Point(s.ctrl, phis), s'.ctrl, s'.names, CheckStmt(st, f).value, |s'.g|, |s.g|, Exec(st, env))
    decreases ForStmt(x, lo, hi, body), 1
  {
    hide Value, Hosts, PhisOrdered, LoopHosted, Reaches, LoopBinds, LoopGraph, LoopStep, Enter, Related, Inv, SameBelow,
         Proper, LowerFor, LowerExpr, EvalExpr, Put, Get, Returns, BodySeen, LoopsSeen, PlainNestedS, Follows,
         Continues, Turns,
         AcceptsExpr, ContainsUnlowerable;
    var l := LoopStagesOf(x, lo, hi, body, s);
    var s' := LowerStmt(ForStmt(x, lo, hi, body), s).value;
    LoopRanges(g, s, l);
    LoopParts(x, lo, hi, body, f);
    if EvalExpr(lo, env).Some? {
      ExprMeans(lo, s, f, g, args, phis, env);
      var (a, env1) := EvalExpr(lo, env).value;
      if EvalExpr(hi, env1).Some? {
        ExprMeans(hi, l.s1, f, g, args, phis, env1);
        var (b, env2) := EvalExpr(hi, env1).value;
        InvParts(l.s2, l.Header());
        LoopIsHosted(g, x, body, l);
        HostsOrdered(g, l.s2, l.s5);
        LoopFits(g, x, body, l);
        HeadFromAbove(g, args, phis, x, body, l, f, env2, a, b);
        var phis1 := Enter(g, args, phis, l.Header(), 1);
        SignedRange(a);
        TurnsMean(x, body, l, f, g, args, phis1, env2, Signed(a), b);
        EnterLoop(g, args, phis, x, body, l, 1);
        EnterBelow(g, args, phis, l.Header(), 1);
        SameNarrow(phis, phis1, l.Header(), |s.g|);
        FollowsLater(g, args, Point(s.ctrl, phis), Point(l.Header(), phis1), l.Test() + 3, l.Names(), f, |l.s3.g|,
          |s.g|, l.Header(), Turns(x, Signed(a), Signed(b), body, env2));
        FollowsWiden(g, args, Point(s.ctrl, phis), l.Test() + 3, l.Names(), f, |l.s3.g|, |l.s5.g|, |s.g|,
          Turns(x, Signed(a), Signed(b), body, env2));
      } else {
        FollowsStuck(g, args, Point(s.ctrl, phis), s'.ctrl, s'.names, f, |s'.g|, |s.g|);
      }
    } else {
      FollowsStuck(g, args, Point(s.ctrl, phis), s'.ctrl, s'.names, f, |s'.g|, |s.g|);
    }
  }

  lemma FollowsWiden(g: seq<Node>, args: seq<Word>, p: Point, to: NodeId, names: Assoc<NodeId>, f: Frame, k: nat,
        k': nat, low: nat, o: Outcome)
    requires Follows(g, args, p, to, names, f, k, low, o) && k <= k'
    ensures Follows(g, args, p, to, names, f, k', low, o)
  {
    hide Reaches, Related, SameBelow, Returns, Proper;
    if o.Go? {
      var phis: Phis :| Reaches(g, args, p, Point(to, phis)) && Related(g, args, phis, names, f, o.env, k)
        && SameBelow(p.phis, phis, low) && Proper(g, phis);
      RelatedWiden(g, args, phis, names, f, o.env, k, k');
    }
  }

  lemma SignedRange(w: Word)
    ensures -HALF <= Signed(w) < HALF
  {
  }

  lemma LoopParts(x: Name, lo: Expr, hi: Expr, body: Stmt, f: Frame)
    requires LoopsSeen(ForStmt(x, lo, hi, body), f) && PlainNestedS(ForStmt(x, lo, hi, body))
    ensures BodySeen(body, f) && LoopsSeen(body, f + [(x, false)])
    ensures PlainNested(lo) && PlainNested(hi) && PlainNestedS(body)
  {
  }

  lemma LoopRanges(g: seq<Node>, s: Lower, l: LoopStages)
    requires Hosts(g, s, l.s5) && Continues(s, l.s1) && Continues(l.s1, l.s2) && Continues(l.s2, l.s5)
    ensures Hosts(g, s, l.s1) && Hosts(g, l.s1, l.s2) && Hosts(g, l.s2, l.s5) && |s.g| <= l.Header()
  {
    hide Hosts, Continues;
    ContinuesOn(s, l.s1, l.s2);
    HostsParts(g, s, l.s2, l.s5);
    HostsParts(g, s, l.s1, l.s2);
    GraphGrows(s, l.s2);
  }

  lemma LoopFits(g: seq<Node>, x: Name, body: Stmt, l: LoopStages)
    requires LoopHosted(g, x, body, l) && LoopGraph(l)
    ensures l.Header() < |g| && |l.s3.g| <= |l.s5.g| && l.s5.ctrl == l.Test() + 3 && l.s5.names == l.Names()
  {
    hide Value, Hosts;
    HostedParts(g, x, body, l);
  }
}
