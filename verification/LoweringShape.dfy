/** What lowering does to the graph and the bindings, apart from what they mean. */
module LoweringShape {
  import opened Wrappers
  import opened Words
  import opened Finite
  import opened IR
  import opened Ast
  import opened TypeChecker
  import opened Lowering

  // ---- Invariants of the lowerer's fields ----

  ghost predicate NamesBelow(names: Assoc<NodeId>, k: nat) {
    forall x :: Get<NodeId>(names, x).Some? ==> Get<NodeId>(names, x).value < k
  }

  ghost predicate UniqueKeys<V>(m: Assoc<V>) {
    forall i, j :: 0 <= i < j < |m| ==> m[i].0 != m[j].0
  }

  /** Interned nodes come after their inputs. */
  ghost predicate TableBelow(table: map<(NodeKind, seq<NodeId>), NodeId>, k: nat) {
    forall key :: key in table ==>
      table[key] < k && (key.0.Bin? || key.0.Un?) && forall i :: 0 <= i < |key.1| ==> key.1[i] < table[key]
  }

  ghost predicate Inv(s: Lower) {
    && NamesBelow(s.names, |s.g|) && UniqueKeys(s.names) && TableBelow(s.table, |s.g|)
    && (s.ctrl != INVALID ==> s.ctrl < |s.g|)
  }

  /** Phis hang on merges made before them. */
  ghost predicate PhisOrdered(g: seq<Node>) {
    forall f: NodeId :: f < |g| && g[f].kind.Phi? && g[f].inputs != [] ==> g[f].inputs[0] < f
  }

  /** `later` continues `earlier`: nothing is changed, only added. */
  ghost predicate Continues(earlier: Lower, later: Lower) {
    && |earlier.g| <= |later.g| && (forall i: nat :: i < |earlier.g| ==> later.g[i] == earlier.g[i])
    && (forall key :: key in earlier.table ==> key in later.table && later.table[key] == earlier.table[key])
    && (forall x :: Get<NodeId>(earlier.names, x).Some? ==> Get<NodeId>(later.names, x).Some?)
  }

  /** The names an update leaves: the old ones, and the updated one. */
  lemma {:induction false} PutNames<V>(m: Assoc<V>, x: Name, v: V, i: nat)
    requires i < |Put(m, x, v)|
    ensures Put(m, x, v)[i].0 == x || exists j :: 0 <= j < |m| && m[j].0 == Put(m, x, v)[i].0
    decreases |m|
  {
    if m != [] && m[0].0 != x && i > 0 {
      PutNames(m[1..], x, v, i - 1);
      var y := Put(m[1..], x, v)[i - 1].0;
      if y != x {
        var j :| 0 <= j < |m[1..]| && m[1..][j].0 == y;
        assert m[j + 1].0 == y;
      }
    } else if m != [] && m[0].0 == x && i > 0 {
      assert m[i].0 == Put(m, x, v)[i].0;
    }
  }

  lemma {:induction false} PutUnique<V>(m: Assoc<V>, x: Name, v: V)
    requires UniqueKeys(m)
    ensures UniqueKeys(Put(m, x, v))
    decreases |m|
  {
    if m != [] && m[0].0 != x {
      var tail, r := m[1..], Put(m[1..], x, v);
      forall i, j | 0 <= i < j < |tail| ensures tail[i].0 != tail[j].0 {
        assert tail[i] == m[i + 1] && tail[j] == m[j + 1];
      }
      PutUnique(tail, x, v);
      forall i | 0 <= i < |r| ensures r[i].0 != m[0].0 {
        PutNames(tail, x, v, i);
        if r[i].0 != x {
          var j :| 0 <= j < |tail| && tail[j].0 == r[i].0;
          assert tail[j] == m[j + 1];
        }
      }
      assert Put(m, x, v) == [m[0]] + r;
      hide Put;
    }
  }

  lemma Bind(s: Lower, x: Name, n: NodeId)
    requires Inv(s) && n < |s.g|
    ensures Inv(s.(names := Put<NodeId>(s.names, x, n))) && Continues(s, s.(names := Put<NodeId>(s.names, x, n)))
  {
    PutUnique(s.names, x, n);
  }

  lemma MakeKeeps(s: Lower, kind: NodeKind, inputs: seq<NodeId>, payload: Word)
    requires Inv(s)
    ensures Inv(Make(s, kind, inputs, payload)) && Continues(s, Make(s, kind, inputs, payload))
    ensures PhisOrdered(s.g) && (kind.Phi? ==> inputs != [] ==> inputs[0] < |s.g|) ==>
      PhisOrdered(Make(s, kind, inputs, payload).g)
  {
  }

  lemma InternKeeps(s: Lower, kind: NodeKind, inputs: seq<NodeId>)
    requires Inv(s) && PhisOrdered(s.g) && (kind.Bin? || kind.Un?) && forall i :: 0 <= i < |inputs| ==>
      inputs[i] < |s.g|
    ensures var (s', n) := Intern(s, kind, inputs);
      Inv(s') && PhisOrdered(s'.g) && Continues(s, s') && n < |s'.g| && s'.ctrl == s.ctrl && s'.eff == s.eff
  {
  }

  lemma ContinuesOn(a: Lower, b: Lower, c: Lower)
    requires Continues(a, b) && Continues(b, c)
    ensures Continues(a, c)
  {
  }

  lemma CurrentKeeps(s: Lower, x: Name)
    requires Inv(s) && PhisOrdered(s.g)
    ensures var (s', n) := Current(s, x);
      Inv(s') && PhisOrdered(s'.g) && Continues(s, s') && n < |s'.g| && s'.ctrl == s.ctrl && s'.eff == s.eff
  {
  }

  lemma {:induction false} ExprKeeps(e: Expr, s: Lower)
    requires Inv(s) && PhisOrdered(s.g)
    ensures var (s', n) := LowerExpr(e, s);
      Inv(s') && PhisOrdered(s'.g) && Continues(s, s') && n < |s'.g| && s'.ctrl == s.ctrl && s'.eff == s.eff
    decreases e
  {
    hide Inv, PhisOrdered, Continues, Intern, Current;
    match e
    case IntLit(w) => LeafKeeps(s, Constant, w);
    case BoolLit(b) => LeafKeeps(s, Constant, Truth(b));
    case Ident(x) =>
      BoundBelow(s, x);
      LeafKeeps(s, Parameter, 0);
      assert Get<NodeId>(s.names, x).Some? ==> LowerExpr(e, s) == (s, Get<NodeId>(s.names, x).value);
    case Binary(op, l, r) =>
      ExprKeeps(l, s);
      var (s1, a) := LowerExpr(l, s);
      ExprKeeps(r, s1);
      var (s2, b) := LowerExpr(r, s1);
      ContinuesOn(s, s1, s2);
      GraphGrows(s1, s2);
      InternKeeps(s2, Bin(NodeKindOf(op)), [a, b]);
      ContinuesOn(s, s2, Intern(s2, Bin(NodeKindOf(op)), [a, b]).0);
    case Unary(op, x) =>
      ExprKeeps(x, s);
      var (s1, a) := LowerExpr(x, s);
      InternKeeps(s1, Un(UnaryKindOf(op)), [a]);
      ContinuesOn(s, s1, Intern(s1, Un(UnaryKindOf(op)), [a]).0);
    case Assign(x, how, r) =>
      ExprKeeps(r, s);
      var (s1, b) := LowerExpr(r, s);
      AssignKeeps(x, NestedKindOf(how), s, s1, b);
    case NotLowered => LeafKeeps(s, Constant, 0);
  }

  lemma LeafKeeps(s: Lower, kind: NodeKind, w: Word)
    requires Inv(s) && PhisOrdered(s.g) && !kind.Phi?
    ensures var s' := Make(s, kind, [], w);
      Inv(s') && PhisOrdered(s'.g) && Continues(s, s') && |s.g| < |s'.g| && s'.ctrl == s.ctrl && s'.eff == s.eff
    ensures Continues(s, s)
  {
  }

  lemma BoundBelow(s: Lower, x: Name)
    requires Inv(s)
    ensures Get<NodeId>(s.names, x).Some? ==> Get<NodeId>(s.names, x).value < |s.g|
  {
  }

  lemma GraphGrows(a: Lower, b: Lower)
    requires Continues(a, b)
    ensures |a.g| <= |b.g|
  {
  }

  lemma AssignKeeps(x: Name, op: Option<BinOp>, s: Lower, s1: Lower, b: NodeId)
    requires Inv(s1) && PhisOrdered(s1.g) && Continues(s, s1) && b < |s1.g| && s1.ctrl == s.ctrl && s1.eff == s.eff
    ensures var (s', n) := LowerAssign(x, op, s1, b);
      Inv(s') && PhisOrdered(s'.g) && Continues(s, s') && n < |s'.g| && s'.ctrl == s.ctrl && s'.eff == s.eff
  {
    hide Inv, PhisOrdered, Continues, Intern, Current;
    var s' := LowerAssign(x, op, s1, b).0;
    match op
    case None =>
      Bind(s1, x, b);
      ContinuesOn(s, s1, s');
    case Some(k) =>
      CurrentKeeps(s1, x);
      var (s2, cur) := Current(s1, x);
      GraphGrows(s1, s2);
      InternKeeps(s2, Bin(k), [cur, b]);
      var (s3, n) := Intern(s2, Bin(k), [cur, b]);
      Bind(s3, x, n);
      ContinuesOn(s, s1, s2);
      ContinuesOn(s, s2, s3);
      ContinuesOn(s, s3, s');
  }

  lemma AssignStmtKeeps(x: Name, how: AssignToken, r: Expr, s: Lower)
    requires Inv(s) && PhisOrdered(s.g)
    ensures var s' := LowerStmt(AssignStmt(x, how, r), s).value;
      Inv(s') && PhisOrdered(s'.g) && Continues(s, s') && s'.ctrl == s.ctrl && s'.eff == s.eff
  {
    hide Inv, PhisOrdered, Continues, LowerAssign, LowerExpr;
    ExprKeeps(r, s);
    var (s1, b) := LowerExpr(r, s);
    AssignKeeps(x, CompoundKindOf(how), s, s1, b);
  }

  // ---- Accumulators ----

  /** The names the walk over a loop body sees assigned. */
  function AssignedS(s: Stmt): set<Name>
    decreases s
  {
    match s
    case Let(_, _, init) => if init.Some? then AssignedE(init.value) else {}
    case Do(e) => AssignedE(e)
    case AssignStmt(x, _, r) => AssignedE(r) + {x}
    case ReturnStmt(r) => if r.Some? then AssignedE(r.value) else {}
    case IfStmt(c, y, n) => AssignedE(c) + AssignedS(y) + if n.Some? then AssignedS(n.value) else {}
    case BlockStmt(stmts) => AssignedAll(stmts)
    case ForStmt(_, _, _, body) => AssignedS(body)
    case MatchStmt => {}
  }

  function AssignedAll(stmts: seq<Stmt>): set<Name>
    decreases stmts
  {
    if stmts == [] then {} else AssignedS(stmts[0]) + AssignedAll(stmts[1..])
  }

  function AssignedT(t: Tree): set<Name> {
    match t case TreeOfExpr(e) => AssignedE(e) case TreeOfStmt(s) => AssignedS(s)
  }

  ghost predicate AssignedIn(ts: seq<Tree>, x: Name) {
    exists i :: 0 <= i < |ts| && x in AssignedT(ts[i])
  }

  lemma {:induction false} AssignedInStmts(stmts: seq<Stmt>, x: Name)
    ensures x in AssignedAll(stmts) <==> AssignedIn(TreesOf(stmts), x)
    decreases |stmts|
  {
    var ts := TreesOf(stmts);
    if stmts != [] {
      AssignedInStmts(stmts[1..], x);
      var rest := TreesOf(stmts[1..]);
      assert forall i :: 0 <= i < |rest| ==> rest[i] == ts[i + 1];
      if AssignedIn(rest, x) {
        var i :| 0 <= i < |rest| && x in AssignedT(rest[i]);
        assert x in AssignedT(ts[i + 1]);
      }
      if x in AssignedS(stmts[0]) {
        assert x in AssignedT(ts[0]);
      }
      if AssignedIn(ts, x) {
        var i :| 0 <= i < |ts| && x in AssignedT(ts[i]);
        if i > 0 { assert x in AssignedT(rest[i - 1]); }
      }
    }
  }

  lemma AssignedInAppend(a: seq<Tree>, b: seq<Tree>, x: Name)
    ensures AssignedIn(a + b, x) <==> AssignedIn(a, x) || AssignedIn(b, x)
  {
    if i :| 0 <= i < |a| && x in AssignedT(a[i]) {
      assert x in AssignedT((a + b)[i]);
    }
    if i :| 0 <= i < |b| && x in AssignedT(b[i]) {
      assert x in AssignedT((a + b)[|a| + i]);
    }
    if i :| 0 <= i < |a + b| && x in AssignedT((a + b)[i]) {
      if i < |a| { assert x in AssignedT(a[i]); } else { assert x in AssignedT(b[i - |a|]); }
    }
  }

  lemma AssignedTwo(a: Tree, b: Tree, x: Name)
    ensures AssignedIn([a], x) <==> x in AssignedT(a)
    ensures AssignedIn([a, b], x) <==> x in AssignedT(a) || x in AssignedT(b)
  {
    assert x in AssignedT(a) ==> x in AssignedT([a][0]);
    assert x in AssignedT(a) ==> x in AssignedT([a, b][0]);
    assert x in AssignedT(b) ==> x in AssignedT([a, b][1]);
  }

  /** A node assigns what it assigns itself and what the nodes pushed for it assign. */
  lemma PushedAssigns(t: Tree, x: Name)
    ensures x in AssignedT(t) <==> Assigns(t) == Some(x) || AssignedIn(Pushed(t), x)
  {
    match t
    case TreeOfExpr(Binary(_, l, r)) => AssignedTwo(TreeOfExpr(l), TreeOfExpr(r), x);
    case TreeOfExpr(Unary(_, e)) => AssignedTwo(TreeOfExpr(e), TreeOfExpr(e), x);
    case TreeOfExpr(Assign(_, _, r)) => AssignedTwo(TreeOfExpr(r), TreeOfExpr(r), x);
    case TreeOfExpr(_) =>
    case TreeOfStmt(Let(_, _, init)) =>
      if init.Some? { AssignedTwo(TreeOfExpr(init.value), TreeOfExpr(init.value), x); }
    case TreeOfStmt(Do(e)) => AssignedTwo(TreeOfExpr(e), TreeOfExpr(e), x);
    case TreeOfStmt(AssignStmt(_, _, r)) => AssignedTwo(TreeOfExpr(r), TreeOfExpr(r), x);
    case TreeOfStmt(ReturnStmt(r)) =>
      if r.Some? { AssignedTwo(TreeOfExpr(r.value), TreeOfExpr(r.value), x); }
    case TreeOfStmt(IfStmt(c, y, n)) =>
      AssignedTwo(TreeOfExpr(c), TreeOfStmt(y), x);
      assert [TreeOfExpr(c), TreeOfStmt(y)] + [] == [TreeOfExpr(c), TreeOfStmt(y)];
      if n.Some? {
        AssignedTwo(TreeOfStmt(n.value), TreeOfStmt(n.value), x);
        AssignedInAppend([TreeOfExpr(c), TreeOfStmt(y)], [TreeOfStmt(n.value)], x);
      }
    case TreeOfStmt(BlockStmt(stmts)) => AssignedInStmts(stmts, x);
    case TreeOfStmt(ForStmt(_, _, _, body)) => AssignedTwo(TreeOfStmt(body), TreeOfStmt(body), x);
    case TreeOfStmt(MatchStmt) =>
  }

  lemma {:induction false} CollectMembers(stack: seq<Tree>, outer: Assoc<NodeId>, found: seq<Name>)
    requires Distinct(found)
    ensures Distinct(Collect(stack, outer, found))
    ensures forall x :: x in Collect(stack, outer, found) <==>
      x in found || (Get<NodeId>(outer, x).Some? && AssignedIn(stack, x))
    decreases SizeTrees(stack)
  {
    if stack != [] {
      var rest, t := stack[..|stack| - 1], stack[|stack| - 1];
      PushedSmaller(t);
      SizeTreesAppend(rest, Pushed(t));
      var x := Assigns(t);
      var found' := if x.Some? && Get<NodeId>(outer, x.value).Some? && x.value !in found then found + [x.value]
        else found;
      assert Collect(stack, outer, found) == Collect(rest + Pushed(t), outer, found');
      hide *;
      assert Distinct(found') by { DistinctPush(found, if x.Some? then x.value else 0); }
      CollectMembers(rest + Pushed(t), outer, found');
      assert stack == rest + [t];
      forall y: Name ensures AssignedIn(stack, y) <==> AssignedIn(rest + Pushed(t), y) || x == Some(y) {
        StackAssigns(rest, t, y);
      }
    } else {
      NothingAssigned();
    }
  }

  lemma DistinctPush(found: seq<Name>, x: Name)
    requires Distinct(found)
    ensures x !in found ==> Distinct(found + [x])
  {
  }

  lemma NothingAssigned()
    ensures forall x :: !AssignedIn([], x)
  {
  }

  lemma StackAssigns(rest: seq<Tree>, t: Tree, y: Name)
    ensures AssignedIn(rest + [t], y) <==> AssignedIn(rest + Pushed(t), y) || Assigns(t) == Some(y)
  {
    AssignedInAppend(rest, [t], y);
    AssignedInAppend(rest, Pushed(t), y);
    AssignedTwo(t, t, y);
    PushedAssigns(t, y);
  }

  /** The accumulators of a loop are exactly the outer names its body is seen to assign, each once. */
  lemma AccumulatorsAre(body: Stmt, outer: Assoc<NodeId>)
    ensures Distinct(Accumulators(body, outer))
    ensures forall x :: x in Accumulators(body, outer) <==> Get<NodeId>(outer, x).Some? && x in AssignedS(body)
  {
    hide Collect;
    CollectMembers([TreeOfStmt(body)], outer, []);
    forall x: Name ensures AssignedIn([TreeOfStmt(body)], x) <==> x in AssignedS(body) {
      AssignedTwo(TreeOfStmt(body), TreeOfStmt(body), x);
    }
  }

  // ---- The phis of a loop ----

  /** The ids of the accumulators' phis, made one after the other. */
  function PhiList(acc: seq<Name>, first: NodeId): seq<(Name, NodeId)> {
    if acc == [] then [] else [(acc[0], first)] + PhiList(acc[1..], first + 1)
  }

  lemma {:induction false} PhiListAt(acc: seq<Name>, first: NodeId)
    ensures |PhiList(acc, first)| == |acc|
    ensures forall j :: 0 <= j < |acc| ==> PhiList(acc, first)[j] == (acc[j], first + j)
    decreases |acc|
  {
    if acc != [] {
      PhiListAt(acc[1..], first + 1);
    }
  }

  ghost predicate AllBound(acc: seq<Name>, names: Assoc<NodeId>) {
    forall j :: 0 <= j < |acc| ==> Get<NodeId>(names, acc[j]).Some?
  }

  function OpenNodes(acc: seq<Name>, loop: NodeId, names: Assoc<NodeId>): seq<Node>
    requires AllBound(acc, names)
  {
    if acc == [] then []
    else
      TailBound(acc, names);
      [Bare(Phi, [loop, Get<NodeId>(names, acc[0]).value, INVALID], 0)] + OpenNodes(acc[1..], loop, names)
  }

  lemma TailBound(acc: seq<Name>, names: Assoc<NodeId>)
    requires AllBound(acc, names) && acc != []
    ensures AllBound(acc[1..], names) && Get<NodeId>(names, acc[0]).Some?
  {
    forall j | 0 <= j < |acc[1..]| ensures acc[1..][j] == acc[j + 1] {
    }
  }

  lemma {:induction false} OpenNodesAt(acc: seq<Name>, loop: NodeId, names: Assoc<NodeId>)
    requires AllBound(acc, names)
    ensures |OpenNodes(acc, loop, names)| == |acc|
    ensures forall j :: 0 <= j < |acc| ==>
      OpenNodes(acc, loop, names)[j] == Bare(Phi, [loop, Get<NodeId>(names, acc[j]).value, INVALID], 0)
    decreases |acc|
  {
    if acc != [] {
      TailBound(acc, names);
      OpenNodesAt(acc[1..], loop, names);
    }
  }

  /** Binding another name does not change the entry values. */
  lemma {:induction false} OpenNodesPut(acc: seq<Name>, loop: NodeId, names: Assoc<NodeId>, x: Name, n: NodeId)
    requires AllBound(acc, names) && x !in acc
    ensures AllBound(acc, Put<NodeId>(names, x, n))
    ensures OpenNodes(acc, loop, Put<NodeId>(names, x, n)) == OpenNodes(acc, loop, names)
    decreases |acc|
  {
    if acc != [] {
      assert acc[0] in acc && forall y :: y in acc[1..] ==> y in acc;
      TailBound(acc, names);
      OpenNodesPut(acc[1..], loop, names, x, n);
    }
  }

  lemma TailDistinct(acc: seq<Name>)
    requires Distinct(acc) && acc != []
    ensures Distinct(acc[1..]) && acc[0] !in acc[1..]
  {
  }

  lemma OpenPhisCons(acc: seq<Name>, loop: NodeId, s: Lower)
    requires acc != [] && Get<NodeId>(s.names, acc[0]).Some?
    ensures var entry := Get<NodeId>(s.names, acc[0]).value;
      var s2 := s.(g := s.g + [Bare(Phi, [loop, entry, INVALID], 0)], names := Put<NodeId>(s.names, acc[0], |s.g|));
      var (s3, rest) := OpenPhis(acc[1..], loop, s2);
      OpenPhis(acc, loop, s) == (s3, [(acc[0], |s.g|)] + rest)
  {
    hide Put;
  }

  lemma OpenNodesCons(acc: seq<Name>, loop: NodeId, names: Assoc<NodeId>)
    requires acc != [] && AllBound(acc, names)
    ensures AllBound(acc[1..], names) && Get<NodeId>(names, acc[0]).Some?
    ensures OpenNodes(acc, loop, names)
         == [Bare(Phi, [loop, Get<NodeId>(names, acc[0]).value, INVALID], 0)] + OpenNodes(acc[1..], loop, names)
  {
    TailBound(acc, names);
  }

  lemma PutAllCons(names: Assoc<NodeId>, acc: seq<Name>, first: NodeId)
    requires acc != []
    ensures PhiList(acc, first) == [(acc[0], first)] + PhiList(acc[1..], first + 1)
    ensures PutAll(names, PhiList(acc, first))
         == PutAll(Put<NodeId>(names, acc[0], first), PhiList(acc[1..], first + 1))
  {
    hide Put;
    assert PhiList(acc, first)[1..] == PhiList(acc[1..], first + 1);
  }

  lemma {:induction false} OpenPhisMakes(acc: seq<Name>, loop: NodeId, s: Lower)
    requires Distinct(acc) && AllBound(acc, s.names)
    ensures OpenPhis(acc, loop, s)
         == (s.(g := s.g + OpenNodes(acc, loop, s.names), names := PutAll(s.names, PhiList(acc, |s.g|))),
             PhiList(acc, |s.g|))
    decreases |acc|
  {
    if acc == [] {
      assert s.g + OpenNodes(acc, loop, s.names) == s.g;
    } else {
      hide *;
      OpenNodesCons(acc, loop, s.names);
      var first := Bare(Phi, [loop, Get<NodeId>(s.names, acc[0]).value, INVALID], 0);
      var s2 := s.(g := s.g + [first], names := Put<NodeId>(s.names, acc[0], |s.g|));
      OpenPhisCons(acc, loop, s);
      TailDistinct(acc);
      OpenNodesPut(acc[1..], loop, s.names, acc[0], |s.g|);
      PutAllCons(s.names, acc, |s.g|);
      OpenPhisMakes(acc[1..], loop, s2);
      assert s.g + ([first] + OpenNodes(acc[1..], loop, s.names)) == s2.g + OpenNodes(acc[1..], loop, s.names);
    }
  }

  ghost predicate DistinctIds(phis: seq<(Name, NodeId)>, k: nat) {
    && (forall j :: 0 <= j < |phis| ==> phis[j].1 < k)
    && forall i, j :: 0 <= i < j < |phis| ==> phis[i].1 != phis[j].1 && phis[i].0 != phis[j].0
  }

  ghost predicate IsId(phis: seq<(Name, NodeId)>, n: NodeId) {
    exists j :: 0 <= j < |phis| && phis[j].1 == n
  }

  lemma {:induction false} ClosePhisSets(phis: seq<(Name, NodeId)>, s: Lower)
    requires DistinctIds(phis, |s.g|) && forall j :: 0 <= j < |phis| ==> Get<NodeId>(s.names, phis[j].0).Some?
    requires forall j :: 0 <= j < |phis| ==> |s.g[phis[j].1].inputs| == PHI_INPUTS
    ensures var s' := ClosePhis(phis, s);
      && s' == s.(g := s'.g) && |s'.g| == |s.g|
      && (forall n: nat :: n < |s.g| && !IsId(phis, n) ==> s'.g[n] == s.g[n])
      && (forall j :: 0 <= j < |phis| ==>
            var n := s.g[phis[j].1];
            s'.g[phis[j].1] == n.(inputs := n.inputs[2 := Get<NodeId>(s.names, phis[j].0).value]))
    decreases |phis|
  {
    if phis != [] {
      var back := Get<NodeId>(s.names, phis[0].0).value;
      var s1 := s.(g := SetInput(s.g, phis[0].1, 2, back));
      assert forall j :: 0 <= j < |phis[1..]| ==> phis[1..][j] == phis[j + 1];
      ClosePhisSets(phis[1..], s1);
      var s' := ClosePhis(phis, s);
      forall n: nat | n < |s.g| && !IsId(phis, n) ensures s'.g[n] == s.g[n] {
        assert phis[0].1 != n;
        forall j | 0 <= j < |phis[1..]| ensures phis[1..][j].1 != n {
          assert phis[1..][j] == phis[j + 1];
        }
      }
      assert !IsId(phis[1..], phis[0].1);
    }
  }

  lemma {:induction false} PutAllGets(names: Assoc<NodeId>, phis: seq<(Name, NodeId)>, k: nat, y: Name)
    requires DistinctIds(phis, k)
    ensures (forall j :: 0 <= j < |phis| ==> phis[j].0 != y) ==>
      Get<NodeId>(PutAll(names, phis), y) == Get<NodeId>(names, y)
    ensures forall j :: 0 <= j < |phis| && phis[j].0 == y ==> Get<NodeId>(PutAll(names, phis), y) == Some(phis[j].1)
    decreases |phis|
  {
    if phis != [] {
      assert forall j :: 0 <= j < |phis[1..]| ==> phis[1..][j] == phis[j + 1];
      PutAllGets(Put<NodeId>(names, phis[0].0, phis[0].1), phis[1..], k, y);
    }
  }

  lemma {:induction false} PutAllKeeps(names: Assoc<NodeId>, phis: seq<(Name, NodeId)>, k: nat)
    requires NamesBelow(names, k) && UniqueKeys(names) && forall j :: 0 <= j < |phis| ==> phis[j].1 < k
    ensures NamesBelow(PutAll(names, phis), k) && UniqueKeys(PutAll(names, phis))
    ensures forall x :: Get<NodeId>(names, x).Some? ==> Get<NodeId>(PutAll(names, phis), x).Some?
    decreases |phis|
  {
    if phis != [] {
      PutUnique(names, phis[0].0, phis[0].1);
      assert forall j :: 0 <= j < |phis[1..]| ==> phis[1..][j] == phis[j + 1];
      PutAllKeeps(Put<NodeId>(names, phis[0].0, phis[0].1), phis[1..], k);
    }
  }

  // ---- Statements ----

  lemma {:induction false} MergeKeeps(yes: Assoc<NodeId>, no: Assoc<NodeId>, merge: NodeId, s: Lower)
    requires Inv(s) && PhisOrdered(s.g) && merge < |s.g|
    requires forall i :: 0 <= i < |yes| ==> yes[i].1 < |s.g|
    ensures var s' := MergeNames(yes, no, merge, s);
      Inv(s') && PhisOrdered(s'.g) && Continues(s, s') && s'.ctrl == s.ctrl && s'.eff == s.eff && s'.table == s.table
    decreases |yes|
  {
    if yes != [] {
      var (x, t) := yes[0];
      var e := Get<NodeId>(no, x);
      assert forall i :: 0 <= i < |yes[1..]| ==> yes[1..][i] == yes[i + 1];
      var s1: Lower;
      if e.Some? && e.value != t {
        var m := Make(s, Phi, [merge, t, e.value], 0);
        MakeKeeps(s, Phi, [merge, t, e.value], 0);
        s1 := m.(names := Put<NodeId>(s.names, x, |s.g|));
        Bind(m, x, |s.g|);
        ContinuesOn(s, m, s1);
      } else {
        s1 := s.(names := Put<NodeId>(s.names, x, t));
        Bind(s, x, t);
      }
      hide Inv, PhisOrdered, Continues;
      GraphGrows(s, s1);
      MergeKeeps(yes[1..], no, merge, s1);
      ContinuesOn(s, s1, MergeNames(yes, no, merge, s));
    }
  }

  lemma {:induction false} EntriesBelow(names: Assoc<NodeId>, k: nat)
    requires NamesBelow(names, k) && UniqueKeys(names)
    ensures forall i :: 0 <= i < |names| ==> Get<NodeId>(names, names[i].0) == Some(names[i].1) && names[i].1 < k
  {
    forall i | 0 <= i < |names| ensures Get<NodeId>(names, names[i].0) == Some(names[i].1) {
      GetAt(names, i);
    }
  }

  lemma {:induction false} GetAt(names: Assoc<NodeId>, i: nat)
    requires UniqueKeys(names) && i < |names|
    ensures Get<NodeId>(names, names[i].0) == Some(names[i].1)
    decreases |names|
  {
    if i > 0 {
      assert forall j :: 0 <= j < |names[1..]| ==> names[1..][j] == names[j + 1];
      GetAt(names[1..], i - 1);
    }
  }

  // ---- Loops ----

  /** The graph just before a loop's body is lowered. */
  function OpenGraph(g: seq<Node>, ctrl: NodeId, lo: NodeId, hi: NodeId, accs: seq<Node>): seq<Node> {
    var loop := |g|;
    var cmp := loop + 2 + |accs|;
    g + [Bare(Loop, [ctrl, ctrl], 0), Bare(Phi, [loop, lo, INVALID], 0)] + accs
    + [Bare(Bin(CmpLt), [loop + 1, hi], 0), Bare(If, [loop, cmp], 0), Bare(Proj, [cmp + 1], 0),
      Bare(Proj, [cmp + 1], 1)]
  }

  lemma OpenLoopMakes(x: Name, lo: NodeId, hi: NodeId, body: Stmt, s: Lower)
    requires AllBound(Accumulators(body, s.names), s.names) && Distinct(Accumulators(body, s.names))
    ensures var acc := Accumulators(body, s.names);
      var loop := |s.g|; var cmp := loop + 2 + |acc|;
      var phis := PhiList(acc, loop + 2);
      OpenLoop(x, lo, hi, body, s)
      == (s.(g := OpenGraph(s.g, s.ctrl, lo, hi, OpenNodes(acc, loop, s.names)),
             names := Put<NodeId>(PutAll(s.names, phis), x, loop + 1), ctrl := cmp + 2), phis)
  {
    hide Accumulators, PutAll, Put, Get, OpenPhis;
    var acc := Accumulators(body, s.names);
    var loop := |s.g|;
    var s1 := Make(Make(s, Loop, [s.ctrl, s.ctrl], 0), Phi, [loop, lo, INVALID], 0);
    OpenPhisMakes(acc, loop, s1);
    var accs := OpenNodes(acc, loop, s.names);
    OpenNodesAt(acc, loop, s.names);
    hide OpenNodes, PhiList;
    assert s1.g == s.g + [Bare(Loop, [s.ctrl, s.ctrl], 0), Bare(Phi, [loop, lo, INVALID], 0)];
    var cmp := |s1.g + accs|;
    assert s1.g + accs + [Bare(Bin(CmpLt), [loop + 1, hi], 0)] + [Bare(If, [loop, cmp], 0)]
      + [Bare(Proj, [cmp + 1], 0)] + [Bare(Proj, [cmp + 1], 1)]
      == OpenGraph(s.g, s.ctrl, lo, hi, accs);
  }

  /** The nodes of an open loop. */
  lemma OpenGraphNodes(g: seq<Node>, ctrl: NodeId, lo: NodeId, hi: NodeId, accs: seq<Node>)
    ensures var loop := |g|; var cmp := loop + 2 + |accs|; var r := OpenGraph(g, ctrl, lo, hi, accs);
      && |r| == cmp + 4 && (forall n: nat :: n < loop ==> r[n] == g[n])
      && r[loop] == Bare(Loop, [ctrl, ctrl], 0) && r[loop + 1] == Bare(Phi, [loop, lo, INVALID], 0)
      && (forall j: nat :: j < |accs| ==> r[loop + 2 + j] == accs[j])
      && r[cmp] == Bare(Bin(CmpLt), [loop + 1, hi], 0) && r[cmp + 1] == Bare(If, [loop, cmp], 0)
      && r[cmp + 2] == Bare(Proj, [cmp + 1], 0) && r[cmp + 3] == Bare(Proj, [cmp + 1], 1)
  {
  }

  lemma AccumulatorsBound(body: Stmt, names: Assoc<NodeId>)
    ensures AllBound(Accumulators(body, names), names) && Distinct(Accumulators(body, names))
  {
    AccumulatorsAre(body, names);
    var acc := Accumulators(body, names);
    forall j | 0 <= j < |acc| ensures Get<NodeId>(names, acc[j]).Some? {
      assert acc[j] in acc;
    }
  }

  ghost predicate NamesCover(names: Assoc<NodeId>, names': Assoc<NodeId>) {
    forall x :: Get<NodeId>(names, x).Some? ==> Get<NodeId>(names', x).Some?
  }

  lemma OpenGraphOrdered(g: seq<Node>, ctrl: NodeId, lo: NodeId, hi: NodeId, accs: seq<Node>)
    requires PhisOrdered(g)
    requires forall j :: 0 <= j < |accs| ==> accs[j].inputs != [] && accs[j].inputs[0] == |g|
    ensures PhisOrdered(OpenGraph(g, ctrl, lo, hi, accs))
  {
    var loop, r := |g|, OpenGraph(g, ctrl, lo, hi, accs);
    OpenGraphNodes(g, ctrl, lo, hi, accs);
    hide OpenGraph;
    forall f: NodeId | f < |r| && r[f].kind.Phi? && r[f].inputs != [] ensures r[f].inputs[0] < f {
      if loop + 2 <= f < loop + 2 + |accs| {
        assert r[loop + 2 + (f - loop - 2)] == accs[f - loop - 2];
      }
    }
  }

  lemma OpenNamesKeep(names: Assoc<NodeId>, phis: seq<(Name, NodeId)>, x: Name, n: NodeId, k: nat)
    requires NamesBelow(names, k) && UniqueKeys(names) && n < k && forall j :: 0 <= j < |phis| ==> phis[j].1 < k
    ensures var names' := Put<NodeId>(PutAll(names, phis), x, n);
      NamesBelow(names', k) && UniqueKeys(names') && NamesCover(names, names')
  {
    PutAllKeeps(names, phis, k);
    PutUnique(PutAll(names, phis), x, n);
  }

  /** Adding nodes and names, and moving control, keeps the invariants. */
  lemma GrownKeeps(s: Lower, s': Lower)
    requires Inv(s) && |s.g| <= |s'.g| && (forall n: nat :: n < |s.g| ==> s'.g[n] == s.g[n])
    requires s'.table == s.table && NamesBelow(s'.names, |s'.g|) && UniqueKeys(s'.names)
    requires NamesCover(s.names, s'.names) && s'.ctrl < |s'.g|
    ensures Inv(s') && Continues(s, s')
  {
    hide Get;
  }

  lemma OpenIds(acc: seq<Name>, first: NodeId, k: nat)
    requires first + |acc| <= k && Distinct(acc)
    ensures |PhiList(acc, first)| == |acc| && DistinctIds(PhiList(acc, first), k)
  {
    PhiListAt(acc, first);
  }

  lemma InvParts(s: Lower, k: nat)
    requires Inv(s) && |s.g| <= k
    ensures NamesBelow(s.names, k) && UniqueKeys(s.names)
  {
  }

  lemma OpenGraphFits(g: seq<Node>, ctrl: NodeId, lo: NodeId, hi: NodeId, acc: seq<Name>, names: Assoc<NodeId>)
    requires PhisOrdered(g) && AllBound(acc, names)
    ensures var r := OpenGraph(g, ctrl, lo, hi, OpenNodes(acc, |g|, names));
      PhisOrdered(r) && |r| == |g| + |acc| + 6 && forall n: nat :: n < |g| ==> r[n] == g[n]
  {
    OpenNodesAt(acc, |g|, names);
    OpenGraphOrdered(g, ctrl, lo, hi, OpenNodes(acc, |g|, names));
    OpenGraphNodes(g, ctrl, lo, hi, OpenNodes(acc, |g|, names));
  }

  /** Before its body is lowered, a loop has only added nodes and names. */
  lemma OpenLoopKeeps(x: Name, lo: NodeId, hi: NodeId, body: Stmt, s: Lower)
    requires Inv(s) && PhisOrdered(s.g)
    ensures var (s', phis) := OpenLoop(x, lo, hi, body, s);
      && Inv(s') && PhisOrdered(s'.g) && Continues(s, s') && s'.table == s.table
      && s'.ctrl == |s'.g| - 2 && DistinctIds(phis, |s'.g|)
  {
    hide *;
    var acc := Accumulators(body, s.names);
    AccumulatorsBound(body, s.names);
    OpenLoopMakes(x, lo, hi, body, s);
    OpenGraphFits(s.g, s.ctrl, lo, hi, acc, s.names);
    var r := OpenLoop(x, lo, hi, body, s);
    var k := |s.g| + |acc| + 6;
    InvParts(s, k);
    OpenIds(acc, |s.g| + 2, k);
    OpenNamesKeep(s.names, r.1, x, |s.g| + 1, k);
    GrownKeeps(s, r.0);
  }

  /** A finished loop: header, phis, exit test and projections, from node `loop` on. */
  ghost predicate LoopBuilt(g: seq<Node>, loop: NodeId, entry: NodeId, back: NodeId, lo: NodeId, hi: NodeId,
        next: NodeId, entries: seq<NodeId>, backs: seq<NodeId>)
  {
    var cmp := loop + 2 + |entries|;
    && |entries| == |backs| && cmp + 4 <= |g|
    && g[loop] == Bare(Loop, [back, entry], 0) && g[loop + 1] == Bare(Phi, [loop, lo, next], 0)
    && (forall j: nat :: j < |entries| ==> g[loop + 2 + j] == Bare(Phi, [loop, entries[j], backs[j]], 0))
    && g[cmp] == Bare(Bin(CmpLt), [loop + 1, hi], 0) && g[cmp + 1] == Bare(If, [loop, cmp], 0)
    && g[cmp + 2] == Bare(Proj, [cmp + 1], 0) && g[cmp + 3] == Bare(Proj, [cmp + 1], 1)
  }

  function EntryNodes(acc: seq<Name>, names: Assoc<NodeId>): (r: seq<NodeId>)
    requires AllBound(acc, names)
    ensures |r| == |acc| && forall j :: 0 <= j < |acc| ==> r[j] == Get<NodeId>(names, acc[j]).value
  {
    seq(|acc|, j requires 0 <= j < |acc| => Get<NodeId>(names, acc[j]).value)
  }

  /** The steps of closing a loop, in order. */
  lemma CloseLoopSteps(loop: NodeId, exit: NodeId, phis: seq<(Name, NodeId)>, s: Lower, before: Lower)
    returns (s1: Lower, next: NodeId, s2: Lower)
    ensures (s1, next) == Intern(Make(s, Constant, [], 1), Bin(Add), [loop + 1, |s.g|])
    ensures s2 == ClosePhis(phis, s1.(g := SetInput(s1.g, loop + 1, 2, next)))
    ensures var g := SetInput(s2.g, loop, 0, s.ctrl);
      CloseLoop(loop, exit, phis, s, before)
      == s2.(g := g + [Bare(Phi, [exit, before.eff, s.eff], 0)], eff := |g|, ctrl := exit,
             names := PutAll(before.names, phis))
  {
    hide Intern, ClosePhis, SetInput, PutAll;
    var (t, n) := Intern(Make(s, Constant, [], 1), Bin(Add), [loop + 1, |s.g|]);
    s1, next := t, n;
    s2 := ClosePhis(phis, s1.(g := SetInput(s1.g, loop + 1, 2, next)));
  }

  /** Interning the step of the index. */
  lemma StepInterned(s: Lower, index: NodeId)
    requires Inv(s) && index < |s.g|
    ensures var (s1, next) := Intern(Make(s, Constant, [], 1), Bin(Add), [index, |s.g|]);
      && Inv(s1) && next < |s1.g| && |s1.g| > |s.g| && s1.g[|s.g|] == Bare(Constant, [], 1)
      && (forall n: nat :: n < |s.g| ==> s1.g[n] == s.g[n])
      && s1.names == s.names && (forall key :: key in s.table ==> key in s1.table && s1.table[key] == s.table[key])
      && s1 == s.(g := s1.g, table := s1.table)
      && (PhisOrdered(s.g) ==> PhisOrdered(s1.g))
  {
    MakeKeeps(s, Constant, [], 1);
  }

  ghost predicate LoopOpen(g: seq<Node>, loop: NodeId, lo: NodeId, phis: seq<(Name, NodeId)>) {
    && loop + 1 < |g| && |g[loop].inputs| == 2 && g[loop + 1] == Bare(Phi, [loop, lo, INVALID], 0)
    && DistinctIds(phis, |g|)
    && forall j :: 0 <= j < |phis| ==> phis[j].1 > loop + 1 && |g[phis[j].1].inputs| == PHI_INPUTS
  }

  /** Closing a loop sets the back edge, the last input of each of its phis, and nothing else. */
  lemma CloseLoopSets(loop: NodeId, exit: NodeId, lo: NodeId, phis: seq<(Name, NodeId)>, s: Lower, before: Lower)
    returns (next: NodeId)
    requires Inv(s) && LoopOpen(s.g, loop, lo, phis)
    requires forall j :: 0 <= j < |phis| ==> Get<NodeId>(s.names, phis[j].0).Some?
    ensures var r := CloseLoop(loop, exit, phis, s, before);
      && |r.g| > |s.g| && r.ctrl == exit && r.names == PutAll(before.names, phis)
      && r.g[loop] == s.g[loop].(inputs := s.g[loop].inputs[0 := s.ctrl])
      && r.g[loop + 1] == Bare(Phi, [loop, lo, next], 0)
      && (forall j :: 0 <= j < |phis| ==>
            var n := s.g[phis[j].1];
            r.g[phis[j].1] == n.(inputs := n.inputs[2 := Get<NodeId>(s.names, phis[j].0).value]))
      && (forall n: nat :: n < |s.g| && n != loop && n != loop + 1 && !IsId(phis, n) ==> r.g[n] == s.g[n])
      && r.g[|s.g|] == Bare(Constant, [], 1)
      && (Bin(Add), [loop + 1, |s.g|]) in r.table && r.table[(Bin(Add), [loop + 1, |s.g|])] == next
      && next < |r.g|
  {
    hide Intern, ClosePhis, CloseLoop, PutAll, Get, Inv;
    var s1, s2;
    s1, next, s2 := CloseLoopSteps(loop, exit, phis, s, before);
    StepInterned(s, loop + 1);
    var o := s1.(g := SetInput(s1.g, loop + 1, 2, next));
    assert !IsId(phis, loop) && !IsId(phis, loop + 1) && !IsId(phis, |s.g|);
    ClosePhisSets(phis, o);
    assert s1.g[loop + 1].inputs[2 := next] == [loop, lo, next];
  }

  lemma SetInputOrdered(g: seq<Node>, n: NodeId, i: nat, v: NodeId)
    requires PhisOrdered(g) && (i > 0 || (n < |g| && !g[n].kind.Phi?))
    ensures PhisOrdered(SetInput(g, n, i, v))
  {
  }

  lemma {:induction false} ClosePhisOrdered(phis: seq<(Name, NodeId)>, s: Lower)
    requires PhisOrdered(s.g) && forall j :: 0 <= j < |phis| ==> Get<NodeId>(s.names, phis[j].0).Some?
    ensures PhisOrdered(ClosePhis(phis, s).g)
    decreases |phis|
  {
    if phis != [] {
      var back := Get<NodeId>(s.names, phis[0].0).value;
      assert forall j :: 0 <= j < |phis[1..]| ==> phis[1..][j] == phis[j + 1];
      SetInputOrdered(s.g, phis[0].1, 2, back);
      ClosePhisOrdered(phis[1..], s.(g := SetInput(s.g, phis[0].1, 2, back)));
    }
  }

  lemma CloseLoopOrdered(loop: NodeId, exit: NodeId, lo: NodeId, phis: seq<(Name, NodeId)>, s: Lower, before: Lower)
    requires Inv(s) && PhisOrdered(s.g) && LoopOpen(s.g, loop, lo, phis) && exit < |s.g| && s.g[loop].kind.Loop?
    requires forall j :: 0 <= j < |phis| ==> Get<NodeId>(s.names, phis[j].0).Some?
    ensures PhisOrdered(CloseLoop(loop, exit, phis, s, before).g)
  {
    hide Intern, CloseLoop, PutAll, Get, Inv, ClosePhis, PhisOrdered;
    var s1, next, s2 := CloseLoopSteps(loop, exit, phis, s, before);
    StepInterned(s, loop + 1);
    SetInputOrdered(s1.g, loop + 1, 2, next);
    var o := s1.(g := SetInput(s1.g, loop + 1, 2, next));
    ClosePhisOrdered(phis, o);
    assert !IsId(phis, loop);
    ClosePhisSets(phis, o);
    SetInputOrdered(s2.g, loop, 0, s.ctrl);
    AppendOrdered(SetInput(s2.g, loop, 0, s.ctrl), Bare(Phi, [exit, before.eff, s.eff], 0));
  }

  lemma AppendOrdered(g: seq<Node>, n: Node)
    requires PhisOrdered(g) && (n.kind.Phi? && n.inputs != [] ==> n.inputs[0] < |g|)
    ensures PhisOrdered(g + [n])
  {
  }

  /** After a closed loop the invariants hold, and nothing made before the loop has changed. */
  lemma CloseLoopKeeps(loop: NodeId, exit: NodeId, lo: NodeId, phis: seq<(Name, NodeId)>, s: Lower, before: Lower)
    requires Inv(s) && PhisOrdered(s.g) && LoopOpen(s.g, loop, lo, phis) && exit < |s.g| && s.g[loop].kind.Loop?
    requires forall j :: 0 <= j < |phis| ==> Get<NodeId>(s.names, phis[j].0).Some?
    requires Inv(before) && |before.g| == loop && (forall n: nat :: n < loop ==> s.g[n] == before.g[n])
    requires forall key :: key in before.table ==> key in s.table && s.table[key] == before.table[key]
    ensures var r := CloseLoop(loop, exit, phis, s, before);
      Inv(r) && PhisOrdered(r.g) && Continues(before, r)
  {
    CloseLoopOrdered(loop, exit, lo, phis, s, before);
    var next := CloseLoopSets(loop, exit, lo, phis, s, before);
    var r := CloseLoop(loop, exit, phis, s, before);
    forall n: nat | n < loop ensures r.g[n] == before.g[n] {
      assert !IsId(phis, n);
    }
    InvParts(before, |r.g|);
    PutAllKeeps(before.names, phis, |r.g|);
    CloseLoopTable(loop, exit, phis, s, before);
    hide CloseLoop, PutAll, Get, PhisOrdered, NamesBelow, UniqueKeys;
    assert TableBelow(r.table, |r.g|);
  }

  lemma CloseLoopTable(loop: NodeId, exit: NodeId, phis: seq<(Name, NodeId)>, s: Lower, before: Lower)
    requires Inv(s) && loop + 1 < |s.g|
    requires forall j :: 0 <= j < |phis| ==> Get<NodeId>(s.names, phis[j].0).Some?
    requires DistinctIds(phis, |s.g|)
    requires forall j :: 0 <= j < |phis| ==> phis[j].1 != loop + 1 && |s.g[phis[j].1].inputs| == PHI_INPUTS
    ensures var r := CloseLoop(loop, exit, phis, s, before);
      TableBelow(r.table, |r.g|) && forall key :: key in s.table ==> key in r.table && r.table[key] == s.table[key]
  {
    hide Intern, CloseLoop, PutAll, Get, ClosePhis, PhisOrdered, NamesBelow, UniqueKeys;
    var s1, next, s2 := CloseLoopSteps(loop, exit, phis, s, before);
    StepInterned(s, loop + 1);
    var o := s1.(g := SetInput(s1.g, loop + 1, 2, next));
    ClosePhisSets(phis, o);
  }

  lemma LowerIf(cond: Expr, yes: Stmt, no: Option<Stmt>, s: Lower) returns (s2: Lower, t: Lower, e: Lower)
    requires LowerStmt(IfStmt(cond, yes, no), s).Some?
    ensures var (s1, c) := LowerExpr(cond, s);
      && s2 == BranchOpen(s1, c) && LowerStmt(yes, s2.(ctrl := |s1.g| + 1)) == Some(t)
      && (if no.Some? then LowerStmt(no.value, AtElse(s2, t, |s1.g|)) == Some(e) else e == AtElse(s2, t, |s1.g|))
      && LowerStmt(IfStmt(cond, yes, no), s) == Some(MergeNames(t.names, e.names, |e.g|, AtMerge(t, e)))
  {
    var (s1, c) := LowerExpr(cond, s);
    s2 := BranchOpen(s1, c);
    t := LowerStmt(yes, s2.(ctrl := |s1.g| + 1)).value;
    e := if no.Some? then LowerStmt(no.value, AtElse(s2, t, |s1.g|)).value else AtElse(s2, t, |s1.g|);
  }

  lemma BranchOpens(s: Lower, c: NodeId)
    requires Inv(s) && PhisOrdered(s.g)
    ensures var s2 := BranchOpen(s, c).(ctrl := |s.g| + 1);
      Inv(s2) && PhisOrdered(s2.g) && Continues(s, s2) && |s2.g| == |s.g| + 3
  {
  }

  lemma BranchTurns(s2: Lower, t: Lower, ifNode: NodeId)
    requires Inv(s2.(ctrl := ifNode + 1)) && Inv(t) && PhisOrdered(t.g) && Continues(s2.(ctrl := ifNode + 1), t)
    requires ifNode + 3 == |s2.g|
    ensures var e := AtElse(s2, t, ifNode); Inv(e) && PhisOrdered(e.g) && Continues(s2.(ctrl := ifNode + 1), e)
  {
  }

  lemma BranchesMeet(t: Lower, e: Lower)
    requires Inv(t) && Inv(e) && PhisOrdered(e.g) && |t.g| <= |e.g|
    ensures var s3 := AtMerge(t, e);
      && Inv(s3) && PhisOrdered(s3.g) && Continues(e, s3) && |e.g| < |s3.g|
      && forall i :: 0 <= i < |t.names| ==> t.names[i].1 < |s3.g|
  {
    EntriesBelow(t.names, |t.g|);
  }

  lemma {:induction false} IfKeeps(cond: Expr, yes: Stmt, no: Option<Stmt>, s: Lower)
    requires Inv(s) && PhisOrdered(s.g) && LowerStmt(IfStmt(cond, yes, no), s).Some?
    ensures var s' := LowerStmt(IfStmt(cond, yes, no), s).value;
      Inv(s') && PhisOrdered(s'.g) && Continues(s, s')
    decreases IfStmt(cond, yes, no), 0
  {
    hide *;
    ExprKeeps(cond, s);
    var s1 := LowerExpr(cond, s).0;
    var s2, t, e := LowerIf(cond, yes, no, s);
    var into := s2.(ctrl := |s1.g| + 1);
    BranchOpens(s1, LowerExpr(cond, s).1);
    StmtKeeps(yes, into);
    var turn := AtElse(s2, t, |s1.g|);
    BranchTurns(s2, t, |s1.g|);
    GraphGrows(into, t);
    if no.Some? {
      StmtKeeps(no.value, turn);
      ContinuesOn(into, turn, e);
      GraphGrows(turn, e);
    }
    AtElseGraph(s2, t, |s1.g|);
    BranchesMeet(t, e);
    MergeKeeps(t.names, e.names, |e.g|, AtMerge(t, e));
    ContinuesOn(s, s1, into);
    ContinuesOn(s, into, e);
    ContinuesOn(s, e, AtMerge(t, e));
    ContinuesOn(s, AtMerge(t, e), MergeNames(t.names, e.names, |e.g|, AtMerge(t, e)));
  }

  lemma AtElseGraph(s2: Lower, t: Lower, ifNode: NodeId)
    ensures AtElse(s2, t, ifNode).g == t.g && AtElse(s2, t, ifNode).table == t.table
  {
  }

  /** Lowering a statement only adds to the graph and the table, and never forgets a name. */
  lemma {:induction false} StmtKeeps(st: Stmt, s: Lower)
    requires Inv(s) && PhisOrdered(s.g) && LowerStmt(st, s).Some?
    ensures var s' := LowerStmt(st, s).value; Inv(s') && PhisOrdered(s'.g) && Continues(s, s')
    decreases st, 1
  {
    match st
    case Let(x, _, init) =>
      if init.Some? {
        ExprKeeps(init.value, s);
        var (s1, n) := LowerExpr(init.value, s);
        Bind(s1, x, n);
      } else {
        LeafKeeps(s, Constant, 0);
        Bind(Make(s, Constant, [], 0), x, |s.g|);
      }
    case Do(e) => ExprKeeps(e, s);
    case AssignStmt(x, how, r) => AssignStmtKeeps(x, how, r, s);
    case ReturnStmt(result) =>
      if result.Some? { ExprKeeps(result.value, s); }
    case IfStmt(cond, yes, no) => IfKeeps(cond, yes, no, s);
    case BlockStmt(stmts) => AllKeeps(stmts, s);
    case ForStmt(x, lo, hi, body) => ForKeeps(x, lo, hi, body, s);
    case MatchStmt => LeafKeeps(s, Constant, 0);
  }

  lemma {:induction false} AllKeeps(stmts: seq<Stmt>, s: Lower)
    requires Inv(s) && PhisOrdered(s.g) && LowerAll(stmts, s).Some?
    ensures var s' := LowerAll(stmts, s).value; Inv(s') && PhisOrdered(s'.g) && Continues(s, s')
    decreases stmts, 0
  {
    if stmts != [] {
      StmtKeeps(stmts[0], s);
      AllKeeps(stmts[1..], LowerStmt(stmts[0], s).value);
    }
  }

  lemma {:induction false} ForKeeps(x: Name, lo: Expr, hi: Expr, body: Stmt, s: Lower)
    requires Inv(s) && PhisOrdered(s.g) && LowerFor(x, lo, hi, body, s).Some?
    ensures var s' := LowerFor(x, lo, hi, body, s).value; Inv(s') && PhisOrdered(s'.g) && Continues(s, s')
    decreases body, 2
  {
    hide OpenLoop, LowerExpr, LowerStmt, CloseLoop, Inv, PhisOrdered, LoopOpen, Get;
    ExprKeeps(lo, s);
    var (s1, a) := LowerExpr(lo, s);
    ExprKeeps(hi, s1);
    var (s2, b) := LowerExpr(hi, s1);
    GraphGrows(s1, s2);
    var (s3, phis) := OpenLoop(x, a, b, body, s2);
    OpenLoopKeeps(x, a, b, body, s2);
    StmtKeeps(body, s3);
    var s4 := LowerStmt(body, s3).value;
    OpenLoopStands(x, a, b, body, s2, s4);
    CloseLoopKeeps(|s2.g|, s3.ctrl + 1, a, phis, s4, s2);
    ContinuesOn(s, s1, s2);
    ContinuesOn(s, s2, CloseLoop(|s2.g|, s3.ctrl + 1, phis, s4, s2));
  }

  lemma OpenLoopIsOpen(x: Name, lo: NodeId, hi: NodeId, body: Stmt, s: Lower)
    ensures var (s', phis) := OpenLoop(x, lo, hi, body, s);
      && LoopOpen(s'.g, |s.g|, lo, phis) && s'.g[|s.g|] == Bare(Loop, [s.ctrl, s.ctrl], 0)
      && s'.ctrl + 2 == |s'.g|
  {
    hide Accumulators, PutAll, Put, Get, OpenGraph, OpenLoop;
    var acc := Accumulators(body, s.names);
    AccumulatorsBound(body, s.names);
    OpenLoopMakes(x, lo, hi, body, s);
    var accs := OpenNodes(acc, |s.g|, s.names);
    OpenNodesAt(acc, |s.g|, s.names);
    PhiListAt(acc, |s.g| + 2);
    OpenGraphNodes(s.g, s.ctrl, lo, hi, accs);
    var (s', phis) := OpenLoop(x, lo, hi, body, s);
    OpenIds(acc, |s.g| + 2, |s'.g|);
    forall j | 0 <= j < |phis| ensures phis[j].1 > |s.g| + 1 && |s'.g[phis[j].1].inputs| == PHI_INPUTS {
      assert s'.g[|s.g| + 2 + j] == accs[j];
    }
  }

  lemma OpenLoopNames(x: Name, lo: NodeId, hi: NodeId, body: Stmt, s: Lower)
    ensures var (s', phis) := OpenLoop(x, lo, hi, body, s);
      forall j :: 0 <= j < |phis| ==> Get<NodeId>(s.names, phis[j].0).Some?
  {
    hide Accumulators, PutAll, Put, Get, OpenGraph, OpenLoop, OpenNodes;
    AccumulatorsBound(body, s.names);
    OpenLoopMakes(x, lo, hi, body, s);
    PhiListAt(Accumulators(body, s.names), |s.g| + 2);
  }

  /** The open loop is still as it was once its body has been lowered. */
  lemma OpenLoopStands(x: Name, lo: NodeId, hi: NodeId, body: Stmt, s: Lower, after: Lower)
    requires Inv(s) && PhisOrdered(s.g) && Continues(OpenLoop(x, lo, hi, body, s).0, after)
    ensures var (s', phis) := OpenLoop(x, lo, hi, body, s);
      && LoopOpen(after.g, |s.g|, lo, phis) && after.g[|s.g|] == Bare(Loop, [s.ctrl, s.ctrl], 0)
      && s'.ctrl + 1 < |after.g|
      && (forall j :: 0 <= j < |phis| ==> Get<NodeId>(after.names, phis[j].0).Some?)
  {
    OpenLoopIsOpen(x, lo, hi, body, s);
    OpenLoopNames(x, lo, hi, body, s);
    OpenLoopKeeps(x, lo, hi, body, s);
    var (s', phis) := OpenLoop(x, lo, hi, body, s);
    hide OpenLoop, Get, Inv, PhisOrdered;
    forall j | 0 <= j < |phis|
      ensures after.g[phis[j].1] == s'.g[phis[j].1] && Get<NodeId>(after.names, phis[j].0).Some?
    {
      assert Get<NodeId>(s'.names, phis[j].0).Some?;
    }
  }

  // ---- Names and frames ----

  /** Every visible name is bound. */
  ghost predicate CoversFrame(names: Assoc<NodeId>, f: Frame) {
    forall x: Name :: Get<bool>(f, x).Some? ==> Get<NodeId>(names, x).Some?
  }

  lemma {:induction false} MergeCovers(yes: Assoc<NodeId>, no: Assoc<NodeId>, merge: NodeId, s: Lower, x: Name)
    requires Get<NodeId>(yes, x).Some? || Get<NodeId>(s.names, x).Some?
    ensures Get<NodeId>(MergeNames(yes, no, merge, s).names, x).Some?
    decreases |yes|
  {
    if yes != [] {
      var (y, t) := yes[0];
      var e := Get<NodeId>(no, y);
      var s1 := if e.Some? && e.value != t
        then Make(s, Phi, [merge, t, e.value], 0).(names := Put<NodeId>(s.names, y, |s.g|))
        else s.(names := Put<NodeId>(s.names, y, t));
      MergeCovers(yes[1..], no, merge, s1, x);
    }
  }

  /** After a statement the bindings cover the checker's frame. */
  lemma {:induction false} StmtCovers(st: Stmt, s: Lower, f: Frame)
    requires Inv(s) && PhisOrdered(s.g) && LowerStmt(st, s).Some? && CheckStmt(st, f).Some? && CoversFrame(s.names, f)
    ensures CoversFrame(LowerStmt(st, s).value.names, CheckStmt(st, f).value)
    decreases st, 2
  {
    StmtKeeps(st, s);
    match st
    case Let(x, isVar, _) =>
      Extended(f, x, isVar);
    case IfStmt(cond, yes, no) => IfCovers(cond, yes, no, s, f);
    case BlockStmt(stmts) => AllCover(stmts, s, f);
    case _ =>
      hide Get;
  }

  lemma {:induction false} AllCover(stmts: seq<Stmt>, s: Lower, f: Frame)
    requires Inv(s) && PhisOrdered(s.g) && LowerAll(stmts, s).Some? && CheckAll(stmts, f).Some?
      && CoversFrame(s.names, f)
    ensures CoversFrame(LowerAll(stmts, s).value.names, CheckAll(stmts, f).value)
    decreases stmts, 0
  {
    if stmts != [] {
      StmtKeeps(stmts[0], s);
      StmtCovers(stmts[0], s, f);
      AllCover(stmts[1..], LowerStmt(stmts[0], s).value, CheckStmt(stmts[0], f).value);
    }
  }

  lemma {:induction false} IfCovers(cond: Expr, yes: Stmt, no: Option<Stmt>, s: Lower, f: Frame)
    requires Inv(s) && PhisOrdered(s.g) && CoversFrame(s.names, f)
    requires LowerStmt(IfStmt(cond, yes, no), s).Some? && CheckStmt(IfStmt(cond, yes, no), f).Some?
    ensures CoversFrame(LowerStmt(IfStmt(cond, yes, no), s).value.names, CheckStmt(IfStmt(cond, yes, no), f).value)
    decreases IfStmt(cond, yes, no), 1
  {
    var s2, t, e := ArmsCover(cond, yes, no, s, f);
    var fy := CheckStmt(yes, f).value;
    var fn := if no.Some? then CheckStmt(no.value, f).value else f;
    CheckGrows(yes, f);
    if no.Some? { CheckGrows(no.value, f); }
    assert CheckStmt(IfStmt(cond, yes, no), f) == Some(MergeFrames(f, fy, fn));
    hide Inv, PhisOrdered, LowerExpr, LowerStmt, CheckStmt, Continues, AtElse, BranchOpen;
    MergeCoversFrame(t, e, f, fy, fn);
  }

  lemma MergeCoversFrame(t: Lower, e: Lower, f: Frame, fy: Frame, fn: Frame)
    requires CoversFrame(t.names, fy) && CoversFrame(e.names, fn)
    requires forall x :: Get<bool>(f, x).Some? ==> Get<bool>(fy, x).Some? && Get<bool>(fn, x).Some?
    ensures CoversFrame(MergeNames(t.names, e.names, |e.g|, AtMerge(t, e)).names, MergeFrames(f, fy, fn))
  {
    hide MergeNames;
    forall x: Name | Get<bool>(MergeFrames(f, fy, fn), x).Some?
      ensures Get<NodeId>(MergeNames(t.names, e.names, |e.g|, AtMerge(t, e)).names, x).Some?
    {
      assert Get<bool>(fy, x).Some?;
      MergeCovers(t.names, e.names, |e.g|, AtMerge(t, e), x);
    }
  }

  /** The two arms of a branch, and what their bindings cover. */
  lemma {:induction false} ArmsCover(cond: Expr, yes: Stmt, no: Option<Stmt>, s: Lower, f: Frame)
    returns (s2: Lower, t: Lower, e: Lower)
    requires Inv(s) && PhisOrdered(s.g) && CoversFrame(s.names, f)
    requires LowerStmt(IfStmt(cond, yes, no), s).Some? && CheckStmt(IfStmt(cond, yes, no), f).Some?
    ensures var (s1, c) := LowerExpr(cond, s);
      && Inv(s1) && PhisOrdered(s1.g) && Continues(s, s1) && s1.ctrl == s.ctrl && c < |s1.g|
      && s2 == BranchOpen(s1, c) && LowerStmt(yes, s2.(ctrl := |s1.g| + 1)) == Some(t)
      && (if no.Some? then LowerStmt(no.value, AtElse(s2, t, |s1.g|)) == Some(e) else e == AtElse(s2, t, |s1.g|))
      && LowerStmt(IfStmt(cond, yes, no), s) == Some(MergeNames(t.names, e.names, |e.g|, AtMerge(t, e)))
      && Inv(s2.(ctrl := |s1.g| + 1)) && PhisOrdered(s2.g) && Continues(s1, s2.(ctrl := |s1.g| + 1))
      && Inv(t) && PhisOrdered(t.g) && Continues(s2.(ctrl := |s1.g| + 1), t)
      && Inv(AtElse(s2, t, |s1.g|)) && Inv(e) && PhisOrdered(e.g) && Continues(AtElse(s2, t, |s1.g|), e)
      && |t.g| <= |e.g|
      && CoversFrame(t.names, CheckStmt(yes, f).value)
      && CoversFrame(e.names, if no.Some? then CheckStmt(no.value, f).value else f)
    decreases IfStmt(cond, yes, no), 0
  {
    hide Inv, PhisOrdered, LowerExpr, MergeNames, Get, CoversFrame, Continues;
    ExprKeeps(cond, s);
    var s1 := LowerExpr(cond, s).0;
    s2, t, e := LowerIf(cond, yes, no, s);
    var into := s2.(ctrl := |s1.g| + 1);
    BranchOpens(s1, LowerExpr(cond, s).1);
    StmtKeeps(yes, into);
    BranchTurns(s2, t, |s1.g|);
    GraphGrows(into, t);
    CoverContinues(s, s1, f);
    StmtCovers(yes, into, f);
    var turn := AtElse(s2, t, |s1.g|);
    ContinuesSelf(turn);
    if no.Some? {
      StmtKeeps(no.value, turn);
      GraphGrows(turn, e);
      StmtCovers(no.value, turn, f);
    }
  }

  lemma ContinuesSelf(s: Lower)
    ensures Continues(s, s)
  {
  }

  lemma CoverContinues(s: Lower, s': Lower, f: Frame)
    requires CoversFrame(s.names, f) && Continues(s, s')
    ensures CoversFrame(s'.names, f)
  {
  }

  // ---- A lowered loop, piece by piece ----

  /** The stages of lowering a loop, and what each is known to be. */
  datatype LoopStages = LoopStages(acc: seq<Name>, s1: Lower, lo: NodeId, s2: Lower, hi: NodeId, s3: Lower,
                                   s4: Lower, s5: Lower, next: NodeId)
  {
    function Header(): NodeId { |s2.g| }
    function Test(): NodeId { |s2.g| + 2 + |acc| }
    function Names(): Assoc<NodeId> { PutAll(s2.names, PhiList(acc, |s2.g| + 2)) }
  }

  /** The bindings before, in and after the loop. */
  ghost predicate LoopBinds(x: Name, body: Stmt, l: LoopStages) {
    && l.acc == Accumulators(body, l.s2.names) && Distinct(l.acc)
    && AllBound(l.acc, l.s2.names) && AllBound(l.acc, l.s4.names)
    && l.s3.names == Put<NodeId>(l.Names(), x, l.Header() + 1) && l.s5.names == l.Names()
  }

  /** The nodes of the loop, and control before, in and after it. */
  ghost predicate LoopGraph(l: LoopStages) {
    && AllBound(l.acc, l.s2.names) && AllBound(l.acc, l.s4.names)
    && LoopBuilt(l.s5.g, l.Header(), l.s2.ctrl, l.s4.ctrl, l.lo, l.hi, l.next,
                 EntryNodes(l.acc, l.s2.names), EntryNodes(l.acc, l.s4.names))
    && l.s3.ctrl == l.Test() + 2 && |l.s3.g| == l.Test() + 4 && l.s5.ctrl == l.Test() + 3
    && l.lo < l.Header() && l.hi < l.Header() && |l.s3.g| <= |l.s4.g| < |l.s5.g|
    && (forall n: nat :: |l.s3.g| <= n < |l.s4.g| ==> l.s5.g[n] == l.s4.g[n])
  }

  /** The step of the index, and what the table kept. */
  ghost predicate LoopStep(l: LoopStages) {
    && |l.s4.g| < |l.s5.g| && l.s5.g[|l.s4.g|] == Bare(Constant, [], 1)
    && (Bin(Add), [l.Header() + 1, |l.s4.g|]) in l.s5.table
    && l.s5.table[(Bin(Add), [l.Header() + 1, |l.s4.g|])] == l.next
    && (forall key :: key in l.s4.table ==> key in l.s5.table && l.s5.table[key] == l.s4.table[key])
  }

  lemma LoopStagesOf(x: Name, lo: Expr, hi: Expr, body: Stmt, s: Lower) returns (l: LoopStages)
    requires Inv(s) && PhisOrdered(s.g) && LowerFor(x, lo, hi, body, s).Some?
    ensures (l.s1, l.lo) == LowerExpr(lo, s) && (l.s2, l.hi) == LowerExpr(hi, l.s1)
    ensures LowerStmt(body, l.s3) == Some(l.s4) && LowerFor(x, lo, hi, body, s) == Some(l.s5) && l.s4.ctrl != INVALID
    ensures l.s3 == OpenLoop(x, l.lo, l.hi, body, l.s2).0
    ensures Inv(l.s1) && PhisOrdered(l.s1.g) && Continues(s, l.s1) && l.s1.ctrl == s.ctrl
    ensures Inv(l.s2) && PhisOrdered(l.s2.g) && Continues(l.s1, l.s2) && l.s2.ctrl == s.ctrl
    ensures Inv(l.s3) && PhisOrdered(l.s3.g) && Inv(l.s4) && Continues(l.s3, l.s4)
    ensures Continues(l.s2, l.s5) && Inv(l.s5)
    ensures LoopBinds(x, body, l) && LoopGraph(l) && LoopStep(l)
  {
    hide *;
    var (s1, a) := LowerExpr(lo, s);
    var (s2, b) := LowerExpr(hi, s1);
    var (s3, phis) := OpenLoop(x, a, b, body, s2);
    ForUnfolds(x, lo, hi, body, s);
    var s4 := LowerStmt(body, s3).value;
    ExprKeeps(lo, s);
    ExprKeeps(hi, s1);
    OpenLoopKeeps(x, a, b, body, s2);
    StmtKeeps(body, s3);
    var s5 := LowerFor(x, lo, hi, body, s).value;
    OpenLoopStands(x, a, b, body, s2, s4);
    ClosesAfter(x, a, b, body, s2, s4);
    GraphGrows(s1, s2);
    l := BuiltLoop(x, a, b, body, s1, s2, s4);
  }

  lemma ForUnfolds(x: Name, lo: Expr, hi: Expr, body: Stmt, s: Lower)
    requires LowerFor(x, lo, hi, body, s).Some?
    ensures var (s1, a) := LowerExpr(lo, s);
      var (s2, b) := LowerExpr(hi, s1);
      var (s3, phis) := OpenLoop(x, a, b, body, s2);
      LowerStmt(body, s3).Some? && LowerStmt(body, s3).value.ctrl != INVALID
      && LowerFor(x, lo, hi, body, s) == Some(CloseLoop(|s2.g|, s3.ctrl + 1, phis, LowerStmt(body, s3).value, s2))
  {
    hide LowerExpr, OpenLoop, CloseLoop, LowerStmt;
  }

  lemma ClosesAfter(x: Name, lo: NodeId, hi: NodeId, body: Stmt, s: Lower, after: Lower)
    requires Inv(s) && PhisOrdered(s.g) && Inv(after) && PhisOrdered(after.g)
    requires Continues(OpenLoop(x, lo, hi, body, s).0, after)
    ensures var (s', phis) := OpenLoop(x, lo, hi, body, s);
      var r := CloseLoop(|s.g|, s'.ctrl + 1, phis, after, s);
      Inv(r) && Continues(s, r)
  {
    var (s', phis) := OpenLoop(x, lo, hi, body, s);
    OpenLoopStands(x, lo, hi, body, s, after);
    OpenLoopKeeps(x, lo, hi, body, s);
    ContinuesOn(s, s', after);
    hide OpenLoop, CloseLoop, Inv, PhisOrdered, Get;
    CloseLoopKeeps(|s.g|, s'.ctrl + 1, lo, phis, after, s);
  }

  /** The finished loop, and what is left of the states before it. */
  lemma BuiltLoop(x: Name, lo: NodeId, hi: NodeId, body: Stmt, s1: Lower, s: Lower, after: Lower)
        returns (l: LoopStages)
    requires Inv(s) && PhisOrdered(s.g) && Inv(after) && PhisOrdered(after.g) && lo < |s.g| && hi < |s.g|
    requires Continues(OpenLoop(x, lo, hi, body, s).0, after)
    ensures var (s', phis) := OpenLoop(x, lo, hi, body, s);
      l == LoopStages(Accumulators(body, s.names), s1, lo, s, hi, s', after,
                      CloseLoop(|s.g|, s'.ctrl + 1, phis, after, s), l.next)
    ensures LoopBinds(x, body, l) && LoopGraph(l) && LoopStep(l)
  {
    hide *;
    var acc := Accumulators(body, s.names);
    var loop := |s.g|;
    AccumulatorsBound(body, s.names);
    OpenLoopMakes(x, lo, hi, body, s);
    var (s', phis) := OpenLoop(x, lo, hi, body, s);
    OpenLoopStands(x, lo, hi, body, s, after);
    BoundAfter(acc, loop + 2, after.names);
    var next := CloseLoopSets(loop, s'.ctrl + 1, lo, phis, after, s);
    l := LoopStages(acc, s1, lo, s, hi, s', after, CloseLoop(loop, s'.ctrl + 1, phis, after, s), next);
    StagedBy(x, body, l);
    BuiltBinds(x, body, l);
    BuiltGraph(x, body, l);
    BuiltStep(x, body, l);
  }

  lemma BoundAfter(acc: seq<Name>, first: NodeId, names: Assoc<NodeId>)
    requires forall j :: 0 <= j < |PhiList(acc, first)| ==> Get<NodeId>(names, PhiList(acc, first)[j].0).Some?
    ensures AllBound(acc, names)
  {
    hide Get;
    PhiListAt(acc, first);
    forall j | 0 <= j < |acc| ensures Get<NodeId>(names, acc[j]).Some? {
      assert PhiList(acc, first)[j].0 == acc[j];
    }
  }

  /** Stages of a loop whose last one is the closed loop. */
  ghost predicate Staged(x: Name, body: Stmt, l: LoopStages) {
    && l.acc == Accumulators(body, l.s2.names) && AllBound(l.acc, l.s4.names)
    && Inv(l.s2) && PhisOrdered(l.s2.g) && Inv(l.s4) && PhisOrdered(l.s4.g) && l.lo < |l.s2.g| && l.hi < |l.s2.g|
    && l.s3 == OpenLoop(x, l.lo, l.hi, body, l.s2).0 && Continues(l.s3, l.s4)
    && l.s5 == CloseLoop(|l.s2.g|, l.s3.ctrl + 1, OpenLoop(x, l.lo, l.hi, body, l.s2).1, l.s4, l.s2)
    && (Bin(Add), [|l.s2.g| + 1, |l.s4.g|]) in l.s5.table
    && l.s5.table[(Bin(Add), [|l.s2.g| + 1, |l.s4.g|])] == l.next
  }

  lemma StagedBy(x: Name, body: Stmt, l: LoopStages)
    requires l.acc == Accumulators(body, l.s2.names) && AllBound(l.acc, l.s4.names)
    requires Inv(l.s2) && PhisOrdered(l.s2.g) && Inv(l.s4) && PhisOrdered(l.s4.g) && l.lo < |l.s2.g| && l.hi < |l.s2.g|
    requires l.s3 == OpenLoop(x, l.lo, l.hi, body, l.s2).0 && Continues(l.s3, l.s4)
    requires l.s5 == CloseLoop(|l.s2.g|, l.s3.ctrl + 1, OpenLoop(x, l.lo, l.hi, body, l.s2).1, l.s4, l.s2)
    requires (Bin(Add), [|l.s2.g| + 1, |l.s4.g|]) in l.s5.table
    requires l.s5.table[(Bin(Add), [|l.s2.g| + 1, |l.s4.g|])] == l.next
    ensures Staged(x, body, l)
  {
    hide Accumulators, AllBound, Inv, PhisOrdered, OpenLoop, CloseLoop, Continues;
  }

  lemma BuiltBinds(x: Name, body: Stmt, l: LoopStages)
    requires Staged(x, body, l)
    ensures LoopBinds(x, body, l)
  {
    hide Accumulators, AllBound, Distinct, OpenLoop, PutAll, Put, OpenGraph, OpenNodes, Inv, PhisOrdered, Continues,
         CloseLoop;
    AccumulatorsBound(body, l.s2.names);
    OpenLoopMakes(x, l.lo, l.hi, body, l.s2);
    OpenLoopStands(x, l.lo, l.hi, body, l.s2, l.s4);
    var n := CloseLoopSets(|l.s2.g|, l.s3.ctrl + 1, l.lo, OpenLoop(x, l.lo, l.hi, body, l.s2).1, l.s4, l.s2);
  }

  lemma BuiltStep(x: Name, body: Stmt, l: LoopStages)
    requires Staged(x, body, l)
    ensures LoopStep(l)
  {
    hide Accumulators, AllBound, Distinct, OpenLoop, PutAll, Put, OpenGraph, OpenNodes, Inv, PhisOrdered, Continues,
         CloseLoop, TableBelow;
    OpenLoopStands(x, l.lo, l.hi, body, l.s2, l.s4);
    var phis := OpenLoop(x, l.lo, l.hi, body, l.s2).1;
    var n := CloseLoopSets(|l.s2.g|, l.s3.ctrl + 1, l.lo, phis, l.s4, l.s2);
    CloseLoopTable(|l.s2.g|, l.s3.ctrl + 1, phis, l.s4, l.s2);
  }

  lemma StagedFacts(x: Name, body: Stmt, l: LoopStages)
    requires Staged(x, body, l)
    ensures l.acc == Accumulators(body, l.s2.names) && AllBound(l.acc, l.s4.names)
    ensures Inv(l.s2) && PhisOrdered(l.s2.g) && Inv(l.s4) && PhisOrdered(l.s4.g) && l.lo < |l.s2.g| && l.hi < |l.s2.g|
    ensures l.s3 == OpenLoop(x, l.lo, l.hi, body, l.s2).0 && Continues(l.s3, l.s4)
    ensures |l.s3.g| <= |l.s4.g| && forall n: nat :: n < |l.s3.g| ==> l.s4.g[n] == l.s3.g[n]
    ensures l.s5 == CloseLoop(|l.s2.g|, l.s3.ctrl + 1, OpenLoop(x, l.lo, l.hi, body, l.s2).1, l.s4, l.s2)
    ensures (Bin(Add), [|l.s2.g| + 1, |l.s4.g|]) in l.s5.table
    ensures l.s5.table[(Bin(Add), [|l.s2.g| + 1, |l.s4.g|])] == l.next
  {
    hide Accumulators, AllBound, Inv, PhisOrdered, OpenLoop, CloseLoop;
  }

  lemma LoopGraphOf(l: LoopStages)
    requires AllBound(l.acc, l.s2.names) && AllBound(l.acc, l.s4.names)
    requires LoopBuilt(l.s5.g, |l.s2.g|, l.s2.ctrl, l.s4.ctrl, l.lo, l.hi, l.next,
                       EntryNodes(l.acc, l.s2.names), EntryNodes(l.acc, l.s4.names))
    requires l.s3.ctrl == |l.s2.g| + 2 + |l.acc| + 2 && |l.s3.g| == |l.s2.g| + 2 + |l.acc| + 4
    requires l.s5.ctrl == |l.s2.g| + 2 + |l.acc| + 3
    requires l.lo < |l.s2.g| && l.hi < |l.s2.g| && |l.s3.g| <= |l.s4.g| < |l.s5.g|
    requires forall n: nat :: |l.s3.g| <= n < |l.s4.g| ==> l.s5.g[n] == l.s4.g[n]
    ensures LoopGraph(l)
  {
    hide AllBound, LoopBuilt, EntryNodes;
  }

  lemma BuiltGraph(x: Name, body: Stmt, l: LoopStages)
    requires Staged(x, body, l)
    ensures LoopGraph(l)
  {
    hide *;
    StagedFacts(x, body, l);
    var acc, loop := l.acc, |l.s2.g|;
    AccumulatorsBound(body, l.s2.names);
    var accs := OpenNodes(acc, loop, l.s2.names);
    OpenNodesAt(acc, loop, l.s2.names);
    PhiListAt(acc, loop + 2);
    OpenGraphNodes(l.s2.g, l.s2.ctrl, l.lo, l.hi, accs);
    OpenLoopMakes(x, l.lo, l.hi, body, l.s2);
    OpenLoopStands(x, l.lo, l.hi, body, l.s2, l.s4);
    var phis := OpenLoop(x, l.lo, l.hi, body, l.s2).1;
    OpenSizes(l.s4.g, loop, l.lo, phis);
    var n := CloseLoopSets(loop, l.s3.ctrl + 1, l.lo, phis, l.s4, l.s2);
    BuiltNodes(l.s2, l.s3, l.s4, l.s5, loop, acc, accs, phis, l.lo, l.hi, l.next);
    LoopGraphOf(l);
  }

  lemma OpenSizes(g: seq<Node>, loop: NodeId, lo: NodeId, phis: seq<(Name, NodeId)>)
    requires LoopOpen(g, loop, lo, phis)
    ensures loop < |g| && |g[loop].inputs| == 2
    ensures forall j :: 0 <= j < |phis| ==> phis[j].1 < |g| && |g[phis[j].1].inputs| == PHI_INPUTS
  {
  }

  lemma BuiltNodes(s: Lower, s': Lower, after: Lower, r: Lower, loop: NodeId, acc: seq<Name>, accs: seq<Node>,
                   phis: seq<(Name, NodeId)>, lo: NodeId, hi: NodeId, next: NodeId)
    requires loop == |s.g| && AllBound(acc, s.names) && AllBound(acc, after.names) && |accs| == |acc| == |phis|
    requires |s'.g| == loop + |acc| + 6 <= |after.g| < |r.g|
    requires forall n: nat :: n < |s'.g| ==> after.g[n] == s'.g[n]
    requires forall j :: 0 <= j < |acc| ==> phis[j] == (acc[j], loop + 2 + j)
    requires accs == OpenNodes(acc, loop, s.names) && forall j: nat :: j < |acc| ==> s'.g[loop + 2 + j] == accs[j]
    requires s'.g[loop] == Bare(Loop, [s.ctrl, s.ctrl], 0)
    requires var cmp := loop + 2 + |acc|;
      && s'.g[cmp] == Bare(Bin(CmpLt), [loop + 1, hi], 0) && s'.g[cmp + 1] == Bare(If, [loop, cmp], 0)
      && s'.g[cmp + 2] == Bare(Proj, [cmp + 1], 0) && s'.g[cmp + 3] == Bare(Proj, [cmp + 1], 1)
    requires |after.g[loop].inputs| == 2
    requires r.g[loop] == after.g[loop].(inputs := after.g[loop].inputs[0 := after.ctrl])
    requires r.g[loop + 1] == Bare(Phi, [loop, lo, next], 0)
    requires forall j :: 0 <= j < |phis| ==>
      var n := after.g[phis[j].1];
      |n.inputs| == PHI_INPUTS
        && r.g[phis[j].1] == n.(inputs := n.inputs[2 := Get<NodeId>(after.names, phis[j].0).value])
    requires forall n: nat :: n < |after.g| && n != loop && n != loop + 1 && !IsId(phis, n) ==> r.g[n] == after.g[n]
    ensures LoopBuilt(r.g, loop, s.ctrl, after.ctrl, lo, hi, next, EntryNodes(acc, s.names),
      EntryNodes(acc, after.names))
    ensures forall n: nat :: |s'.g| <= n < |after.g| ==> r.g[n] == after.g[n]
  {
    OpenNodesAt(acc, loop, s.names);
    hide Get, OpenNodes, PhiList;
    forall n: nat | n >= loop + 2 + |acc| ensures !IsId(phis, n) {
    }
    forall j: nat | j < |acc|
      ensures r.g[loop + 2 + j]
           == Bare(Phi, [loop, EntryNodes(acc, s.names)[j], EntryNodes(acc, after.names)[j]], 0)
    {
      var n := after.g[phis[j].1];
      assert n == s'.g[loop + 2 + j] == accs[j];
      assert n.inputs[2 := EntryNodes(acc, after.names)[j]]
        == [loop, EntryNodes(acc, s.names)[j], EntryNodes(acc, after.names)[j]];
    }
    assert after.g[loop].inputs[0 := after.ctrl] == [after.ctrl, s.ctrl];
  }
}
