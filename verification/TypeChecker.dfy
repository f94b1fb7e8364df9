/** The definite-assignment checker, and what acceptance buys: no run of an accepted body touches an unbound
    name or changes an immutable one. */
module TypeChecker {
  import opened Wrappers
  import opened Words
  import opened Ast
  import opened Interpreter
  import opened Finite

  /** Visible names and whether they may be assigned. */
  type Frame = Assoc<bool>

  datatype Diagnostic =
    | DuplicateParam(name: Name) | DuplicateBinding(name: Name) | UndefinedName(name: Name)
    | AssignToImmutable(name: Name) | NotLowerable

  // ---- Acceptance ----

  predicate AcceptsExpr(e: Expr, f: Frame)
    decreases e, 0
  {
    match e
    case IntLit(_) => true
    case BoolLit(_) => true
    case Ident(x) => Get(f, x).Some?
    case Binary(_, l, r) => AcceptsExpr(l, f) && AcceptsExpr(r, f)
    case Unary(_, x) => AcceptsExpr(x, f)
    case Assign(x, _, r) => AcceptsAssign(x, r, f)
    case NotLowered => false
  }

  predicate AcceptsAssign(x: Name, r: Expr, f: Frame)
    decreases r, 1
  {
    AcceptsExpr(r, f) && Get(f, x) == Some(true)
  }

  /** Returns and matches cannot be lowered inside a loop body. */
  predicate ContainsUnlowerable(s: Stmt)
    decreases s
  {
    match s
    case ReturnStmt(_) => true
    case MatchStmt => true
    case BlockStmt(stmts) => exists i :: 0 <= i < |stmts| && ContainsUnlowerable(stmts[i])
    case IfStmt(_, yes, no) => ContainsUnlowerable(yes) || (no.Some? && ContainsUnlowerable(no.value))
    case ForStmt(_, _, _, body) => ContainsUnlowerable(body)
    case _ => false
  }

  /** After a branch: what was visible before, and what both arms bound. */
  function MergeFrames(out: Frame, yes: Frame, no: Frame): (r: Frame)
    ensures forall x :: Get(r, x) == if Get(out, x).Some? then Get(out, x)
                                     else if Get(yes, x).Some? && Get(no, x).Some? then Get(yes, x) else None
    decreases |yes|
  {
    if yes == [] then out
    else
      var (x, m) := yes[0];
      var out' := if Get(out, x).None? && Get(no, x).Some? then out + [(x, m)] else out;
      assert forall y: Name :: Get(out', y) == if Get(out, y).None? && y == x && Get(no, x).Some? then Some(m)
        else Get(out, y) by {
        forall y: Name { GetSnoc(out, x, m, y); }
      }
      MergeFrames(out', yes[1..], no)
  }

  /** The frame after a statement the checker accepts. */
  function CheckStmt(s: Stmt, f: Frame): Option<Frame>
    decreases s
  {
    match s
    case Let(x, isVar, init) =>
      if (init.Some? ==> AcceptsExpr(init.value, f)) && Get(f, x).None? then Some(f + [(x, isVar)]) else None
    case Do(e) => if AcceptsExpr(e, f) then Some(f) else None
    case AssignStmt(x, _, r) => if AcceptsAssign(x, r, f) then Some(f) else None
    case ReturnStmt(result) => if result.Some? ==> AcceptsExpr(result.value, f) then Some(f) else None
    case IfStmt(cond, yes, no) =>
      if !AcceptsExpr(cond, f) then None
      else
        var y := CheckStmt(yes, f);
        var n := if no.Some? then CheckStmt(no.value, f) else Some(f);
        if y.None? || n.None? then None else Some(MergeFrames(f, y.value, n.value))
    case BlockStmt(stmts) => CheckAll(stmts, f)
    case ForStmt(x, lo, hi, body) =>
      if AcceptsExpr(lo, f) && AcceptsExpr(hi, f) && Get(f, x).None? && !ContainsUnlowerable(body)
        && CheckStmt(body, f + [(x, false)]).Some?
      then Some(f) else None
    case MatchStmt => None
  }

  function CheckAll(stmts: seq<Stmt>, f: Frame): Option<Frame>
    decreases stmts
  {
    if stmts == [] then Some(f)
    else match CheckStmt(stmts[0], f)
      case None => None
      case Some(f1) => CheckAll(stmts[1..], f1)
  }

  function ParamFrame(params: seq<Param>): Option<Frame> {
    if params == [] then Some([])
    else
      var n := |params| - 1;
      match ParamFrame(params[..n])
      case None => None
      case Some(f) => if Get(f, params[n].name).Some? then None else Some(f + [(params[n].name, params[n].isMutable)])
  }

  predicate Accepts(fn: Fn) {
    ParamFrame(fn.params).Some? && CheckAll(fn.stmts, ParamFrame(fn.params).value).Some?
  }

  // ---- The checker ----

  /** What is reported of an expression: names that are not visible, assignments to immutable ones, and shapes that
      cannot be lowered. */
  ghost function ExprReports(e: Expr, f: Frame): set<Diagnostic> {
    NameReports(ReadE(e), AssignedE(e), f) + if NamesOnly(e) then {} else {NotLowerable}
  }

  ghost function NameReports(seen: set<Name>, written: set<Name>, f: Frame): set<Diagnostic> {
    (set x | x in seen + written && Get(f, x).None? :: UndefinedName(x))
    + set x | x in written && Get(f, x) == Some(false) :: AssignToImmutable(x)
  }

  lemma NameReportsUnion(a: set<Name>, b: set<Name>, c: set<Name>, d: set<Name>, f: Frame)
    ensures NameReports(a + b, c + d, f) == NameReports(a, c, f) + NameReports(b, d, f)
  {
    hide Get;
  }

  /** The new diagnostics are these. */
  ghost predicate Reports(before: seq<Diagnostic>, after: seq<Diagnostic>, ds: set<Diagnostic>) {
    before <= after && Members(after[|before|..]) == ds
  }

  lemma ReportsOn(a: seq<Diagnostic>, b: seq<Diagnostic>, c: seq<Diagnostic>, ds: set<Diagnostic>, es: set<Diagnostic>)
    requires Reports(a, b, ds) && Reports(b, c, es)
    ensures Reports(a, c, ds + es)
  {
    assert c[|a|..] == b[|a|..] + c[|b|..];
  }

  lemma OneReport(a: seq<Diagnostic>, d: Diagnostic)
    ensures Reports(a, a + [d], {d}) && Reports(a, a, {})
  {
    assert (a + [d])[|a|..] == [d] && a[|a|..] == [];
  }

  lemma NoReports(f: Frame, x: Name)
    ensures NameReports({}, {}, f) == {}
    ensures NameReports({x}, {}, f) == if Get(f, x).None? then {UndefinedName(x)} else {}
    ensures NameReports({}, {x}, f)
         == if Get(f, x).None? then {UndefinedName(x)} else if Get(f, x).value then {} else {AssignToImmutable(x)}
  {
    hide Get;
  }

  lemma LeafReports(e: Expr, f: Frame)
    ensures e.IntLit? || e.BoolLit? ==> ExprReports(e, f) == {}
    ensures e.Ident? ==> ExprReports(e, f) == if Get(f, e.name).None? then {UndefinedName(e.name)} else {}
    ensures e.NotLowered? ==> ExprReports(e, f) == {NotLowerable}
  {
    hide Get, NameReports;
    NoReports(f, if e.Ident? then e.name else 0);
    if e.Ident? {
      assert ExprReports(e, f) == NameReports({e.name}, {}, f);
    } else if e.IntLit? || e.BoolLit? || e.NotLowered? {
      assert NameReports(ReadE(e), AssignedE(e), f) == {};
    }
  }

  /** Reports to a sink, and goes on after errors, as the compiler does. */
  class Checker {
    var sink: seq<Diagnostic>

    constructor ()
      ensures sink == []
    {
      sink := [];
    }

    method Report(d: Diagnostic)
      modifies this
      ensures sink == old(sink) + [d]
    {
      sink := sink + [d];
    }

    method CheckExprNode(e: Expr, f: Frame)
      modifies this
      ensures old(sink) <= sink
      ensures sink == old(sink) <==> AcceptsExpr(e, f)
      ensures Reports(old(sink), sink, ExprReports(e, f))
      decreases e, 0
    {
      hide Get, NameReports, Reports;
      ghost var was := sink;
      match e
      case IntLit(_) =>
        LeafReports(e, f);
        OneReport(was, NotLowerable);
      case BoolLit(_) =>
        LeafReports(e, f);
        OneReport(was, NotLowerable);
      case Ident(x) =>
        LeafReports(e, f);
        OneReport(was, UndefinedName(x));
        if Get(f, x).None? { Report(UndefinedName(x)); }
      case Binary(_, l, r) =>
        CheckExprNode(l, f);
        ghost var mid := sink;
        CheckExprNode(r, f);
        ReportsOn(was, mid, sink, ExprReports(l, f), ExprReports(r, f));
        NameReportsUnion(ReadE(l), ReadE(r), AssignedE(l), AssignedE(r), f);
        assert ExprReports(l, f) + ExprReports(r, f) == ExprReports(e, f);
      case Unary(_, x) =>
        CheckExprNode(x, f);
      case Assign(x, _, r) =>
        CheckAssign(x, r, f);
        NameReportsUnion(ReadE(r), {}, AssignedE(r), {x}, f);
        assert ReadE(r) + {} == ReadE(r);
        assert AssignReports(x, r, f) == ExprReports(e, f);
      case NotLowered =>
        LeafReports(e, f);
        OneReport(was, NotLowerable);
        Report(NotLowerable);
    }

    ghost function AssignReports(x: Name, r: Expr, f: Frame): set<Diagnostic> {
      ExprReports(r, f) + NameReports({}, {x}, f)
    }

    method CheckAssign(x: Name, r: Expr, f: Frame)
      modifies this
      ensures old(sink) <= sink
      ensures sink == old(sink) <==> AcceptsAssign(x, r, f)
      ensures Reports(old(sink), sink, AssignReports(x, r, f))
      decreases r, 1
    {
      hide Get, NameReports, Reports;
      ghost var was := sink;
      CheckExprNode(r, f);
      ghost var mid := sink;
      NoReports(f, x);
      OneReport(mid, UndefinedName(x));
      OneReport(mid, AssignToImmutable(x));
      var b := Get(f, x);
      if b.None? {
        Report(UndefinedName(x));
      } else if !b.value {
        Report(AssignToImmutable(x));
      }
      ReportsOn(was, mid, sink, ExprReports(r, f), NameReports({}, {x}, f));
    }

    /** Reports nothing exactly when the statement is acceptable, and then returns the frame after it. */
    method CheckStmtNode(s: Stmt, f: Frame) returns (after: Frame)
      modifies this
      ensures old(sink) <= sink
      ensures sink == old(sink) <==> CheckStmt(s, f).Some?
      ensures CheckStmt(s, f).Some? ==> after == CheckStmt(s, f).value
      decreases s
    {
      after := f;
      match s
      case Let(x, isVar, init) =>
        if init.Some? { CheckExprNode(init.value, f); }
        if Get(f, x).Some? {
          Report(DuplicateBinding(x));
        } else {
          after := f + [(x, isVar)];
        }
      case Do(e) =>
        CheckExprNode(e, f);
      case AssignStmt(x, _, r) =>
        CheckAssign(x, r, f);
      case ReturnStmt(result) =>
        if result.Some? { CheckExprNode(result.value, f); }
      case IfStmt(cond, yes, no) =>
        CheckExprNode(cond, f);
        var y := CheckStmtNode(yes, f);
        var n := f;
        if no.Some? { n := CheckStmtNode(no.value, f); }
        after := MergeFrames(f, y, n);
      case BlockStmt(stmts) =>
        after := CheckAllNodes(stmts, f);
      case ForStmt(x, lo, hi, body) =>
        CheckExprNode(lo, f);
        CheckExprNode(hi, f);
        var inner := f;
        if Get(f, x).Some? {
          Report(DuplicateBinding(x));
        } else {
          inner := f + [(x, false)];
        }
        if ContainsUnlowerable(body) {
          Report(NotLowerable);
          return;
        }
        var _ := CheckStmtNode(body, inner);
      case MatchStmt =>
        Report(NotLowerable);
    }

    method CheckAllNodes(stmts: seq<Stmt>, f: Frame) returns (after: Frame)
      modifies this
      ensures old(sink) <= sink
      ensures sink == old(sink) <==> CheckAll(stmts, f).Some?
      ensures CheckAll(stmts, f).Some? ==> after == CheckAll(stmts, f).value
      decreases stmts
    {
      after := f;
      if stmts != [] {
        after := CheckStmtNode(stmts[0], f);
        after := CheckAllNodes(stmts[1..], after);
      }
    }
  }

  // ---- Every run there could be ----

  /** A run whose branch outcomes, trip counts and values are whatever the oracle says next. */
  datatype Trace =
    | Fine(env: Env, rest: seq<Word>)
    | Left
    | Unbound(name: Name)
    | OracleEnds

  function AnyExpr(e: Expr, env: Env, oracle: seq<Word>): Trace {
    match e
    case IntLit(_) => Fine(env, oracle)
    case BoolLit(_) => Fine(env, oracle)
    case Ident(x) => if x in env then Fine(env, oracle) else Unbound(x)
    case Binary(_, l, r) =>
      (match AnyExpr(l, env, oracle) case Fine(env1, o1) => AnyExpr(r, env1, o1) case t => t)
    case Unary(_, x) => AnyExpr(x, env, oracle)
    case Assign(x, _, r) =>
      (match AnyExpr(r, env, oracle)
       case Fine(env1, o1) =>
         if x !in env1 then Unbound(x)
         else if o1 == [] then OracleEnds
         else Fine(env1[x := o1[0]], o1[1..])
       case t => t)
    case NotLowered => Fine(env, oracle)
  }

  function AnyStmt(s: Stmt, env: Env, oracle: seq<Word>): Trace
    decreases s, 0
  {
    match s
    case Let(x, _, init) =>
      (match if init.Some? then AnyExpr(init.value, env, oracle) else Fine(env, oracle)
       case Fine(env1, o1) => if o1 == [] then OracleEnds else Fine(env1[x := o1[0]], o1[1..])
       case t => t)
    case Do(e) => AnyExpr(e, env, oracle)
    case AssignStmt(x, how, r) => AnyExpr(Assign(x, how, r), env, oracle)
    case ReturnStmt(result) =>
      (match if result.Some? then AnyExpr(result.value, env, oracle) else Fine(env, oracle)
       case Fine(_, _) => Left
       case t => t)
    case IfStmt(cond, yes, no) =>
      (match AnyExpr(cond, env, oracle)
       case Fine(env1, o1) =>
         if o1 == [] then OracleEnds
         else if o1[0] != 0 then AnyStmt(yes, env1, o1[1..])
         else if no.Some? then AnyStmt(no.value, env1, o1[1..])
         else Fine(env1, o1[1..])
       case t => t)
    case BlockStmt(stmts) => AnyAll(stmts, env, oracle)
    case ForStmt(x, lo, hi, body) =>
      (match AnyExpr(lo, env, oracle)
       case Fine(env1, o1) =>
         (match AnyExpr(hi, env1, o1)
          case Fine(env2, o2) => if o2 == [] then OracleEnds else AnyTurns(x, o2[0], body, env2, o2[1..])
          case t => t)
       case t => t)
    case MatchStmt => Fine(env, oracle)
  }

  function AnyAll(stmts: seq<Stmt>, env: Env, oracle: seq<Word>): Trace
    decreases stmts, 0
  {
    if stmts == [] then Fine(env, oracle)
    else match AnyStmt(stmts[0], env, oracle)
      case Fine(env1, o1) => AnyAll(stmts[1..], env1, o1)
      case t => t
  }

  function AnyTurns(x: Name, turns: nat, body: Stmt, env: Env, oracle: seq<Word>): Trace
    decreases body, 1, turns
  {
    if turns == 0 then Fine(env, oracle)
    else if oracle == [] then OracleEnds
    else match AnyStmt(body, env[x := oracle[0]], oracle[1..])
      case Fine(env1, o1) => AnyTurns(x, turns - 1, body, Scoped(env1, env), o1)
      case t => t
  }

  // ---- Soundness ----

  ghost predicate Covers(env: Env, f: Frame) {
    forall x :: Get(f, x).Some? ==> x in env
  }

  ghost predicate KeepsImmutable(f: Frame, before: Env, after: Env) {
    forall x :: Get(f, x) == Some(false) && x in before ==> x in after && after[x] == before[x]
  }

  /** Nothing unbound was touched; everything visible is bound and immutable names are unchanged. */
  ghost predicate SafeTrace(f: Frame, f': Frame, before: Env, t: Trace) {
    && !t.Unbound?
    && (t.Fine? ==> Covers(t.env, f') && KeepsImmutable(f, before, t.env))
  }

  ghost predicate Grows(f: Frame, f': Frame) {
    forall x :: Get(f, x).Some? ==> Get(f', x) == Get(f, x)
  }

  lemma Extended(f: Frame, x: Name, m: bool)
    ensures forall y :: Get(f + [(x, m)], y) == if Get(f, y).Some? then Get(f, y) else if y == x then Some(m) else None
  {
    forall y: Name { GetSnoc(f, x, m, y); }
  }

  lemma {:induction false} CheckGrows(s: Stmt, f: Frame)
    requires CheckStmt(s, f).Some?
    ensures Grows(f, CheckStmt(s, f).value)
    decreases s
  {
    match s
    case Let(x, isVar, _) => Extended(f, x, isVar);
    case BlockStmt(stmts) => CheckAllGrows(stmts, f);
    case _ =>
  }

  lemma {:induction false} CheckAllGrows(stmts: seq<Stmt>, f: Frame)
    requires CheckAll(stmts, f).Some?
    ensures Grows(f, CheckAll(stmts, f).value)
    decreases stmts
  {
    if stmts != [] {
      CheckGrows(stmts[0], f);
      CheckAllGrows(stmts[1..], CheckStmt(stmts[0], f).value);
    }
  }

  lemma {:induction false} ExprSafe(e: Expr, f: Frame, env: Env, oracle: seq<Word>)
    requires AcceptsExpr(e, f) && Covers(env, f)
    ensures SafeTrace(f, f, env, AnyExpr(e, env, oracle))
    decreases e
  {
    match e
    case Binary(_, l, r) =>
      ExprSafe(l, f, env, oracle);
      var t := AnyExpr(l, env, oracle);
      if t.Fine? { ExprSafe(r, f, t.env, t.rest); }
    case Unary(_, x) => ExprSafe(x, f, env, oracle);
    case Assign(x, _, r) => ExprSafe(r, f, env, oracle);
    case _ =>
  }

  lemma {:induction false} StmtSafe(s: Stmt, f: Frame, env: Env, oracle: seq<Word>)
    requires CheckStmt(s, f).Some? && Covers(env, f)
    ensures SafeTrace(f, CheckStmt(s, f).value, env, AnyStmt(s, env, oracle))
    decreases s, 0
  {
    match s
    case Let(x, isVar, init) =>
      Extended(f, x, isVar);
      if init.Some? { ExprSafe(init.value, f, env, oracle); }
    case Do(e) => ExprSafe(e, f, env, oracle);
    case AssignStmt(x, how, r) => ExprSafe(Assign(x, how, r), f, env, oracle);
    case ReturnStmt(result) =>
      if result.Some? { ExprSafe(result.value, f, env, oracle); }
    case IfStmt(cond, yes, no) =>
      ExprSafe(cond, f, env, oracle);
      var t := AnyExpr(cond, env, oracle);
      if t.Fine? && t.rest != [] {
        StmtSafe(yes, f, t.env, t.rest[1..]);
        if no.Some? { StmtSafe(no.value, f, t.env, t.rest[1..]); }
        CheckGrows(yes, f);
        if no.Some? { CheckGrows(no.value, f); }
      }
    case BlockStmt(stmts) => AllSafe(stmts, f, env, oracle);
    case ForStmt(x, lo, hi, body) =>
      ExprSafe(lo, f, env, oracle);
      var t := AnyExpr(lo, env, oracle);
      if t.Fine? {
        ExprSafe(hi, f, t.env, t.rest);
        var t2 := AnyExpr(hi, t.env, t.rest);
        if t2.Fine? && t2.rest != [] { TurnsSafe(x, t2.rest[0], body, f, t2.env, t2.rest[1..]); }
      }
    case MatchStmt =>
  }

  lemma {:induction false} AllSafe(stmts: seq<Stmt>, f: Frame, env: Env, oracle: seq<Word>)
    requires CheckAll(stmts, f).Some? && Covers(env, f)
    ensures SafeTrace(f, CheckAll(stmts, f).value, env, AnyAll(stmts, env, oracle))
    decreases stmts, 0
  {
    if stmts != [] {
      StmtSafe(stmts[0], f, env, oracle);
      CheckGrows(stmts[0], f);
      var t := AnyStmt(stmts[0], env, oracle);
      if t.Fine? { AllSafe(stmts[1..], CheckStmt(stmts[0], f).value, t.env, t.rest); }
    }
  }

  lemma {:induction false} TurnsSafe(x: Name, turns: nat, body: Stmt, f: Frame, env: Env, oracle: seq<Word>)
    requires Get(f, x).None? && CheckStmt(body, f + [(x, false)]).Some? && Covers(env, f)
    ensures SafeTrace(f, f, env, AnyTurns(x, turns, body, env, oracle))
    decreases body, 1, turns
  {
    if turns > 0 && oracle != [] {
      var inner := f + [(x, false)];
      Extended(f, x, false);
      StmtSafe(body, inner, env[x := oracle[0]], oracle[1..]);
      CheckGrows(body, inner);
      var t := AnyStmt(body, env[x := oracle[0]], oracle[1..]);
      if t.Fine? { TurnsSafe(x, turns - 1, body, f, Scoped(t.env, env), t.rest); }
    }
  }

  lemma {:induction false} ParamsCovered(params: seq<Param>, args: seq<Word>)
    requires ParamFrame(params).Some? && |params| <= |args|
    ensures Covers(Bound(params, args), ParamFrame(params).value)
  {
    if params != [] {
      var n := |params| - 1;
      ParamsCovered(params[..n], args);
      Extended(ParamFrame(params[..n]).value, params[n].name, params[n].isMutable);
    }
  }

  /** No run of an accepted function, whatever its branches and trip counts, reads or assigns an unbound
      name, and its immutable parameters keep their arguments. */
  lemma AcceptedIsSafe(fn: Fn, args: seq<Word>, oracle: seq<Word>)
    requires Accepts(fn) && |fn.params| <= |args|
    ensures var f := ParamFrame(fn.params).value;
      SafeTrace(f, CheckAll(fn.stmts, f).value, Bound(fn.params, args),
                AnyAll(fn.stmts, Bound(fn.params, args), oracle))
  {
    ParamsCovered(fn.params, args);
    AllSafe(fn.stmts, ParamFrame(fn.params).value, Bound(fn.params, args), oracle);
  }
}
