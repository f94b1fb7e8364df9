/** What the checker accepts, said without it: the places where a function reads, assigns and binds names, each with the
    names visible there, and a function is accepted exactly when every place is fine. */
module AcceptedExactly {
  import opened Wrappers
  import opened Ast
  import opened TypeChecker

  // ---- Expressions ----

  predicate AllVisible(names: set<Name>, f: Frame) {
    forall x :: x in names ==> Get(f, x).Some?
  }

  predicate AllMutable(names: set<Name>, f: Frame) {
    forall x :: x in names ==> Get(f, x) == Some(true)
  }

  lemma UnionParts(a: set<Name>, b: set<Name>, f: Frame)
    ensures AllVisible(a + b, f) <==> AllVisible(a, f) && AllVisible(b, f)
    ensures AllMutable(a + b, f) <==> AllMutable(a, f) && AllMutable(b, f)
  {
    hide Get;
    assert forall x :: x in a || x in b ==> x in a + b;
  }

  lemma OneName(x: Name, f: Frame)
    ensures (AllVisible({x}, f) <==> Get(f, x).Some?) && (AllMutable({x}, f) <==> Get(f, x) == Some(true))
    ensures AllVisible({}, f) && AllMutable({}, f)
  {
    hide Get;
    assert x in {x};
  }

  /** An expression is accepted exactly when what it reads is visible, what it assigns is visible and mutable, and only
      names stand in it. */
  lemma {:induction false} ExprAcceptedExactly(e: Expr, f: Frame)
    ensures AcceptsExpr(e, f) <==> AllVisible(ReadE(e), f) && AllMutable(AssignedE(e), f) && NamesOnly(e)
  {
    hide Get, AllVisible, AllMutable;
    OneName(0, f);
    match e
    case Ident(x) => OneName(x, f);
    case Binary(_, l, r) =>
      ExprAcceptedExactly(l, f);
      ExprAcceptedExactly(r, f);
      UnionParts(ReadE(l), ReadE(r), f);
      UnionParts(AssignedE(l), AssignedE(r), f);
    case Unary(_, x) => ExprAcceptedExactly(x, f);
    case Assign(x, _, r) =>
      ExprAcceptedExactly(r, f);
      OneName(x, f);
      UnionParts(AssignedE(r), {x}, f);
    case _ =>
  }

  // ---- Places in a statement ----

  /** The visible names, and which of them may be assigned. */
  type Scope = map<Name, bool>

  datatype Use = Evaluates(e: Expr) | Updates(x: Name) | Introduces(x: Name) | CannotBeLowered

  /** Something a statement does, and what is visible where it does it. */
  datatype Place = Place(scope: Scope, use: Use)

  predicate Fine(p: Place) {
    match p.use
    case Evaluates(e) =>
      && NamesOnly(e) && (forall x :: x in ReadE(e) ==> x in p.scope)
      && forall x :: x in AssignedE(e) ==> x in p.scope && p.scope[x]
    case Updates(x) => x in p.scope && p.scope[x]
    case Introduces(x) => x !in p.scope
    case CannotBeLowered => false
  }

  /** What is visible after a statement: what was, what it introduces, and what both arms of a branch do. */
  function After(s: Stmt, scope: Scope): Scope
    decreases s
  {
    match s
    case Let(x, isVar, _) => scope[x := isVar]
    case IfStmt(_, yes, Some(no)) =>
      var y, n := After(yes, scope), After(no, scope);
      map x | x in y && x in n :: y[x]
    case BlockStmt(stmts) => AfterAll(stmts, scope)
    case _ => scope
  }

  function AfterAll(stmts: seq<Stmt>, scope: Scope): Scope
    decreases stmts
  {
    if stmts == [] then scope else AfterAll(stmts[1..], After(stmts[0], scope))
  }

  /** Everything a statement does; returns cannot be lowered inside loops and matches nowhere. */
  function Places(s: Stmt, scope: Scope, looping: bool): seq<Place>
    decreases s
  {
    match s
    case Let(x, _, init) =>
      (if init.Some? then [Place(scope, Evaluates(init.value))] else []) + [Place(scope, Introduces(x))]
    case Do(e) => [Place(scope, Evaluates(e))]
    case AssignStmt(x, _, r) => [Place(scope, Evaluates(r)), Place(scope, Updates(x))]
    case ReturnStmt(result) =>
      (if result.Some? then [Place(scope, Evaluates(result.value))] else [])
      + if looping then [Place(scope, CannotBeLowered)] else []
    case IfStmt(cond, yes, no) =>
      [Place(scope, Evaluates(cond))] + Places(yes, scope, looping)
      + if no.Some? then Places(no.value, scope, looping) else []
    case BlockStmt(stmts) => PlacesAll(stmts, scope, looping)
    case ForStmt(i, lo, hi, body) =>
      [Place(scope, Evaluates(lo)), Place(scope, Evaluates(hi)), Place(scope, Introduces(i))]
      + Places(body, scope[i := false], true)
    case MatchStmt => [Place(scope, CannotBeLowered)]
  }

  function PlacesAll(stmts: seq<Stmt>, scope: Scope, looping: bool): seq<Place>
    decreases stmts
  {
    if stmts == [] then [] else Places(stmts[0], scope, looping) + PlacesAll(stmts[1..], After(stmts[0], scope),
      looping)
  }

  predicate AllFine(places: seq<Place>) {
    forall i :: 0 <= i < |places| ==> Fine(places[i])
  }

  lemma FineAppend(a: seq<Place>, b: seq<Place>)
    ensures AllFine(a + b) <==> AllFine(a) && AllFine(b)
  {
    hide Fine;
    if AllFine(a + b) {
      assert forall i :: 0 <= i < |a| ==> (a + b)[i] == a[i];
      forall i | 0 <= i < |b| ensures Fine(b[i]) { assert (a + b)[|a| + i] == b[i]; }
    }
  }

  lemma FineOne(p: Place)
    ensures AllFine([p]) <==> Fine(p)
  {
    hide Fine;
    if AllFine([p]) { assert [p][0] == p; }
  }

  lemma FineNone()
    ensures AllFine([])
  {
  }

  // ---- The checker accepts exactly what is fine ----

  ghost predicate Shows(f: Frame, scope: Scope) {
    forall x :: Get(f, x) == if x in scope then Some(scope[x]) else None
  }

  lemma EvaluatedExactly(e: Expr, f: Frame, scope: Scope)
    requires Shows(f, scope)
    ensures AcceptsExpr(e, f) <==> Fine(Place(scope, Evaluates(e)))
  {
    ExprAcceptedExactly(e, f);
    ShownNames(ReadE(e), f, scope);
    ShownNames(AssignedE(e), f, scope);
    hide AllVisible, AllMutable, Get, AcceptsExpr;
  }

  lemma ShownNames(names: set<Name>, f: Frame, scope: Scope)
    requires Shows(f, scope)
    ensures AllVisible(names, f) <==> forall x :: x in names ==> x in scope
    ensures AllMutable(names, f) <==> forall x :: x in names ==> x in scope && scope[x]
  {
  }

  /** A statement is accepted, and can be lowered where it stands, exactly when all its places are fine; then the frame
      after it shows what is visible. */
  lemma {:induction false} StmtAcceptedExactly(s: Stmt, f: Frame, scope: Scope, looping: bool)
    requires Shows(f, scope)
    ensures AllFine(Places(s, scope, looping)) <==> CheckStmt(s, f).Some? && (looping ==> !ContainsUnlowerable(s))
    ensures CheckStmt(s, f).Some? ==> Shows(CheckStmt(s, f).value, After(s, scope))
    decreases s, 1
  {
    hide Get, Fine, AllFine, AcceptsExpr;
    FineNone();
    match s
    case Let(x, isVar, init) =>
      FineOne(Place(scope, Introduces(x)));
      IntroducedExactly(x, isVar, f, scope);
      if init.Some? {
        EvaluatedExactly(init.value, f, scope);
        FineOne(Place(scope, Evaluates(init.value)));
        FineAppend([Place(scope, Evaluates(init.value))], [Place(scope, Introduces(x))]);
      } else {
        FineAppend([], [Place(scope, Introduces(x))]);
      }
    case Do(e) =>
      FineOne(Place(scope, Evaluates(e)));
      EvaluatedExactly(e, f, scope);
    case AssignStmt(x, how, r) => AssignAcceptedExactly(x, how, r, f, scope, looping);
    case ReturnStmt(result) => ReturnAcceptedExactly(result, f, scope, looping);
    case IfStmt(cond, yes, no) => IfAcceptedExactly(cond, yes, no, f, scope, looping);
    case BlockStmt(stmts) => AllAcceptedExactly(stmts, f, scope, looping);
    case ForStmt(i, lo, hi, body) => ForAcceptedExactly(i, lo, hi, body, f, scope, looping);
    case MatchStmt =>
      FineOne(Place(scope, CannotBeLowered));
      RefusedIsNotFine(scope);
  }

  lemma RefusedIsNotFine(scope: Scope)
    ensures !Fine(Place(scope, CannotBeLowered))
  {
  }

  lemma IntroducedExactly(x: Name, m: bool, f: Frame, scope: Scope)
    requires Shows(f, scope)
    ensures Fine(Place(scope, Introduces(x))) <==> Get(f, x).None?
    ensures Get(f, x).None? ==> Shows(f + [(x, m)], scope[x := m])
  {
    Extended(f, x, m);
    hide Get;
  }

  lemma AssignAcceptedExactly(x: Name, how: AssignToken, r: Expr, f: Frame, scope: Scope, looping: bool)
    requires Shows(f, scope)
    ensures AllFine(Places(AssignStmt(x, how, r), scope, looping)) <==> AcceptsAssign(x, r, f)
  {
    hide Get, AllFine, AcceptsExpr;
    EvaluatedExactly(r, f, scope);
    FineOne(Place(scope, Evaluates(r)));
    FineOne(Place(scope, Updates(x)));
    FineAppend([Place(scope, Evaluates(r))], [Place(scope, Updates(x))]);
    assert Places(AssignStmt(x, how, r), scope, looping) == [Place(scope, Evaluates(r))] + [Place(scope, Updates(x))];
  }

  lemma ReturnAcceptedExactly(result: Option<Expr>, f: Frame, scope: Scope, looping: bool)
    requires Shows(f, scope)
    ensures AllFine(Places(ReturnStmt(result), scope, looping)) <==> CheckStmt(ReturnStmt(result), f).Some? && !looping
  {
    hide Get, Fine, AllFine, AcceptsExpr;
    var value := if result.Some? then [Place(scope, Evaluates(result.value))] else [];
    var stop := if looping then [Place(scope, CannotBeLowered)] else [];
    FineNone();
    FineOne(Place(scope, CannotBeLowered));
    RefusedIsNotFine(scope);
    FineAppend(value, stop);
    if result.Some? {
      EvaluatedExactly(result.value, f, scope);
      FineOne(Place(scope, Evaluates(result.value)));
    }
  }

  lemma {:induction false} IfAcceptedExactly(cond: Expr, yes: Stmt, no: Option<Stmt>, f: Frame, scope: Scope,
        looping: bool)
    requires Shows(f, scope)
    ensures var s := IfStmt(cond, yes, no);
      && (AllFine(Places(s, scope, looping)) <==> CheckStmt(s, f).Some? && (looping ==> !ContainsUnlowerable(s)))
      && (CheckStmt(s, f).Some? ==> Shows(CheckStmt(s, f).value, After(s, scope)))
    decreases IfStmt(cond, yes, no), 0
  {
    hide Get, Fine, AllFine, AcceptsExpr, Shows;
    var test, first := [Place(scope, Evaluates(cond))], Places(yes, scope, looping);
    var second := if no.Some? then Places(no.value, scope, looping) else [];
    EvaluatedExactly(cond, f, scope);
    FineOne(Place(scope, Evaluates(cond)));
    FineNone();
    FineAppend(test, first);
    FineAppend(test + first, second);
    StmtAcceptedExactly(yes, f, scope, looping);
    if no.Some? { StmtAcceptedExactly(no.value, f, scope, looping); }
    if CheckStmt(IfStmt(cond, yes, no), f).Some? { MergedShows(cond, yes, no, f, scope); }
  }

  lemma MergedShows(cond: Expr, yes: Stmt, no: Option<Stmt>, f: Frame, scope: Scope)
    requires Shows(f, scope) && CheckStmt(yes, f).Some? && Shows(CheckStmt(yes, f).value, After(yes, scope))
    requires no.Some? ==> CheckStmt(no.value, f).Some? && Shows(CheckStmt(no.value, f).value, After(no.value, scope))
    ensures var n := if no.Some? then CheckStmt(no.value, f).value else f;
      Shows(MergeFrames(f, CheckStmt(yes, f).value, n), After(IfStmt(cond, yes, no), scope))
  {
    hide Get, CheckStmt, MergeFrames;
    CheckGrows(yes, f);
    if no.Some? { CheckGrows(no.value, f); }
  }

  lemma {:induction false} AllAcceptedExactly(stmts: seq<Stmt>, f: Frame, scope: Scope, looping: bool)
    requires Shows(f, scope)
    ensures AllFine(PlacesAll(stmts, scope, looping)) <==>
      CheckAll(stmts, f).Some? && (looping ==> !ContainsUnlowerable(BlockStmt(stmts)))
    ensures CheckAll(stmts, f).Some? ==> Shows(CheckAll(stmts, f).value, AfterAll(stmts, scope))
    decreases stmts, 0
  {
    hide Get, Fine, AllFine, AcceptsExpr, Shows;
    FineNone();
    UnlowerableParts(stmts);
    if stmts != [] {
      StmtAcceptedExactly(stmts[0], f, scope, looping);
      FineAppend(Places(stmts[0], scope, looping), PlacesAll(stmts[1..], After(stmts[0], scope), looping));
      if CheckStmt(stmts[0], f).Some? {
        AllAcceptedExactly(stmts[1..], CheckStmt(stmts[0], f).value, After(stmts[0], scope), looping);
      }
    }
  }

  lemma UnlowerableParts(stmts: seq<Stmt>)
    ensures stmts != [] ==>
      (ContainsUnlowerable(BlockStmt(stmts)) <==>
         ContainsUnlowerable(stmts[0]) || ContainsUnlowerable(BlockStmt(stmts[1..])))
    ensures stmts == [] ==> !ContainsUnlowerable(BlockStmt(stmts))
  {
    if stmts != [] {
      var rest := stmts[1..];
      assert forall i :: 0 <= i < |rest| ==> rest[i] == stmts[i + 1];
      if ContainsUnlowerable(BlockStmt(stmts)) {
        var i :| 0 <= i < |stmts| && ContainsUnlowerable(stmts[i]);
        if i > 0 { assert ContainsUnlowerable(rest[i - 1]); }
      }
      if ContainsUnlowerable(BlockStmt(rest)) {
        var i :| 0 <= i < |rest| && ContainsUnlowerable(rest[i]);
        assert ContainsUnlowerable(stmts[i + 1]);
      }
    }
  }

  lemma {:induction false} ForAcceptedExactly(i: Name, lo: Expr, hi: Expr, body: Stmt, f: Frame, scope: Scope,
        looping: bool)
    requires Shows(f, scope)
    ensures var s := ForStmt(i, lo, hi, body);
      AllFine(Places(s, scope, looping)) <==> CheckStmt(s, f).Some? && (looping ==> !ContainsUnlowerable(s))
    decreases ForStmt(i, lo, hi, body), 0
  {
    hide Get, Fine, AllFine, AcceptsExpr, Shows;
    var a, b, c := Place(scope, Evaluates(lo)), Place(scope, Evaluates(hi)), Place(scope, Introduces(i));
    EvaluatedExactly(lo, f, scope);
    EvaluatedExactly(hi, f, scope);
    IntroducedExactly(i, false, f, scope);
    FineOne(a);
    FineOne(b);
    FineOne(c);
    FineAppend([a], [b]);
    FineAppend([a] + [b], [c]);
    assert [a] + [b] + [c] == [a, b, c];
    FineAppend([a, b, c], Places(body, scope[i := false], true));
    if Get<bool>(f, i).None? {
      StmtAcceptedExactly(body, f + [(i, false)], scope[i := false], true);
    }
  }

  // ---- Functions ----

  function ParamScope(params: seq<Param>): Scope {
    if params == [] then map[] else ParamScope(params[..|params| - 1])[params[|params| - 1].name :=
      params[|params| - 1].isMutable]
  }

  ghost predicate DistinctNames(params: seq<Param>) {
    forall i, j :: 0 <= i < j < |params| ==> params[i].name != params[j].name
  }

  lemma {:induction false} ParamsShow(params: seq<Param>)
    ensures ParamFrame(params).Some? <==> DistinctNames(params)
    ensures ParamFrame(params).Some? ==> Shows(ParamFrame(params).value, ParamScope(params))
    ensures forall x :: x in ParamScope(params) <==> exists i :: 0 <= i < |params| && params[i].name == x
  {
    if params != [] {
      var n := |params| - 1;
      var front := params[..n];
      ParamsShow(front);
      assert front == params[..|params| - 1];
      hide Get;
      assert forall i :: 0 <= i < n ==> front[i] == params[i];
      if ParamFrame(front).Some? {
        IntroducedExactly(params[n].name, params[n].isMutable, ParamFrame(front).value, ParamScope(front));
      }
      if DistinctNames(front) && params[n].name !in ParamScope(front) {
        forall i, j | 0 <= i < j < |params| ensures params[i].name != params[j].name {
          if j < n { assert front[i] == params[i] && front[j] == params[j]; }
        }
      }
    }
  }

  /** A function is accepted exactly when its parameters have different names and everything it does is fine where it
      does it. */
  lemma FunctionAcceptedExactly(fn: Fn)
    ensures Accepts(fn) <==> DistinctNames(fn.params) && AllFine(PlacesAll(fn.stmts, ParamScope(fn.params), false))
  {
    hide Get, Fine, AllFine, Shows, DistinctNames;
    ParamsShow(fn.params);
    if ParamFrame(fn.params).Some? {
      AllAcceptedExactly(fn.stmts, ParamFrame(fn.params).value, ParamScope(fn.params), false);
    }
  }
}
