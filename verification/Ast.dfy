/** The part of the surface language whose meaning the middle end has to keep. */
module Ast {
  import opened Wrappers
  import opened Words

  /** Interned identifiers. */
  type Name = nat

  datatype BinaryToken =
    | Plus | Minus | Star | Slash | Percent | Amp | Pipe | Caret | ShlToken | ShrToken
    | EqEq | BangEq | Lt | LtEq | Gt | GtEq | AndAnd | OrOr

  datatype UnaryToken = MinusSign | Bang | Tilde

  datatype AssignToken = Eq | PlusEq | MinusEq | StarEq | SlashEq

  datatype Expr =
    | IntLit(value: Word)
    | BoolLit(truth: bool)
    | Ident(name: Name)
    | Binary(op: BinaryToken, lhs: Expr, rhs: Expr)
    | Unary(sign: UnaryToken, operand: Expr)
    | Assign(target: Name, how: AssignToken, rhs: Expr)
    /** Fields, indices and paths: parsed, never lowered. */
    | NotLowered

  datatype Stmt =
    | Let(name: Name, isVar: bool, init: Option<Expr>)
    | Do(expr: Expr)
    /** An assignment that is a statement of its own; the parser does not wrap it. */
    | AssignStmt(target: Name, how: AssignToken, rhs: Expr)
    | ReturnStmt(result: Option<Expr>)
    | IfStmt(cond: Expr, yes: Stmt, no: Option<Stmt>)
    | BlockStmt(stmts: seq<Stmt>)
    | ForStmt(index: Name, lo: Expr, hi: Expr, body: Stmt)
    /** Parsed, never lowered. */
    | MatchStmt

  datatype Param = Param(name: Name, isMutable: bool)

  datatype Fn = Fn(params: seq<Param>, stmts: seq<Stmt>)

  // ---- Names in an expression ----

  function ReadE(e: Expr): set<Name> {
    match e
    case Ident(x) => {x}
    case Binary(_, l, r) => ReadE(l) + ReadE(r)
    case Unary(_, x) => ReadE(x)
    case Assign(_, _, r) => ReadE(r)
    case _ => {}
  }

  function AssignedE(e: Expr): set<Name> {
    match e
    case Binary(_, l, r) => AssignedE(l) + AssignedE(r)
    case Unary(_, x) => AssignedE(x)
    case Assign(x, _, r) => AssignedE(r) + {x}
    case _ => {}
  }

  /** No field, index or path stands in it. */
  predicate NamesOnly(e: Expr) {
    match e
    case Binary(_, l, r) => NamesOnly(l) && NamesOnly(r)
    case Unary(_, x) => NamesOnly(x)
    case Assign(_, _, r) => NamesOnly(r)
    case NotLowered => false
    case _ => true
  }

  // ---- Association lists, as the checker's frames and the lowerer's bindings use them ----

  type Assoc<V> = seq<(Name, V)>

  function Get<V>(m: Assoc<V>, x: Name): Option<V> {
    if m == [] then None else if m[0].0 == x then Some(m[0].1) else Get(m[1..], x)
  }

  /** Replaces the entry of `x`, or adds one at the end. */
  function Put<V>(m: Assoc<V>, x: Name, v: V): (r: Assoc<V>)
    ensures forall y :: Get(r, y) == if y == x then Some(v) else Get(m, y)
  {
    if m == [] then
      var r: Assoc<V> := [(x, v)];
      assert r[1..] == [];
      r
    else if m[0].0 == x then [(x, v)] + m[1..]
    else [m[0]] + Put(m[1..], x, v)
  }

  lemma {:induction false} GetAppend<V>(a: Assoc<V>, b: Assoc<V>, x: Name)
    ensures Get(a + b, x) == if Get(a, x).Some? then Get(a, x) else Get(b, x)
  {
    if a == [] {
      assert a + b == b;
    } else {
      assert (a + b)[1..] == a[1..] + b;
      GetAppend(a[1..], b, x);
    }
  }

  lemma GetSnoc<V>(m: Assoc<V>, x: Name, v: V, y: Name)
    ensures Get(m + [(x, v)], y) == if Get(m, y).Some? then Get(m, y) else if y == x then Some(v) else None
  {
    var one: Assoc<V> := [(x, v)];
    assert one[1..] == [];
    GetAppend(m, one, y);
  }
}
