/** The reference meaning of function bodies: a big-step interpreter over a scoped environment. */
module Interpreter {
  import opened Wrappers
  import opened Words
  import opened Ast

  type Env = map<Name, Word>

  datatype Outcome = Go(env: Env) | Done(value: Word) | Stuck

  /** What a binary operator computes; `&&` and `||` do not short-circuit. */
  function Meaning(op: BinaryToken): BinOp {
    match op
    case Plus => Add case Minus => Sub case Star => Mul case Slash => Div case Percent => Mod
    case Amp => And case Pipe => Or case Caret => Xor case ShlToken => Shl case ShrToken => Shr
    case EqEq => CmpEq case BangEq => CmpNe case Lt => CmpLt case LtEq => CmpLe case Gt => CmpGt case GtEq => CmpGe
    case AndAnd => And case OrOr => Or
  }

  function UnaryMeaning(op: UnaryToken): UnOp {
    match op case MinusSign => Neg case Bang => Not case Tilde => BitNot
  }

  /** The operator of a compound assignment. */
  function CompoundMeaning(how: AssignToken): Option<BinOp> {
    match how
    case Eq => None case PlusEq => Some(Add) case MinusEq => Some(Sub)
    case StarEq => Some(Mul) case SlashEq => Some(Div)
  }

  /** What assigning `b` yields, and the environment it leaves. */
  function Assigned(x: Name, how: AssignToken, b: Word, env: Env): Option<(Word, Env)> {
    if x !in env then None
    else match CompoundMeaning(how)
      case None => Some((b, env[x := b]))
      case Some(op) =>
        match EvalBin(op, env[x], b)
        case None => None
        case Some(w) => Some((w, env[x := w]))
  }

  /** The value of an expression and the environment its assignments leave. */
  function EvalExpr(e: Expr, env: Env): Option<(Word, Env)> {
    match e
    case IntLit(w) => Some((w, env))
    case BoolLit(b) => Some((Truth(b), env))
    case Ident(x) => if x in env then Some((env[x], env)) else None
    case Binary(op, l, r) =>
      (match EvalExpr(l, env)
       case None => None
       case Some((a, env1)) =>
         match EvalExpr(r, env1)
         case None => None
         case Some((b, env2)) =>
           match EvalBin(Meaning(op), a, b)
           case None => None
           case Some(w) => Some((w, env2)))
    case Unary(op, x) =>
      (match EvalExpr(x, env)
       case None => None
       case Some((a, env1)) => Some((EvalUn(UnaryMeaning(op), a), env1)))
    case Assign(x, how, r) =>
      (match EvalExpr(r, env)
       case None => None
       case Some((b, env1)) => Assigned(x, how, b, env1))
    case NotLowered => None
  }

  function Scoped(env: Env, outer: Env): (r: Env)
    ensures r.Keys <= outer.Keys
  {
    map x | x in env && x in outer :: env[x]
  }

  function Exec(s: Stmt, env: Env): Outcome
    decreases s, 0
  {
    match s
    case Let(x, _, init) =>
      if init.None? then Go(env[x := 0])
      else (match EvalExpr(init.value, env)
            case None => Stuck
            case Some((w, env1)) => Go(env1[x := w]))
    case Do(e) =>
      (match EvalExpr(e, env) case None => Stuck case Some((_, env1)) => Go(env1))
    case AssignStmt(x, how, r) =>
      (match EvalExpr(r, env)
       case None => Stuck
       case Some((b, env1)) =>
         match Assigned(x, how, b, env1) case None => Stuck case Some((_, env2)) => Go(env2))
    case ReturnStmt(result) =>
      if result.None? then Done(0)
      else (match EvalExpr(result.value, env) case None => Stuck case Some((w, _)) => Done(w))
    case IfStmt(cond, yes, no) =>
      (match EvalExpr(cond, env)
       case None => Stuck
       case Some((w, env1)) =>
         if w != 0 then Exec(yes, env1)
         else if no.Some? then Exec(no.value, env1)
         else Go(env1))
    case BlockStmt(stmts) => ExecAll(stmts, env)
    case ForStmt(x, lo, hi, body) =>
      (match EvalExpr(lo, env)
       case None => Stuck
       case Some((a, env1)) =>
         match EvalExpr(hi, env1)
         case None => Stuck
         case Some((b, env2)) => Turns(x, Signed(a), Signed(b), body, env2))
    case MatchStmt => Stuck
  }

  function ExecAll(stmts: seq<Stmt>, env: Env): Outcome
    decreases stmts, 0
  {
    if stmts == [] then Go(env)
    else match Exec(stmts[0], env)
      case Go(env1) => ExecAll(stmts[1..], env1)
      case o => o
  }

  /** The turns of `for x in i..hi`; the index and what the body binds do not outlive a turn. */
  function Turns(x: Name, i: int, hi: int, body: Stmt, env: Env): Outcome
    decreases body, 1, hi - i
  {
    if i >= hi then Go(env)
    else match Exec(body, env[x := Wrap(i)])
      case Go(env1) => Turns(x, i + 1, hi, body, Scoped(env1, env))
      case o => o
  }

  /** Arguments by parameter name. */
  function Bound(params: seq<Param>, args: seq<Word>): Env
    requires |params| <= |args|
  {
    if params == [] then map[]
    else Bound(params[..|params| - 1], args)[params[|params| - 1].name := args[|params| - 1]]
  }

  /** What a call returns; falling off the end returns zero. */
  function Call(f: Fn, args: seq<Word>): Option<Word>
    requires |f.params| <= |args|
  {
    match ExecAll(f.stmts, Bound(f.params, args))
    case Go(_) => Some(0)
    case Done(v) => Some(v)
    case Stuck => None
  }
}
