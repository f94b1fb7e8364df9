/** The expression grammar: a precedence-climbing parser over tokens, and the printer it undoes. */
module ParserSpec {
  import opened Wrappers
  import opened Words

  type Symbol = nat

  /** Operators the climbing loop knows: binary ones and assignments. */
  datatype Op =
    | Star | Slash | Percent | Plus | Minus | Shl | Shr | Amp | Caret | Pipe
    | EqEq | BangEq | Lt | LtEq | Gt | GtEq | AndAnd | OrOr
    | Assign | PlusAssign | MinusAssign | StarAssign | SlashAssign

  datatype Prefix = Negate | Bang | Tilde

  /** Tokens that can take part in an expression; `Other` stands for every token that cannot. */
  datatype Token =
    | IntToken(digits: string) | StrToken(text: Symbol) | TrueToken | FalseToken
    | IdentToken(text: Symbol) | TypeToken(text: Symbol)
    | LParen | RParen | LBracket | RBracket | Comma | Dot | DoubleColon
    | OpToken(op: Op) | BangToken | TildeToken
    | Other(text: Symbol)

  datatype Tree =
    | IntLit(value: Word) | StrLit(text: Symbol) | BoolLit(truth: bool)
    | Ident(name: Symbol) | Path(segments: seq<Symbol>)
    | Binary(op: Op, lhs: Tree, rhs: Tree)
    | Assignment(how: Op, target: Tree, source: Tree)
    | Unary(prefix: Prefix, operand: Tree)
    | Call(callee: Tree, args: seq<Tree>)
    | Field(base: Tree, field: Symbol)
    | Index(base: Tree, index: Tree)

  predicate IsAssignment(op: Op) {
    op.Assign? || op.PlusAssign? || op.MinusAssign? || op.StarAssign? || op.SlashAssign?
  }

  function Precedence(op: Op): (r: nat)
    ensures 2 <= r <= 13 && (r == 2 <==> IsAssignment(op))
  {
    match op
    case Star | Slash | Percent => 13
    case Plus | Minus => 12
    case Shl | Shr => 11
    case Amp | Caret | Pipe => 10
    case EqEq | BangEq | Lt | LtEq | Gt | GtEq => 9
    case AndAnd => 5
    case OrOr => 4
    case Assign | PlusAssign | MinusAssign | StarAssign | SlashAssign => 2
  }

  /** Assignments take a right operand of their own precedence, the others of a higher one. */
  function RightPrecedence(op: Op): nat {
    if IsAssignment(op) then Precedence(op) else Precedence(op) + 1
  }

  function Node(op: Op, l: Tree, r: Tree): Tree {
    if IsAssignment(op) then Assignment(op, l, r) else Binary(op, l, r)
  }

  // ---- Decimal literals ----

  predicate IsDigit(c: char) {
    '0' <= c <= '9'
  }

  /** Anything that is not a digit is passed over; the value wraps. */
  function IntValue(digits: string): Word {
    if digits == [] then 0
    else
      var c := digits[|digits| - 1];
      var front := IntValue(digits[..|digits| - 1]);
      if IsDigit(c) then Wrap(front * 10 + (c as int - '0' as int)) else front
  }

  function Digits(n: nat): string {
    if n < 10 then [('0' as int + n) as char] else Digits(n / 10) + [('0' as int + n % 10) as char]
  }

  lemma {:induction false} IntValueOfDigits(n: Word)
    ensures IntValue(Digits(n)) == n
  {
    var d := Digits(n);
    if n >= 10 {
      assert d[..|d| - 1] == Digits(n / 10);
      IntValueOfDigits(n / 10);
      assert n / 10 * 10 + n % 10 == n;
    } else {
      assert d[..0] == [];
    }
  }

  // ---- The parser ----

  /** A tree with what is left and how many times `expect` has reported, or the failure of a primary. */
  datatype Parsed =
    | Done(tree: Tree, rest: seq<Token>, reports: nat)
    | Failed(reports: nat)

  function Peek(ts: seq<Token>): Option<Token> {
    if ts == [] then None else Some(ts[0])
  }

  function TextOf(t: Option<Token>): Symbol {
    match t
    case Some(IdentToken(s)) => s
    case Some(StrToken(s)) => s
    case Some(TypeToken(s)) => s
    case Some(Other(s)) => s
    case _ => 0
  }

  /** `expect`: takes the token, or reports and stays. */
  function After(ts: seq<Token>, t: Token): (r: seq<Token>)
    ensures |r| <= |ts|
  {
    if Peek(ts) == Some(t) then ts[1..] else ts
  }

  function ReportUnless(ts: seq<Token>, t: Token): nat {
    if Peek(ts) == Some(t) then 0 else 1
  }

  predicate AtIdent(ts: seq<Token>) {
    ts != [] && ts[0].IdentToken?
  }

  function AfterIdent(ts: seq<Token>): (r: seq<Token>)
    ensures |r| <= |ts|
  {
    if AtIdent(ts) then ts[1..] else ts
  }

  /** The segments after the first `::` of a path. */
  function PathRest(ts: seq<Token>): (r: (seq<Symbol>, seq<Token>, nat))
    ensures |r.1| <= |ts| && r.0 != []
    decreases |ts|
  {
    var name := TextOf(Peek(ts));
    var report := if AtIdent(ts) then 0 else 1;
    var ts1 := AfterIdent(ts);
    if Peek(ts1) == Some(DoubleColon) then
      var (names, rest, reports) := PathRest(ts1[1..]);
      ([name] + names, rest, report + reports)
    else ([name], ts1, report)
  }

  function ParseExpr(ts: seq<Token>, min: nat): (r: Parsed)
    ensures r.Done? ==> |r.rest| < |ts|
    decreases |ts|, 4
  {
    match ParseUnary(ts)
    case Failed(n) => Failed(n)
    case Done(lhs, rest, n) => Climb(lhs, rest, min, n)
  }

  /** The climbing loop: folds operators of at least `min` into `lhs`. */
  function Climb(lhs: Tree, ts: seq<Token>, min: nat, reports: nat): (r: Parsed)
    ensures r.Done? ==> |r.rest| <= |ts|
    decreases |ts|, 5
  {
    if ts == [] || !ts[0].OpToken? || Precedence(ts[0].op) < min then Done(lhs, ts, reports)
    else
      match ParseExpr(ts[1..], RightPrecedence(ts[0].op))
      case Failed(n) => Failed(reports + n)
      case Done(rhs, rest, n) => Climb(Node(ts[0].op, lhs, rhs), rest, min, reports + n)
  }

  function PrefixOf(t: Option<Token>): Option<Prefix> {
    match t
    case Some(OpToken(Minus)) => Some(Negate)
    case Some(BangToken) => Some(Bang)
    case Some(TildeToken) => Some(Tilde)
    case _ => None
  }

  function ParseUnary(ts: seq<Token>): (r: Parsed)
    ensures r.Done? ==> |r.rest| < |ts|
    decreases |ts|, 3
  {
    match PrefixOf(Peek(ts))
    case Some(p) =>
      (match ParseUnary(ts[1..])
       case Failed(n) => Failed(n)
       case Done(x, rest, n) => Done(Unary(p, x), rest, n))
    case None =>
      match ParsePrimary(ts)
      case Failed(n) => Failed(n)
      case Done(base, rest, n) => Postfix(base, rest, n)
  }

  function ParsePrimary(ts: seq<Token>): (r: Parsed)
    ensures r.Done? ==> |r.rest| < |ts|
    decreases |ts|, 2
  {
    if ts == [] then Failed(1)
    else match ts[0]
      case IntToken(d) => Done(IntLit(IntValue(d)), ts[1..], 0)
      case StrToken(s) => Done(StrLit(s), ts[1..], 0)
      case TrueToken => Done(BoolLit(true), ts[1..], 0)
      case FalseToken => Done(BoolLit(false), ts[1..], 0)
      case IdentToken(s) =>
        if Peek(ts[1..]) == Some(DoubleColon) then
          var (names, rest, n) := PathRest(ts[2..]);
          Done(Path([s] + names), rest, n)
        else Done(Ident(s), ts[1..], 0)
      case TypeToken(s) => Done(Ident(s), ts[1..], 0)
      case LParen =>
        (match ParseExpr(ts[1..], 0)
         case Failed(n) => Failed(n)
         case Done(e, rest, n) => Done(e, After(rest, RParen), n + ReportUnless(rest, RParen)))
      case _ => Failed(1)
  }

  function Postfix(base: Tree, ts: seq<Token>, reports: nat): (r: Parsed)
    ensures r.Done? ==> |r.rest| <= |ts|
    decreases |ts|, 1
  {
    if ts == [] then Done(base, ts, reports)
    else match ts[0]
      case LParen =>
        var a := ParseArgs(ts[1..], [], 0);
        if a.failed then Failed(reports + a.reports)
        else Postfix(Call(base, a.args), After(a.rest, RParen), reports + a.reports + ReportUnless(a.rest, RParen))
      case Dot =>
        Postfix(Field(base, TextOf(Peek(ts[1..]))), AfterIdent(ts[1..]), reports + if AtIdent(ts[1..]) then 0 else 1)
      case LBracket =>
        (match ParseExpr(ts[1..], 0)
         case Failed(n) => Failed(reports + n)
         case Done(i, rest, n) =>
           Postfix(Index(base, i), After(rest, RBracket), reports + n + ReportUnless(rest, RBracket)))
      case _ => Done(base, ts, reports)
  }

  datatype Args = Args(args: seq<Tree>, rest: seq<Token>, reports: nat, failed: bool)

  function ParseArgs(ts: seq<Token>, args: seq<Tree>, reports: nat): (r: Args)
    ensures |r.rest| <= |ts|
    decreases |ts|, 5
  {
    if ts == [] || ts[0].RParen? then Args(args, ts, reports, false)
    else match ParseExpr(ts, 0)
      case Failed(n) => Args(args, [], reports + n, true)
      case Done(a, rest, n) =>
        if Peek(rest) == Some(Comma) then ParseArgs(rest[1..], args + [a], reports + n)
        else Args(args + [a], rest, reports + n, false)
  }

  // ---- The printer ----

  const UNARY_LEVEL: nat := 14
  const POSTFIX_LEVEL: nat := 15

  /** How tightly the outermost construct of a tree binds. */
  function Level(e: Tree): nat {
    match e
    case Binary(op, _, _) => Precedence(op)
    case Assignment(op, _, _) => Precedence(op)
    case Unary(_, _) => UNARY_LEVEL
    case _ => POSTFIX_LEVEL
  }

  /** Trees the grammar can produce: operators in their own constructor, paths of two segments or more. */
  ghost predicate Printable(e: Tree)
    decreases e
  {
    match e
    case Path(segments) => |segments| >= 2
    case Binary(op, l, r) => !IsAssignment(op) && Printable(l) && Printable(r)
    case Assignment(op, l, r) => IsAssignment(op) && Printable(l) && Printable(r)
    case Unary(_, x) => Printable(x)
    case Call(f, args) => Printable(f) && forall i :: 0 <= i < |args| ==> Printable(args[i])
    case Field(b, _) => Printable(b)
    case Index(b, i) => Printable(b) && Printable(i)
    case _ => true
  }

  function PrefixToken(p: Prefix): Token {
    match p case Negate => OpToken(Minus) case Bang => BangToken case Tilde => TildeToken
  }

  function PrintPath(segments: seq<Symbol>): seq<Token> {
    if segments == [] then []
    else if |segments| == 1 then [IdentToken(segments[0])]
    else [IdentToken(segments[0]), DoubleColon] + PrintPath(segments[1..])
  }

  /** The tokens of a tree; an operand gets parentheses only where it binds less tightly than its place. */
  function Print(e: Tree): seq<Token>
    decreases e, 0
  {
    match e
    case IntLit(v) => [IntToken(Digits(v))]
    case StrLit(s) => [StrToken(s)]
    case BoolLit(b) => [if b then TrueToken else FalseToken]
    case Ident(s) => [IdentToken(s)]
    case Path(segments) => PrintPath(segments)
    case Binary(op, l, r) => PrintAt(l, Precedence(op)) + [OpToken(op)] + PrintAt(r, Precedence(op) + 1)
    case Assignment(op, l, r) => PrintAt(l, Precedence(op) + 1) + [OpToken(op)] + PrintAt(r, Precedence(op))
    case Unary(p, x) => [PrefixToken(p)] + PrintAt(x, UNARY_LEVEL)
    case Call(f, args) => PrintAt(f, POSTFIX_LEVEL) + [LParen] + PrintArgs(args) + [RParen]
    case Field(b, name) => PrintAt(b, POSTFIX_LEVEL) + [Dot, IdentToken(name)]
    case Index(b, i) => PrintAt(b, POSTFIX_LEVEL) + [LBracket] + Print(i) + [RBracket]
  }

  function PrintAt(e: Tree, min: nat): seq<Token>
    decreases e, 1
  {
    if Level(e) >= min then Print(e) else [LParen] + Print(e) + [RParen]
  }

  function PrintArgs(args: seq<Tree>): seq<Token>
    decreases args
  {
    if args == [] then []
    else if |args| == 1 then Print(args[0])
    else Print(args[0]) + [Comma] + PrintArgs(args[1..])
  }
}
