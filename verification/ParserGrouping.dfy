/** How operators group, said by the groups themselves: what stands tighter takes its operands first, equals group to
    the left, assignments to the right. */
module ParserGrouping {
  import opened Wrappers
  import opened ParserSpec

  /** The groups of operators, tightest first. */
  const GROUPS: seq<set<Op>> := [
    {Star, Slash, Percent},
    {Plus, Minus},
    {Shl, Shr},
    {Amp, Caret, Pipe},
    {EqEq, BangEq, Lt, LtEq, Gt, GtEq},
    {AndAnd},
    {OrOr},
    {Assign, PlusAssign, MinusAssign, StarAssign, SlashAssign}]

  const ASSIGNMENTS: nat := 7

  /** The two operators in a row belong to these groups. */
  predicate InGroups(a: Op, i: nat, b: Op, j: nat) {
    i < |GROUPS| && j < |GROUPS| && a in GROUPS[i] && b in GROUPS[j]
  }

  function Applied(op: Op, l: Tree, r: Tree): Tree {
    if op in GROUPS[ASSIGNMENTS] then Assignment(op, l, r) else Binary(op, l, r)
  }

  /** Tokens that are read as one operand in front of an operator, and at the end. */
  ghost predicate Operand(ts: seq<Token>, e: Tree) {
    forall rest: seq<Token> :: rest == [] || rest[0].OpToken? ==> ParseUnary(ts + rest) == Done(e, rest, 0)
  }

  /** The table gives equal levels to the operators of a group and falling ones from group to group. */
  lemma LevelsFall(a: Op, i: nat, b: Op, j: nat)
    requires InGroups(a, i, b, j)
    ensures Precedence(a) > Precedence(b) <==> i < j
    ensures IsAssignment(a) <==> i == ASSIGNMENTS
  {
    GroupLevel(a, i);
    GroupLevel(b, j);
  }

  lemma GroupLevel(op: Op, i: nat)
    requires i < |GROUPS| && op in GROUPS[i]
    ensures Precedence(op) == [13, 12, 11, 10, 9, 5, 4, 2][i]
  {
    var s := GROUPS;
    assert s[0] == {Star, Slash, Percent} && s[1] == {Plus, Minus} && s[2] == {Shl, Shr} && s[3] == {Amp, Caret, Pipe};
    assert s[4] == {EqEq, BangEq, Lt, LtEq, Gt, GtEq} && s[5] == {AndAnd} && s[6] == {OrOr};
  }

  /** Every operator has its group. */
  lemma Grouped(op: Op) returns (i: nat)
    ensures i < |GROUPS| && op in GROUPS[i]
  {
    i := match op
      case Star | Slash | Percent => 0
      case Plus | Minus => 1
      case Shl | Shr => 2
      case Amp | Caret | Pipe => 3
      case EqEq | BangEq | Lt | LtEq | Gt | GtEq => 4
      case AndAnd => 5
      case OrOr => 6
      case Assign | PlusAssign | MinusAssign | StarAssign | SlashAssign => 7;
  }

  lemma AppliedIsNode(op: Op, l: Tree, r: Tree)
    ensures Node(op, l, r) == Applied(op, l, r)
  {
    var i := Grouped(op);
    GroupLevel(op, i);
    if op in GROUPS[ASSIGNMENTS] { GroupLevel(op, ASSIGNMENTS); }
  }

  /** One operator between two operands, up to an operator that does not reach into the second. */
  lemma OneOperator(op: Op, x: Tree, ys: seq<Token>, y: Tree, rest: seq<Token>, min: nat, n: nat)
    requires Operand(ys, y) && min <= Precedence(op)
    requires rest == [] || (rest[0].OpToken? && Precedence(rest[0].op) < RightPrecedence(op))
    ensures Climb(x, [OpToken(op)] + ys + rest, min, n) == Climb(Applied(op, x, y), rest, min, n)
  {
    var ts := [OpToken(op)] + ys + rest;
    assert ts[1..] == ys + rest;
    AppliedIsNode(op, x, y);
    assert ParseExpr(ys + rest, RightPrecedence(op)) == Climb(y, rest, RightPrecedence(op), 0);
    hide Climb;
    StopsClimb(y, rest, RightPrecedence(op), 0);
    ClimbStep(op, x, y, ys + rest, rest, min, n);
  }

  lemma StopsClimb(y: Tree, rest: seq<Token>, min: nat, n: nat)
    requires rest == [] || (rest[0].OpToken? && Precedence(rest[0].op) < min)
    ensures Climb(y, rest, min, n) == Done(y, rest, n)
  {
  }

  lemma ClimbStep(op: Op, x: Tree, y: Tree, more: seq<Token>, rest: seq<Token>, min: nat, n: nat)
    requires min <= Precedence(op) && ParseExpr(more, RightPrecedence(op)) == Done(y, rest, 0)
    ensures Climb(x, [OpToken(op)] + more, min, n) == Climb(Node(op, x, y), rest, min, n)
  {
    var ts := [OpToken(op)] + more;
    assert ts[1..] == more && ts[0] == OpToken(op);
  }

  lemma LeftGroups(a: Op, b: Op, x: Tree, ys: seq<Token>, y: Tree, zs: seq<Token>, z: Tree)
    requires Operand(ys, y) && Operand(zs, z) && Precedence(b) < RightPrecedence(a)
    ensures Climb(x, [OpToken(a)] + ys + ([OpToken(b)] + zs), 0, 0) == Done(Applied(b, Applied(a, x, y), z), [], 0)
  {
    var after := [OpToken(b)] + zs;
    assert after + [] == after && after[0] == OpToken(b);
    hide Climb, Applied, Operand, Precedence, RightPrecedence;
    OneOperator(a, x, ys, y, after, 0, 0);
    OneOperator(b, Applied(a, x, y), zs, z, [], 0, 0);
    StopsClimb(Applied(b, Applied(a, x, y), z), [], 0, 0);
  }

  lemma RightGroups(a: Op, b: Op, x: Tree, ys: seq<Token>, y: Tree, zs: seq<Token>, z: Tree)
    requires Operand(ys, y) && Operand(zs, z) && Precedence(b) >= RightPrecedence(a)
    ensures Climb(x, [OpToken(a)] + ys + ([OpToken(b)] + zs), 0, 0) == Done(Applied(a, x, Applied(b, y, z)), [], 0)
  {
    var after := [OpToken(b)] + zs;
    assert after + [] == after && after[0] == OpToken(b);
    OperandFirst(ys, y, after, a);
    hide Climb, ParseExpr, Applied, Operand, Precedence, RightPrecedence;
    OneOperator(b, y, zs, z, [], RightPrecedence(a), 0);
    StopsClimb(Applied(b, y, z), [], RightPrecedence(a), 0);
    assert [OpToken(a)] + ys + after == [OpToken(a)] + (ys + after);
    ClimbStep(a, x, Applied(b, y, z), ys + after, [], 0, 0);
    AppliedIsNode(a, x, Applied(b, y, z));
    StopsClimb(Applied(a, x, Applied(b, y, z)), [], 0, 0);
  }

  /** `x a y b z`: to the left when `a` stands in a tighter group or both in one that is not the assignments', and
      otherwise to the right. */
  lemma TwoOperators(a: Op, i: nat, b: Op, j: nat, xs: seq<Token>, x: Tree, ys: seq<Token>, y: Tree, zs: seq<Token>,
        z: Tree)
    requires InGroups(a, i, b, j) && Operand(xs, x) && Operand(ys, y) && Operand(zs, z)
    ensures ParseExpr(xs + [OpToken(a)] + ys + [OpToken(b)] + zs, 0)
         == Done(if i < j || (i == j && i != ASSIGNMENTS) then Applied(b, Applied(a, x, y), z)
                 else Applied(a, x, Applied(b, y, z)), [], 0)
  {
    LevelsFall(a, i, b, j);
    LevelsFall(b, j, a, i);
    var ts := [OpToken(a)] + ys + ([OpToken(b)] + zs);
    assert xs + [OpToken(a)] + ys + [OpToken(b)] + zs == xs + ts && ts[0] == OpToken(a);
    assert ParseExpr(xs + ts, 0) == Climb(x, ts, 0, 0) by { hide Climb; assert ParseUnary(xs + ts) == Done(x, ts, 0); }
    hide Climb, ParseExpr, ParseUnary, Applied, Operand, InGroups, Precedence, IsAssignment;
    if i < j || (i == j && i != ASSIGNMENTS) {
      LeftGroups(a, b, x, ys, y, zs, z);
    } else {
      RightGroups(a, b, x, ys, y, zs, z);
    }
  }

  lemma OperandFirst(ys: seq<Token>, y: Tree, rest: seq<Token>, a: Op)
    requires Operand(ys, y) && rest != [] && rest[0].OpToken?
    ensures ParseExpr(ys + rest, RightPrecedence(a)) == Climb(y, rest, RightPrecedence(a), 0)
  {
  }

  // ---- Operands ----

  /** A token that stands for a value by itself. */
  predicate Atom(t: Token, e: Tree) {
    match t
    case IdentToken(s) => e == Ident(s)
    case TypeToken(s) => e == Ident(s)
    case StrToken(s) => e == StrLit(s)
    case TrueToken => e == BoolLit(true)
    case FalseToken => e == BoolLit(false)
    case IntToken(digits) => e == IntLit(IntValue(digits))
    case _ => false
  }

  lemma Atoms(t: Token, e: Tree)
    requires Atom(t, e)
    ensures Operand([t], e)
  {
    forall rest: seq<Token> | rest == [] || rest[0].OpToken? ensures ParseUnary([t] + rest) == Done(e, rest, 0) {
      AtomRead(t, e, rest);
    }
  }

  lemma AtomRead(t: Token, e: Tree, rest: seq<Token>)
    requires Atom(t, e) && (rest == [] || rest[0].OpToken?)
    ensures ParseUnary([t] + rest) == Done(e, rest, 0)
  {
    hide IntValue;
    var ts := [t] + rest;
    assert ts[0] == t && ts[1..] == rest;
    assert ParsePrimary(ts) == Done(e, rest, 0);
  }

  /** Digits are read in base ten, modulo 2^64. */
  lemma DecimalDigits(front: string, c: char)
    requires IsDigit(c)
    ensures IntValue([]) == 0
      && IntValue(front + [c]) == (IntValue(front) * 10 + (c as int - 48)) % 0x1_0000_0000_0000_0000
  {
    assert (front + [c])[..|front|] == front;
  }

  /** A sign, and what it is the sign of. */
  lemma Prefixed(xs: seq<Token>, x: Tree)
    requires Operand(xs, x)
    ensures Operand([OpToken(Minus)] + xs, Unary(Negate, x))
    ensures Operand([BangToken] + xs, Unary(Bang, x)) && Operand([TildeToken] + xs, Unary(Tilde, x))
  {
    forall rest: seq<Token> | rest == [] || rest[0].OpToken?
      ensures ParseUnary([OpToken(Minus)] + xs + rest) == Done(Unary(Negate, x), rest, 0)
      ensures ParseUnary([BangToken] + xs + rest) == Done(Unary(Bang, x), rest, 0)
      ensures ParseUnary([TildeToken] + xs + rest) == Done(Unary(Tilde, x), rest, 0)
    {
      PrefixRead(OpToken(Minus), Negate, xs, x, rest);
      PrefixRead(BangToken, Bang, xs, x, rest);
      PrefixRead(TildeToken, Tilde, xs, x, rest);
    }
  }

  lemma PrefixRead(t: Token, p: Prefix, xs: seq<Token>, x: Tree, rest: seq<Token>)
    requires Operand(xs, x) && (rest == [] || rest[0].OpToken?) && PrefixOf(Some(t)) == Some(p)
    ensures ParseUnary([t] + xs + rest) == Done(Unary(p, x), rest, 0)
  {
    var ts := [t] + xs + rest;
    assert ts[0] == t && ts[1..] == xs + rest;
    assert ParseUnary(xs + rest) == Done(x, rest, 0);
  }

  /** Parentheses make one operand of an expression that ends with them. */
  lemma Bracketed(xs: seq<Token>, x: Tree)
    requires forall rest: seq<Token> :: rest != [] && rest[0].RParen? ==> ParseExpr(xs + rest, 0) == Done(x, rest, 0)
    ensures Operand([LParen] + xs + [RParen], x)
  {
    forall rest: seq<Token> | rest == [] || rest[0].OpToken?
      ensures ParseUnary([LParen] + xs + [RParen] + rest) == Done(x, rest, 0)
    {
      var ts := [LParen] + xs + [RParen] + rest;
      var inner := [RParen] + rest;
      assert ts[1..] == xs + inner && ts[0] == LParen && inner[0] == RParen && inner[1..] == rest;
      assert ParseExpr(xs + inner, 0) == Done(x, inner, 0);
      hide ParseExpr;
    }
  }
}
