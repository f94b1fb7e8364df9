/** Parsing undoes printing. */
module ParserProof {
  import opened Wrappers
  import opened Words
  import opened ParserSpec

  /** What may follow an expression parsed at precedence `min`: nothing that would continue it. */
  ghost predicate Stops(ts: seq<Token>, min: nat) {
    ts == [] || (!ts[0].LParen? && !ts[0].Dot? && !ts[0].LBracket? && !ts[0].DoubleColon?
                 && (ts[0].OpToken? ==> Precedence(ts[0].op) < min))
  }

  /** Nothing here extends a primary. */
  ghost predicate NoPath(ts: seq<Token>) {
    ts == [] || !ts[0].DoubleColon?
  }

  /** The precedence at which the last operand of a tree was parsed. */
  function Tail(e: Tree): nat {
    match e
    case Binary(op, _, _) => Precedence(op) + 1
    case Assignment(op, _, _) => Precedence(op)
    case _ => UNARY_LEVEL
  }

  lemma {:induction false} PathParses(segments: seq<Symbol>, rest: seq<Token>)
    requires segments != [] && NoPath(rest)
    ensures PathRest(PrintPath(segments) + rest) == (segments, rest, 0)
    decreases |segments|
  {
    var ts := PrintPath(segments) + rest;
    if |segments| == 1 {
      assert ts[1..] == rest;
      assert [segments[0]] == segments;
    } else {
      var more := PrintPath(segments[1..]) + rest;
      assert ts == [IdentToken(segments[0]), DoubleColon] + more;
      assert ts[1..] == [DoubleColon] + more && ts[1..][1..] == more;
      PathParses(segments[1..], rest);
      assert [segments[0]] + segments[1..] == segments;
    }
  }

  // ---- The three ways into an expression ----

  /** A tree that needs no parentheses among postfix operators is what `ParsePrimary` and the postfix loop
      have built when its tokens are used up. */
  ghost predicate PostfixReads(e: Tree) {
    forall rest :: NoPath(rest) ==> ParseUnary(Print(e) + rest) == Postfix(e, rest, 0)
  }

  /** Likewise for the climbing loop. */
  ghost predicate ClimbReads(e: Tree) {
    forall rest, min: nat {:trigger Climb(e, rest, min, 0)} ::
      Level(e) >= min && Stops(rest, Tail(e)) ==> ParseExpr(Print(e) + rest, min) == Climb(e, rest, min, 0)
  }

  ghost predicate UnaryReads(e: Tree) {
    forall rest :: Stops(rest, UNARY_LEVEL) ==> ParseUnary(Print(e) + rest) == Done(e, rest, 0)
  }

  lemma PostfixStops(e: Tree, rest: seq<Token>)
    requires Stops(rest, UNARY_LEVEL)
    ensures Postfix(e, rest, 0) == Done(e, rest, 0)
  {
  }

  lemma ClimbStops(e: Tree, rest: seq<Token>, min: nat)
    requires Stops(rest, min)
    ensures Climb(e, rest, min, 0) == Done(e, rest, 0)
  {
  }

  lemma StopsLower(rest: seq<Token>, a: nat, b: nat)
    requires Stops(rest, a) && a <= b
    ensures Stops(rest, b)
  {
  }

  /** Read as a whole at a place whose precedence it meets. */
  lemma ReadsExactly(e: Tree, rest: seq<Token>, min: nat)
    requires ClimbReads(e) && Level(e) >= min && min <= UNARY_LEVEL && Stops(rest, min)
    ensures ParseExpr(Print(e) + rest, min) == Done(e, rest, 0)
  {
    hide ParseExpr, Print;
    StopsLower(rest, min, Tail(e));
    ClimbStops(e, rest, min);
  }

  lemma ParenReads(e: Tree, rest: seq<Token>)
    requires ClimbReads(e)
    ensures ParseUnary([LParen] + Print(e) + [RParen] + rest) == Postfix(e, rest, 0)
  {
    hide ParseExpr, Print, ClimbReads, Postfix;
    var ts := [LParen] + Print(e) + [RParen] + rest;
    assert ts[1..] == Print(e) + ([RParen] + rest);
    ReadsExactly(e, [RParen] + rest, 0);
    assert ([RParen] + rest)[1..] == rest;
  }

  /** Whatever its level, a printed operand is read at its place. */
  lemma OperandReads(e: Tree, min: nat, rest: seq<Token>)
    requires ClimbReads(e) && min <= UNARY_LEVEL && Stops(rest, min)
    ensures ParseExpr(PrintAt(e, min) + rest, min) == Done(e, rest, 0)
  {
    hide ParseUnary, Print, ClimbReads, Climb, Postfix;
    if Level(e) >= min {
      ReadsExactly(e, rest, min);
    } else {
      ParenReads(e, rest);
      assert PrintAt(e, min) + rest == [LParen] + Print(e) + [RParen] + rest;
      StopsLower(rest, min, UNARY_LEVEL);
      PostfixStops(e, rest);
      ClimbStops(e, rest, min);
    }
  }

  // ---- Each construct ----

  lemma IntStep(v: Word, rest: seq<Token>)
    ensures ParsePrimary(Print(IntLit(v)) + rest) == Done(IntLit(v), rest, 0)
  {
    hide Digits, IntValue;
    IntValueOfDigits(v);
    assert (Print(IntLit(v)) + rest)[1..] == rest;
  }

  lemma PathStep(segments: seq<Symbol>, rest: seq<Token>)
    requires |segments| >= 2 && NoPath(rest)
    ensures ParsePrimary(PrintPath(segments) + rest) == Done(Path(segments), rest, 0)
  {
    hide *;
    var more := PrintPath(segments[1..]) + rest;
    PathTokens(segments, rest);
    PathStarts(segments[0], more);
    PathParses(segments[1..], rest);
    assert [segments[0]] + segments[1..] == segments;
  }

  lemma PathTokens(segments: seq<Symbol>, rest: seq<Token>)
    requires |segments| >= 2
    ensures PrintPath(segments) + rest == [IdentToken(segments[0]), DoubleColon] + (PrintPath(segments[1..]) + rest)
  {
  }

  lemma PathStarts(name: Symbol, more: seq<Token>)
    ensures ParsePrimary([IdentToken(name), DoubleColon] + more)
         == Done(Path([name] + PathRest(more).0), PathRest(more).1, PathRest(more).2)
  {
    hide PathRest;
    var ts := [IdentToken(name), DoubleColon] + more;
    assert ts[1..] == [DoubleColon] + more && ts[2..] == more;
  }

  lemma WordStep(e: Tree, rest: seq<Token>)
    requires (e.StrLit? || e.BoolLit? || e.Ident?) && NoPath(rest)
    ensures ParsePrimary(Print(e) + rest) == Done(e, rest, 0)
  {
    assert (Print(e) + rest)[1..] == rest;
  }

  lemma LeafReads(e: Tree)
    requires Printable(e) && (e.IntLit? || e.StrLit? || e.BoolLit? || e.Ident? || e.Path?)
    ensures PostfixReads(e)
  {
    hide Postfix, Digits, ParsePrimary, PrintPath;
    forall rest | NoPath(rest) ensures ParseUnary(Print(e) + rest) == Postfix(e, rest, 0) {
      if e.IntLit? {
        IntStep(e.value, rest);
      } else if e.Path? {
        PathStep(e.segments, rest);
        PathHead(e.segments, rest);
      } else {
        WordStep(e, rest);
      }
    }
  }

  lemma PathHead(segments: seq<Symbol>, rest: seq<Token>)
    requires segments != []
    ensures var ts := PrintPath(segments) + rest; ts != [] && ts[0].IdentToken?
  {
  }

  /** Postfix-level trees are read by the unary and the climbing parser too. */
  lemma PostfixIsUnary(e: Tree)
    requires PostfixReads(e)
    ensures UnaryReads(e)
  {
    hide ParseUnary, Print, Postfix;
    forall rest | Stops(rest, UNARY_LEVEL) ensures ParseUnary(Print(e) + rest) == Done(e, rest, 0) {
      assert NoPath(rest);
      PostfixStops(e, rest);
    }
  }

  lemma UnaryIsClimb(e: Tree)
    requires UnaryReads(e) && Level(e) >= UNARY_LEVEL
    ensures ClimbReads(e)
  {
    hide ParseUnary, Print, Climb;
    forall rest, min: nat | Level(e) >= min && Stops(rest, Tail(e))
      ensures ParseExpr(Print(e) + rest, min) == Climb(e, rest, min, 0)
    {
      assert ParseUnary(Print(e) + rest) == Done(e, rest, 0);
    }
  }

  /** The base of a postfix construct, with or without parentheses. */
  lemma BaseReads(b: Tree, rest: seq<Token>)
    requires ClimbReads(b) && (Level(b) == POSTFIX_LEVEL ==> PostfixReads(b)) && NoPath(rest)
    ensures ParseUnary(PrintAt(b, POSTFIX_LEVEL) + rest) == Postfix(b, rest, 0)
  {
    hide ParseUnary, Print, Postfix, ClimbReads;
    if Level(b) < POSTFIX_LEVEL {
      ParenReads(b, rest);
      assert PrintAt(b, POSTFIX_LEVEL) + rest == [LParen] + Print(b) + [RParen] + rest;
    }
  }

  lemma FieldReads(b: Tree, name: Symbol)
    requires ClimbReads(b) && (Level(b) == POSTFIX_LEVEL ==> PostfixReads(b))
    ensures PostfixReads(Field(b, name))
  {
    hide ParseUnary, PrintAt, ClimbReads, PostfixReads;
    var e := Field(b, name);
    assert PostfixReads(e) by {
      forall rest | NoPath(rest) ensures ParseUnary(Print(e) + rest) == Postfix(e, rest, 0) {
        FieldStep(b, name, rest);
      }
      PostfixReadsIntro(e);
    }
  }

  lemma PostfixReadsIntro(e: Tree)
    requires forall rest :: NoPath(rest) ==> ParseUnary(Print(e) + rest) == Postfix(e, rest, 0)
    ensures PostfixReads(e)
  {
  }

  lemma FieldStep(b: Tree, name: Symbol, rest: seq<Token>)
    requires ClimbReads(b) && (Level(b) == POSTFIX_LEVEL ==> PostfixReads(b)) && NoPath(rest)
    ensures ParseUnary(Print(Field(b, name)) + rest) == Postfix(Field(b, name), rest, 0)
  {
    hide ParseUnary, PrintAt, ClimbReads, PostfixReads;
    var more := [Dot, IdentToken(name)] + rest;
    assert Print(Field(b, name)) + rest == PrintAt(b, POSTFIX_LEVEL) + more;
    BaseReads(b, more);
    assert more[1..] == [IdentToken(name)] + rest && more[1..][1..] == rest;
  }

  lemma IndexStep(b: Tree, i: Tree, rest: seq<Token>)
    requires ClimbReads(b) && (Level(b) == POSTFIX_LEVEL ==> PostfixReads(b)) && ClimbReads(i) && NoPath(rest)
    ensures ParseUnary(Print(Index(b, i)) + rest) == Postfix(Index(b, i), rest, 0)
  {
    hide ParseUnary, ParseExpr, PrintAt, ClimbReads, PostfixReads;
    var tail := [RBracket] + rest;
    var more := [LBracket] + Print(i) + tail;
    assert Print(Index(b, i)) + rest == PrintAt(b, POSTFIX_LEVEL) + more;
    BaseReads(b, more);
    assert more[1..] == Print(i) + tail;
    ReadsExactly(i, tail, 0);
    assert tail[1..] == rest;
  }

  lemma {:induction false} ArgsRead(args: seq<Tree>, before: seq<Tree>, rest: seq<Token>)
    requires forall i :: 0 <= i < |args| ==> ClimbReads(args[i])
    ensures ParseArgs(PrintArgs(args) + [RParen] + rest, before, 0) == Args(before + args, [RParen] + rest, 0, false)
    decreases |args|
  {
    hide ParseExpr, Print, ClimbReads;
    var close := [RParen] + rest;
    if args == [] {
      assert PrintArgs(args) + [RParen] + rest == close && before + args == before;
    } else if |args| == 1 {
      assert PrintArgs(args) + [RParen] + rest == Print(args[0]) + close;
      ReadsExactly(args[0], close, 0);
      ReadStarts(args[0], close);
      assert before + [args[0]] == before + args;
    } else {
      var more := PrintArgs(args[1..]) + [RParen] + rest;
      assert PrintArgs(args) + [RParen] + rest == Print(args[0]) + ([Comma] + more);
      ReadsExactly(args[0], [Comma] + more, 0);
      ReadStarts(args[0], [Comma] + more);
      assert ([Comma] + more)[1..] == more;
      forall i | 0 <= i < |args[1..]| ensures ClimbReads(args[1..][i]) {
        assert args[1..][i] == args[i + 1];
      }
      ArgsRead(args[1..], before + [args[0]], rest);
      assert before + [args[0]] + args[1..] == before + args;
    }
  }

  /** What parses as an expression does not begin with a closing parenthesis. */
  lemma ReadStarts(e: Tree, rest: seq<Token>)
    requires ParseExpr(Print(e) + rest, 0).Done?
    ensures Print(e) + rest != [] && !(Print(e) + rest)[0].RParen?
  {
    hide Print, Climb, Postfix;
    var ts := Print(e) + rest;
    assert (ts == [] || ts[0].RParen?) ==> ParsePrimary(ts).Failed?;
    assert (ts == [] || ts[0].RParen?) ==> ParseUnary(ts).Failed?;
  }

  lemma CallStep(f: Tree, args: seq<Tree>, rest: seq<Token>)
    requires ClimbReads(f) && (Level(f) == POSTFIX_LEVEL ==> PostfixReads(f)) && NoPath(rest)
    requires forall i :: 0 <= i < |args| ==> ClimbReads(args[i])
    ensures ParseUnary(Print(Call(f, args)) + rest) == Postfix(Call(f, args), rest, 0)
  {
    hide ParseUnary, ParseExpr, PrintAt, ClimbReads, PostfixReads, ParseArgs, PrintArgs;
    var close := [RParen] + rest;
    var more := [LParen] + (PrintArgs(args) + [RParen] + rest);
    assert Print(Call(f, args)) + rest == PrintAt(f, POSTFIX_LEVEL) + more;
    BaseReads(f, more);
    assert more[1..] == PrintArgs(args) + [RParen] + rest;
    ArgsRead(args, [], rest);
    assert [] + args == args && close[1..] == rest;
  }

  lemma PrefixStep(p: Prefix, x: Tree, rest: seq<Token>)
    requires UnaryAt(x) && Stops(rest, UNARY_LEVEL)
    ensures ParseUnary(Print(Unary(p, x)) + rest) == Done(Unary(p, x), rest, 0)
  {
    hide PrintAt, Stops;
    var more := PrintAt(x, UNARY_LEVEL) + rest;
    assert Print(Unary(p, x)) + rest == [PrefixToken(p)] + more;
    assert ([PrefixToken(p)] + more)[1..] == more;
    assert ParseUnary(more) == Done(x, rest, 0);
  }

  /** A tree at a unary place, with or without parentheses. */
  ghost predicate UnaryAt(x: Tree) {
    forall rest :: Stops(rest, UNARY_LEVEL) ==> ParseUnary(PrintAt(x, UNARY_LEVEL) + rest) == Done(x, rest, 0)
  }

  lemma UnaryAtOf(x: Tree)
    requires ClimbReads(x) && (Level(x) >= UNARY_LEVEL ==> UnaryReads(x))
    ensures UnaryAt(x)
  {
    hide ParseUnary, Print, ClimbReads, Postfix;
    forall rest | Stops(rest, UNARY_LEVEL) ensures ParseUnary(PrintAt(x, UNARY_LEVEL) + rest) == Done(x, rest, 0) {
      if Level(x) < UNARY_LEVEL {
        ParenReads(x, rest);
        assert PrintAt(x, UNARY_LEVEL) + rest == [LParen] + Print(x) + [RParen] + rest;
        PostfixStops(x, rest);
      }
    }
  }

  function LeftLevel(op: Op): nat {
    if IsAssignment(op) then Precedence(op) + 1 else Precedence(op)
  }

  /** The left operand of an operator, whatever its level: the climbing loop gets to the operator with it. */
  lemma LeftReads(l: Tree, op: Op, more: seq<Token>, min: nat)
    requires ClimbReads(l) && Printable(l) && min <= Precedence(op)
    ensures ParseExpr(PrintAt(l, LeftLevel(op)) + ([OpToken(op)] + more), min)
         == Climb(l, [OpToken(op)] + more, min, 0)
  {
    hide ParseUnary, Print, Climb, Postfix;
    var rest := [OpToken(op)] + more;
    if Level(l) >= LeftLevel(op) {
      assert Stops(rest, Tail(l));
    } else {
      hide ClimbReads;
      ParenReads(l, rest);
      assert PrintAt(l, LeftLevel(op)) + rest == [LParen] + Print(l) + [RParen] + rest;
      PostfixStops(l, rest);
    }
  }

  lemma OperatorStep(op: Op, l: Tree, r: Tree, rest: seq<Token>, min: nat)
    requires ClimbReads(l) && Printable(l) && ClimbReads(r) && min <= Precedence(op) && Stops(rest, RightPrecedence(op))
    ensures ParseExpr(PrintAt(l, LeftLevel(op)) + ([OpToken(op)] + (PrintAt(r, RightPrecedence(op)) + rest)), min)
         == Climb(Node(op, l, r), rest, min, 0)
  {
    hide ParseExpr, PrintAt, ClimbReads, Stops;
    var more := PrintAt(r, RightPrecedence(op)) + rest;
    LeftReads(l, op, more, min);
    assert ([OpToken(op)] + more)[1..] == more;
    OperandReads(r, RightPrecedence(op), rest);
  }

  lemma PrintNode(op: Op, l: Tree, r: Tree)
    ensures Print(Node(op, l, r)) == PrintAt(l, LeftLevel(op)) + [OpToken(op)] + PrintAt(r, RightPrecedence(op))
    ensures Level(Node(op, l, r)) == Precedence(op) && Tail(Node(op, l, r)) == RightPrecedence(op)
  {
    hide PrintAt;
  }

  lemma OperatorReads(op: Op, l: Tree, r: Tree)
    requires ClimbReads(l) && Printable(l) && ClimbReads(r)
    ensures ClimbReads(Node(op, l, r))
  {
    hide ParseExpr, Print, PrintAt, Climb, Stops, Printable, Level, Tail, Precedence, Node;
    var e := Node(op, l, r);
    PrintNode(op, l, r);
    forall rest, min: nat | Level(e) >= min && Stops(rest, Tail(e))
      ensures ParseExpr(Print(e) + rest, min) == Climb(e, rest, min, 0)
    {
      hide ClimbReads;
      OperatorStep(op, l, r, rest, min);
      Regroup(PrintAt(l, LeftLevel(op)), [OpToken(op)], PrintAt(r, RightPrecedence(op)), rest);
    }
  }

  lemma Regroup(a: seq<Token>, b: seq<Token>, c: seq<Token>, d: seq<Token>)
    ensures a + b + c + d == a + (b + (c + d))
  {
  }

  // ---- All trees ----

  lemma {:induction false} Reads(e: Tree)
    requires Printable(e)
    ensures ClimbReads(e)
    ensures Level(e) >= UNARY_LEVEL ==> UnaryReads(e)
    ensures Level(e) == POSTFIX_LEVEL ==> PostfixReads(e)
    decreases e
  {
    hide ClimbReads, UnaryReads, PostfixReads, Print, ParseUnary, Postfix;
    match e
    case Binary(op, l, r) =>
      Reads(l);
      Reads(r);
      OperatorReads(op, l, r);
    case Assignment(op, l, r) =>
      Reads(l);
      Reads(r);
      OperatorReads(op, l, r);
    case Unary(p, x) =>
      Reads(x);
      UnaryAtOf(x);
      PrefixReads(p, x);
      UnaryIsClimb(e);
    case Call(f, args) =>
      Reads(f);
      forall i | 0 <= i < |args| ensures ClimbReads(args[i]) {
        Reads(args[i]);
      }
      forall rest | NoPath(rest) ensures ParseUnary(Print(e) + rest) == Postfix(e, rest, 0) {
        CallStep(f, args, rest);
      }
      PostfixReadsIntro(e);
      PostfixIsUnary(e);
      UnaryIsClimb(e);
    case Field(b, name) =>
      Reads(b);
      FieldReads(b, name);
      PostfixIsUnary(e);
      UnaryIsClimb(e);
    case Index(b, i) =>
      Reads(b);
      Reads(i);
      forall rest | NoPath(rest) ensures ParseUnary(Print(e) + rest) == Postfix(e, rest, 0) {
        IndexStep(b, i, rest);
      }
      PostfixReadsIntro(e);
      PostfixIsUnary(e);
      UnaryIsClimb(e);
    case _ =>
      LeafReads(e);
      PostfixIsUnary(e);
      UnaryIsClimb(e);
  }

  lemma PrefixReads(p: Prefix, x: Tree)
    requires UnaryAt(x)
    ensures UnaryReads(Unary(p, x))
  {
    hide ParseUnary, Print, UnaryAt;
    forall rest | Stops(rest, UNARY_LEVEL) ensures ParseUnary(Print(Unary(p, x)) + rest) == Done(Unary(p, x), rest, 0) {
      PrefixStep(p, x, rest);
    }
  }

  /** Parsing undoes printing: every tree, printed at a place that asks for precedence `min` and followed by
      anything that does not continue it, is read back as it was, the rest is untouched, and nothing is
      reported. */
  lemma ParsePrint(e: Tree, min: nat, rest: seq<Token>)
    requires Printable(e) && min <= UNARY_LEVEL && Stops(rest, min)
    ensures ParseExpr(PrintAt(e, min) + rest, min) == Done(e, rest, 0)
  {
    hide ClimbReads, UnaryReads, PostfixReads, Print, PrintAt, ParseExpr;
    Reads(e);
    OperandReads(e, min, rest);
  }

  /** Printing is unambiguous. */
  lemma PrintInjective(a: Tree, b: Tree)
    requires Printable(a) && Printable(b) && Print(a) == Print(b)
    ensures a == b
  {
    hide Print, ParseExpr;
    ParsePrint(a, 0, []);
    ParsePrint(b, 0, []);
    assert PrintAt(a, 0) + [] == Print(a) && PrintAt(b, 0) + [] == Print(b);
  }

  // ---- What the parser can produce ----

  ghost predicate PrintableResult(p: Parsed) {
    p.Done? ==> Printable(p.tree)
  }

  ghost predicate AllPrintable(args: seq<Tree>) {
    forall i :: 0 <= i < |args| ==> Printable(args[i])
  }

  /** Every tree the parser returns, from whatever tokens and with whatever reports, is one the printer is
      the inverse on. */
  lemma {:induction false} ParsePrintable(ts: seq<Token>, min: nat)
    ensures PrintableResult(ParseExpr(ts, min))
    decreases |ts|, 4
  {
    hide Printable;
    UnaryPrintable(ts);
    match ParseUnary(ts)
    case Failed(_) =>
    case Done(lhs, rest, n) => ClimbPrintable(lhs, rest, min, n);
  }

  lemma NodePrintable(op: Op, l: Tree, r: Tree)
    requires Printable(l) && Printable(r)
    ensures Printable(Node(op, l, r))
  {
    hide Precedence;
    if IsAssignment(op) {
      assert Node(op, l, r) == Assignment(op, l, r);
    } else {
      assert Node(op, l, r) == Binary(op, l, r);
    }
  }

  lemma {:induction false} ClimbPrintable(lhs: Tree, ts: seq<Token>, min: nat, reports: nat)
    requires Printable(lhs)
    ensures PrintableResult(Climb(lhs, ts, min, reports))
    decreases |ts|, 5
  {
    hide Printable, Node, ParseExpr;
    if ts != [] && ts[0].OpToken? && Precedence(ts[0].op) >= min {
      ParsePrintable(ts[1..], RightPrecedence(ts[0].op));
      match ParseExpr(ts[1..], RightPrecedence(ts[0].op))
      case Failed(_) =>
      case Done(rhs, rest, n) =>
        NodePrintable(ts[0].op, lhs, rhs);
        ClimbPrintable(Node(ts[0].op, lhs, rhs), rest, min, reports + n);
    }
  }

  lemma {:induction false} UnaryPrintable(ts: seq<Token>)
    ensures PrintableResult(ParseUnary(ts))
    decreases |ts|, 3
  {
    match PrefixOf(Peek(ts))
    case Some(p) => UnaryPrintable(ts[1..]);
    case None =>
      PrimaryPrintable(ts);
      match ParsePrimary(ts)
      case Failed(_) =>
      case Done(base, rest, n) => PostfixPrintable(base, rest, n);
  }

  lemma {:induction false} PrimaryPrintable(ts: seq<Token>)
    ensures PrintableResult(ParsePrimary(ts))
    decreases |ts|, 2
  {
    hide ParseExpr, PathRest;
    if ts != [] && ts[0].LParen? {
      hide Printable;
      ParsePrintable(ts[1..], 0);
    }
  }

  lemma {:induction false} PostfixPrintable(base: Tree, ts: seq<Token>, reports: nat)
    requires Printable(base)
    ensures PrintableResult(Postfix(base, ts, reports))
    decreases |ts|, 1
  {
    hide ParseExpr, ParseArgs;
    if ts != [] {
      match ts[0]
      case LParen =>
        ArgsPrintable(ts[1..], [], 0);
        var a := ParseArgs(ts[1..], [], 0);
        if !a.failed {
          PostfixPrintable(Call(base, a.args), After(a.rest, RParen),
                           reports + a.reports + ReportUnless(a.rest, RParen));
        }
      case Dot =>
        PostfixPrintable(Field(base, TextOf(Peek(ts[1..]))), AfterIdent(ts[1..]),
          reports + if AtIdent(ts[1..]) then 0 else 1);
      case LBracket =>
        ParsePrintable(ts[1..], 0);
        match ParseExpr(ts[1..], 0) {
          case Failed(_) =>
          case Done(i, rest, n) =>
            PostfixPrintable(Index(base, i), After(rest, RBracket), reports + n + ReportUnless(rest, RBracket));
        }
      case _ =>
    }
  }

  lemma {:induction false} ArgsPrintable(ts: seq<Token>, args: seq<Tree>, reports: nat)
    requires AllPrintable(args)
    ensures AllPrintable(ParseArgs(ts, args, reports).args)
    decreases |ts|, 5
  {
    hide ParseExpr, Printable;
    if ts != [] && !ts[0].RParen? {
      ParsePrintable(ts, 0);
      match ParseExpr(ts, 0)
      case Failed(_) =>
      case Done(a, rest, n) =>
        if Peek(rest) == Some(Comma) { ArgsPrintable(rest[1..], args + [a], reports + n); }
    }
  }

  /** Printing what was parsed, from any input at all, and parsing that again gives the same tree. */
  lemma Reparse(ts: seq<Token>)
    requires ParseExpr(ts, 0).Done?
    ensures ParseExpr(Print(ParseExpr(ts, 0).tree), 0) == Done(ParseExpr(ts, 0).tree, [], 0)
  {
    hide ParseExpr, Print, Printable;
    ParsePrintable(ts, 0);
    var e := ParseExpr(ts, 0).tree;
    ParsePrint(e, 0, []);
    assert PrintAt(e, 0) + [] == Print(e);
  }
}
