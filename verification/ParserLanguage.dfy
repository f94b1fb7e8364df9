/** What the expression parser takes without a report: the sentences of the grammar, every one and no other. */
module ParserLanguage {
  import opened Wrappers
  import opened ParserSpec
  import ParserProof

  // ---- The grammar, ambiguous as written ----

  /** The tokens are a way to write the tree, whatever binds tighter. */
  ghost predicate Spells(ts: seq<Token>, e: Tree)
    decreases |ts|, 1
  {
    || (|ts| > 2 && ts[0] == LParen && ts[|ts| - 1] == RParen && Spells(ts[1..|ts| - 1], e))
    || match e
       case IntLit(v) => |ts| == 1 && ts[0].IntToken? && v == IntValue(ts[0].digits)
       case StrLit(s) => ts == [StrToken(s)]
       case BoolLit(b) => ts == [if b then TrueToken else FalseToken]
       case Ident(s) => ts == [IdentToken(s)] || ts == [TypeToken(s)]
       case Path(segments) => |segments| >= 2 && ts == PrintPath(segments)
       case Binary(op, l, r) => !IsAssignment(op) && SpellsInfix(ts, op, l, r)
       case Assignment(op, l, r) => IsAssignment(op) && SpellsInfix(ts, op, l, r)
       case Unary(p, x) => ts != [] && ts[0] == PrefixToken(p) && Spells(ts[1..], x)
       case Call(f, args) => SpellsCall(ts, f, args)
       case Field(b, name) => SpellsField(ts, b, name)
       case Index(b, i) => SpellsIndex(ts, b, i)
  }

  ghost predicate SpellsInfix(ts: seq<Token>, op: Op, l: Tree, r: Tree)
    decreases |ts|, 0
  {
    exists k :: Infix(ts, k, op) && Spells(ts[..k], l) && Spells(ts[k + 1..], r)
  }

  ghost predicate SpellsCall(ts: seq<Token>, f: Tree, args: seq<Tree>)
    decreases |ts|, 0
  {
    exists k :: Enclosed(ts, k, LParen, RParen) && Spells(ts[..k], f) && SpellsArgs(ts[k + 1..|ts| - 1], args)
  }

  ghost predicate SpellsField(ts: seq<Token>, b: Tree, name: Symbol)
    decreases |ts|, 0
  {
    |ts| > 2 && ts[|ts| - 2] == Dot && ts[|ts| - 1] == IdentToken(name) && Spells(ts[..|ts| - 2], b)
  }

  ghost predicate SpellsIndex(ts: seq<Token>, b: Tree, i: Tree)
    decreases |ts|, 0
  {
    exists k :: Enclosed(ts, k, LBracket, RBracket) && Spells(ts[..k], b) && Spells(ts[k + 1..|ts| - 1], i)
  }

  /** Expressions between commas; one more comma may follow the last. */
  ghost predicate SpellsArgs(ts: seq<Token>, args: seq<Tree>)
    decreases |ts|, 2
  {
    if args == [] then ts == []
    else (|args| == 1 && Spells(ts, args[0])) || SpellsMore(ts, args[0], args[1..])
  }

  ghost predicate SpellsMore(ts: seq<Token>, a: Tree, args: seq<Tree>)
    decreases |ts|, 0
  {
    exists k :: CommaAt(ts, k) && Spells(ts[..k], a) && SpellsArgs(ts[k + 1..], args)
  }

  predicate Infix(ts: seq<Token>, k: int, op: Op) {
    0 <= k < |ts| && ts[k] == OpToken(op)
  }

  predicate Enclosed(ts: seq<Token>, k: int, open: Token, close: Token) {
    0 <= k < |ts| - 1 && ts[k] == open && ts[|ts| - 1] == close
  }

  predicate CommaAt(ts: seq<Token>, k: int) {
    0 <= k < |ts| && ts[k] == Comma
  }

  // ---- Writing larger trees ----

  lemma SpellParen(ts: seq<Token>, e: Tree)
    requires Spells(ts, e)
    ensures Spells([LParen] + ts + [RParen], e)
  {
    assert ts != [];
    var all := [LParen] + ts + [RParen];
    assert all[1..|all| - 1] == ts;
  }

  lemma SpellInfix(ls: seq<Token>, l: Tree, op: Op, rs: seq<Token>, r: Tree)
    requires Spells(ls, l) && Spells(rs, r)
    ensures Spells(ls + [OpToken(op)] + rs, Node(op, l, r))
  {
    hide *;
    var ts := ls + [OpToken(op)] + rs;
    SplitsAt(ls, OpToken(op), rs);
    assert Infix(ts, |ls|, op) by { InfixAt(ts, |ls|, op); }
    InfixSpells(ts, |ls|, op, l, r);
  }

  lemma InfixAt(ts: seq<Token>, k: nat, op: Op)
    requires k < |ts| && ts[k] == OpToken(op)
    ensures Infix(ts, k, op)
  {
  }

  lemma SplitsAt(a: seq<Token>, t: Token, b: seq<Token>)
    ensures var ts := a + [t] + b; |a| < |ts| && ts[|a|] == t && ts[..|a|] == a && ts[|a| + 1..] == b
  {
  }

  lemma InfixSpells(ts: seq<Token>, k: nat, op: Op, l: Tree, r: Tree)
    requires Infix(ts, k, op) && Spells(ts[..k], l) && Spells(ts[k + 1..], r)
    ensures Spells(ts, Node(op, l, r))
  {
    hide Spells;
    InfixIs(ts, op, l, r);
  }

  lemma InfixIs(ts: seq<Token>, op: Op, l: Tree, r: Tree)
    requires SpellsInfix(ts, op, l, r)
    ensures Spells(ts, Node(op, l, r))
  {
    hide SpellsInfix;
  }

  lemma SpellPrefix(p: Prefix, ts: seq<Token>, x: Tree)
    requires Spells(ts, x)
    ensures Spells([PrefixToken(p)] + ts, Unary(p, x))
  {
    assert ([PrefixToken(p)] + ts)[1..] == ts;
  }

  lemma SpellsSome(ts: seq<Token>, e: Tree)
    requires Spells(ts, e)
    ensures ts != []
  {
  }

  lemma SpellCall(fs: seq<Token>, f: Tree, xs: seq<Token>, args: seq<Tree>)
    requires Spells(fs, f) && SpellsArgs(xs, args)
    ensures Spells(fs + [LParen] + xs + [RParen], Call(f, args))
  {
    var ts := fs + [LParen] + xs + [RParen];
    assert SpellsCall(ts, f, args) by {
      hide Spells, SpellsArgs;
      assert Enclosed(ts, |fs|, LParen, RParen) && ts[..|fs|] == fs && ts[|fs| + 1..|ts| - 1] == xs;
    }
    hide SpellsCall;
  }

  lemma SpellField(bs: seq<Token>, b: Tree, name: Symbol)
    requires Spells(bs, b) && bs != []
    ensures Spells(bs + [Dot, IdentToken(name)], Field(b, name))
  {
    var ts := bs + [Dot, IdentToken(name)];
    assert SpellsField(ts, b, name) by {
      hide Spells;
      assert ts[..|ts| - 2] == bs;
    }
    hide SpellsField;
  }

  lemma SpellIndex(bs: seq<Token>, b: Tree, xs: seq<Token>, i: Tree)
    requires Spells(bs, b) && Spells(xs, i)
    ensures Spells(bs + [LBracket] + xs + [RBracket], Index(b, i))
  {
    var ts := bs + [LBracket] + xs + [RBracket];
    assert SpellsIndex(ts, b, i) by {
      hide Spells;
      assert Enclosed(ts, |bs|, LBracket, RBracket) && ts[..|bs|] == bs && ts[|bs| + 1..|ts| - 1] == xs;
    }
    hide SpellsIndex;
  }

  lemma SpellMore(ts: seq<Token>, a: Tree, xs: seq<Token>, args: seq<Tree>)
    requires Spells(ts, a) && SpellsArgs(xs, args)
    ensures SpellsArgs(ts + [Comma] + xs, [a] + args)
  {
    var all := ts + [Comma] + xs;
    assert ([a] + args)[1..] == args;
    assert SpellsMore(all, a, args) by {
      hide Spells, SpellsArgs;
      assert CommaAt(all, |ts|) && all[..|ts|] == ts && all[|ts| + 1..] == xs;
    }
    hide SpellsMore;
  }

  // ---- What is taken without a report is a sentence ----

  /** Reading `ts` up to `rest` took tokens that write `e`, behind those in `pre`. */
  ghost predicate Reads(pre: seq<Token>, ts: seq<Token>, rest: seq<Token>, e: Tree) {
    exists used: seq<Token> :: Splits(ts, used, rest) && Spells(pre + used, e)
  }

  predicate Splits(ts: seq<Token>, used: seq<Token>, rest: seq<Token>) {
    ts == used + rest
  }

  /** Nothing was reported. */
  predicate Quiet(r: Parsed) {
    r.Done? && r.reports == 0
  }

  lemma ReadsAll(pre: seq<Token>, ts: seq<Token>, used: seq<Token>, rest: seq<Token>, e: Tree)
    requires ts == used + rest && Spells(pre + used, e)
    ensures Reads(pre, ts, rest, e)
  {
    assert Splits(ts, used, rest);
  }

  lemma {:induction false} ClimbGrows(lhs: Tree, ts: seq<Token>, min: nat, n: nat)
    requires Quiet(Climb(lhs, ts, min, n))
    ensures n == 0
    decreases |ts|
  {
    if ts != [] && ts[0].OpToken? && Precedence(ts[0].op) >= min {
      hide Climb;
      ClimbOpens(lhs, ts, min, n);
      var r := ParseExpr(ts[1..], RightPrecedence(ts[0].op));
      ClimbGrows(Node(ts[0].op, lhs, r.tree), r.rest, min, n + r.reports);
    }
  }

  /** One turn of the climbing loop. */
  lemma ClimbOpens(lhs: Tree, ts: seq<Token>, min: nat, n: nat)
    requires ts != [] && ts[0].OpToken? && Precedence(ts[0].op) >= min
    ensures var r := ParseExpr(ts[1..], RightPrecedence(ts[0].op));
      Climb(lhs, ts, min, n) == if r.Failed? then Failed(n + r.reports)
        else Climb(Node(ts[0].op, lhs, r.tree), r.rest, min, n + r.reports)
  {
  }

  /** What was taken by two readers in turn. */
  lemma ReadsOn(pre: seq<Token>, a: seq<Token>, ts: seq<Token>, rest: seq<Token>, e: Tree)
    requires Reads(pre + a, ts, rest, e)
    ensures Reads(pre, a + ts, rest, e)
  {
    var used: seq<Token> :| Splits(ts, used, rest) && Spells(pre + a + used, e);
    assert pre + a + used == pre + (a + used) && a + ts == (a + used) + rest;
    ReadsAll(pre, a + ts, a + used, rest, e);
  }

  lemma {:induction false} ExprReads(ts: seq<Token>, min: nat)
    requires Quiet(ParseExpr(ts, min))
    ensures Reads([], ts, ParseExpr(ts, min).rest, ParseExpr(ts, min).tree)
    decreases |ts|, 4
  {
    var u := ParseUnary(ts);
    assert ParseExpr(ts, min) == Climb(u.tree, u.rest, min, u.reports) by { hide ParseUnary, Climb; }
    hide ParseExpr, ParseUnary, Climb, Spells, Reads;
    ClimbGrows(u.tree, u.rest, min, u.reports);
    UnaryReads(ts);
    ReadsThen(ts, u.rest, u.tree, min);
  }

  lemma ReadsThen(ts: seq<Token>, mid: seq<Token>, x: Tree, min: nat)
    requires Reads([], ts, mid, x) && |mid| < |ts| && Quiet(Climb(x, mid, min, 0))
    ensures Reads([], ts, Climb(x, mid, min, 0).rest, Climb(x, mid, min, 0).tree)
    decreases |ts|, 0
  {
    hide Climb, Spells;
    var used: seq<Token> :| Splits(ts, used, mid) && Spells([] + used, x);
    assert [] + used == used;
    ClimbReads(used, x, mid, min);
    hide Reads;
    ReadsOn([], used, mid, Climb(x, mid, min, 0).rest, Climb(x, mid, min, 0).tree);
  }

  lemma {:induction false} ClimbReads(pre: seq<Token>, lhs: Tree, ts: seq<Token>, min: nat)
    requires Spells(pre, lhs) && Quiet(Climb(lhs, ts, min, 0))
    ensures Reads(pre, ts, Climb(lhs, ts, min, 0).rest, Climb(lhs, ts, min, 0).tree)
    decreases |ts|, 5
  {
    if ts != [] && ts[0].OpToken? && Precedence(ts[0].op) >= min {
      hide Climb, ParseExpr, Spells, Reads;
      ClimbOpens(lhs, ts, min, 0);
      var op := ts[0].op;
      var r := ParseExpr(ts[1..], RightPrecedence(op));
      ClimbGrows(Node(op, lhs, r.tree), r.rest, min, r.reports);
      ExprReads(ts[1..], RightPrecedence(op));
      ClimbTurn(pre, lhs, ts, r.rest, r.tree, min);
    } else {
      assert Climb(lhs, ts, min, 0) == Done(lhs, ts, 0);
      hide Spells;
      assert pre + [] == pre && ts == [] + ts;
      ReadsAll(pre, ts, [], ts, lhs);
    }
  }

  lemma ClimbTurn(pre: seq<Token>, lhs: Tree, ts: seq<Token>, rest: seq<Token>, rhs: Tree, min: nat)
    requires Spells(pre, lhs) && ts != [] && ts[0].OpToken? && |rest| < |ts| - 1 && Reads([], ts[1..], rest, rhs)
    requires Quiet(Climb(Node(ts[0].op, lhs, rhs), rest, min, 0))
    ensures var r := Climb(Node(ts[0].op, lhs, rhs), rest, min, 0); Reads(pre, ts, r.rest, r.tree)
    decreases |ts|, 4
  {
    hide Climb, Spells, Node;
    var op := ts[0].op;
    var used: seq<Token> :| Splits(ts[1..], used, rest) && Spells([] + used, rhs);
    assert [] + used == used;
    SpellInfix(pre, lhs, op, used, rhs);
    var all := [OpToken(op)] + used;
    assert pre + [OpToken(op)] + used == pre + all && ts == all + rest;
    ClimbReads(pre + all, Node(op, lhs, rhs), rest, min);
    hide Reads;
    var r := Climb(Node(op, lhs, rhs), rest, min, 0);
    ReadsOn(pre, all, rest, r.rest, r.tree);
  }

  lemma {:induction false} UnaryReads(ts: seq<Token>)
    requires Quiet(ParseUnary(ts))
    ensures Reads([], ts, ParseUnary(ts).rest, ParseUnary(ts).tree)
    decreases |ts|, 3
  {
    hide ParsePrimary, Postfix, Spells;
    if PrefixOf(Peek(ts)).Some? {
      var p := PrefixOf(Peek(ts)).value;
      UnaryReads(ts[1..]);
      var r := ParseUnary(ts[1..]);
      var used: seq<Token> :| Splits(ts[1..], used, r.rest) && Spells([] + used, r.tree);
      assert [] + used == used;
      SpellPrefix(p, used, r.tree);
      var all := [PrefixToken(p)] + used;
      assert ts == all + r.rest && [] + all == all;
      ReadsAll([], ts, all, r.rest, Unary(p, r.tree));
    } else {
      var b := ParsePrimary(ts);
      assert ParseUnary(ts) == Postfix(b.tree, b.rest, b.reports);
      hide ParseUnary;
      PostfixGrows(b.tree, b.rest, b.reports);
      PrimaryReads(ts);
      var used: seq<Token> :| Splits(ts, used, b.rest) && Spells([] + used, b.tree);
      assert [] + used == used;
      PostfixReads(used, b.tree, b.rest);
      var r := Postfix(b.tree, b.rest, 0);
      hide Reads;
      ReadsOn([], used, b.rest, r.rest, r.tree);
    }
  }

  lemma {:induction false} PathReads(ts: seq<Token>)
    requires PathRest(ts).2 == 0
    ensures ts == PrintPath(PathRest(ts).0) + PathRest(ts).1
    decreases |ts|
  {
    var name, ts1 := TextOf(Peek(ts)), AfterIdent(ts);
    assert AtIdent(ts) && ts[0] == IdentToken(name) && ts1 == ts[1..];
    if Peek(ts1) == Some(DoubleColon) {
      PathReads(ts1[1..]);
      var names := PathRest(ts1[1..]).0;
      assert ([name] + names)[1..] == names;
    }
  }

  lemma {:induction false} PrimaryReads(ts: seq<Token>)
    requires Quiet(ParsePrimary(ts))
    ensures Reads([], ts, ParsePrimary(ts).rest, ParsePrimary(ts).tree)
    decreases |ts|, 2
  {
    PrimarySome(ts);
    hide ParsePrimary, Spells, Reads;
    if ts[0].LParen? {
      ParenReads(ts);
    } else if ParsePrimary(ts).tree.Path? {
      PathPrimaryReads(ts);
    } else {
      AtomReads(ts);
    }
  }

  lemma PrimarySome(ts: seq<Token>)
    requires Quiet(ParsePrimary(ts))
    ensures ts != []
  {
  }

  lemma IsPath(ts: seq<Token>)
    requires Quiet(ParsePrimary(ts)) && ts != [] && !ts[0].LParen? && ParsePrimary(ts).tree.Path?
    ensures ts[0].IdentToken? && Peek(ts[1..]) == Some(DoubleColon)
  {
    hide PathRest, IntValue, ParseExpr;
  }

  lemma PathOpens(ts: seq<Token>)
    requires ts != [] && ts[0].IdentToken? && Peek(ts[1..]) == Some(DoubleColon)
    ensures |ts| >= 2 && ts[1].DoubleColon?
    ensures ParsePrimary(ts) == Done(Path([ts[0].text] + PathRest(ts[2..]).0), PathRest(ts[2..]).1, PathRest(ts[2..]).2)
  {
    hide PathRest, IntValue, ParseExpr;
  }

  lemma PathSpelled(s: Symbol, names: seq<Symbol>)
    requires names != []
    ensures Spells(PrintPath([s] + names), Path([s] + names))
    ensures PrintPath([s] + names) == [IdentToken(s), DoubleColon] + PrintPath(names)
  {
    assert ([s] + names)[1..] == names;
    hide PrintPath, SpellsInfix, SpellsCall, SpellsField, SpellsIndex;
  }

  lemma PathPrimaryReads(ts: seq<Token>)
    requires Quiet(ParsePrimary(ts)) && ts != [] && !ts[0].LParen? && ParsePrimary(ts).tree.Path?
    ensures Reads([], ts, ParsePrimary(ts).rest, ParsePrimary(ts).tree)
  {
    hide ParsePrimary, PathRest, PrintPath, Spells, Reads;
    IsPath(ts);
    PathOpens(ts);
    PathReads(ts[2..]);
    var names, rest := PathRest(ts[2..]).0, PathRest(ts[2..]).1;
    var all := [ts[0].text] + names;
    PathSpelled(ts[0].text, names);
    assert ts == PrintPath(all) + rest by { assert ts == ts[..2] + ts[2..]; }
    assert [] + PrintPath(all) == PrintPath(all);
    ReadsAll([], ts, PrintPath(all), rest, Path(all));
  }

  lemma AtomReads(ts: seq<Token>)
    requires Quiet(ParsePrimary(ts)) && ts != [] && !ts[0].LParen? && !ParsePrimary(ts).tree.Path?
    ensures Reads([], ts, ParsePrimary(ts).rest, ParsePrimary(ts).tree)
  {
    hide Reads, IntValue, PathRest, ParseExpr;
    var r := ParsePrimary(ts);
    assert r.rest == ts[1..] && Spells([ts[0]], r.tree);
    hide ParsePrimary, Spells;
    assert [] + [ts[0]] == [ts[0]] && ts == [ts[0]] + ts[1..];
    ReadsAll([], ts, [ts[0]], ts[1..], r.tree);
  }

  /** What parentheses enclose, when they are closed. */
  lemma ParenOpens(ts: seq<Token>)
    requires Quiet(ParsePrimary(ts)) && ts != [] && ts[0].LParen?
    ensures var r := ParseExpr(ts[1..], 0);
      Quiet(r) && r.rest != [] && r.rest[0] == RParen && ParsePrimary(ts) == Done(r.tree, r.rest[1..], 0)
  {
    hide ParseExpr, PathRest, IntValue;
  }

  lemma ParenReads(ts: seq<Token>)
    requires Quiet(ParsePrimary(ts)) && ts != [] && ts[0].LParen?
    ensures Reads([], ts, ParsePrimary(ts).rest, ParsePrimary(ts).tree)
    decreases |ts|, 1
  {
    hide ParseExpr, ParsePrimary, Spells;
    ParenOpens(ts);
    var r := ParseExpr(ts[1..], 0);
    ExprReads(ts[1..], 0);
    var used: seq<Token> :| Splits(ts[1..], used, r.rest) && Spells([] + used, r.tree);
    hide Reads;
    assert [] + used == used;
    SpellParen(used, r.tree);
    var all := [LParen] + used + [RParen];
    assert ts == all + r.rest[1..] && [] + all == all;
    ReadsAll([], ts, all, r.rest[1..], r.tree);
  }

  // ---- Postfixes ----

  /** One postfix and what it makes of its base: the tree, the rest and the number of reports. */
  function OnePostfix(base: Tree, ts: seq<Token>): (r: Parsed)
    requires ts != [] && (ts[0].LParen? || ts[0].Dot? || ts[0].LBracket?)
    ensures r.Done? ==> |r.rest| < |ts|
  {
    match ts[0]
    case LParen =>
      var a := ParseArgs(ts[1..], [], 0);
      if a.failed then Failed(a.reports)
      else Done(Call(base, a.args), After(a.rest, RParen), a.reports + ReportUnless(a.rest, RParen))
    case Dot => Done(Field(base, TextOf(Peek(ts[1..]))), AfterIdent(ts[1..]), if AtIdent(ts[1..]) then 0 else 1)
    case LBracket =>
      (match ParseExpr(ts[1..], 0)
       case Failed(n) => Failed(n)
       case Done(i, rest, n) => Done(Index(base, i), After(rest, RBracket), n + ReportUnless(rest, RBracket)))
  }

  predicate AtPostfix(ts: seq<Token>) {
    ts != [] && (ts[0].LParen? || ts[0].Dot? || ts[0].LBracket?)
  }

  lemma PostfixOpens(base: Tree, ts: seq<Token>, n: nat)
    ensures !AtPostfix(ts) ==> Postfix(base, ts, n) == Done(base, ts, n)
    ensures AtPostfix(ts) ==> var r := OnePostfix(base, ts);
      Postfix(base, ts, n) == if r.Failed? then Failed(n + r.reports) else Postfix(r.tree, r.rest, n + r.reports)
  {
    hide ParseExpr, ParseArgs;
  }

  lemma {:induction false} PostfixGrows(base: Tree, ts: seq<Token>, n: nat)
    requires Quiet(Postfix(base, ts, n))
    ensures n == 0
    decreases |ts|
  {
    hide Postfix, OnePostfix;
    PostfixOpens(base, ts, n);
    if AtPostfix(ts) {
      var r := OnePostfix(base, ts);
      PostfixGrows(r.tree, r.rest, n + r.reports);
    }
  }

  lemma {:induction false} PostfixReads(pre: seq<Token>, base: Tree, ts: seq<Token>)
    requires Spells(pre, base) && Quiet(Postfix(base, ts, 0))
    ensures Reads(pre, ts, Postfix(base, ts, 0).rest, Postfix(base, ts, 0).tree)
    decreases |ts|, 2
  {
    hide Postfix, OnePostfix, Spells;
    PostfixOpens(base, ts, 0);
    if AtPostfix(ts) {
      var r := OnePostfix(base, ts);
      PostfixGrows(r.tree, r.rest, r.reports);
      OneReads(pre, base, ts);
      var used: seq<Token> :| Splits(ts, used, r.rest) && Spells(pre + used, r.tree);
      PostfixReads(pre + used, r.tree, r.rest);
      var q := Postfix(r.tree, r.rest, 0);
      hide Reads;
      ReadsOn(pre, used, r.rest, q.rest, q.tree);
    } else {
      assert pre + [] == pre && ts == [] + ts;
      ReadsAll(pre, ts, [], ts, base);
    }
  }

  lemma OneReads(pre: seq<Token>, base: Tree, ts: seq<Token>)
    requires Spells(pre, base) && AtPostfix(ts) && Quiet(OnePostfix(base, ts))
    ensures Reads(pre, ts, OnePostfix(base, ts).rest, OnePostfix(base, ts).tree)
    decreases |ts|, 1
  {
    match ts[0]
    case LParen => CallReads(pre, base, ts);
    case LBracket => IndexReads(pre, base, ts);
    case Dot =>
      var name := TextOf(Peek(ts[1..]));
      var r := OnePostfix(base, ts);
      assert AtIdent(ts[1..]) && r.rest == ts[2..] && r.tree == Field(base, name);
      SpellsSome(pre, base);
      hide Spells;
      SpellField(pre, base, name);
      assert ts == [Dot, IdentToken(name)] + r.rest;
      ReadsAll(pre, ts, [Dot, IdentToken(name)], r.rest, r.tree);
  }

  lemma IndexReads(pre: seq<Token>, base: Tree, ts: seq<Token>)
    requires Spells(pre, base) && ts != [] && ts[0].LBracket? && Quiet(OnePostfix(base, ts))
    ensures Reads(pre, ts, OnePostfix(base, ts).rest, OnePostfix(base, ts).tree)
    decreases |ts|, 0
  {
    hide ParseExpr, Spells;
    var r, q := ParseExpr(ts[1..], 0), OnePostfix(base, ts);
    assert r.Done? && q.tree == Index(base, r.tree) && r.rest[0] == RBracket && q.rest == r.rest[1..];
    hide OnePostfix;
    ExprReads(ts[1..], 0);
    var used: seq<Token> :| Splits(ts[1..], used, r.rest) && Spells([] + used, r.tree);
    hide Reads;
    assert [] + used == used;
    SpellIndex(pre, base, used, r.tree);
    var all := [LBracket] + used + [RBracket];
    assert ts == all + q.rest && pre + [LBracket] + used + [RBracket] == pre + all;
    ReadsAll(pre, ts, all, q.rest, q.tree);
  }

  lemma CallReads(pre: seq<Token>, base: Tree, ts: seq<Token>)
    requires Spells(pre, base) && ts != [] && ts[0].LParen? && Quiet(OnePostfix(base, ts))
    ensures Reads(pre, ts, OnePostfix(base, ts).rest, OnePostfix(base, ts).tree)
    decreases |ts|, 0
  {
    hide ParseArgs, Spells;
    var a, q := ParseArgs(ts[1..], [], 0), OnePostfix(base, ts);
    assert !a.failed && a.reports == 0 && q.tree == Call(base, a.args) && a.rest[0] == RParen && q.rest == a.rest[1..];
    hide OnePostfix;
    var used, args := ArgsRead(ts[1..], [], 0);
    assert [] + args == args;
    SpellCall(pre, base, used, args);
    var all := [LParen] + used + [RParen];
    assert ts == all + q.rest && pre + [LParen] + used + [RParen] == pre + all;
    ReadsAll(pre, ts, all, q.rest, q.tree);
  }

  lemma ArgsOpens(ts: seq<Token>, args: seq<Tree>, n: nat)
    ensures ts == [] || ts[0].RParen? ==> ParseArgs(ts, args, n) == Args(args, ts, n, false)
    ensures ts != [] && !ts[0].RParen? ==> var r := ParseExpr(ts, 0);
      ParseArgs(ts, args, n) == if r.Failed? then Args(args, [], n + r.reports, true)
        else if Peek(r.rest) == Some(Comma) then ParseArgs(r.rest[1..], args + [r.tree], n + r.reports)
        else Args(args + [r.tree], r.rest, n + r.reports, false)
  {
    hide ParseExpr;
  }

  lemma {:induction false} ArgsGrow(ts: seq<Token>, args: seq<Tree>, n: nat)
    ensures ParseArgs(ts, args, n).reports >= n
    decreases |ts|
  {
    hide ParseArgs, ParseExpr;
    ArgsOpens(ts, args, n);
    if ts != [] && !ts[0].RParen? {
      var r := ParseExpr(ts, 0);
      if r.Done? && Peek(r.rest) == Some(Comma) { ArgsGrow(r.rest[1..], args + [r.tree], n + r.reports); }
    }
  }

  lemma {:induction false} ArgsRead(ts: seq<Token>, args: seq<Tree>, n: nat) returns (used: seq<Token>, more: seq<Tree>)
    requires !ParseArgs(ts, args, n).failed && ParseArgs(ts, args, n).reports == 0
    ensures var a := ParseArgs(ts, args, n); a.args == args + more && ts == used + a.rest && SpellsArgs(used, more)
    decreases |ts|, 5
  {
    hide ParseArgs, ParseExpr, Spells;
    ArgsOpens(ts, args, n);
    if ts == [] || ts[0].RParen? {
      used, more := [], [];
    } else {
      var r := ParseExpr(ts, 0);
      if Peek(r.rest) == Some(Comma) { ArgsGrow(r.rest[1..], args + [r.tree], n + r.reports); }
      ExprReads(ts, 0);
      var first: seq<Token> :| Splits(ts, first, r.rest) && Spells([] + first, r.tree);
      assert [] + first == first;
      if Peek(r.rest) == Some(Comma) {
        var others, rest := ArgsRead(r.rest[1..], args + [r.tree], n + r.reports);
        hide SpellsArgs;
        SpellMore(first, r.tree, others, rest);
        used, more := first + [Comma] + others, [r.tree] + rest;
      } else {
        used, more := first, [r.tree];
      }
    }
  }

  // ---- Every sentence is taken without a report ----

  /** A sentence cut at its operators: what stands between them, and the signs before that. */
  datatype Operand = Base(ts: seq<Token>) | Signed(p: Prefix, of: Operand)

  datatype Chain = Last(o: Operand) | Then(o: Operand, op: Op, next: Chain)

  function OperandText(o: Operand): seq<Token> {
    match o
    case Base(ts) => ts
    case Signed(p, x) => [PrefixToken(p)] + OperandText(x)
  }

  function ChainText(c: Chain): seq<Token> {
    match c
    case Last(o) => OperandText(o)
    case Then(o, op, next) => OperandText(o) + [OpToken(op)] + ChainText(next)
  }

  function Size(c: Chain): (n: nat)
    ensures n > 0
  {
    if c.Last? then 1 else 1 + Size(c.next)
  }

  /** The tokens are read as some base, and then what follows as its postfixes. */
  ghost predicate TakenBefore(ts: seq<Token>, rest: seq<Token>) {
    exists e :: ParseUnary(ts + rest) == Postfix(e, rest, 0)
  }

  ghost predicate Taken(ts: seq<Token>) {
    forall rest :: ParserProof.NoPath(rest) ==> TakenBefore(ts, rest)
  }

  ghost predicate GoodOperand(o: Operand) {
    match o
    case Base(ts) => Taken(ts)
    case Signed(_, x) => GoodOperand(x)
  }

  ghost predicate Good(c: Chain) {
    GoodOperand(c.o) && (c.Then? ==> Good(c.next))
  }

  lemma {:induction false} OperandTaken(o: Operand, rest: seq<Token>)
    requires GoodOperand(o) && ParserProof.Stops(rest, UNARY_LEVEL)
    ensures var r := ParseUnary(OperandText(o) + rest); Quiet(r) && r.rest == rest
  {
    match o
    case Base(ts) =>
      hide ParseUnary, Postfix;
      assert TakenBefore(ts, rest);
      var e :| ParseUnary(ts + rest) == Postfix(e, rest, 0);
      ParserProof.PostfixStops(e, rest);
    case Signed(p, x) =>
      OperandTaken(x, rest);
      assert (OperandText(o) + rest)[1..] == OperandText(x) + rest;
  }

  /** What is left of a chain, and after it. */
  function Left(after: Option<(Op, Chain)>, rest: seq<Token>): seq<Token> {
    match after
    case None => rest
    case Some((op, c)) => [OpToken(op)] + ChainText(c) + rest
  }

  ghost predicate GoodLeft(after: Option<(Op, Chain)>, size: nat) {
    after.Some? ==> Good(after.value.1) && Size(after.value.1) < size
  }

  /** Reading stops at an operator too weak for the place, or at the end. */
  ghost predicate StopsAt(r: Parsed, after: Option<(Op, Chain)>, rest: seq<Token>, min: nat) {
    Quiet(r) && r.rest == Left(after, rest) && (after.Some? ==> Precedence(after.value.0) < min)
  }

  lemma {:induction false} ChainTaken(c: Chain, rest: seq<Token>, min: nat) returns (after: Option<(Op, Chain)>)
    requires Good(c) && ParserProof.Stops(rest, 0)
    ensures StopsAt(ParseExpr(ChainText(c) + rest, min), after, rest, min) && GoodLeft(after, Size(c))
    decreases Size(c), 1
  {
    var more := if c.Last? then None else Some((c.op, c.next));
    var tail := Left(more, rest);
    assert ChainText(c) + rest == OperandText(c.o) + tail;
    OperandTaken(c.o, tail);
    var r := ParseUnary(OperandText(c.o) + tail);
    assert ParseExpr(OperandText(c.o) + tail, min) == Climb(r.tree, tail, min, 0) by { hide ParseUnary, Climb; }
    hide ParseExpr, ParseUnary, Climb;
    after := ClimbTaken(r.tree, more, rest, min, Size(c));
  }

  lemma {:induction false} ClimbTaken(x: Tree, more: Option<(Op, Chain)>, rest: seq<Token>, min: nat, size: nat)
    returns (after: Option<(Op, Chain)>)
    requires GoodLeft(more, size) && ParserProof.Stops(rest, 0)
    ensures StopsAt(Climb(x, Left(more, rest), min, 0), after, rest, min) && GoodLeft(after, size)
    decreases if more.Some? then Size(more.value.1) + 1 else 0, 0
  {
    hide Climb, ParseExpr, Good, ChainText, ParserProof.Stops;
    if more.Some? && Precedence(more.value.0) >= min {
      var (op, c) := more.value;
      var ts := Left(more, rest);
      LeftStarts(op, c, rest);
      ClimbOpens(x, ts, min, 0);
      var others := ChainTaken(c, rest, RightPrecedence(op));
      var r := ParseExpr(ts[1..], RightPrecedence(op));
      after := ClimbTaken(Node(op, x, r.tree), others, rest, min, size);
    } else {
      after := more;
      ClimbRests(x, more, rest, min);
    }
  }

  lemma LeftStarts(op: Op, c: Chain, rest: seq<Token>)
    ensures var ts := Left(Some((op, c)), rest);
      ts != [] && ts[0] == OpToken(op) && ts[1..] == ChainText(c) + rest
  {
    hide ChainText;
  }

  lemma ClimbRests(x: Tree, more: Option<(Op, Chain)>, rest: seq<Token>, min: nat)
    requires ParserProof.Stops(rest, 0) && (more.Some? ==> Precedence(more.value.0) < min)
    ensures Climb(x, Left(more, rest), min, 0) == Done(x, Left(more, rest), 0)
  {
    hide ChainText;
    if more.Some? { LeftStarts(more.value.0, more.value.1, rest); }
    hide Left;
  }

  /** A whole chain is taken where any operator is welcome. */
  lemma ChainRead(c: Chain, rest: seq<Token>)
    requires Good(c) && ParserProof.Stops(rest, 0)
    ensures var r := ParseExpr(ChainText(c) + rest, 0); Quiet(r) && r.rest == rest
  {
    hide ParseExpr;
    var after := ChainTaken(c, rest, 0);
  }

  // ---- Chains of larger sentences ----

  function Joined(a: Chain, op: Op, b: Chain): (c: Chain)
    ensures ChainText(c) == ChainText(a) + [OpToken(op)] + ChainText(b)
  {
    match a
    case Last(o) => Then(o, op, b)
    case Then(o, first, next) =>
      var c := Then(o, first, Joined(next, op, b));
      assert ChainText(c) == OperandText(o) + [OpToken(first)] + (ChainText(next) + [OpToken(op)] + ChainText(b));
      c
  }

  lemma {:induction false} JoinedGood(a: Chain, op: Op, b: Chain)
    requires Good(a) && Good(b)
    ensures Good(Joined(a, op, b))
  {
    if a.Then? { JoinedGood(a.next, op, b); }
  }

  function OperandWith(o: Operand, more: seq<Token>): (r: Operand)
    ensures OperandText(r) == OperandText(o) + more
  {
    match o
    case Base(ts) => Base(ts + more)
    case Signed(p, x) => Signed(p, OperandWith(x, more))
  }

  /** The chain with a postfix to its last operand. */
  function With(c: Chain, more: seq<Token>): (r: Chain)
    ensures ChainText(r) == ChainText(c) + more
  {
    match c
    case Last(o) => Last(OperandWith(o, more))
    case Then(o, op, next) =>
      var r := Then(o, op, With(next, more));
      assert ChainText(r) == OperandText(o) + [OpToken(op)] + (ChainText(next) + more);
      r
  }

  /** A postfix that is taken whole, whatever its base and whatever follows. */
  ghost predicate PostfixTaken(more: seq<Token>) {
    AtPostfix(more) && forall base, rest ::
      var r := OnePostfix(base, more + rest); Quiet(r) && r.rest == rest
  }

  lemma TakenWith(ts: seq<Token>, more: seq<Token>)
    requires Taken(ts) && PostfixTaken(more)
    ensures Taken(ts + more)
  {
    hide ParseUnary, Postfix, OnePostfix;
    forall rest | ParserProof.NoPath(rest) ensures TakenBefore(ts + more, rest) {
      var tail := more + rest;
      assert ts + more + rest == ts + tail;
      assert TakenBefore(ts, tail);
      var e :| ParseUnary(ts + tail) == Postfix(e, tail, 0);
      PostfixOpens(e, tail, 0);
      var r := OnePostfix(e, more + rest);
      assert ParseUnary(ts + more + rest) == Postfix(r.tree, rest, 0);
    }
  }

  lemma {:induction false} OperandWithGood(o: Operand, more: seq<Token>)
    requires GoodOperand(o) && PostfixTaken(more)
    ensures GoodOperand(OperandWith(o, more))
  {
    hide PostfixTaken, Taken;
    match o
    case Base(ts) => TakenWith(ts, more);
    case Signed(_, x) => OperandWithGood(x, more);
  }

  lemma {:induction false} WithGood(c: Chain, more: seq<Token>)
    requires Good(c) && PostfixTaken(more)
    ensures Good(With(c, more))
  {
    hide PostfixTaken;
    match c
    case Last(o) => OperandWithGood(o, more);
    case Then(_, _, next) => WithGood(next, more);
  }

  function Marked(p: Prefix, c: Chain): (r: Chain)
    ensures ChainText(r) == [PrefixToken(p)] + ChainText(c)
  {
    match c
    case Last(o) => Last(Signed(p, o))
    case Then(o, op, next) => Then(Signed(p, o), op, next)
  }

  // ---- The chain of a sentence ----

  lemma {:induction false} ChainOf(ts: seq<Token>, e: Tree) returns (c: Chain)
    requires Spells(ts, e)
    ensures Good(c) && ChainText(c) == ts
    decreases |ts|, 1
  {
    hide SpellsInfix, SpellsCall, SpellsField, SpellsIndex, Good, Taken;
    if |ts| > 2 && ts[0] == LParen && ts[|ts| - 1] == RParen && Spells(ts[1..|ts| - 1], e) {
      hide Spells;
      var inner := ChainOf(ts[1..|ts| - 1], e);
      ParenTaken(inner);
      assert ts == [LParen] + ts[1..|ts| - 1] + [RParen];
      c := BaseChain(ts);
    } else {
      match e
      case Binary(op, l, r) => hide Spells; c := InfixChain(ts, op, l, r);
      case Assignment(op, l, r) => hide Spells; c := InfixChain(ts, op, l, r);
      case Call(f, args) => hide Spells; c := CallChain(ts, f, args);
      case Index(b, i) => hide Spells; c := IndexChain(ts, b, i);
      case Field(b, name) => hide Spells; c := FieldChain(ts, b, name);
      case Unary(p, x) =>
        hide Spells;
        var inner := ChainOf(ts[1..], x);
        c := Marked(p, inner);
        MarkedGood(p, inner);
        assert ts == [PrefixToken(p)] + ts[1..];
      case _ =>
        LeafTaken(ts, e);
        c := BaseChain(ts);
    }
  }

  lemma BaseChain(ts: seq<Token>) returns (c: Chain)
    requires Taken(ts)
    ensures Good(c) && ChainText(c) == ts
  {
    c := Last(Base(ts));
  }

  lemma MarkedGood(p: Prefix, c: Chain)
    requires Good(c)
    ensures Good(Marked(p, c))
  {
  }

  lemma LeafTaken(ts: seq<Token>, e: Tree)
    requires e.IntLit? || e.StrLit? || e.BoolLit? || e.Ident? || e.Path?
    requires Spells(ts, e) && !(|ts| > 2 && ts[0] == LParen)
    ensures Taken(ts)
  {
    hide Postfix, IntValue;
    forall rest | ParserProof.NoPath(rest) ensures TakenBefore(ts, rest) {
      var all := ts + rest;
      if e.Path? {
        PathHead(e.segments);
        assert all[0] == ts[0];
        hide ParsePrimary, PrintPath, Spells;
        ParserProof.PathStep(e.segments, rest);
        assert ParseUnary(all) == Postfix(e, rest, 0);
      } else {
        assert all[0] == ts[0] && all[1..] == rest;
        hide Spells;
        assert ParsePrimary(all) == Done(e, rest, 0);
        assert ParseUnary(all) == Postfix(e, rest, 0);
      }
    }
  }

  lemma PathHead(segments: seq<Symbol>)
    requires |segments| >= 2
    ensures PrintPath(segments) != [] && PrintPath(segments)[0].IdentToken?
  {
  }

  lemma ParenTaken(c: Chain)
    requires Good(c)
    ensures Taken([LParen] + ChainText(c) + [RParen])
  {
    hide Postfix, ParseExpr, ChainText, Good;
    forall rest | ParserProof.NoPath(rest) ensures TakenBefore([LParen] + ChainText(c) + [RParen], rest) {
      var inner := [RParen] + rest;
      var all := [LParen] + ChainText(c) + [RParen] + rest;
      assert all[0] == LParen && all[1..] == ChainText(c) + inner && inner[1..] == rest;
      ChainRead(c, inner);
      var e := ParseExpr(all[1..], 0).tree;
      assert ParsePrimary(all) == Done(e, rest, 0);
      hide ParsePrimary;
      assert ParseUnary(all) == Postfix(e, rest, 0);
    }
  }

  lemma InfixChain(ts: seq<Token>, op: Op, l: Tree, r: Tree) returns (c: Chain)
    requires SpellsInfix(ts, op, l, r)
    ensures Good(c) && ChainText(c) == ts
    decreases |ts|, 0
  {
    hide Spells, Good, ChainText;
    var k :| Infix(ts, k, op) && Spells(ts[..k], l) && Spells(ts[k + 1..], r);
    var a := ChainOf(ts[..k], l);
    var b := ChainOf(ts[k + 1..], r);
    c := Joined(a, op, b);
    JoinedGood(a, op, b);
    assert ts == ts[..k] + [OpToken(op)] + ts[k + 1..];
  }

  lemma FieldChain(ts: seq<Token>, b: Tree, name: Symbol) returns (c: Chain)
    requires SpellsField(ts, b, name)
    ensures Good(c) && ChainText(c) == ts
    decreases |ts|, 0
  {
    hide Spells, Good, ChainText;
    var a := ChainOf(ts[..|ts| - 2], b);
    var more := [Dot, IdentToken(name)];
    forall base, rest ensures var r := OnePostfix(base, more + rest); Quiet(r) && r.rest == rest {
      assert (more + rest)[1..] == [IdentToken(name)] + rest && (more + rest)[2..] == rest;
    }
    assert PostfixTaken(more);
    WithGood(a, more);
    c := With(a, more);
    assert ts == ts[..|ts| - 2] + more;
  }

  lemma IndexChain(ts: seq<Token>, b: Tree, i: Tree) returns (c: Chain)
    requires SpellsIndex(ts, b, i)
    ensures Good(c) && ChainText(c) == ts
    decreases |ts|, 0
  {
    hide Spells, Good, ChainText;
    var k :| Enclosed(ts, k, LBracket, RBracket) && Spells(ts[..k], b) && Spells(ts[k + 1..|ts| - 1], i);
    var xs := ts[k + 1..|ts| - 1];
    var a := ChainOf(ts[..k], b);
    var inner := ChainOf(xs, i);
    var more := [LBracket] + xs + [RBracket];
    forall base, rest ensures var r := OnePostfix(base, more + rest); Quiet(r) && r.rest == rest {
      hide ParseExpr;
      assert (more + rest)[1..] == xs + ([RBracket] + rest) && ([RBracket] + rest)[1..] == rest;
      ChainRead(inner, [RBracket] + rest);
    }
    assert PostfixTaken(more);
    WithGood(a, more);
    c := With(a, more);
    assert ts == ts[..k] + more;
  }

  lemma CallChain(ts: seq<Token>, f: Tree, args: seq<Tree>) returns (c: Chain)
    requires SpellsCall(ts, f, args)
    ensures Good(c) && ChainText(c) == ts
    decreases |ts|, 0
  {
    hide Spells, Good, ChainText, SpellsArgs;
    var k :| Enclosed(ts, k, LParen, RParen) && Spells(ts[..k], f) && SpellsArgs(ts[k + 1..|ts| - 1], args);
    var xs := ts[k + 1..|ts| - 1];
    var a := ChainOf(ts[..k], f);
    var more := [LParen] + xs + [RParen];
    forall base, rest ensures var r := OnePostfix(base, more + rest); Quiet(r) && r.rest == rest {
      hide ParseArgs;
      assert (more + rest)[1..] == xs + ([RParen] + rest) && ([RParen] + rest)[1..] == rest;
      ArgsTaken(xs, args, rest, []);
    }
    assert PostfixTaken(more);
    WithGood(a, more);
    c := With(a, more);
    assert ts == ts[..k] + more;
  }

  lemma {:induction false} ArgsTaken(ts: seq<Token>, args: seq<Tree>, rest: seq<Token>, acc: seq<Tree>)
    requires SpellsArgs(ts, args)
    ensures var a := ParseArgs(ts + ([RParen] + rest), acc, 0); !a.failed && a.reports == 0 && a.rest == [RParen] + rest
    decreases |ts|, 2
  {
    hide ParseArgs, ParseExpr, Spells, SpellsMore;
    var close := [RParen] + rest;
    ArgsOpens(ts + close, acc, 0);
    if args == [] {
      assert ts + close == close;
    } else if |args| == 1 && Spells(ts, args[0]) {
      var c := ChainOf(ts, args[0]);
      ChainRead(c, close);
      NotClosed(ts + close);
    } else {
      MoreTaken(ts, args[0], args[1..], rest, acc);
    }
  }

  lemma MoreTaken(ts: seq<Token>, x: Tree, args: seq<Tree>, rest: seq<Token>, acc: seq<Tree>)
    requires SpellsMore(ts, x, args)
    ensures var a := ParseArgs(ts + ([RParen] + rest), acc, 0); !a.failed && a.reports == 0 && a.rest == [RParen] + rest
    decreases |ts|, 1
  {
    hide ParseArgs, ParseExpr, Spells, SpellsArgs, ChainText, Good;
    var close := [RParen] + rest;
    ArgsOpens(ts + close, acc, 0);
    var k :| CommaAt(ts, k) && Spells(ts[..k], x) && SpellsArgs(ts[k + 1..], args);
    var c := ChainOf(ts[..k], x);
    var tail := [Comma] + ts[k + 1..] + close;
    assert ts + close == ts[..k] + tail && tail[1..] == ts[k + 1..] + close && tail[0] == Comma;
    ChainRead(c, tail);
    NotClosed(ts + close);
    var r := ParseExpr(ts + close, 0);
    ArgsTaken(ts[k + 1..], args, rest, acc + [r.tree]);
  }

  lemma NotClosed(ts: seq<Token>)
    requires Quiet(ParseExpr(ts, 0))
    ensures ts != [] && !ts[0].RParen?
  {
    if ts == [] || ts[0].RParen? { ClosedFails(ts); }
  }

  lemma ClosedFails(ts: seq<Token>)
    requires ts == [] || ts[0].RParen?
    ensures ParseExpr(ts, 0).Failed?
  {
    assert ParsePrimary(ts) == Failed(1);
    assert ParseUnary(ts) == Failed(1) by { hide ParsePrimary; }
    hide ParseUnary;
  }

  // ---- The language ----

  /** A list of tokens is read to its end without a report exactly when it is a sentence, and the tree it is read as
      is one it can be a way to write. */
  lemma ReadExactly(ts: seq<Token>)
    ensures var r := ParseExpr(ts, 0);
      && (Quiet(r) && r.rest == [] <==> exists e :: Spells(ts, e))
      && (Quiet(r) && r.rest == [] ==> Spells(ts, r.tree))
  {
    hide ParseExpr, Spells;
    var r := ParseExpr(ts, 0);
    if Quiet(r) && r.rest == [] {
      ExprReads(ts, 0);
      var used: seq<Token> :| Splits(ts, used, r.rest) && Spells([] + used, r.tree);
      assert [] + used == ts;
    }
    if e :| Spells(ts, e) {
      var c := ChainOf(ts, e);
      ChainRead(c, []);
      assert ts + [] == ts;
    }
  }

  /** In the middle of other tokens too: what is taken without a report is a sentence. */
  lemma TakenIsSentence(ts: seq<Token>, min: nat)
    requires Quiet(ParseExpr(ts, min))
    ensures var r := ParseExpr(ts, min); exists used: seq<Token> :: Splits(ts, used, r.rest) && Spells(used, r.tree)
  {
    hide ParseExpr, Spells;
    ExprReads(ts, min);
    var r := ParseExpr(ts, min);
    var used: seq<Token> :| Splits(ts, used, r.rest) && Spells([] + used, r.tree);
    assert [] + used == used;
  }
}
