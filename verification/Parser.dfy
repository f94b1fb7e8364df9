/** The expression parser as the compiler runs it: an object that moves a position through its tokens. */
module Parser {
  import opened Wrappers
  import opened ParserSpec

  /** What a step did, against what it should do: the tree with what is left and the reports, or that it failed. */
  predicate Agrees(p: Parsed, tree: Option<Tree>, rest: seq<Token>, reports: int) {
    && reports == p.reports
    && tree == (if p.Done? then Some(p.tree) else None)
    && (p.Done? ==> rest == p.rest)
  }

  lemma ExprUnfolds(ts: seq<Token>, min: nat)
    ensures var u := ParseUnary(ts);
      ParseExpr(ts, min) == if u.Done? then Climb(u.tree, u.rest, min, u.reports) else u
  {
    hide ParseUnary, Climb;
  }

  lemma PostfixUnfolds(base: Tree, ts: seq<Token>, so: nat)
    requires ts != []
    ensures ts[0].LParen? ==>
      var a := ParseArgs(ts[1..], [], 0);
      Postfix(base, ts, so)
        == if a.failed then Failed(so + a.reports)
           else Postfix(Call(base, a.args), After(a.rest, RParen), so + a.reports + ReportUnless(a.rest, RParen))
    ensures ts[0].Dot? ==>
      Postfix(base, ts, so)
        == Postfix(Field(base, TextOf(Peek(ts[1..]))), AfterIdent(ts[1..]), so + if AtIdent(ts[1..]) then 0 else 1)
    ensures ts[0].LBracket? ==>
      var i := ParseExpr(ts[1..], 0);
      Postfix(base, ts, so)
        == if i.Failed? then Failed(so + i.reports)
           else Postfix(Index(base, i.tree), After(i.rest, RBracket), so + i.reports + ReportUnless(i.rest, RBracket))
  {
    hide ParseArgs, ParseExpr;
  }

  lemma PostfixEnds(base: Tree, ts: seq<Token>, so: nat)
    requires ts == [] || !(ts[0].LParen? || ts[0].Dot? || ts[0].LBracket?)
    ensures Postfix(base, ts, so) == Done(base, ts, so)
  {
  }

  class ExprParser {
    const toks: seq<Token>
    var pos: nat
    /** How many times a missing token has been reported. */
    var reports: nat

    constructor (toks: seq<Token>)
      ensures this.toks == toks && pos == 0 && reports == 0 && Valid()
    {
      this.toks, pos, reports := toks, 0, 0;
    }

    predicate Valid()
      reads this
    {
      pos <= |toks|
    }

    /** The tokens still to be read. */
    function Rest(): seq<Token>
      reads this
      requires Valid()
    {
      toks[pos..]
    }

    method At(t: Token) returns (yes: bool)
      requires Valid()
      ensures yes <==> Peek(Rest()) == Some(t)
    {
      yes := pos < |toks| && toks[pos] == t;
    }

    method Advance()
      requires Valid() && Rest() != []
      modifies this`pos
      ensures Valid() && Rest() == old(Rest())[1..]
    {
      pos := pos + 1;
    }

    /** Takes the token, or reports and stays where it is. */
    method Expect(t: Token)
      requires Valid()
      modifies this
      ensures Valid() && Rest() == After(old(Rest()), t) && reports == old(reports) + ReportUnless(old(Rest()), t)
    {
      var there := At(t);
      if there { Advance(); } else { reports := reports + 1; }
    }

    method ExpectIdent() returns (text: Symbol)
      requires Valid()
      modifies this
      ensures Valid() && Rest() == AfterIdent(old(Rest())) && text == TextOf(Peek(old(Rest())))
      ensures reports == old(reports) + if AtIdent(old(Rest())) then 0 else 1
    {
      text := if pos < |toks| then TextOf(Some(toks[pos])) else 0;
      if pos < |toks| && toks[pos].IdentToken? { Advance(); } else { reports := reports + 1; }
    }

    method ParseExprFrom(min: nat) returns (tree: Option<Tree>)
      requires Valid()
      modifies this
      ensures Valid() && Agrees(ParseExpr(old(Rest()), min), tree, Rest(), reports - old(reports))
      decreases |Rest()|, 4
    {
      hide ParseUnary, ParseExpr;
      ghost var spec := ParseUnary(Rest());
      ghost var whole := ParseExpr(Rest(), min);
      ExprUnfolds(Rest(), min);
      ghost var before := reports;
      tree := ParseUnaryHere();
      if tree.None? { return; }
      var lhs := tree.value;
      while pos < |toks| && toks[pos].OpToken? && Precedence(toks[pos].op) >= min
        invariant Valid() && |Rest()| < |old(Rest())|
        invariant reports >= before
        invariant Climb(lhs, Rest(), min, reports - before) == whole
        decreases |Rest()|
      {
        var op := toks[pos].op;
        ghost var here := reports;
        assert Rest()[0] == toks[pos];
        Advance();
        ghost var rhsSpec := ParseExpr(Rest(), RightPrecedence(op));
        var rhs := ParseExprFrom(RightPrecedence(op));
        if rhs.None? { return None; }
        lhs := Node(op, lhs, rhs.value);
      }
      tree := Some(lhs);
    }

    method ParseUnaryHere() returns (tree: Option<Tree>)
      requires Valid()
      modifies this
      ensures Valid() && Agrees(ParseUnary(old(Rest())), tree, Rest(), reports - old(reports))
      decreases |Rest()|, 3
    {
      hide ParsePrimary, Postfix;
      var p := PrefixOf(if pos < |toks| then Some(toks[pos]) else None);
      if p.Some? {
        Advance();
        var x := ParseUnaryHere();
        tree := if x.None? then None else Some(Unary(p.value, x.value));
      } else {
        ghost var before := reports;
        var base := ParsePrimaryHere();
        if base.None? { return None; }
        tree := ParsePostfixFrom(base.value, reports - before);
      }
    }

    method ParsePathRest() returns (names: seq<Symbol>)
      requires Valid()
      modifies this
      ensures Valid()
      ensures var (spec, rest, n) := PathRest(old(Rest()));
        names == spec && Rest() == rest && reports == old(reports) + n
      decreases |Rest()|
    {
      var name := ExpectIdent();
      var more := At(DoubleColon);
      if more {
        Advance();
        var tail := ParsePathRest();
        names := [name] + tail;
      } else {
        names := [name];
      }
    }

    method ParsePrimaryHere() returns (tree: Option<Tree>)
      requires Valid()
      modifies this
      ensures Valid() && Agrees(ParsePrimary(old(Rest())), tree, Rest(), reports - old(reports))
      decreases |Rest()|, 2
    {
      hide ParseExpr, IntValue, PathRest;
      if pos == |toks| {
        reports := reports + 1;
        return None;
      }
      match toks[pos]
      case IntToken(d) =>
        Advance();
        tree := Some(IntLit(IntValue(d)));
      case StrToken(s) =>
        Advance();
        tree := Some(StrLit(s));
      case TrueToken =>
        Advance();
        tree := Some(BoolLit(true));
      case FalseToken =>
        Advance();
        tree := Some(BoolLit(false));
      case IdentToken(s) =>
        ghost var ts := Rest();
        Advance();
        var path := At(DoubleColon);
        if path {
          Advance();
          assert Rest() == ts[2..];
          var names := ParsePathRest();
          tree := Some(Path([s] + names));
        } else {
          tree := Some(Ident(s));
        }
      case TypeToken(s) =>
        Advance();
        tree := Some(Ident(s));
      case LParen =>
        Advance();
        tree := ParseExprFrom(0);
        if tree.Some? { Expect(RParen); }
      case _ =>
        reports := reports + 1;
        tree := None;
    }

    /** The postfix loop; `so` is what the primary has already reported. */
    method ParsePostfixFrom(start: Tree, ghost so: nat) returns (tree: Option<Tree>)
      requires Valid() && so <= reports
      modifies this
      ensures Valid()
      ensures Agrees(Postfix(start, old(Rest()), so), tree, Rest(), reports - old(reports) + so)
      decreases |Rest()|, 1
    {
      hide ParseExpr, ParseArgs, Postfix, PathRest, ParsePrimary, ParseUnary, Climb, Precedence, IntValue, After,
           ReportUnless, TextOf, AtIdent, AfterIdent, Peek;
      var base := start;
      ghost var whole := Postfix(start, Rest(), so);
      ghost var zero := reports - so;
      ghost var length := |Rest()|;
      while pos < |toks| && (toks[pos].LParen? || toks[pos].Dot? || toks[pos].LBracket?)
        invariant Valid() && reports >= zero && |Rest()| <= length
        invariant Postfix(base, Rest(), reports - zero) == whole
        decreases |Rest()|
      {
        var t := toks[pos];
        assert Rest()[0] == t;
        PostfixUnfolds(base, Rest(), reports - zero);
        Advance();
        if t.LParen? {
          var args := ParseArgsFrom([], 0);
          if args.None? { return None; }
          Expect(RParen);
          base := Call(base, args.value);
        } else if t.Dot? {
          var name := ExpectIdent();
          base := Field(base, name);
        } else {
          var i := ParseExprFrom(0);
          if i.None? { return None; }
          Expect(RBracket);
          base := Index(base, i.value);
        }
      }
      PostfixEnds(base, Rest(), reports - zero);
      tree := Some(base);
    }

    method ParseArgsFrom(start: seq<Tree>, ghost so: nat) returns (args: Option<seq<Tree>>)
      requires Valid() && so <= reports
      modifies this
      ensures Valid()
      ensures var a := ParseArgs(old(Rest()), start, so);
        && reports == old(reports) - so + a.reports
        && (a.failed ==> args == None)
        && (!a.failed ==> args == Some(a.args) && Rest() == a.rest)
      decreases |Rest()|, 5
    {
      hide ParseExpr;
      if pos == |toks| || toks[pos].RParen? { return Some(start); }
      ghost var before := reports;
      var arg := ParseExprFrom(0);
      if arg.None? { return None; }
      var more := At(Comma);
      if more {
        Advance();
        args := ParseArgsFrom(start + [arg.value], so + (reports - before));
      } else {
        args := Some(start + [arg.value]);
      }
    }
  }
}
