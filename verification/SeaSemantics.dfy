/** What a sea-of-nodes graph with control computes: a walk along control that fixes the values of phis, and
    values on demand in between. */
module SeaSemantics {
  import opened Wrappers
  import opened Words
  import opened IR

  /** Values of phis, as the walk has fixed them. */
  type Phis = map<NodeId, Word>

  /** The value of a node; phis cut the evaluation. */
  function Value(g: seq<Node>, args: seq<Word>, phis: Phis, n: NodeId): Option<Word>
    decreases n
  {
    if n >= |g| then None
    else match g[n].kind
      case Constant => Some(g[n].payload)
      case Parameter => if SignatureIndex(g, n) < |args| then Some(args[SignatureIndex(g, n)]) else None
      case Phi => if n in phis then Some(phis[n]) else None
      case Un(u) =>
        if |g[n].inputs| != 1 || g[n].inputs[0] >= n then None
        else (match Value(g, args, phis, g[n].inputs[0]) case None => None case Some(a) => Some(EvalUn(u, a)))
      case Bin(b) =>
        if |g[n].inputs| != 2 || g[n].inputs[0] >= n || g[n].inputs[1] >= n then None
        else (match (Value(g, args, phis, g[n].inputs[0]), Value(g, args, phis, g[n].inputs[1]))
              case (Some(x), Some(y)) => EvalBin(b, x, y)
              case _ => None)
      case _ => None
  }

  predicate IsPhiOf(g: seq<Node>, f: NodeId, merge: NodeId) {
    f < |g| && g[f].kind.Phi? && |g[f].inputs| == PHI_INPUTS && g[f].inputs[0] == merge
  }

  /** The input a phi takes when control comes from predecessor `k`: a loop lists its back edge first, its
      phis their entry value first. */
  function PhiChoice(g: seq<Node>, merge: NodeId, f: NodeId, k: nat): NodeId
    requires IsPhiOf(g, f, merge) && merge < |g| && k < 2
  {
    if g[merge].kind.Loop? then g[f].inputs[2 - k] else g[f].inputs[k + 1]
  }

  /** All phis of a merge take their values at once. */
  ghost function Enter(g: seq<Node>, args: seq<Word>, phis: Phis, merge: NodeId, k: nat): Phis
    requires merge < |g| && k < 2
  {
    map f: NodeId |
      f < |g| && (if IsPhiOf(g, f, merge) then Value(g, args, phis, PhiChoice(g, merge, f, k)).Some? else f in phis)
      :: if IsPhiOf(g, f, merge) then Value(g, args, phis, PhiChoice(g, merge, f, k)).value else phis[f]
  }

  datatype Point = Point(ctrl: NodeId, phis: Phis)

  /** Control goes from `p` through node `u` to `q`. */
  ghost predicate Passes(g: seq<Node>, args: seq<Word>, p: Point, u: NodeId, q: Point) {
    && u < |g|
    && match g[u].kind
       case If =>
         && |g[u].inputs| == IF_INPUTS && g[u].inputs[0] == p.ctrl && q.phis == p.phis
         && Value(g, args, p.phis, g[u].inputs[IF_CONDITION]).Some?
         && q.ctrl < |g| && g[q.ctrl].kind.Proj? && g[q.ctrl].inputs == [u]
         && g[q.ctrl].payload == (if Value(g, args, p.phis, g[u].inputs[IF_CONDITION]).value != 0 then 0 else 1)
       case Region => q.ctrl == u && exists k: nat {:trigger Enter(g, args, p.phis, u, k)} ::
         k < 2 && k < |g[u].inputs| && g[u].inputs[k] == p.ctrl && q.phis == Enter(g, args, p.phis, u, k)
       case Loop => q.ctrl == u && exists k: nat {:trigger Enter(g, args, p.phis, u, k)} ::
         k < 2 && k < |g[u].inputs| && g[u].inputs[k] == p.ctrl && q.phis == Enter(g, args, p.phis, u, k)
       case _ => false
  }

  ghost predicate Step(g: seq<Node>, args: seq<Word>, p: Point, q: Point) {
    exists u: NodeId :: Passes(g, args, p, u, q)
  }

  ghost predicate Walk(g: seq<Node>, args: seq<Word>, p: Point, q: Point, n: nat)
    decreases n
  {
    if n == 0 then p == q else exists m: Point :: Step(g, args, p, m) && Walk(g, args, m, q, n - 1)
  }

  ghost predicate Reaches(g: seq<Node>, args: seq<Word>, p: Point, q: Point) {
    exists n: nat :: Walk(g, args, p, q, n)
  }

  ghost predicate ReturnsAt(g: seq<Node>, args: seq<Word>, p: Point, u: NodeId, value: Word) {
    && u < |g| && g[u].kind.Return? && |g[u].inputs| == RETURN_INPUTS && g[u].inputs[0] == p.ctrl
    && Value(g, args, p.phis, g[u].inputs[RETURN_VALUE]) == Some(value)
  }

  /** Control from `p` comes to a return of `value`. */
  ghost predicate Returns(g: seq<Node>, args: seq<Word>, p: Point, value: Word) {
    exists q: Point, u: NodeId :: Reaches(g, args, p, q) && ReturnsAt(g, args, q, u, value)
  }

  lemma Stay(g: seq<Node>, args: seq<Word>, p: Point)
    ensures Reaches(g, args, p, p)
  {
    assert Walk(g, args, p, p, 0);
  }

  lemma {:induction false} WalkOn(g: seq<Node>, args: seq<Word>, p: Point, q: Point, r: Point, n: nat, k: nat)
    requires Walk(g, args, p, q, n) && Walk(g, args, q, r, k)
    ensures Walk(g, args, p, r, n + k)
    decreases n
  {
    hide Step;
    if n > 0 {
      var m: Point :| Step(g, args, p, m) && Walk(g, args, m, q, n - 1);
      WalkOn(g, args, m, q, r, n - 1, k);
    }
  }

  lemma GoOn(g: seq<Node>, args: seq<Word>, p: Point, q: Point, r: Point)
    requires Reaches(g, args, p, q) && Reaches(g, args, q, r)
    ensures Reaches(g, args, p, r)
  {
    hide Step, Walk;
    var n: nat :| Walk(g, args, p, q, n);
    var k: nat :| Walk(g, args, q, r, k);
    WalkOn(g, args, p, q, r, n, k);
  }

  lemma OneStep(g: seq<Node>, args: seq<Word>, p: Point, u: NodeId, q: Point)
    requires Passes(g, args, p, u, q)
    ensures Reaches(g, args, p, q)
  {
    hide Passes;
    assert Step(g, args, p, q);
    assert Walk(g, args, q, q, 0);
    assert Walk(g, args, p, q, 1);
  }

  lemma ReturnsLater(g: seq<Node>, args: seq<Word>, p: Point, q: Point, value: Word)
    requires Reaches(g, args, p, q) && Returns(g, args, q, value)
    ensures Returns(g, args, p, value)
  {
    hide Reaches, ReturnsAt;
    var r: Point, u: NodeId :| Reaches(g, args, q, r) && ReturnsAt(g, args, r, u, value);
    GoOn(g, args, p, q, r);
  }

  /** Two phi valuations that coincide below `k`. */
  ghost predicate SameBelow(a: Phis, b: Phis, k: nat) {
    forall f: NodeId :: f < k ==> (f in a <==> f in b) && (f in a ==> a[f] == b[f])
  }

  /** A node's value depends only on phis made no later than itself. */
  lemma {:induction false} ValueFrame(g: seq<Node>, args: seq<Word>, a: Phis, b: Phis, k: nat, n: NodeId)
    requires SameBelow(a, b, k) && n < k
    ensures Value(g, args, a, n) == Value(g, args, b, n)
    decreases n
  {
    hide EvalBin, EvalUn, SignatureIndex;
    if n < |g| {
      if g[n].kind.Un? && |g[n].inputs| == 1 && g[n].inputs[0] < n {
        ValueFrame(g, args, a, b, k, g[n].inputs[0]);
      } else if g[n].kind.Bin? && |g[n].inputs| == 2 && g[n].inputs[0] < n && g[n].inputs[1] < n {
        ValueFrame(g, args, a, b, k, g[n].inputs[0]);
        ValueFrame(g, args, a, b, k, g[n].inputs[1]);
      }
    }
  }
}
