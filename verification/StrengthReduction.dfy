/** Strength reduction: multiplications and divisions by powers of two become shifts, identities disappear. */
module StrengthReduction {
  import opened Wrappers
  import opened Words
  import opened BitLaws
  import opened IR
  import opened UseDef
  import opened Graph
  import opened Valuation
  import opened Rewriting

  const ALL_ONES: Word := 0xFFFF_FFFF_FFFF_FFFF

  // ---- What one visit does ----

  predicate IsPow2Word(v: Word) {
    v != 0 && BitWord(BitAnd, v, v - 1) == 0
  }

  /** `IsPow2Word` is the powers of two, and `Log2` their exponents. */
  lemma Pow2Words(v: Word)
    ensures IsPow2Word(v) <==> v > 0 && v == Pow2(Log2(v))
    ensures Log2(v) < 64
  {
    Pow2Of64();
    Log2Bound(v, 64);
    if v > 0 { SingleBit(v, 64); }
  }

  datatype Choice =
    | Keep
    | Use(heir: NodeId)
    | Fresh(value: Word)
    | Shift(op: BinOp, operand: NodeId, amount: Word)

  function ConstVal(nodes: seq<Node>, x: NodeId): Option<Word>
    requires x < |nodes|
  {
    if nodes[x].kind.Constant? then Some(nodes[x].payload) else None
  }

  function ChooseBin(op: BinOp, lhs: NodeId, rhs: NodeId, lval: Option<Word>, rval: Option<Word>): Choice {
    match op
    case Mul =>
      if rval == Some(1) then Use(lhs)
      else if rval == Some(0) then Fresh(0)
      else if rval.Some? && IsPow2Word(rval.value) then ShiftBy(Shl, lhs, rval.value)
      else Keep
    case UDiv =>
      if rval.Some? && IsPow2Word(rval.value) && Signed(rval.value) > 0 then ShiftBy(LShr, lhs, rval.value) else Keep
    case Add => if rval == Some(0) then Use(lhs) else if lval == Some(0) then Use(rhs) else Keep
    case Sub => if rval == Some(0) then Use(lhs) else if lhs == rhs then Fresh(0) else Keep
    case And =>
      if rval == Some(0) then Fresh(0)
      else if rval == Some(ALL_ONES) then Use(lhs)
      else if lval == Some(0) then Fresh(0)
      else if lval == Some(ALL_ONES) then Use(rhs)
      else Keep
    case Or =>
      if rval == Some(0) then Use(lhs)
      else if rval == Some(ALL_ONES) then Fresh(ALL_ONES)
      else if lval == Some(0) then Use(rhs)
      else if lval == Some(ALL_ONES) then Fresh(ALL_ONES)
      else Keep
    case Xor =>
      if rval == Some(0) then Use(lhs) else if lval == Some(0) then Use(rhs) else if lhs == rhs then Fresh(0) else Keep
    case _ => Keep
  }

  function ShiftBy(op: BinOp, operand: NodeId, factor: Word): Choice {
    Pow2Words(factor);
    Shift(op, operand, Log2(factor))
  }

  function Choose(nodes: seq<Node>, id: NodeId): Choice
    requires id < |nodes|
  {
    var n := nodes[id];
    if n.dead || !n.kind.Bin? || |n.inputs| != 2 then Keep
    else
      var lhs, rhs := n.inputs[0], n.inputs[1];
      if lhs == INVALID || rhs == INVALID || lhs >= |nodes| || rhs >= |nodes| then Keep
      else ChooseBin(n.kind.bin, lhs, rhs, ConstVal(nodes, lhs), ConstVal(nodes, rhs))
  }

  function ConstNode(c: Word, ty: nat): Node {
    NewNode(NodeKind.Constant, [], ty, c)
  }

  function BinNode(op: BinOp, a: NodeId, b: NodeId, ty: nat): Node {
    NewNode(Bin(op), [a, b], ty, 0)
  }

  /** The nodes with whatever the choice adds at the end. */
  function Added(nodes: seq<Node>, c: Choice, ty: nat): seq<Node> {
    match c
    case Fresh(value) => nodes + [ConstNode(value, ty)]
    case Shift(op, x, k) => nodes + [ConstNode(k, ty)] + [BinNode(op, x, |nodes|, ty)]
    case _ => nodes
  }

  /** The node that takes over. */
  function Heir(nodes: seq<Node>, c: Choice): NodeId {
    match c
    case Use(b) => b
    case Fresh(_) => |nodes|
    case Shift(_, _, _) => |nodes| + 1
    case Keep => INVALID
  }

  function Visit(nodes: seq<Node>, id: NodeId): (r: seq<Node>)
    requires id < |nodes|
    ensures |nodes| <= |r| <= |nodes| + 2
  {
    var c := Choose(nodes, id);
    if c.Keep? then nodes else Killed(Added(nodes, c, nodes[id].ty), id, Heir(nodes, c))
  }

  /** Visits up to `end`; what the visits add beyond it needs none. */
  function Reduce(nodes: seq<Node>, id: NodeId, end: nat): seq<Node>
    requires end <= |nodes|
    decreases end - id
  {
    if id >= end then nodes else Reduce(Visit(nodes, id), id + 1, end)
  }

  // ---- The pass ----

  method Log2Of(v: Word) returns (r: nat)
    ensures r == Log2(v)
  {
    r := 0;
    var rest: nat := v;
    while rest > 1
      invariant r + Log2(rest) == Log2(v)
    {
      rest := rest / 2;
      r := r + 1;
    }
  }

  /** Picks the replacement of a live binary node and adds the nodes it needs. */
  method Replacement(g: SeaGraph, id: NodeId) returns (heir: Option<NodeId>)
    requires g.Valid() && id < |g.nodes| && |g.nodes| + 2 < INVALID && !g.nodes[id].dead
    modifies g
    ensures g.Valid()
    ensures var c := Choose(old(g.nodes), id);
      && g.nodes == Added(old(g.nodes), c, old(g.nodes)[id].ty)
      && (heir.None? <==> c.Keep?) && (heir.Some? ==> heir.value == Heir(old(g.nodes), c))
  {
    var n := g.nodes[id];
    heir := None;
    if !n.kind.Bin? || |n.inputs| != 2 { return; }
    var lhs, rhs := n.inputs[0], n.inputs[1];
    if lhs == INVALID || rhs == INVALID || lhs >= |g.nodes| || rhs >= |g.nodes| { return; }
    var lval, rval := ConstVal(g.nodes, lhs), ConstVal(g.nodes, rhs);
    var op := n.kind.bin;
    match op
    case Mul =>
      if rval == Some(1) { heir := Some(lhs); }
      else if rval == Some(0) { heir := MakeConst(g, 0, n.ty); }
      else if rval.Some? && IsPow2Word(rval.value) { heir := MakeShift(g, Shl, lhs, rval.value, n.ty); }
    case UDiv =>
      if rval.Some? && IsPow2Word(rval.value) && Signed(rval.value) > 0 {
        heir := MakeShift(g, LShr, lhs, rval.value, n.ty);
      }
    case Add =>
      if rval == Some(0) { heir := Some(lhs); }
      else if lval == Some(0) { heir := Some(rhs); }
    case Sub =>
      if rval == Some(0) { heir := Some(lhs); }
      else if lhs == rhs { heir := MakeConst(g, 0, n.ty); }
    case And =>
      if rval == Some(0) { heir := MakeConst(g, 0, n.ty); }
      else if rval == Some(ALL_ONES) { heir := Some(lhs); }
      else if lval == Some(0) { heir := MakeConst(g, 0, n.ty); }
      else if lval == Some(ALL_ONES) { heir := Some(rhs); }
    case Or =>
      if rval == Some(0) { heir := Some(lhs); }
      else if rval == Some(ALL_ONES) { heir := MakeConst(g, ALL_ONES, n.ty); }
      else if lval == Some(0) { heir := Some(rhs); }
      else if lval == Some(ALL_ONES) { heir := MakeConst(g, ALL_ONES, n.ty); }
    case Xor =>
      if rval == Some(0) { heir := Some(lhs); }
      else if lval == Some(0) { heir := Some(rhs); }
      else if lhs == rhs { heir := MakeConst(g, 0, n.ty); }
    case _ =>
  }

  method MakeConst(g: SeaGraph, c: Word, ty: nat) returns (heir: Option<NodeId>)
    requires g.Valid() && |g.nodes| < INVALID
    modifies g
    ensures g.Valid() && g.nodes == Added(old(g.nodes), Fresh(c), ty) && heir == Some(Heir(old(g.nodes), Fresh(c)))
  {
    var h := g.MakeNode(NodeKind.Constant, [], ty, c);
    heir := Some(h);
  }

  method MakeShift(g: SeaGraph, op: BinOp, operand: NodeId, factor: Word, ty: nat) returns (heir: Option<NodeId>)
    requires g.Valid() && |g.nodes| + 2 < INVALID
    modifies g
    ensures var c := ShiftBy(op, operand, factor);
      g.Valid() && g.nodes == Added(old(g.nodes), c, ty) && heir == Some(Heir(old(g.nodes), c))
  {
    Pow2Words(factor);
    var k := Log2Of(factor);
    var amount := g.MakeNode(NodeKind.Constant, [], ty, k);
    var h := g.MakeNode(Bin(op), [operand, amount], ty, 0);
    heir := Some(h);
  }

  // ---- The algebra behind the choices ----

  lemma ConstantOperand(op: BinOp, x: Word, c: Word)
    requires c == 0 || c == 1 || c == ALL_ONES
    ensures c == 0 ==> EvalBin(Mul, x, c) == Some(0) && EvalBin(Add, x, c) == Some(x) && EvalBin(Sub, x, c) == Some(x)
    ensures c == 0 ==> EvalBin(And, x, c) == Some(0) && EvalBin(Or, x, c) == Some(x) && EvalBin(Xor, x, c) == Some(x)
    ensures c == 1 ==> EvalBin(Mul, x, c) == Some(x)
    ensures c == ALL_ONES ==> EvalBin(And, x, c) == Some(x) && EvalBin(Or, x, c) == Some(ALL_ONES)
  {
    Pow2Of64();
    assert Product(x, 1) == x && Product(x, 0) == 0;
    hide Bits, Pow2;
    AndZero(x, 64);
    OrZero(BitOr, x, 64);
    OrZero(BitXor, x, 64);
    AndOnes(x, 64);
    OrOnes(x, 64);
  }

  lemma EvalCommutes(op: BinOp, x: Word, y: Word)
    requires op.Add? || op.And? || op.Or? || op.Xor?
    ensures EvalBin(op, x, y) == EvalBin(op, y, x)
  {
    hide Bits, Pow2;
    BitsCommute(BitAnd, x, y, 64);
    BitsCommute(BitOr, x, y, 64);
    BitsCommute(BitXor, x, y, 64);
  }

  lemma SelfOperands(x: Word)
    ensures EvalBin(Sub, x, x) == Some(0) && EvalBin(Xor, x, x) == Some(0)
  {
    hide Bits, Pow2;
    XorSelf(x, 64);
  }

  /** Multiplying and dividing by a power of two is shifting by its exponent, for every operand. */
  lemma ShiftsRight(x: Word, c: Word)
    requires IsPow2Word(c)
    ensures Log2(c) < 64 && c == Pow2(Log2(c))
    ensures EvalBin(Mul, x, c) == EvalBin(Shl, x, Log2(c)) && EvalBin(Mul, x, c).Some?
    ensures EvalBin(UDiv, x, c) == EvalBin(LShr, x, Log2(c)) && EvalBin(UDiv, x, c).Some?
  {
    Pow2Words(c);
    hide Bits, Pow2, Log2, IsPow2Word;
  }

  /** What the chosen replacement must be worth. */
  ghost predicate ChoiceRight(c: Choice, op: BinOp, lhs: NodeId, rhs: NodeId, x: Word, y: Word) {
    match c
    case Keep => true
    case Use(h) => (h == lhs || h == rhs) && EvalBin(op, x, y) == Some(if h == lhs then x else y)
    case Fresh(v) => EvalBin(op, x, y) == Some(v)
    case Shift(s, h, k) => h == lhs && k < 64 && EvalBin(op, x, y) == EvalBin(s, x, k) && EvalBin(op, x, y).Some?
  }

  lemma ChooseBinRight(op: BinOp, lhs: NodeId, rhs: NodeId, lval: Option<Word>, rval: Option<Word>, x: Word, y: Word)
    requires (lval.Some? ==> x == lval.value) && (rval.Some? ==> y == rval.value) && (lhs == rhs ==> x == y)
    ensures ChoiceRight(ChooseBin(op, lhs, rhs, lval, rval), op, lhs, rhs, x, y)
  {
    hide EvalBin, IsPow2Word, Log2;
    if rval.Some? && (y == 0 || y == 1 || y == ALL_ONES) { ConstantOperand(op, x, y); }
    if lval.Some? && (x == 0 || x == 1 || x == ALL_ONES) {
      ConstantOperand(op, y, x);
      if op.Add? || op.And? || op.Or? || op.Xor? { EvalCommutes(op, x, y); }
    }
    SelfOperands(x);
    if rval.Some? && IsPow2Word(rval.value) { ShiftsRight(x, y); }
  }

  // ---- What the pass preserves ----

  /** No arithmetic node feeds itself, not even through others. */
  ghost predicate Ordered(nodes: seq<Node>, rank: NodeId -> nat) {
    forall id: NodeId :: id < |nodes| && !nodes[id].dead ==> OrderedNode(nodes[id], id, |nodes|, rank)
  }

  ghost predicate OrderedNode(n: Node, id: NodeId, size: nat, rank: NodeId -> nat) {
    n.kind.Bin? ==> forall i :: 0 <= i < |n.inputs| && n.inputs[i] < size ==> rank(n.inputs[i]) < rank(id)
  }

  ghost predicate Ready(nodes: seq<Node>, rank: NodeId -> nat) {
    InRange(nodes) && InputsAlive(nodes) && Ordered(nodes, rank)
  }

  /** Facts about a choice that is not to keep the node. */
  lemma ChoiceShape(nodes: seq<Node>, id: NodeId, rank: NodeId -> nat)
    requires id < |nodes| && Ready(nodes, rank) && !Choose(nodes, id).Keep?
    ensures var n := nodes[id];
      && !n.dead && n.kind.Bin? && |n.inputs| == 2
      && (forall i :: 0 <= i < 2 ==> n.inputs[i] < |nodes| && n.inputs[i] != INVALID && n.inputs[i] != id
                                      && rank(n.inputs[i]) < rank(id) && !nodes[n.inputs[i]].dead)
      && Choose(nodes, id) == ChooseBin(n.kind.bin, n.inputs[0], n.inputs[1], ConstVal(nodes, n.inputs[0]),
           ConstVal(nodes, n.inputs[1]))
    ensures Choose(nodes, id).Use? ==> Choose(nodes, id).heir in nodes[id].inputs
    ensures Choose(nodes, id).Shift? ==> Choose(nodes, id).operand == nodes[id].inputs[0]
  {
    hide IsPow2Word, Log2;
    assert OrderedNode(nodes[id], id, |nodes|, rank);
    assert AliveIn(nodes, nodes[id].inputs);
  }

  /** Under all other equations the node must be worth its heir. */
  lemma HeirMeaning(nodes: seq<Node>, id: NodeId, rank: NodeId -> nat, w: World, u: Values, t: nat)
    requires id < |nodes| && Ready(nodes, rank) && !Choose(nodes, id).Keep?
    requires SatisfiesExcept(Added(nodes, Choose(nodes, id), nodes[id].ty), id, w, u)
    ensures Meaning(w, nodes[id], id, u, t) == u(t, Heir(nodes, Choose(nodes, id)))
  {
    ChoiceShape(nodes, id, rank);
    var n, c := nodes[id], Choose(nodes, id);
    var lhs, rhs := n.inputs[0], n.inputs[1];
    var all := Added(nodes, c, n.ty);
    OperandValue(nodes, all, id, lhs, w, u, t);
    OperandValue(nodes, all, id, rhs, w, u, t);
    ChooseBinRight(n.kind.bin, lhs, rhs, ConstVal(nodes, lhs), ConstVal(nodes, rhs), u(t, lhs), u(t, rhs));
    hide Choose, ChooseBin, EvalBin, Ready;
    match c
    case Keep =>
    case Use(_) =>
    case Fresh(v) =>
      assert all[|nodes|] == ConstNode(v, n.ty);
      assert u(t, |nodes|) == Meaning(w, all[|nodes|], |nodes|, u, t);
    case Shift(s, h, k) =>
      assert all[|nodes|] == ConstNode(k, n.ty) && all[|nodes| + 1] == BinNode(s, h, |nodes|, n.ty);
      assert u(t, |nodes|) == Meaning(w, all[|nodes|], |nodes|, u, t);
      assert u(t, |nodes| + 1) == Meaning(w, all[|nodes| + 1], |nodes| + 1, u, t);
  }

  lemma OperandValue(nodes: seq<Node>, all: seq<Node>, id: NodeId, x: NodeId, w: World, u: Values, t: nat)
    requires x < |nodes| && nodes <= all && !nodes[x].dead && x != id && SatisfiesExcept(all, id, w, u)
    ensures ConstVal(nodes, x).Some? ==> u(t, x) == ConstVal(nodes, x).value
  {
    assert u(t, x) == Meaning(w, all[x], x, u, t);
  }

  lemma AddedStep(nodes: seq<Node>, c: Choice, ty: nat, w: World)
    requires InRange(nodes) && |nodes| + 2 < INVALID && (c.Shift? ==> c.operand < |nodes|)
    ensures Equivalent(nodes, Added(nodes, c, ty), w) && Later(nodes, Added(nodes, c, ty))
      && InRange(Added(nodes, c, ty))
  {
    hide Equivalent, InRange;
    match c
    case Fresh(v) =>
      AddedEquivalent(nodes, ConstNode(v, ty), w);
    case Shift(s, x, k) =>
      AddedEquivalent(nodes, ConstNode(k, ty), w);
      var mid := nodes + [ConstNode(k, ty)];
      AddedEquivalent(mid, BinNode(s, x, |nodes|, ty), w);
      EquivalentTrans(nodes, mid, Added(nodes, c, ty), w);
    case _ =>
      EquivalentSelf(nodes, w);
  }

  /** One visit changes the value of no remaining node. */
  lemma VisitEquivalent(nodes: seq<Node>, id: NodeId, rank: NodeId -> nat, w: World)
    requires id < |nodes| && Ready(nodes, rank) && |nodes| + 2 < INVALID
    ensures Equivalent(nodes, Visit(nodes, id), w) && Later(nodes, Visit(nodes, id))
  {
    hide Equivalent, Choose, Later, SatisfiesExcept, Meaning, Killed;
    var c := Choose(nodes, id);
    if c.Keep? {
      EquivalentSelf(nodes, w);
    } else {
      ChoiceShape(nodes, id, rank);
      AddedStep(nodes, c, nodes[id].ty, w);
      var all, heir := Added(nodes, c, nodes[id].ty), Heir(nodes, c);
      assert all[id] == nodes[id];
      forall u: Values, t: nat | SatisfiesExcept(all, id, w, u) ensures Meaning(w, all[id], id, u, t) == u(t, heir) {
        HeirMeaning(nodes, id, rank, w, u, t);
      }
      KillEquivalent(all, id, heir, w);
      EquivalentTrans(nodes, all, Visit(nodes, id), w);
    }
  }

  /** Ranks for the nodes a visit adds: a constant at the bottom, a shift where the node was that it replaces. */
  function Ranked(nodes: seq<Node>, id: NodeId, rank: NodeId -> nat): NodeId -> nat {
    (x: NodeId) => if x == |nodes| then 0 else if x == |nodes| + 1 then rank(id) else rank(x)
  }

  lemma VisitReady(nodes: seq<Node>, id: NodeId, rank: NodeId -> nat) returns (after: NodeId -> nat)
    requires id < |nodes| && Ready(nodes, rank) && |nodes| + 2 < INVALID
    ensures Ready(Visit(nodes, id), after)
  {
    hide Choose, Ready;
    var c := Choose(nodes, id);
    if c.Keep? {
      after := rank;
    } else {
      after := Ranked(nodes, id, rank);
      ChoiceShape(nodes, id, rank);
      AddedReady(nodes, id, c, nodes[id].ty, rank);
      var all, heir := Added(nodes, c, nodes[id].ty), Heir(nodes, c);
      KilledReady(all, id, heir, after);
    }
  }

  lemma AddedReady(nodes: seq<Node>, id: NodeId, c: Choice, ty: nat, rank: NodeId -> nat)
    requires id < |nodes| && Ready(nodes, rank) && |nodes| + 2 < INVALID
    requires c.Shift? ==> c.operand < |nodes| && rank(c.operand) < rank(id) && !nodes[c.operand].dead
    ensures Ready(Added(nodes, c, ty), Ranked(nodes, id, rank))
  {
    var all, after := Added(nodes, c, ty), Ranked(nodes, id, rank);
    forall x: NodeId | x < |all|
      ensures EdgesIn(all[x].inputs, |all|)
      ensures !all[x].dead ==> OrderedNode(all[x], x, |all|, after) && AliveIn(all, all[x].inputs)
    {
      if x < |nodes| {
        assert all[x] == nodes[x] && EdgesIn(nodes[x].inputs, |nodes|);
        if !nodes[x].dead { assert OrderedNode(nodes[x], x, |nodes|, rank) && AliveIn(nodes, nodes[x].inputs); }
      }
    }
  }

  lemma KilledReady(nodes: seq<Node>, a: NodeId, b: NodeId, rank: NodeId -> nat)
    requires Ready(nodes, rank) && a < |nodes| && b < |nodes| && a != b && !nodes[b].dead && rank(b) <= rank(a)
    ensures Ready(Killed(nodes, a, b), rank)
  {
    KilledAlive(nodes, a, b);
    KilledInRange(nodes, a, b);
    var now := Killed(nodes, a, b);
    forall x: NodeId | x < |now| && !now[x].dead ensures OrderedNode(now[x], x, |now|, rank) {
      assert OrderedNode(nodes[x], x, |nodes|, rank);
      forall i | 0 <= i < |now[x].inputs| && now[x].kind.Bin? && now[x].inputs[i] < |now|
        ensures rank(now[x].inputs[i]) < rank(x)
      {
        KilledInput(nodes, a, b, x, i);
      }
    }
  }

  /** The whole pass changes the value of no remaining node, returned values included. */
  lemma {:induction false} ReduceEquivalent(nodes: seq<Node>, id: NodeId, end: nat, rank: NodeId -> nat, w: World)
    requires end <= |nodes| && Ready(nodes, rank) && |nodes| + 2 * (if id < end then end - id else 0) < INVALID
    ensures Equivalent(nodes, Reduce(nodes, id, end), w) && Later(nodes, Reduce(nodes, id, end))
    decreases end - id
  {
    hide Equivalent, Later, Visit, Ready;
    if id >= end {
      EquivalentSelf(nodes, w);
    } else {
      VisitEquivalent(nodes, id, rank, w);
      var after := VisitReady(nodes, id, rank);
      ReduceEquivalent(Visit(nodes, id), id + 1, end, after, w);
      EquivalentTrans(nodes, Visit(nodes, id), Reduce(nodes, id, end), w);
    }
  }

  // ---- What the pass does not leave ----

  predicate IsConst(nodes: seq<Node>, x: NodeId, c: Word) {
    x < |nodes| && nodes[x].kind.Constant? && nodes[x].payload == c
  }

  /** A constant two to the `k` for some `k` below the limit. */
  ghost predicate IsPowerConst(nodes: seq<Node>, x: NodeId, limit: nat) {
    exists k: nat :: k < limit && k < 64 && Power(nodes, x, k)
  }

  predicate Power(nodes: seq<Node>, x: NodeId, k: nat) {
    x < |nodes| && nodes[x].kind.Constant? && nodes[x].payload == Pow2(k)
  }

  /** A live operation that can be done without: multiplication by zero or a power of two, unsigned division by a
      positive power of two, and what neutral, absorbing and equal operands decide. */
  ghost predicate Simplifiable(nodes: seq<Node>, id: NodeId) {
    && id < |nodes| && !nodes[id].dead && nodes[id].kind.Bin? && |nodes[id].inputs| == 2
    && nodes[id].inputs[0] < |nodes| && nodes[id].inputs[1] < |nodes|
    && var l, r := nodes[id].inputs[0], nodes[id].inputs[1];
       match nodes[id].kind.bin
       case Mul => IsConst(nodes, r, 0) || IsPowerConst(nodes, r, 64)
       case UDiv => IsPowerConst(nodes, r, 63)
       case Add => IsConst(nodes, l, 0) || IsConst(nodes, r, 0)
       case Sub => IsConst(nodes, r, 0) || l == r
       case And => IsConst(nodes, l, 0) || IsConst(nodes, r, 0) || IsConst(nodes, l, 0xFFFF_FFFF_FFFF_FFFF)
                   || IsConst(nodes, r, 0xFFFF_FFFF_FFFF_FFFF)
       case Or => IsConst(nodes, l, 0) || IsConst(nodes, r, 0) || IsConst(nodes, l, 0xFFFF_FFFF_FFFF_FFFF)
                  || IsConst(nodes, r, 0xFFFF_FFFF_FFFF_FFFF)
       case Xor => IsConst(nodes, l, 0) || IsConst(nodes, r, 0) || l == r
       case _ => false
  }

  lemma {:induction false} Log2OfPower(k: nat)
    ensures Log2(Pow2(k)) == k && Pow2(k) > 0
  {
    if k > 0 { Log2OfPower(k - 1); }
  }

  lemma {:induction false} PowerBound(k: nat, n: nat)
    requires k < n
    ensures 2 * Pow2(k) <= Pow2(n)
  {
    if k < n - 1 { PowerBound(k, n - 1); } else { Pow2Positive(k); }
  }

  lemma PowerChosen(nodes: seq<Node>, x: NodeId, limit: nat)
    requires IsPowerConst(nodes, x, limit)
    ensures x < |nodes| && ConstVal(nodes, x).Some? && IsPow2Word(ConstVal(nodes, x).value)
    ensures limit <= 63 ==> Signed(ConstVal(nodes, x).value) > 0
  {
    var k: nat :| k < limit && k < 64 && Power(nodes, x, k);
    Log2OfPower(k);
    Pow2Words(nodes[x].payload);
    if k < 63 {
      PowerBound(k, 63);
      Pow2Of64();
      assert 2 * Pow2(63) == Pow2(64);
    }
  }

  /** The visit replaces it. */
  lemma SimplifiedAway(nodes: seq<Node>, id: NodeId, rank: NodeId -> nat)
    requires Ready(nodes, rank) && |nodes| + 2 < INVALID && Simplifiable(nodes, id)
    ensures Visit(nodes, id)[id].dead
  {
    var n := nodes[id];
    var l, r := n.inputs[0], n.inputs[1];
    assert AliveIn(nodes, n.inputs) && OrderedNode(n, id, |nodes|, rank);
    assert EdgesIn(n.inputs, |nodes|);
    if n.kind.bin.Mul? && !IsConst(nodes, r, 0) { PowerChosen(nodes, r, 64); }
    if n.kind.bin.UDiv? { PowerChosen(nodes, r, 63); }
    hide IsPow2Word, Log2, Pow2, Ready, IsPowerConst;
    assert !Choose(nodes, id).Keep?;
  }

  lemma ConstStays(nodes: seq<Node>, now: seq<Node>, x: NodeId, c: Word)
    requires |nodes| <= |now|
    requires forall y: NodeId :: y < |nodes| ==> now[y].kind == nodes[y].kind && now[y].payload == nodes[y].payload
    ensures IsConst(nodes, x, c) ==> IsConst(now, x, c)
    ensures forall limit: nat :: IsPowerConst(nodes, x, limit) ==> IsPowerConst(now, x, limit)
  {
    forall limit: nat | IsPowerConst(nodes, x, limit) ensures IsPowerConst(now, x, limit) {
      var k: nat :| k < limit && k < 64 && Power(nodes, x, k);
      assert Power(now, x, k);
    }
  }

  /** Visits of other nodes leave it as it is, but for operands they have replaced. */
  lemma StillSimplifiable(nodes: seq<Node>, cur: NodeId, id: NodeId, rank: NodeId -> nat)
    requires Ready(nodes, rank) && |nodes| + 2 < INVALID && cur < |nodes| && cur != id && Simplifiable(nodes, id)
    ensures Simplifiable(Visit(nodes, cur), id)
  {
    var c, now := Choose(nodes, cur), Visit(nodes, cur);
    if !c.Keep? {
      ChoiceShape(nodes, cur, rank);
      var heir := Heir(nodes, c);
      var all := Added(nodes, c, nodes[cur].ty);
      assert all[id] == nodes[id];
      var l, r := nodes[id].inputs[0], nodes[id].inputs[1];
      ReplacedAt(nodes[id].inputs, cur, heir, 0);
      ReplacedAt(nodes[id].inputs, cur, heir, 1);
      hide Choose, Ready, IsPowerConst, Added, Heir;
      assert now == Killed(all, cur, heir) && |nodes| <= |now|;
      hide Killed, Visit, Simplifiable;
      SimplifiableAfter(nodes, now, cur, heir, id);
    }
  }

  lemma SimplifiableAfter(nodes: seq<Node>, now: seq<Node>, cur: NodeId, heir: NodeId, id: NodeId)
    requires Simplifiable(nodes, id) && |nodes| <= |now| && cur < |nodes| && nodes[cur].kind.Bin? && heir < |now|
    requires forall y: NodeId :: y < |nodes| ==> now[y].kind == nodes[y].kind && now[y].payload == nodes[y].payload
    requires !now[id].dead && |now[id].inputs| == 2
    requires now[id].inputs[0] == if nodes[id].inputs[0] == cur then heir else nodes[id].inputs[0]
    requires now[id].inputs[1] == if nodes[id].inputs[1] == cur then heir else nodes[id].inputs[1]
    ensures Simplifiable(now, id)
  {
    var l, r := nodes[id].inputs[0], nodes[id].inputs[1];
    ConstStays(nodes, now, l, 0);
    ConstStays(nodes, now, r, 0);
    ConstStays(nodes, now, l, 0xFFFF_FFFF_FFFF_FFFF);
    ConstStays(nodes, now, r, 0xFFFF_FFFF_FFFF_FFFF);
    ConstIsNotBin(nodes, l, cur);
    ConstIsNotBin(nodes, r, cur);
    hide IsPowerConst, IsConst;
  }

  lemma ConstIsNotBin(nodes: seq<Node>, x: NodeId, cur: NodeId)
    requires cur < |nodes| && nodes[cur].kind.Bin?
    ensures forall c: Word :: IsConst(nodes, x, c) ==> x != cur
    ensures forall limit: nat :: IsPowerConst(nodes, x, limit) ==> x != cur
  {
  }

  lemma {:induction false} DeadStays(nodes: seq<Node>, id: NodeId, end: nat, x: NodeId)
    requires end <= |nodes| && x < |nodes| && nodes[x].dead
    ensures x < |Reduce(nodes, id, end)| && Reduce(nodes, id, end)[x].dead
    decreases end - id
  {
    hide Choose;
    if id < end { DeadStays(Visit(nodes, id), id + 1, end, x); }
  }

  /** After the pass no node is left that could be done without. */
  lemma {:induction false} ReduceSimplifies(nodes: seq<Node>, id: NodeId, end: nat, rank: NodeId -> nat, x: NodeId)
    requires end <= |nodes| && Ready(nodes, rank) && |nodes| + 2 * (if id < end then end - id else 0) < INVALID
    requires id <= x < end && Simplifiable(nodes, x)
    ensures x < |Reduce(nodes, id, end)| && Reduce(nodes, id, end)[x].dead
    decreases end - id
  {
    hide Visit, Ready, Simplifiable;
    if x == id {
      SimplifiedAway(nodes, id, rank);
      DeadStays(Visit(nodes, id), id + 1, end, x);
    } else {
      StillSimplifiable(nodes, id, x, rank);
      var after := VisitReady(nodes, id, rank);
      ReduceSimplifies(Visit(nodes, id), id + 1, end, after, x);
    }
  }

  // ---- The pass over the graph ----

  /** Constants and shifts are never replaced. */
  predicate Settled(n: Node) {
    n.kind.Constant? || n.kind == Bin(Shl) || n.kind == Bin(LShr)
  }

  lemma SettledKept(nodes: seq<Node>, id: NodeId)
    requires id < |nodes| && Settled(nodes[id])
    ensures Choose(nodes, id).Keep?
  {
  }

  lemma VisitSettled(nodes: seq<Node>, id: NodeId, end: nat)
    requires id < |nodes| && end <= |nodes| && forall x: NodeId :: end <= x < |nodes| ==> Settled(nodes[x])
    ensures forall x: NodeId :: end <= x < |Visit(nodes, id)| ==> Settled(Visit(nodes, id)[x])
  {
    var c := Choose(nodes, id);
    if c.Shift? { ShiftIsShift(nodes, id); }
    hide Choose;
  }

  lemma ShiftIsShift(nodes: seq<Node>, id: NodeId)
    requires id < |nodes| && Choose(nodes, id).Shift?
    ensures Choose(nodes, id).op.Shl? || Choose(nodes, id).op.LShr?
  {
    hide IsPow2Word, Log2;
  }

  lemma ReduceUnfolds(nodes: seq<Node>, id: NodeId, end: nat)
    requires end <= |nodes|
    ensures Reduce(nodes, id, end) == if id >= end then nodes else Reduce(Visit(nodes, id), id + 1, end)
  {
  }

  lemma DeadKept(nodes: seq<Node>, id: NodeId)
    requires id < |nodes| && nodes[id].dead
    ensures Visit(nodes, id) == nodes
  {
  }

  lemma HeirDiffers(nodes: seq<Node>, id: NodeId, rank: NodeId -> nat)
    requires id < |nodes| && Ready(nodes, rank)
    ensures var c := Choose(nodes, id);
      if c.Keep? then Visit(nodes, id) == nodes == Added(nodes, c, nodes[id].ty)
      else
        && Heir(nodes, c) != id && |Added(nodes, c, nodes[id].ty)| >= |nodes|
        && Visit(nodes, id) == Killed(Added(nodes, c, nodes[id].ty), id, Heir(nodes, c))
  {
    if !Choose(nodes, id).Keep? { ChoiceShape(nodes, id, rank); }
    hide Choose, Ready, Killed;
  }

  lemma ReadyParts(nodes: seq<Node>, rank: NodeId -> nat)
    requires Ready(nodes, rank)
    ensures InputsAlive(nodes) && InRange(nodes)
  {
  }

  method Run(g: SeaGraph, ghost rank: NodeId -> nat) returns (replaced: nat)
    requires g.Valid() && Ready(g.nodes, rank) && 3 * |g.nodes| + 2 < INVALID
    modifies g
    ensures g.Valid() && g.nodes == Reduce(old(g.nodes), 0, |old(g.nodes)|)
    ensures InputsAlive(g.nodes) && InRange(g.nodes)
    ensures replaced == 0 ==> g.nodes == old(g.nodes)
  {
    hide Choose, Ready, Reduce, Visit, Killed, Added;
    replaced := 0;
    ghost var end, order := |g.nodes|, rank;
    var id := 0;
    while id < |g.nodes|
      invariant g.Valid() && end <= |g.nodes| <= end + 2 * (if id < end then id else end)
      invariant Reduce(g.nodes, if id < end then id else end, end) == Reduce(old(g.nodes), 0, end)
      invariant forall x: NodeId :: end <= x < |g.nodes| ==> Settled(g.nodes[x])
      invariant Ready(g.nodes, order)
      invariant replaced == 0 ==> g.nodes == old(g.nodes)
      decreases 3 * end - id
    {
      ghost var next := order;
      if id < end {
        ReduceUnfolds(g.nodes, id, end);
        VisitSettled(g.nodes, id, end);
        next := VisitReady(g.nodes, id, order);
      } else {
        SettledKept(g.nodes, id);
      }
      if !g.nodes[id].dead {
        HeirDiffers(g.nodes, id, order);
        var heir := Replacement(g, id);
        if heir.Some? {
          KillNode(g, id, heir.value);
          replaced := replaced + 1;
        }
      } else {
        DeadKept(g.nodes, id);
      }
      order := next;
      id := id + 1;
    }
    ReduceUnfolds(g.nodes, end, end);
    ReadyParts(g.nodes, order);
  }
}
