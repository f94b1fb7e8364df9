/** Induction-variable simplification: a multiple of a loop's induction phi becomes a phi of its own. */
module InductionVariables {
  import opened Wrappers
  import opened Words
  import opened IR
  import opened UseDef
  import opened Graph
  import opened Valuation
  import opened Rewriting

  // ---- What the pass recognises ----

  /** The operand taken for the step: the last one that is not the phi. */
  function StepOperand(ins: seq<NodeId>, phi: NodeId): NodeId {
    if ins == [] then INVALID
    else if ins[|ins| - 1] != phi then ins[|ins| - 1]
    else StepOperand(ins[..|ins| - 1], phi)
  }

  predicate IsConst(nodes: seq<Node>, x: NodeId) {
    x != INVALID && x < |nodes| && nodes[x].kind.Constant?
  }

  /** The constant step of a header phi, as the analysis reads it off the back value. */
  function StepOf(nodes: seq<Node>, phi: NodeId): Option<Word>
    requires phi < |nodes|
  {
    var n := nodes[phi];
    if !n.kind.Phi? || |n.inputs| != PHI_INPUTS || !IsConst(nodes, n.inputs[1]) then None
    else
      var back := n.inputs[2];
      if back == INVALID || back >= |nodes| || nodes[back].kind != Bin(Add) || |nodes[back].inputs| != 2 then None
      else
        var s := StepOperand(nodes[back].inputs, phi);
        if IsConst(nodes, s) then Some(nodes[s].payload) else None
  }

  /** What the back value adds the step to: its other operand. The analysis does not look at it. */
  function Stepped(nodes: seq<Node>, phi: NodeId): NodeId
    requires phi < |nodes| && StepOf(nodes, phi).Some?
  {
    var ins := nodes[nodes[phi].inputs[2]].inputs;
    if ins[1] == StepOperand(ins, phi) then ins[0] else ins[1]
  }

  /** `mul` is a live product of the phi and the live constant `k`, in either order. */
  predicate IsMultiple(nodes: seq<Node>, mul: NodeId, phi: NodeId, k: NodeId) {
    && mul < |nodes| && k < |nodes| && !nodes[mul].dead && nodes[mul].kind == Bin(Mul) && |nodes[mul].inputs| == 2
    && !nodes[k].dead && nodes[k].kind.Constant?
    && (nodes[mul].inputs == [phi, k] || nodes[mul].inputs == [k, phi])
  }

  predicate Applies(nodes: seq<Node>, loop: NodeId, phi: NodeId, mul: NodeId, k: NodeId) {
    && phi < |nodes| && !nodes[phi].dead && StepOf(nodes, phi).Some? && StepOf(nodes, phi).value != 0
    && loop < |nodes| && nodes[phi].inputs[0] == loop && nodes[loop].kind.Loop? && !nodes[loop].dead
    && IsMultiple(nodes, mul, phi, k)
  }

  /** The loops it is meant for: a phi that starts at a constant and adds a constant to itself in either order,
      multiplied by a constant in either order. */
  lemma CountingLoopApplies(nodes: seq<Node>, loop: NodeId, phi: NodeId, start: NodeId, back: NodeId, s: NodeId,
        mul: NodeId, k: NodeId)
    requires |nodes| <= INVALID && loop < |nodes| && nodes[loop].kind.Loop? && !nodes[loop].dead
    requires phi < |nodes| && nodes[phi].kind.Phi? && !nodes[phi].dead && nodes[phi].inputs == [loop, start, back]
    requires start < |nodes| && nodes[start].kind.Constant? && s < |nodes| && nodes[s].kind.Constant?
      && nodes[s].payload != 0
    requires back < |nodes| && nodes[back].kind == Bin(Add)
      && (nodes[back].inputs == [phi, s] || nodes[back].inputs == [s, phi])
    requires mul < |nodes| && !nodes[mul].dead && nodes[mul].kind == Bin(Mul)
    requires nodes[mul].inputs == [phi, k] || nodes[mul].inputs == [k, phi]
    requires k < |nodes| && !nodes[k].dead && nodes[k].kind.Constant?
    ensures Applies(nodes, loop, phi, mul, k) && StepOf(nodes, phi) == Some(nodes[s].payload)
      && Stepped(nodes, phi) == phi
  {
    var ins := nodes[back].inputs;
    assert ins[..1] == [ins[0]] && StepOperand([ins[0]], phi) == if ins[0] != phi then ins[0] else INVALID;
    assert StepOperand(ins, phi) == s;
  }

  // ---- The rewrite ----

  /** The entry value of the derived phi: folded when the phi's own is a live constant. */
  function EntryNode(nodes: seq<Node>, entry: NodeId, k: NodeId, ty: nat): Node
    requires IsConst(nodes, entry) && k < |nodes|
  {
    if !nodes[entry].dead then NewNode(NodeKind.Constant, [], ty, Product(nodes[entry].payload, nodes[k].payload))
    else NewNode(Bin(Mul), [entry, k], ty, 0)
  }

  function DerivedNodes(nodes: seq<Node>, loop: NodeId, phi: NodeId, k: NodeId): seq<Node>
    requires phi < |nodes| && k < |nodes| && StepOf(nodes, phi).Some?
  {
    var m, ty := |nodes|, nodes[phi].ty;
    [ EntryNode(nodes, nodes[phi].inputs[1], k, ty),
      NewNode(NodeKind.Phi, [loop, m, m + 3], ty, 0),
      NewNode(NodeKind.Constant, [], ty, Product(StepOf(nodes, phi).value, nodes[k].payload)),
      NewNode(Bin(Add), [m + 1, m + 2], ty, 0) ]
  }

  function Derived(nodes: seq<Node>, loop: NodeId, phi: NodeId, mul: NodeId, k: NodeId): seq<Node>
    requires phi < |nodes| && k < |nodes| && StepOf(nodes, phi).Some?
  {
    Killed(nodes + DerivedNodes(nodes, loop, phi, k), mul, |nodes| + 1)
  }

  /** The entry value: folded when the phi's own is a live constant. */
  method MakeEntry(g: SeaGraph, entry: NodeId, k: NodeId, ty: nat) returns (made: NodeId)
    requires g.Valid() && IsConst(g.nodes, entry) && k < |g.nodes| && |g.nodes| + 1 < INVALID
    modifies g
    ensures g.Valid() && made == |old(g.nodes)| && g.nodes == old(g.nodes) + [EntryNode(old(g.nodes), entry, k, ty)]
  {
    if !g.nodes[entry].dead {
      made := g.MakeNode(NodeKind.Constant, [], ty, Product(g.nodes[entry].payload, g.nodes[k].payload));
    } else {
      made := g.MakeNode(Bin(Mul), [entry, k], ty, 0);
    }
  }

  /** Builds the derived phi, ties its back edge once the back value exists, and lets it take over from the product. */
  method Derive(g: SeaGraph, loop: NodeId, phi: NodeId, mul: NodeId, k: NodeId)
    requires g.Valid() && Applies(g.nodes, loop, phi, mul, k) && |g.nodes| + 4 < INVALID
    modifies g
    ensures g.Valid() && g.nodes == Derived(old(g.nodes), loop, phi, mul, k)
  {
    hide Killed, EntryNode;
    var nodes := g.nodes;
    var ty, factor := nodes[phi].ty, nodes[k].payload;
    var step := StepOf(nodes, phi).value;
    hide StepOf;
    var jEntry := MakeEntry(g, nodes[phi].inputs[1], k, ty);
    var jPhi := g.MakeNode(NodeKind.Phi, [loop, jEntry, INVALID], ty, 0);
    var jStep := g.MakeNode(NodeKind.Constant, [], ty, Product(step, factor));
    var jBack := g.MakeNode(Bin(Add), [jPhi, jStep], ty, 0);
    g.SetInput(jPhi, 2, jBack);
    assert [loop, jEntry, INVALID][2 := jBack] == [loop, jEntry, jBack];
    assert g.nodes == nodes + DerivedNodes(nodes, loop, phi, k);
    KillNode(g, mul, jPhi);
  }

  // ---- The arithmetic ----

  lemma ProductsAdd(x: Word, c: Word, k: Word)
    ensures Wrap(Product(x, k) + Product(c, k)) == Product(Wrap(x + c), k)
  {
    WrapProduct(x + c, k);
    WrapSum(x * k, c * k);
    assert (x + c) * k == x * k + c * k;
  }

  lemma WrapSum(a: int, b: int)
    ensures Wrap(Wrap(a) + Wrap(b)) == Wrap(a + b)
  {
  }

  lemma WrapProduct(a: int, k: int)
    ensures Product(Wrap(a), k) == Wrap(a * k)
  {
    var q := a / MODULUS;
    assert a == q * MODULUS + Wrap(a);
    assert a * k == (q * k) * MODULUS + Wrap(a) * k;
    WrapMultiple(Wrap(a) * k, q * k);
  }

  lemma WrapMultiple(x: int, m: int)
    ensures Wrap(x + m * MODULUS) == Wrap(x)
  {
  }

  lemma SumsCancel(a: Word, b: Word, c: Word)
    requires Wrap(a + c) == Wrap(b + c)
    ensures a == b
  {
  }

  lemma WrapEval(x: Word, y: Word)
    ensures EvalBin(Add, x, y) == Some(Wrap(x + y)) && EvalBin(Mul, x, y) == Some(Product(x, y))
  {
  }

  // ---- Runs of the loop ----

  /** Every arrival over the back edge comes from an earlier moment. */
  ghost predicate Advances(w: World, v: Values, loop: NodeId) {
    forall t: nat :: var (slot, before) := w.route(v(t, loop), t); slot != 0 ==> before < t
  }

  predicate ByBackEdge(w: World, v: Values, loop: NodeId, t: nat) {
    w.route(v(t, loop), t).0 != 0
  }

  function Before(w: World, v: Values, loop: NodeId, t: nat): nat {
    w.route(v(t, loop), t).1
  }

  /** The derived phi is the product at every moment. */
  ghost predicate Tracks(v: Values, j: NodeId, phi: NodeId, k: Word) {
    forall t: nat :: v(t, j) == Product(v(t, phi), k)
  }

  /** Whenever the loop goes round, what the step was added to is worth the phi as far as the factor can tell. */
  ghost predicate StepsFromPhi(w: World, v: Values, loop: NodeId, phi: NodeId, x: NodeId, k: Word) {
    forall t: nat :: ByBackEdge(w, v, loop, t) ==>
      Product(v(Before(w, v, loop, t), x), k) == Product(v(Before(w, v, loop, t), phi), k)
  }

  /** The equations of the two phis in a run. */
  ghost predicate TwoPhis(w: World, v: Values, loop: NodeId, phi: NodeId, j: NodeId, x: NodeId, start: Word,
        step: Word, k: Word)
  {
    forall t: nat {:trigger v(t, phi)} {:trigger v(t, j)} ::
      if ByBackEdge(w, v, loop, t) then
        var b := Before(w, v, loop, t);
        v(t, phi) == Wrap(v(b, x) + step) && v(t, j) == Wrap(v(b, j) + Product(step, k))
      else v(t, phi) == start && v(t, j) == Product(start, k)
  }

  lemma {:induction false} TracksAt(w: World, v: Values, loop: NodeId, phi: NodeId, j: NodeId, x: NodeId,
        start: Word, step: Word, k: Word, t: nat)
    requires TwoPhis(w, v, loop, phi, j, x, start, step, k) && Advances(w, v, loop)
      && StepsFromPhi(w, v, loop, phi, x, k)
    ensures v(t, j) == Product(v(t, phi), k)
    decreases t
  {
    hide Product;
    assert v(t, phi) == v(t, phi);
    if ByBackEdge(w, v, loop, t) {
      var b := Before(w, v, loop, t);
      TracksAt(w, v, loop, phi, j, x, start, step, k, b);
      ProductsAdd(v(b, x), step, k);
    }
  }

  /** The derived phi follows the product through every run exactly when the back value steps from the phi itself. */
  lemma TracksExactly(w: World, v: Values, loop: NodeId, phi: NodeId, j: NodeId, x: NodeId, start: Word, step: Word,
        k: Word)
    requires TwoPhis(w, v, loop, phi, j, x, start, step, k) && Advances(w, v, loop)
    ensures Tracks(v, j, phi, k) <==> StepsFromPhi(w, v, loop, phi, x, k)
  {
    if StepsFromPhi(w, v, loop, phi, x, k) {
      forall t: nat ensures v(t, j) == Product(v(t, phi), k) {
        TracksAt(w, v, loop, phi, j, x, start, step, k, t);
      }
    }
    if Tracks(v, j, phi, k) {
      hide Product;
      forall t: nat | ByBackEdge(w, v, loop, t)
        ensures Product(v(Before(w, v, loop, t), x), k) == Product(v(Before(w, v, loop, t), phi), k)
      {
        var b := Before(w, v, loop, t);
        assert v(t, j) == Product(v(t, phi), k) && v(b, j) == Product(v(b, phi), k);
        ProductsAdd(v(b, x), step, k);
        SumsCancel(Product(v(b, x), k), Product(v(b, phi), k), Product(step, k));
      }
    }
  }

  /** A caller can tell: the rewrite is right when the back value steps from the phi, or the factor is zero. */
  predicate StepsRight(nodes: seq<Node>, phi: NodeId, k: NodeId)
    requires phi < |nodes| && k < |nodes| && StepOf(nodes, phi).Some?
  {
    Stepped(nodes, phi) == phi || nodes[k].payload == 0
  }

  lemma StepsRightSuffices(w: World, v: Values, loop: NodeId, nodes: seq<Node>, phi: NodeId, k: NodeId)
    requires phi < |nodes| && k < |nodes| && StepOf(nodes, phi).Some? && StepsRight(nodes, phi, k)
    ensures StepsFromPhi(w, v, loop, phi, Stepped(nodes, phi), nodes[k].payload)
  {
    assert forall a: Word :: Product(a, 0) == 0;
  }

  // ---- The two phis in the graph ----

  /** The shape of a loop the pass applies to. */
  lemma AppliesShape(nodes: seq<Node>, loop: NodeId, phi: NodeId, mul: NodeId, k: NodeId)
    requires Applies(nodes, loop, phi, mul, k) && InputsAlive(nodes) && InRange(nodes) && |nodes| < INVALID
    ensures var entry, back := nodes[phi].inputs[1], nodes[phi].inputs[2];
      && nodes[phi].inputs == [loop, entry, back]
      && entry < |nodes| && nodes[entry].kind.Constant? && !nodes[entry].dead
      && back < |nodes| && nodes[back].kind == Bin(Add) && !nodes[back].dead
      && (var s, x := StepOperand(nodes[back].inputs, phi), Stepped(nodes, phi);
          && s < |nodes| && nodes[s].kind.Constant? && !nodes[s].dead && nodes[s].payload == StepOf(nodes, phi).value
          && (nodes[back].inputs == [x, s] || nodes[back].inputs == [s, x]))
    ensures mul != loop && mul != phi && mul != k && mul != nodes[phi].inputs[1] && mul != nodes[phi].inputs[2]
      && mul != StepOperand(nodes[nodes[phi].inputs[2]].inputs, phi)
  {
    var back := nodes[phi].inputs[2];
    assert AliveIn(nodes, nodes[phi].inputs);
    assert AliveIn(nodes, nodes[back].inputs);
    assert EdgesIn(nodes[back].inputs, |nodes|);
    var ins := nodes[back].inputs;
    assert ins == [ins[0], ins[1]];
    TwoOperands(ins[0], ins[1], phi);
  }

  lemma TwoOperands(a: NodeId, b: NodeId, phi: NodeId)
    ensures StepOperand([a, b], phi) == if b != phi then b else if a != phi then a else INVALID
  {
    assert [a, b][..1] == [a] && [a][..0] == [];
    assert StepOperand([a], phi) == if a != phi then a else INVALID;
  }

  /** How one header phi moves: from a constant entry, by a constant step from whatever the back value adds to. */
  ghost predicate Moves(w: World, v: Values, loop: NodeId, p: NodeId, x: NodeId, start: Word, step: Word) {
    forall t: nat {:trigger v(t, p)} ::
      v(t, p) == if ByBackEdge(w, v, loop, t) then Wrap(v(Before(w, v, loop, t), x) + step) else start
  }

  /** `p` is a live header phi with a live constant entry whose live back value adds the live constant `s` to `x`. */
  predicate HeaderPhi(all: seq<Node>, mul: NodeId, loop: NodeId, p: NodeId, entry: NodeId, back: NodeId, s: NodeId,
        x: NodeId)
  {
    && p < |all| && entry < |all| && back < |all| && s < |all|
    && p != mul && entry != mul && back != mul && s != mul
    && !all[p].dead && !all[entry].dead && !all[back].dead && !all[s].dead
    && all[p].kind.Phi? && all[p].inputs == [loop, entry, back]
    && all[entry].kind.Constant? && all[s].kind.Constant?
    && all[back].kind == Bin(Add) && (all[back].inputs == [x, s] || all[back].inputs == [s, x])
  }

  lemma HeaderMoves(all: seq<Node>, mul: NodeId, w: World, v: Values, loop: NodeId, p: NodeId, entry: NodeId,
        back: NodeId, s: NodeId, x: NodeId)
    requires SatisfiesExcept(all, mul, w, v) && HeaderPhi(all, mul, loop, p, entry, back, s, x)
    ensures Moves(w, v, loop, p, x, all[entry].payload, all[s].payload)
  {
    forall t: nat
      ensures v(t, p) == if ByBackEdge(w, v, loop, t) then Wrap(v(Before(w, v, loop, t), x) + all[s].payload)
        else all[entry].payload
    {
      var b := Before(w, v, loop, t);
      assert v(t, p) == Meaning(w, all[p], p, v, t);
      assert v(b, entry) == Meaning(w, all[entry], entry, v, b);
      assert v(b, s) == Meaning(w, all[s], s, v, b);
      assert v(b, back) == Meaning(w, all[back], back, v, b);
      WrapEval(v(b, x), v(b, s));
      WrapEval(v(b, s), v(b, x));
    }
  }

  lemma TwoMoves(w: World, v: Values, loop: NodeId, phi: NodeId, j: NodeId, x: NodeId, start: Word, step: Word, k: Word)
    requires Moves(w, v, loop, phi, x, start, step) && Moves(w, v, loop, j, j, Product(start, k), Product(step, k))
    ensures TwoPhis(w, v, loop, phi, j, x, start, step, k)
  {
    hide Product, Wrap;
    forall t: nat
      ensures v(t, phi) == if ByBackEdge(w, v, loop, t) then Wrap(v(Before(w, v, loop, t), x) + step) else start
      ensures v(t, j) == if ByBackEdge(w, v, loop, t) then Wrap(v(Before(w, v, loop, t), j) + Product(step, k))
        else Product(start, k)
    {
    }
  }

  lemma DerivedShape(nodes: seq<Node>, loop: NodeId, phi: NodeId, mul: NodeId, k: NodeId)
    requires Applies(nodes, loop, phi, mul, k) && InputsAlive(nodes) && InRange(nodes) && |nodes| + 4 < INVALID
    ensures var m, all := |nodes|, nodes + DerivedNodes(nodes, loop, phi, k);
      var entry, back := nodes[phi].inputs[1], nodes[phi].inputs[2];
      var s, x := StepOperand(nodes[back].inputs, phi), Stepped(nodes, phi);
      && HeaderPhi(all, mul, loop, phi, entry, back, s, x) && HeaderPhi(all, mul, loop, m + 1, m, m + 3, m + 2, m + 1)
      && all[entry].payload == nodes[entry].payload && all[s].payload == StepOf(nodes, phi).value
      && all[m].payload == Product(nodes[entry].payload, nodes[k].payload)
      && all[m + 2].payload == Product(StepOf(nodes, phi).value, nodes[k].payload)
  {
    AppliesShape(nodes, loop, phi, mul, k);
    hide StepOf, Stepped, StepOperand, InRange, InputsAlive, Product;
  }

  /** In any run that meets all equations but the product's, the two phis move as they should. */
  lemma PhisMove(nodes: seq<Node>, loop: NodeId, phi: NodeId, mul: NodeId, k: NodeId, w: World, v: Values)
    requires Applies(nodes, loop, phi, mul, k) && InputsAlive(nodes) && InRange(nodes) && |nodes| + 4 < INVALID
    requires SatisfiesExcept(nodes + DerivedNodes(nodes, loop, phi, k), mul, w, v)
    ensures TwoPhis(w, v, loop, phi, |nodes| + 1, Stepped(nodes, phi), nodes[nodes[phi].inputs[1]].payload,
      StepOf(nodes, phi).value, nodes[k].payload)
  {
    DerivedShape(nodes, loop, phi, mul, k);
    var back := nodes[phi].inputs[2];
    var s := StepOperand(nodes[back].inputs, phi);
    hide StepOf, Stepped, StepOperand, InputsAlive, InRange, TwoPhis, Product, SatisfiesExcept, HeaderPhi,
      DerivedNodes, Applies;
    BothMove(nodes + DerivedNodes(nodes, loop, phi, k), |nodes|, mul, w, v, loop, phi,
      nodes[phi].inputs[1], back, s, Stepped(nodes, phi), nodes[k].payload);
  }

  lemma BothMove(all: seq<Node>, m: NodeId, mul: NodeId, w: World, v: Values, loop: NodeId, phi: NodeId,
      entry: NodeId, back: NodeId, s: NodeId, x: NodeId, f: Word)
    requires SatisfiesExcept(all, mul, w, v)
    requires HeaderPhi(all, mul, loop, phi, entry, back, s, x)
      && HeaderPhi(all, mul, loop, m + 1, m, m + 3, m + 2, m + 1)
    requires all[m].payload == Product(all[entry].payload, f) && all[m + 2].payload == Product(all[s].payload, f)
    ensures TwoPhis(w, v, loop, phi, m + 1, x, all[entry].payload, all[s].payload, f)
  {
    hide SatisfiesExcept, Product, TwoPhis;
    HeaderMoves(all, mul, w, v, loop, phi, entry, back, s, x);
    HeaderMoves(all, mul, w, v, loop, m + 1, m, m + 3, m + 2, m + 1);
    TwoMoves(w, v, loop, phi, m + 1, x, all[entry].payload, all[s].payload, f);
  }

  lemma ProductMeaning(nodes: seq<Node>, mul: NodeId, phi: NodeId, k: NodeId, w: World, v: Values, t: nat)
    requires IsMultiple(nodes, mul, phi, k) && v(t, k) == nodes[k].payload
    ensures Meaning(w, nodes[mul], mul, v, t) == Product(v(t, phi), nodes[k].payload)
  {
    WrapEval(v(t, phi), v(t, k));
    WrapEval(v(t, k), v(t, phi));
    assert v(t, k) * v(t, phi) == v(t, phi) * v(t, k);
  }

  // ---- What the rewrite preserves ----

  function FilledAt(m: nat, start: Word, step: Word, f: Word, phi: NodeId, v: Values, t: nat, id: NodeId): Word {
    if id == m then Product(start, f)
    else if id == m + 1 then Product(v(t, phi), f)
    else if id == m + 2 then Product(step, f)
    else if id == m + 3 then Wrap(Product(v(t, phi), f) + Product(step, f))
    else v(t, id)
  }

  /** A run of the old graph with the values of the derived nodes filled in. */
  function Filled(nodes: seq<Node>, phi: NodeId, k: NodeId, v: Values): Values
    requires phi < |nodes| && k < |nodes| && StepOf(nodes, phi).Some?
  {
    var m, f, step, start := |nodes|, nodes[k].payload, StepOf(nodes, phi).value, nodes[nodes[phi].inputs[1]].payload;
    (t: nat, id: NodeId) => FilledAt(m, start, step, f, phi, v, t, id)
  }

  lemma OldMoves(nodes: seq<Node>, loop: NodeId, phi: NodeId, mul: NodeId, k: NodeId, w: World, v: Values)
    requires Applies(nodes, loop, phi, mul, k) && InputsAlive(nodes) && InRange(nodes) && |nodes| < INVALID
      && Satisfies(nodes, w, v)
    ensures Moves(w, v, loop, phi, Stepped(nodes, phi), nodes[nodes[phi].inputs[1]].payload, StepOf(nodes, phi).value)
  {
    AppliesShape(nodes, loop, phi, mul, k);
    var entry, back, x := nodes[phi].inputs[1], nodes[phi].inputs[2], Stepped(nodes, phi);
    var s := StepOperand(nodes[back].inputs, phi);
    assert HeaderPhi(nodes, |nodes|, loop, phi, entry, back, s, x);
    assert SatisfiesExcept(nodes, |nodes|, w, v);
    HeaderMoves(nodes, |nodes|, w, v, loop, phi, entry, back, s, x);
  }

  /** The product moves by the product of the step. */
  lemma ProductMoves(w: World, v: Values, loop: NodeId, phi: NodeId, x: NodeId, start: Word, step: Word, k: Word,
        t: nat)
    requires Moves(w, v, loop, phi, x, start, step) && StepsFromPhi(w, v, loop, phi, x, k)
    ensures Product(v(t, phi), k)
      == if ByBackEdge(w, v, loop, t) then Wrap(Product(v(Before(w, v, loop, t), phi), k) + Product(step, k))
        else Product(start, k)
  {
    ProductsAdd(v(Before(w, v, loop, t), x), step, k);
    hide Product, Wrap;
    assert v(t, phi) == if ByBackEdge(w, v, loop, t) then Wrap(v(Before(w, v, loop, t), x) + step) else start;
  }

  lemma FilledSatisfies(nodes: seq<Node>, loop: NodeId, phi: NodeId, mul: NodeId, k: NodeId, w: World, v: Values)
    requires Applies(nodes, loop, phi, mul, k) && InputsAlive(nodes) && InRange(nodes) && |nodes| + 4 < INVALID
    requires Satisfies(nodes, w, v) && StepsFromPhi(w, v, loop, phi, Stepped(nodes, phi), nodes[k].payload)
    ensures Satisfies(nodes + DerivedNodes(nodes, loop, phi, k), w, Filled(nodes, phi, k, v))
  {
    hide *;
    AppliesParts(nodes, loop, phi, mul, k);
    var m, all, u := |nodes|, nodes + DerivedNodes(nodes, loop, phi, k), Filled(nodes, phi, k, v);
    var start, step := nodes[nodes[phi].inputs[1]].payload, StepOf(nodes, phi).value;
    AddedShape(nodes, loop, phi, k);
    OldMoves(nodes, loop, phi, mul, k, w, v);
    FilledIs(nodes, phi, k, v);
    forall id: NodeId, t: nat | id < |all| && !all[id].dead ensures u(t, id) == Meaning(w, all[id], id, u, t) {
      if id < m {
        OldMeaning(nodes, phi, k, w, v, id, t);
      } else {
        ProductMoves(w, v, loop, phi, Stepped(nodes, phi), start, step, nodes[k].payload, t);
        NewMeaning(all, m, w, v, u, loop, phi, start, step, nodes[k].payload, id, t);
      }
    }
    SatisfiesAll(all, w, u);
  }

  lemma SatisfiesAll(all: seq<Node>, w: World, u: Values)
    requires forall id: NodeId, t: nat :: id < |all| && !all[id].dead ==> u(t, id) == Meaning(w, all[id], id, u, t)
    ensures Satisfies(all, w, u)
  {
  }

  lemma FilledIs(nodes: seq<Node>, phi: NodeId, k: NodeId, v: Values)
    requires phi < |nodes| && k < |nodes| && StepOf(nodes, phi).Some?
    ensures var start, step := nodes[nodes[phi].inputs[1]].payload, StepOf(nodes, phi).value;
      forall t: nat, id: NodeId ::
        Filled(nodes, phi, k, v)(t, id) == FilledAt(|nodes|, start, step, nodes[k].payload, phi, v, t, id)
  {
  }

  lemma AddedShape(nodes: seq<Node>, loop: NodeId, phi: NodeId, k: NodeId)
    requires phi < |nodes| && k < |nodes| && StepOf(nodes, phi).Some?
    ensures var m, all := |nodes|, nodes + DerivedNodes(nodes, loop, phi, k);
      var entry, f := nodes[nodes[phi].inputs[1]], nodes[k].payload;
      && |all| == m + 4 && nodes <= all
      && (!entry.dead ==> all[m].kind.Constant? && all[m].payload == Product(entry.payload, f))
      && all[m + 1].kind.Phi? && all[m + 1].inputs == [loop, m, m + 3]
      && all[m + 2].kind.Constant? && all[m + 2].payload == Product(StepOf(nodes, phi).value, f)
      && all[m + 3].kind == Bin(Add) && all[m + 3].inputs == [m + 1, m + 2]
  {
    hide Product, StepOperand;
  }

  /** The four added nodes have the values filled in. */
  lemma NewMeaning(all: seq<Node>, m: nat, w: World, v: Values, u: Values, loop: NodeId, phi: NodeId,
      start: Word, step: Word, f: Word, id: NodeId, t: nat)
    requires |all| == m + 4 && m <= id < m + 4 && loop < m
    requires all[m].kind.Constant? && all[m].payload == Product(start, f)
    requires all[m + 1].kind.Phi? && all[m + 1].inputs == [loop, m, m + 3]
    requires all[m + 2].kind.Constant? && all[m + 2].payload == Product(step, f)
    requires all[m + 3].kind == Bin(Add) && all[m + 3].inputs == [m + 1, m + 2]
    requires forall s: nat, x: NodeId :: u(s, x) == FilledAt(m, start, step, f, phi, v, s, x)
    requires Product(v(t, phi), f)
      == if ByBackEdge(w, v, loop, t) then Wrap(Product(v(Before(w, v, loop, t), phi), f) + Product(step, f))
        else Product(start, f)
    ensures u(t, id) == Meaning(w, all[id], id, u, t)
  {
    hide Product, Wrap;
    assert u(t, loop) == v(t, loop);
    if id == m + 1 {
      JMeaning(all, w, u, loop, m, t);
    } else if id == m + 3 {
      WrapEval(u(t, m + 1), u(t, m + 2));
    }
  }

  lemma JMeaning(all: seq<Node>, w: World, u: Values, loop: NodeId, m: nat, t: nat)
    requires m + 1 < |all| && all[m + 1].kind.Phi? && all[m + 1].inputs == [loop, m, m + 3]
    ensures Meaning(w, all[m + 1], m + 1, u, t)
         == u(Before(w, u, loop, t), if ByBackEdge(w, u, loop, t) then m + 3 else m)
  {
  }

  lemma OldMeaning(nodes: seq<Node>, phi: NodeId, k: NodeId, w: World, v: Values, id: NodeId, t: nat)
    requires phi < |nodes| && k < |nodes| && StepOf(nodes, phi).Some? && InRange(nodes) && |nodes| + 4 < INVALID
    requires Satisfies(nodes, w, v) && id < |nodes| && !nodes[id].dead
    ensures var u := Filled(nodes, phi, k, v); u(t, id) == Meaning(w, nodes[id], id, u, t)
  {
    var u := Filled(nodes, phi, k, v);
    hide StepOf, Product;
    assert EdgesIn(nodes[id].inputs, |nodes|);
    assert SameInputs(v, nodes[id].inputs, u, nodes[id].inputs);
    SameMeaning(w, nodes[id], nodes[id], id, v, u, t);
  }

  /** Every run of the old graph in which the loop steps from its phi is a run of the new one, with the same values. */
  lemma DerivedKeeps(nodes: seq<Node>, loop: NodeId, phi: NodeId, mul: NodeId, k: NodeId, w: World, v: Values)
    requires Applies(nodes, loop, phi, mul, k) && InputsAlive(nodes) && InRange(nodes) && |nodes| + 4 < INVALID
    requires Satisfies(nodes, w, v) && StepsFromPhi(w, v, loop, phi, Stepped(nodes, phi), nodes[k].payload)
    ensures Satisfies(Derived(nodes, loop, phi, mul, k), w, Filled(nodes, phi, k, v))
    ensures forall id: NodeId, t: nat :: id < |nodes| ==> Filled(nodes, phi, k, v)(t, id) == v(t, id)
  {
    var m, all, u := |nodes|, nodes + DerivedNodes(nodes, loop, phi, k), Filled(nodes, phi, k, v);
    FilledSatisfies(nodes, loop, phi, mul, k, w, v);
    forall x: NodeId, t: nat ensures u(t, Turn(mul, m + 1)(x)) == u(t, x) {
      if x == mul {
        assert v(t, k) == Meaning(w, nodes[k], k, v, t);
        assert v(t, mul) == Meaning(w, nodes[mul], mul, v, t);
        ProductMeaning(nodes, mul, phi, k, w, v, t);
      }
    }
    KilledRewired(all, mul, m + 1);
    RewiredKeeps(all, Derived(nodes, loop, phi, mul, k), Turn(mul, m + 1), w, u);
  }

  /** Once the product takes the value of the derived phi, tracking is the one equation a new run may miss. */
  lemma BackSatisfies(nodes: seq<Node>, extra: seq<Node>, phi: NodeId, mul: NodeId, k: NodeId, j: NodeId, w: World,
        u: Values)
    requires IsMultiple(nodes, mul, phi, k) && k != mul && SatisfiesExcept(nodes + extra, mul, w, u)
    requires forall t: nat :: u(t, mul) == u(t, j)
    ensures Satisfies(nodes, w, u) <==> Tracks(u, j, phi, nodes[k].payload)
  {
    var all, f := nodes + extra, nodes[k].payload;
    hide Product;
    forall t: nat ensures Meaning(w, nodes[mul], mul, u, t) == Product(u(t, phi), f) {
      assert u(t, k) == Meaning(w, all[k], k, u, t);
      ProductMeaning(nodes, mul, phi, k, w, u, t);
    }
    hide Meaning;
    if Satisfies(nodes, w, u) {
      forall t: nat ensures u(t, j) == Product(u(t, phi), f) {
        assert u(t, mul) == Meaning(w, nodes[mul], mul, u, t);
      }
    }
    if Tracks(u, j, phi, f) {
      forall id: NodeId, t: nat | id < |nodes| && !nodes[id].dead ensures u(t, id) == Meaning(w, nodes[id], id, u, t) {
        assert all[id] == nodes[id];
      }
    }
  }

  lemma BackAgrees(nodes: seq<Node>, extra: seq<Node>, mul: NodeId, j: NodeId, v: Values)
    requires mul < |nodes|
    ensures Agree(Back(v, Turn(mul, j)), v, Killed(nodes + extra, mul, j), |nodes|)
    ensures forall t: nat :: Back(v, Turn(mul, j))(t, mul) == Back(v, Turn(mul, j))(t, j)
  {
  }

  lemma BackAdvances(w: World, v: Values, mul: NodeId, j: NodeId, loop: NodeId)
    requires Advances(w, v, loop) && mul != loop
    ensures Advances(w, Back(v, Turn(mul, j)), loop)
  {
    assert forall t: nat :: Back(v, Turn(mul, j))(t, loop) == v(t, loop);
  }

  lemma AppliesParts(nodes: seq<Node>, loop: NodeId, phi: NodeId, mul: NodeId, k: NodeId)
    requires Applies(nodes, loop, phi, mul, k) && InputsAlive(nodes) && InRange(nodes) && |nodes| < INVALID
    ensures IsMultiple(nodes, mul, phi, k) && mul < |nodes| && k < |nodes| && phi < |nodes| && StepOf(nodes, phi).Some?
    ensures k != mul && mul != loop && loop < |nodes|
    ensures |nodes[phi].inputs| == 3 && nodes[phi].inputs[1] < |nodes| && !nodes[nodes[phi].inputs[1]].dead
  {
    AppliesShape(nodes, loop, phi, mul, k);
    hide StepOf, Stepped, StepOperand;
  }

  /** A run of the new graph is one of the old, product included, exactly when the loop steps from its phi in it. */
  lemma DerivedReflects(nodes: seq<Node>, loop: NodeId, phi: NodeId, mul: NodeId, k: NodeId, w: World, v: Values)
    requires Applies(nodes, loop, phi, mul, k) && InputsAlive(nodes) && InRange(nodes) && |nodes| + 4 < INVALID
    requires Satisfies(Derived(nodes, loop, phi, mul, k), w, v) && Advances(w, v, loop)
    ensures var u := Back(v, Turn(mul, |nodes| + 1));
      && Agree(u, v, Derived(nodes, loop, phi, mul, k), |nodes|)
      && (Satisfies(nodes, w, u) <==> StepsFromPhi(w, u, loop, phi, Stepped(nodes, phi), nodes[k].payload))
  {
    hide *;
    AppliesParts(nodes, loop, phi, mul, k);
    DerivedIs(nodes, loop, phi, mul, k);
    var extra, j := DerivedNodes(nodes, loop, phi, k), |nodes| + 1;
    var u := Back(v, Turn(mul, j));
    BackExcept(nodes + extra, mul, j, w, v);
    PhisMove(nodes, loop, phi, mul, k, w, u);
    BackAdvances(w, v, mul, j, loop);
    TracksExactly(w, u, loop, phi, j, Stepped(nodes, phi), nodes[nodes[phi].inputs[1]].payload,
      StepOf(nodes, phi).value, nodes[k].payload);
    BackAgrees(nodes, extra, mul, j, v);
    BackSatisfies(nodes, extra, phi, mul, k, j, w, u);
  }

  /** With the phi itself under the step, or a zero factor, nothing changes in any run that advances. */
  lemma DerivedRight(nodes: seq<Node>, loop: NodeId, phi: NodeId, mul: NodeId, k: NodeId, w: World)
    requires Applies(nodes, loop, phi, mul, k) && InputsAlive(nodes) && InRange(nodes) && |nodes| + 4 < INVALID
    requires StepsRight(nodes, phi, k)
    ensures forall v: Values :: Satisfies(nodes, w, v) ==> Extends(nodes, Derived(nodes, loop, phi, mul, k), w, v)
    ensures forall v: Values :: Satisfies(Derived(nodes, loop, phi, mul, k), w, v) && Advances(w, v, loop) ==>
      Restricts(nodes, Derived(nodes, loop, phi, mul, k), w, v)
  {
    var now := Derived(nodes, loop, phi, mul, k);
    forall v: Values | Satisfies(nodes, w, v) ensures Extends(nodes, now, w, v) {
      StepsRightSuffices(w, v, loop, nodes, phi, k);
      DerivedKeeps(nodes, loop, phi, mul, k, w, v);
      assert Agree(v, Filled(nodes, phi, k, v), now, |nodes|);
    }
    forall v: Values | Satisfies(now, w, v) && Advances(w, v, loop) ensures Restricts(nodes, now, w, v) {
      StepsRightSuffices(w, Back(v, Turn(mul, |nodes| + 1)), loop, nodes, phi, k);
      DerivedReflects(nodes, loop, phi, mul, k, w, v);
    }
  }

  // ---- A loop it gets wrong ----

  /** `s = 0; loop { s = x + 5 }; return s * 2` for a parameter `x`. */
  function AssigningLoop(): seq<Node> {
    [ NewNode(NodeKind.Start, [], 0, 0), NewNode(NodeKind.Constant, [], 0, 0), NewNode(NodeKind.Constant, [], 0, 5),
      NewNode(NodeKind.Parameter, [], 0, 0), NewNode(NodeKind.Loop, [0, 0], 0, 0),
      NewNode(NodeKind.Phi, [4, 1, 6], 0, 0),
      NewNode(Bin(Add), [3, 2], 0, 0), NewNode(NodeKind.Constant, [], 0, 2), NewNode(Bin(Mul), [5, 7], 0, 0),
      NewNode(Return, [0, 0, 8], 0, 0) ]
  }

  /** The parameter is 1, and moment 1 arrives over the back edge from moment 0. */
  function OneRound(): World {
    World((k, ty, p, args) => 0, (id, t, args) => 1, (x, t) => if t == 0 then (0, 0) else (1, t - 1))
  }

  function OneRoundValue(t: nat, id: NodeId): Word {
    if id == 2 then 5 else if id == 3 then 1 else if id == 5 then (if t == 0 then 0 else 6)
    else if id == 6 then 6 else if id == 7 then 2 else if id == 8 || id == 9 then (if t == 0 then 0 else 12) else 0
  }

  lemma AssigningLoopRuns()
    ensures Satisfies(AssigningLoop(), OneRound(), OneRoundValue)
  {
    var nodes, w := AssigningLoop(), OneRound();
    forall id: NodeId, t: nat | id < |nodes|
      ensures OneRoundValue(t, id) == Meaning(w, nodes[id], id, OneRoundValue, t)
    {
      if id == 6 || id == 8 { SumRuns(t); } else { OtherRuns(id, t); }
    }
  }

  lemma SumRuns(t: nat)
    ensures OneRoundValue(t, 6) == Meaning(OneRound(), NewNode(Bin(Add), [3, 2], 0, 0), 6, OneRoundValue, t)
    ensures OneRoundValue(t, 8) == Meaning(OneRound(), NewNode(Bin(Mul), [5, 7], 0, 0), 8, OneRoundValue, t)
  {
    WrapEval(1, 5);
    WrapEval(0, 2);
    WrapEval(6, 2);
    hide EvalBin, OneRound;
  }

  lemma OtherRuns(id: NodeId, t: nat)
    requires id < 10 && id != 6 && id != 8
    ensures OneRoundValue(t, id) == Meaning(OneRound(), AssigningLoop()[id], id, OneRoundValue, t)
  {
    hide EvalBin, EvalUn, Args;
    assert !AssigningLoop()[id].kind.Bin? && !AssigningLoop()[id].kind.Un?;
  }

  lemma AssigningLoopApplies()
    ensures Applies(AssigningLoop(), 4, 5, 8, 7) && InputsAlive(AssigningLoop()) && InRange(AssigningLoop())
    ensures StepOf(AssigningLoop(), 5) == Some(5) && Stepped(AssigningLoop(), 5) == 3
      && !StepsRight(AssigningLoop(), 5, 7)
  {
    var nodes := AssigningLoop();
    assert StepOperand([3, 2], 5) == 2;
  }

  /** The rewritten loop returns 10 where the original returns 12. */
  lemma AssignmentIsLost()
    ensures Applies(AssigningLoop(), 4, 5, 8, 7)
    ensures !Equivalent(AssigningLoop(), Derived(AssigningLoop(), 4, 5, 8, 7), OneRound())
  {
    AssigningLoopApplies();
    AssigningLoopRuns();
    var nodes, now, w := AssigningLoop(), Derived(AssigningLoop(), 4, 5, 8, 7), OneRound();
    assert OneRoundValue(1, 9) == 12;
    forall u: Values ensures !(Satisfies(now, w, u) && Agree(OneRoundValue, u, now, 10)) {
      if Satisfies(now, w, u) {
        RewrittenReturns(u);
        assert u(1, 9) != OneRoundValue(1, 9);
      }
    }
    assert !Extends(nodes, now, w, OneRoundValue);
  }

  lemma RewrittenReturns(v: Values)
    requires Applies(AssigningLoop(), 4, 5, 8, 7) && Satisfies(Derived(AssigningLoop(), 4, 5, 8, 7), OneRound(), v)
    ensures v(1, 9) == 10 && !Derived(AssigningLoop(), 4, 5, 8, 7)[9].dead
  {
    AssigningLoopApplies();
    AssigningLoopShape();
    hide *;
    var nodes, w := AssigningLoop(), OneRound();
    var all := nodes + DerivedNodes(nodes, 4, 5, 7);
    assert all[9] == nodes[9];
    DerivedIs(nodes, 4, 5, 8, 7);
    BackExcept(all, 8, 11, w, v);
    PhisMove(nodes, 4, 5, 8, 7, w, Back(v, Turn(8, 11)));
    OneRoundEnds(w, Back(v, Turn(8, 11)));
    ReturnReads(all, 9, 8, 11, w, v);
  }

  lemma DerivedIs(nodes: seq<Node>, loop: NodeId, phi: NodeId, mul: NodeId, k: NodeId)
    requires phi < |nodes| && k < |nodes| && StepOf(nodes, phi).Some?
    ensures Derived(nodes, loop, phi, mul, k) == Killed(nodes + DerivedNodes(nodes, loop, phi, k), mul, |nodes| + 1)
  {
  }

  lemma AssigningLoopShape()
    ensures var nodes := AssigningLoop();
      && |nodes| == 10 && nodes[5].inputs[1..2] == [1] && nodes[1].payload == 0 && nodes[7].payload == 2
      && !nodes[9].dead && nodes[9].kind.Return? && nodes[9].inputs == [0, 0, 8] && |nodes| + 4 < INVALID
      && nodes[nodes[5].inputs[1]].payload == 0
  {
  }

  lemma OneRoundEnds(w: World, u: Values)
    requires w == OneRound() && TwoPhis(w, u, 4, 5, 11, 3, 0, 5, 2)
    ensures u(1, 11) == 10
  {
    assert !ByBackEdge(w, u, 4, 0) && ByBackEdge(w, u, 4, 1) && Before(w, u, 4, 1) == 0;
    hide OneRound;
    assert u(0, 11) == 0 && u(1, 11) == Wrap(u(0, 11) + Product(5, 2));
  }

  lemma ReturnReads(all: seq<Node>, r: NodeId, a: NodeId, b: NodeId, w: World, v: Values)
    requires r < |all| && !all[r].dead && all[r].kind.Return? && all[r].inputs == [0, 0, a] && r != a
    requires Satisfies(Killed(all, a, b), w, v)
    ensures v(1, r) == v(1, b) == Back(v, Turn(a, b))(1, b) && !Killed(all, a, b)[r].dead
  {
    var now := Killed(all, a, b);
    ReplacedAt([0, 0, a], a, b, 2);
    assert v(1, r) == Meaning(w, now[r], r, v, 1);
  }
}
