/** What a graph means without running it: the values its nodes can take over time.

    A valuation gives every node a word at every moment. Pure nodes are tied to their inputs at the same
    moment; a phi takes the value that one of its inputs had at an earlier one, and which input and when is
    decided by its region alone. Control nodes, calls and memory are left to an arbitrary world. */
module Valuation {
  import opened Words
  import opened IR

  type Values = (nat, NodeId) -> Word

  /** The parts of a program the passes know nothing about. */
  datatype World = World(
    pure: (NodeKind, nat, Word, seq<Word>) -> Word,
    effect: (NodeId, nat, seq<Word>) -> Word,
    route: (Word, nat) -> (nat, nat))

  function Args(v: Values, t: nat, inputs: seq<NodeId>): (r: seq<Word>)
    ensures |r| == |inputs|
  {
    if inputs == [] then [] else Args(v, t, inputs[..|inputs| - 1]) + [v(t, inputs[|inputs| - 1])]
  }

  /** The input a phi reads when control arrives by the given slot. */
  function PhiSlot(inputs: seq<NodeId>, slot: nat): (i: nat)
    requires |inputs| >= 2
    ensures 1 <= i < |inputs|
  {
    if slot + 1 < |inputs| then slot + 1 else |inputs| - 1
  }

  ghost function Meaning(w: World, n: Node, id: NodeId, v: Values, t: nat): Word {
    if n.kind.Constant? then n.payload
    else if n.kind.Parameter? || !n.IsPure() then w.effect(id, t, Args(v, t, n.inputs))
    else if n.kind.Bin? && |n.inputs| == 2 && EvalBin(n.kind.bin, v(t, n.inputs[0]), v(t, n.inputs[1])).Some? then
      EvalBin(n.kind.bin, v(t, n.inputs[0]), v(t, n.inputs[1])).value
    else if n.kind.Un? && |n.inputs| == 1 then EvalUn(n.kind.un, v(t, n.inputs[0]))
    else if n.kind.Phi? && |n.inputs| >= 2 then
      var (slot, before) := w.route(v(t, n.inputs[0]), t);
      v(before, n.inputs[PhiSlot(n.inputs, slot)])
    else if n.kind.Select? && |n.inputs| == SELECT_INPUTS then
      if v(t, n.inputs[0]) != 0 then v(t, n.inputs[1]) else v(t, n.inputs[2])
    else if n.kind.Return? && |n.inputs| == RETURN_INPUTS then v(t, n.inputs[RETURN_VALUE])
    else w.pure(n.kind, n.ty, n.payload, Args(v, t, n.inputs))
  }

  /** Every live node has the value its kind and inputs give it. */
  ghost predicate Satisfies(nodes: seq<Node>, w: World, v: Values) {
    forall id: NodeId, t: nat {:trigger v(t, id)} :: id < |nodes| && !nodes[id].dead ==>
      v(t, id) == Meaning(w, nodes[id], id, v, t)
  }

  lemma {:induction false} ArgsAt(v: Values, t: nat, inputs: seq<NodeId>, i: nat)
    requires i < |inputs|
    ensures Args(v, t, inputs)[i] == v(t, inputs[i])
  {
    if i < |inputs| - 1 { ArgsAt(v, t, inputs[..|inputs| - 1], i); }
  }

  /** Corresponding inputs have the same values at all times. */
  ghost predicate SameInputs(v: Values, ins: seq<NodeId>, v': Values, ins': seq<NodeId>) {
    && |ins| == |ins'|
    && forall i: nat, t: nat {:trigger v(t, ins[i])} {:trigger v'(t, ins'[i])} :: i < |ins| ==>
         v(t, ins[i]) == v'(t, ins'[i])
  }

  lemma {:induction false} SameArgs(v: Values, ins: seq<NodeId>, v': Values, ins': seq<NodeId>, t: nat)
    requires SameInputs(v, ins, v', ins')
    ensures Args(v, t, ins) == Args(v', t, ins')
  {
    forall i | 0 <= i < |ins| ensures Args(v, t, ins)[i] == Args(v', t, ins')[i] {
      ArgsAt(v, t, ins, i);
      ArgsAt(v', t, ins', i);
    }
  }

  lemma SameAt(v: Values, ins: seq<NodeId>, v': Values, ins': seq<NodeId>, i: nat, t: nat)
    requires SameInputs(v, ins, v', ins') && i < |ins|
    ensures v(t, ins[i]) == v'(t, ins'[i])
  {
  }

  /** Meaning depends on inputs only through their values. */
  lemma SameMeaning(w: World, n: Node, n': Node, id: NodeId, v: Values, v': Values, t: nat)
    requires n'.kind == n.kind && n'.ty == n.ty && n'.payload == n.payload
    requires SameInputs(v, n.inputs, v', n'.inputs)
    ensures Meaning(w, n, id, v, t) == Meaning(w, n', id, v', t)
  {
    hide EvalBin, EvalUn, Args;
    SameArgs(v, n.inputs, v', n'.inputs, t);
    if |n.inputs| >= 1 { SameAt(v, n.inputs, v', n'.inputs, 0, t); }
    if |n.inputs| >= 2 { SameAt(v, n.inputs, v', n'.inputs, 1, t); }
    if |n.inputs| >= 3 { SameAt(v, n.inputs, v', n'.inputs, 2, t); }
    if |n.inputs| >= 2 {
      var (slot, before) := w.route(v(t, n.inputs[0]), t);
      SameAt(v, n.inputs, v', n'.inputs, PhiSlot(n.inputs, slot), before);
    }
  }

  // ---- Equivalent graphs ----

  /** The nodes of the old graph that are alive in the new one have the same values. */
  ghost predicate Agree(v: Values, v': Values, now: seq<Node>, n: nat) {
    forall id: NodeId, t: nat {:trigger v(t, id)} {:trigger v'(t, id)} ::
      id < n && id < |now| && !now[id].dead ==> v(t, id) == v'(t, id)
  }

  /** The valuations of the two graphs are the same on the nodes that remain. */
  ghost predicate Equivalent(was: seq<Node>, now: seq<Node>, w: World) {
    && (forall v: Values {:trigger Satisfies(was, w, v)} :: Satisfies(was, w, v) ==> Extends(was, now, w, v))
    && (forall v': Values {:trigger Satisfies(now, w, v')} :: Satisfies(now, w, v') ==> Restricts(was, now, w, v'))
  }

  ghost predicate Extends(was: seq<Node>, now: seq<Node>, w: World, v: Values) {
    exists v': Values :: Satisfies(now, w, v') && Agree(v, v', now, |was|)
  }

  ghost predicate Restricts(was: seq<Node>, now: seq<Node>, w: World, v': Values) {
    exists v: Values :: Satisfies(was, w, v) && Agree(v, v', now, |was|)
  }

  /** Dead nodes stay dead, and no node disappears from the list. */
  ghost predicate Later(was: seq<Node>, now: seq<Node>) {
    && |was| <= |now|
    && forall id: NodeId :: id < |was| && was[id].dead ==> now[id].dead
  }

  lemma EquivalentSelf(nodes: seq<Node>, w: World)
    ensures Equivalent(nodes, nodes, w) && Later(nodes, nodes)
  {
    forall v: Values | Satisfies(nodes, w, v) ensures Extends(nodes, nodes, w, v) && Restricts(nodes, nodes, w, v) {
      assert Agree(v, v, nodes, |nodes|);
    }
  }

  lemma EquivalentTrans(a: seq<Node>, b: seq<Node>, c: seq<Node>, w: World)
    requires Equivalent(a, b, w) && Equivalent(b, c, w) && Later(a, b) && Later(b, c)
    ensures Equivalent(a, c, w) && Later(a, c)
  {
    forall v: Values | Satisfies(a, w, v) ensures Extends(a, c, w, v) {
      assert Extends(a, b, w, v);
      var v': Values :| Satisfies(b, w, v') && Agree(v, v', b, |a|);
      assert Extends(b, c, w, v');
      var v'': Values :| Satisfies(c, w, v'') && Agree(v', v'', c, |b|);
      AgreeTrans(v, v', v'', a, b, c);
    }
    forall v'': Values | Satisfies(c, w, v'') ensures Restricts(a, c, w, v'') {
      assert Restricts(b, c, w, v'');
      var v': Values :| Satisfies(b, w, v') && Agree(v', v'', c, |b|);
      assert Restricts(a, b, w, v');
      var v: Values :| Satisfies(a, w, v) && Agree(v, v', b, |a|);
      AgreeTrans(v, v', v'', a, b, c);
    }
  }

  lemma AgreeTrans(v: Values, v': Values, v'': Values, a: seq<Node>, b: seq<Node>, c: seq<Node>)
    requires Later(a, b) && Later(b, c) && Agree(v, v', b, |a|) && Agree(v', v'', c, |b|)
    ensures Agree(v, v'', c, |a|)
  {
    forall id: NodeId, t: nat | id < |a| && id < |c| && !c[id].dead ensures v(t, id) == v''(t, id) {
      assert v(t, id) == v'(t, id);
    }
  }

  // ---- Rewiring ----

  /** The live nodes of `now` are those of `was` with every input renamed. */
  ghost predicate Rewired(was: seq<Node>, now: seq<Node>, to: NodeId -> NodeId) {
    && |now| == |was|
    && Later(was, now)
    && forall id: NodeId :: id < |was| && !now[id].dead ==> RenamedNode(was[id], now[id], to)
  }

  ghost predicate RenamedNode(n: Node, n': Node, to: NodeId -> NodeId) {
    && n'.kind == n.kind && n'.ty == n.ty && n'.payload == n.payload
    && |n'.inputs| == |n.inputs|
    && forall i :: 0 <= i < |n.inputs| ==> n'.inputs[i] == to(n.inputs[i])
  }

  /** Renaming inputs to nodes of the same value keeps every valuation. */
  lemma RewiredKeeps(was: seq<Node>, now: seq<Node>, to: NodeId -> NodeId, w: World, v: Values)
    requires Rewired(was, now, to) && Satisfies(was, w, v)
    requires forall id: NodeId, t: nat :: v(t, to(id)) == v(t, id)
    ensures Satisfies(now, w, v)
  {
    forall id: NodeId, t: nat | id < |now| && !now[id].dead ensures v(t, id) == Meaning(w, now[id], id, v, t) {
      assert SameInputs(v, was[id].inputs, v, now[id].inputs);
      SameMeaning(w, was[id], now[id], id, v, v, t);
    }
  }

  /** The valuation that gives every renamed node the value of its replacement. */
  function Back(v: Values, to: NodeId -> NodeId): Values {
    (t: nat, id: NodeId) => v(t, to(id))
  }

  /** Conversely a valuation of the rewired graph is one of the old graph, once the killed nodes take the
      values of their replacements and those are what their own inputs give. */
  lemma RewiredReflects(was: seq<Node>, now: seq<Node>, to: NodeId -> NodeId, w: World, v: Values)
    requires Rewired(was, now, to) && Satisfies(now, w, v)
    requires forall id: NodeId :: id < |was| && !now[id].dead ==> to(id) == id
    requires forall id: NodeId, t: nat :: id < |was| && now[id].dead && !was[id].dead ==>
      v(t, to(id)) == Meaning(w, was[id], id, Back(v, to), t)
    ensures Satisfies(was, w, Back(v, to)) && Agree(Back(v, to), v, now, |was|)
  {
    var u := Back(v, to);
    forall id: NodeId, t: nat | id < |was| && !was[id].dead ensures u(t, id) == Meaning(w, was[id], id, u, t) {
      if !now[id].dead {
        assert SameInputs(u, was[id].inputs, v, now[id].inputs);
        SameMeaning(w, was[id], now[id], id, u, v, t);
      }
    }
  }

  // ---- Adding nodes ----

  /** Every edge leads to an existing node or is absent. */
  ghost predicate InRange(nodes: seq<Node>) {
    forall id: NodeId :: id < |nodes| ==> EdgesIn(nodes[id].inputs, |nodes|)
  }

  predicate EdgesIn(inputs: seq<NodeId>, size: nat) {
    forall i :: 0 <= i < |inputs| ==> inputs[i] == INVALID || inputs[i] < size
  }

  function Update(v: Values, id: NodeId, f: nat -> Word): Values {
    (t: nat, x: NodeId) => if x == id then f(t) else v(t, x)
  }

  /** A new node that only looks at existing ones changes no valuation. */
  lemma AddedEquivalent(was: seq<Node>, n: Node, w: World)
    requires InRange(was) && |was| < INVALID && EdgesIn(n.inputs, |was|)
    ensures Equivalent(was, was + [n], w) && Later(was, was + [n]) && InRange(was + [n])
  {
    var now := was + [n];
    var id := |was|;
    forall v: Values | Satisfies(was, w, v) ensures Extends(was, now, w, v) {
      var v' := Update(v, id, t requires t >= 0 => Meaning(w, n, id, v, t));
      AddedSatisfies(was, n, w, v, v');
      assert Agree(v, v', now, |was|);
    }
    forall v': Values | Satisfies(now, w, v') ensures Restricts(was, now, w, v') {
      forall x: NodeId, t: nat | x < |was| && !was[x].dead ensures v'(t, x) == Meaning(w, was[x], x, v', t) {
        assert now[x] == was[x];
      }
      assert Satisfies(was, w, v');
      assert Agree(v', v', now, |was|);
    }
  }

  lemma AddedSatisfies(was: seq<Node>, n: Node, w: World, v: Values, v': Values)
    requires InRange(was) && |was| < INVALID && EdgesIn(n.inputs, |was|) && Satisfies(was, w, v)
    requires forall t: nat, x: NodeId :: v'(t, x) == if x == |was| then Meaning(w, n, |was|, v, t) else v(t, x)
    ensures Satisfies(was + [n], w, v')
  {
    var now := was + [n];
    forall x: NodeId, t: nat | x < |now| && !now[x].dead ensures v'(t, x) == Meaning(w, now[x], x, v', t) {
      assert SameInputs(v, now[x].inputs, v', now[x].inputs);
      SameMeaning(w, now[x], now[x], x, v, v', t);
    }
  }
}
