/** Replacing one node by another everywhere: the step all rewriting passes share. */
module Rewriting {
  import opened IR
  import opened UseDef
  import opened Graph
  import opened Valuation

  /** All uses of `a` turned towards `b`, and `a` dead. */
  function Killed(nodes: seq<Node>, a: NodeId, b: NodeId): (r: seq<Node>)
    ensures |r| == |nodes|
    ensures forall i :: 0 <= i < |nodes| ==> r[i] == KilledNode(nodes[i], i == a, a, b)
  {
    seq(|nodes|, i requires 0 <= i < |nodes| => KilledNode(nodes[i], i == a, a, b))
  }

  function KilledNode(n: Node, dies: bool, a: NodeId, b: NodeId): Node {
    n.(inputs := Replaced(n.inputs, a, b), dead := n.dead || dies)
  }

  method KillNode(g: SeaGraph, a: NodeId, b: NodeId)
    requires g.Valid() && a < |g.nodes| && a != INVALID && a != b
    modifies g
    ensures g.Valid() && g.nodes == Killed(old(g.nodes), a, b)
  {
    g.ReplaceUses(a, b);
    g.MarkDead(a);
  }

  lemma KilledInput(nodes: seq<Node>, a: NodeId, b: NodeId, id: NodeId, i: nat)
    requires id < |nodes| && i < |nodes[id].inputs|
    ensures |Killed(nodes, a, b)[id].inputs| == |nodes[id].inputs|
    ensures Killed(nodes, a, b)[id].inputs[i] == if nodes[id].inputs[i] == a then b else nodes[id].inputs[i]
  {
    ReplacedAt(nodes[id].inputs, a, b, i);
  }

  /** Killing a node for a live one leaves no edge to a dead node. */
  lemma KilledAlive(nodes: seq<Node>, a: NodeId, b: NodeId)
    requires InputsAlive(nodes) && a < |nodes| && b < |nodes| && a != b && !nodes[b].dead
    ensures InputsAlive(Killed(nodes, a, b))
  {
    var now := Killed(nodes, a, b);
    forall x: NodeId | x < |now| && !now[x].dead ensures AliveIn(now, now[x].inputs) {
      assert AliveIn(nodes, nodes[x].inputs);
      forall i | 0 <= i < |now[x].inputs|
        ensures now[x].inputs[i] == INVALID || (now[x].inputs[i] < |now| && !now[now[x].inputs[i]].dead)
      {
        ReplacedAt(nodes[x].inputs, a, b, i);
      }
    }
  }

  // ---- What a replacement preserves ----

  function Turn(a: NodeId, b: NodeId): NodeId -> NodeId {
    (x: NodeId) => if x == a then b else x
  }

  lemma KilledRewired(nodes: seq<Node>, a: NodeId, b: NodeId)
    requires a < |nodes|
    ensures Rewired(nodes, Killed(nodes, a, b), Turn(a, b))
  {
    var now := Killed(nodes, a, b);
    forall id: NodeId | id < |nodes| && !now[id].dead ensures RenamedNode(nodes[id], now[id], Turn(a, b)) {
      forall i | 0 <= i < |nodes[id].inputs| ensures now[id].inputs[i] == Turn(a, b)(nodes[id].inputs[i]) {
        ReplacedAt(nodes[id].inputs, a, b, i);
      }
    }
  }

  /** All equations but those of one node. */
  ghost predicate SatisfiesExcept(nodes: seq<Node>, a: NodeId, w: World, v: Values) {
    forall id: NodeId, t: nat {:trigger v(t, id)} ::
      id < |nodes| && !nodes[id].dead && id != a ==> v(t, id) == Meaning(w, nodes[id], id, v, t)
  }

  /** A node may give way to another whose value its own equation must take. */
  lemma KillEquivalent(nodes: seq<Node>, a: NodeId, b: NodeId, w: World)
    requires a < |nodes| && b < |nodes| && a != b && !nodes[a].dead
    requires forall u: Values, t: nat {:trigger Meaning(w, nodes[a], a, u, t)} ::
      SatisfiesExcept(nodes, a, w, u) ==> Meaning(w, nodes[a], a, u, t) == u(t, b)
    ensures Equivalent(nodes, Killed(nodes, a, b), w) && Later(nodes, Killed(nodes, a, b))
  {
    var now, to := Killed(nodes, a, b), Turn(a, b);
    KilledRewired(nodes, a, b);
    forall v: Values | Satisfies(nodes, w, v) ensures Extends(nodes, now, w, v) {
      forall x: NodeId, t: nat ensures v(t, to(x)) == v(t, x) {
        if x == a { assert v(t, a) == Meaning(w, nodes[a], a, v, t); }
      }
      RewiredKeeps(nodes, now, to, w, v);
      assert Agree(v, v, now, |nodes|);
    }
    forall v: Values | Satisfies(now, w, v) ensures Restricts(nodes, now, w, v) {
      BackExcept(nodes, a, b, w, v);
      RewiredReflects(nodes, now, to, w, v);
    }
  }

  lemma BackExcept(nodes: seq<Node>, a: NodeId, b: NodeId, w: World, v: Values)
    requires a < |nodes| && Satisfies(Killed(nodes, a, b), w, v)
    ensures SatisfiesExcept(nodes, a, w, Back(v, Turn(a, b)))
  {
    var now, to := Killed(nodes, a, b), Turn(a, b);
    KilledRewired(nodes, a, b);
    var u := Back(v, to);
    forall id: NodeId, t: nat | id < |nodes| && !nodes[id].dead && id != a
      ensures u(t, id) == Meaning(w, nodes[id], id, u, t)
    {
      assert RenamedNode(nodes[id], now[id], to);
      assert SameInputs(u, nodes[id].inputs, v, now[id].inputs);
      SameMeaning(w, nodes[id], now[id], id, u, v, t);
    }
  }

  lemma KilledInRange(nodes: seq<Node>, a: NodeId, b: NodeId)
    requires InRange(nodes) && b < |nodes|
    ensures InRange(Killed(nodes, a, b))
  {
    var now := Killed(nodes, a, b);
    forall id: NodeId | id < |now| ensures EdgesIn(now[id].inputs, |now|) {
      assert EdgesIn(nodes[id].inputs, |nodes|);
      forall i | 0 <= i < |now[id].inputs| ensures now[id].inputs[i] == INVALID || now[id].inputs[i] < |now| {
        KilledInput(nodes, a, b, id, i);
      }
    }
  }
}
