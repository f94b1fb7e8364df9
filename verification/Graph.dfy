/** The graph object: nodes, their output lists, and the edge edits every pass is built from. */
module Graph {
  import opened Words
  import opened IR
  import opened UseDef

  function NewNode(kind: NodeKind, inputs: seq<NodeId>, ty: nat, payload: Word): Node {
    Node(kind, inputs, ty, payload, false, false)
  }

  function WithInputs(nodes: seq<Node>, n: NodeId, inputs: seq<NodeId>): seq<Node>
    requires n < |nodes|
  {
    nodes[n := nodes[n].(inputs := inputs)]
  }

  /** No live node has an edge to a dead or a missing one. */
  ghost predicate InputsAlive(nodes: seq<Node>) {
    forall id: NodeId :: id < |nodes| && !nodes[id].dead ==> AliveIn(nodes, nodes[id].inputs)
  }

  predicate AliveIn(nodes: seq<Node>, inputs: seq<NodeId>) {
    forall i :: 0 <= i < |inputs| ==> inputs[i] == INVALID || (inputs[i] < |nodes| && !nodes[inputs[i]].dead)
  }

  /** Every live node with an effect has an effect input. */
  ghost predicate EffectChained(nodes: seq<Node>) {
    forall id: NodeId :: id < |nodes| && !nodes[id].dead ==> HasEffectIn(nodes[id])
  }

  predicate HasEffectIn(n: Node) {
    n.IsPure() || (|n.inputs| > 1 && n.inputs[1] != INVALID) || n.kind.Start?
  }

  /** Every listed user exists, and has the edge unless it is dead. */
  ghost predicate OutputsListed(nodes: seq<Node>, outputs: seq<seq<NodeId>>) {
    forall id: NodeId :: id < |outputs| ==> ListedRight(nodes, id, outputs[id])
  }

  predicate ListedRight(nodes: seq<Node>, id: NodeId, users: seq<NodeId>) {
    forall i :: 0 <= i < |users| ==> users[i] < |nodes| && (nodes[users[i]].dead || id in nodes[users[i]].inputs)
  }

  /** Conservation is more than the verifier's use-def check. */
  lemma ConservedIsListed(nodes: seq<Node>, outputs: seq<seq<NodeId>>)
    requires Conserved(nodes, outputs) && (INVALID < |outputs| ==> outputs[INVALID] == [])
    ensures OutputsListed(nodes, outputs)
  {
    forall id: NodeId | id < |outputs| ensures ListedRight(nodes, id, outputs[id]) {
      if id != INVALID {
        forall i | 0 <= i < |outputs[id]| ensures outputs[id][i] < |nodes| && id in nodes[outputs[id][i]].inputs {
          OutputsAreUsers(nodes, outputs, id, outputs[id][i]);
        }
      }
    }
  }

  // ---- How conservation survives each edit ----

  lemma MadeConserved(nodes: seq<Node>, outputs: seq<seq<NodeId>>, linked: seq<seq<NodeId>>, n: Node)
    requires Conserved(nodes, outputs) && |linked| > |nodes|
    requires forall a: NodeId, b: NodeId :: a != INVALID ==>
      Entries(linked, a, b) == Entries(outputs, a, b) + if b == |nodes| then multiset(n.inputs)[a] else 0
    ensures Conserved(nodes + [n], linked)
  {
    forall a: NodeId, b: NodeId | a != INVALID ensures Entries(linked, a, b) == Uses(nodes + [n], b, a) {
      assert Entries(outputs, a, b) == Uses(nodes, b, a);
    }
  }

  lemma SwappedConserved(nodes: seq<Node>, outputs: seq<seq<NodeId>>, n: NodeId, was: NodeId, new_: NodeId,
        after: seq<seq<NodeId>>)
    requires Conserved(nodes, outputs) && n < |nodes| && |after| >= |outputs|
    requires forall a: NodeId, b: NodeId :: a != INVALID ==>
      Entries(after, a, b) == Entries(outputs, a, b)
        - (if a == was && b == n then Count(nodes, n, was) else 0)
        + (if a == new_ && b == n then Count(nodes, n, was) else 0)
    ensures Conserved(WithInputs(nodes, n, Replaced(nodes[n].inputs, was, new_)), after)
  {
    var nodes' := WithInputs(nodes, n, Replaced(nodes[n].inputs, was, new_));
    forall a: NodeId, b: NodeId | a != INVALID ensures Entries(after, a, b) == Uses(nodes', b, a) {
      assert Entries(outputs, a, b) == Uses(nodes, b, a);
      ReplacedCount(nodes[n].inputs, was, new_, a);
    }
  }

  function Count(nodes: seq<Node>, n: NodeId, a: NodeId): nat
    requires n < |nodes|
  {
    multiset(nodes[n].inputs)[a]
  }

  lemma SetConserved(nodes: seq<Node>, outputs: seq<seq<NodeId>>, n: NodeId, i: nat, new_: NodeId,
        after: seq<seq<NodeId>>)
    requires Conserved(nodes, outputs) && n < |nodes| && i < |nodes[n].inputs| && |after| >= |outputs|
    requires forall a: NodeId, b: NodeId :: a != INVALID ==>
      Entries(after, a, b) == Entries(outputs, a, b) - One(a == nodes[n].inputs[i] && b == n) + One(a == new_ && b == n)
    ensures Conserved(WithInputs(nodes, n, nodes[n].inputs[i := new_]), after)
  {
    var ins := nodes[n].inputs;
    var nodes' := WithInputs(nodes, n, ins[i := new_]);
    UpdatedMultiset(ins, i, new_);
    forall a: NodeId, b: NodeId | a != INVALID ensures Entries(after, a, b) == Uses(nodes', b, a) {
      assert Entries(outputs, a, b) == Uses(nodes, b, a);
    }
  }

  lemma UpdatedMultiset(s: seq<NodeId>, i: nat, x: NodeId)
    requires i < |s|
    ensures multiset(s[i := x]) == multiset(s) - multiset{s[i]} + multiset{x}
  {
    assert s == s[..i] + [s[i]] + s[i + 1..];
    assert s[i := x] == s[..i] + [x] + s[i + 1..];
    assert multiset(s) == multiset(s[..i]) + multiset{s[i]} + multiset(s[i + 1..]);
    assert multiset(s[i := x]) == multiset(s[..i]) + multiset{x} + multiset(s[i + 1..]);
  }

  lemma {:induction false} NothingReplaced(s: seq<NodeId>, was: NodeId, new_: NodeId)
    requires was !in multiset(s)
    ensures Replaced(s, was, new_) == s
  {
    if s != [] {
      assert s == s[..|s| - 1] + [s[|s| - 1]];
      NothingReplaced(s[..|s| - 1], was, new_);
    }
  }

  lemma ReplacedStep(s: seq<NodeId>, i: nat, was: NodeId, new_: NodeId)
    requires i < |s|
    ensures Replaced(s[..i + 1], was, new_) == Replaced(s[..i], was, new_) + [if s[i] == was then new_ else s[i]]
    ensures multiset(s[..i + 1]) == multiset(s[..i]) + multiset{s[i]}
  {
    assert s[..i + 1] == s[..i] + [s[i]] && s[..i + 1][..i] == s[..i];
  }

  lemma ReplacedInPlace(s: seq<NodeId>, ins: seq<NodeId>, i: nat, was: NodeId, new_: NodeId)
    requires i < |s| && ins == Replaced(s[..i], was, new_) + s[i..]
    ensures ins[i] == s[i] && multiset(s[..i + 1])[was] == multiset(s[..i])[was] + if s[i] == was then 1 else 0
    ensures (if s[i] == was then ins[i := new_] else ins) == Replaced(s[..i + 1], was, new_) + s[i + 1..]
  {
    ReplacedStep(s, i, was, new_);
    hide Replaced;
    assert s[i..] == [s[i]] + s[i + 1..];
  }

  lemma {:induction false} NoneLeft(s: seq<NodeId>, a: NodeId, b: NodeId)
    requires a != b
    ensures a !in Replaced(s, a, b)
  {
    if s != [] { NoneLeft(s[..|s| - 1], a, b); }
  }

  // ---- Replacing every use ----

  function TurnedNode(n: Node, a: NodeId, b: NodeId): Node {
    n.(inputs := Replaced(n.inputs, a, b))
  }

  /** The nodes of `done` have had their edges to `a` turned towards `b`. */
  ghost predicate Turned(was: seq<Node>, now: seq<Node>, done: seq<NodeId>, a: NodeId, b: NodeId) {
    && |now| == |was|
    && forall n: NodeId :: n < |was| ==> now[n] == if n in done then TurnedNode(was[n], a, b) else was[n]
  }

  lemma TurnedNone(was: seq<Node>, a: NodeId, b: NodeId)
    ensures Turned(was, was, [], a, b)
  {
  }

  lemma TurnedOne(was: seq<Node>, now: seq<Node>, done: seq<NodeId>, u: NodeId, a: NodeId, b: NodeId)
    requires Turned(was, now, done, a, b) && u < |was| && a != b
    ensures Turned(was, WithInputs(now, u, Replaced(now[u].inputs, a, b)), done + [u], a, b)
  {
    if u in done {
      NoneLeft(was[u].inputs, a, b);
      NothingReplaced(now[u].inputs, a, b);
    }
  }

  /** Once all users are done no edge to `a` is left, and every node looks as if it had been a user. */
  lemma TurnedAll(was: seq<Node>, now: seq<Node>, users: seq<NodeId>, a: NodeId, b: NodeId)
    requires Turned(was, now, users, a, b) && a != b
    requires forall n: NodeId :: n in users <==> n < |was| && a in was[n].inputs
    ensures forall n: NodeId :: n < |was| ==> now[n] == TurnedNode(was[n], a, b) && a !in now[n].inputs
  {
    forall n: NodeId | n < |was| ensures now[n] == TurnedNode(was[n], a, b) && a !in now[n].inputs {
      NoneLeft(was[n].inputs, a, b);
      if n !in users { NothingReplaced(was[n].inputs, a, b); }
    }
  }

  class SeaGraph {
    var nodes: seq<Node>
    var outputs: seq<seq<NodeId>>
    var version: nat

    ghost predicate Valid()
      reads this
    {
      Conserved(nodes, outputs) && (INVALID < |outputs| ==> outputs[INVALID] == [])
    }

    constructor ()
      ensures Valid() && nodes == [NewNode(NodeKind.Start, [], INVALID, 0)]
    {
      nodes, outputs, version := [NewNode(NodeKind.Start, [], INVALID, 0)], [[]], 1;
    }

    method LinkOutput(node: NodeId, input: NodeId)
      modifies this`outputs
      ensures outputs == Link(old(outputs), node, input)
    {
      if input == INVALID { return; }
      while |outputs| <= input
        invariant old(outputs) <= outputs
        invariant WithSlot(outputs, input) == WithSlot(old(outputs), input)
        decreases input + 1 - |outputs|
      {
        outputs := outputs + [[]];
      }
      outputs := outputs[input := outputs[input] + [node]];
    }

    method UnlinkOutput(node: NodeId, input: NodeId)
      modifies this`outputs
      ensures outputs == Unlink(old(outputs), node, input)
    {
      if input == INVALID || input >= |outputs| { return; }
      var list := outputs[input];
      var i := 0;
      while i < |list| && list[i] != node
        invariant i <= |list| && node !in list[..i]
      {
        i := i + 1;
      }
      if i < |list| {
        FirstIs(list, node, i);
        outputs := outputs[input := list[i := list[|list| - 1]][..|list| - 1]];
      } else {
        assert list == list[..i];
        assert outputs[input := RemoveFirst(list, node)] == outputs;
      }
    }

    static lemma FirstIs(s: seq<NodeId>, v: NodeId, i: nat)
      requires i < |s| && s[i] == v && v !in s[..i]
      ensures v in s && FirstAt(s, v) == i
    {
      var j := FirstAt(s, v);
      forall k | 0 <= k < i ensures s[k] != v { assert s[..i][k] == s[k]; }
      forall k | 0 <= k < j ensures s[k] != v { assert s[..j][k] == s[k]; }
    }

    method MakeNode(kind: NodeKind, inputs: seq<NodeId>, ty: nat, payload: Word) returns (id: NodeId)
      requires Valid() && |nodes| < INVALID
      modifies this
      ensures Valid() && id == |old(nodes)| && nodes == old(nodes) + [NewNode(kind, inputs, ty, payload)]
      ensures version > old(version)
    {
      id := |nodes|;
      ghost var o := outputs;
      nodes := nodes + [NewNode(kind, inputs, ty, payload)];
      outputs := WithSlot(outputs, id);
      hide Conserved;
      var i := 0;
      while i < |inputs|
        invariant i <= |inputs| && nodes == old(nodes) + [NewNode(kind, inputs, ty, payload)] && version == old(version)
        invariant |outputs| > id && (INVALID < |outputs| ==> outputs[INVALID] == [])
        invariant forall a: NodeId, b: NodeId :: a != INVALID ==>
          Entries(outputs, a, b) == Entries(o, a, b) + if b == id then multiset(inputs[..i])[a] else 0
      {
        LinkEntries(outputs, id, inputs[i]);
        assert inputs[..i + 1] == inputs[..i] + [inputs[i]];
        LinkOutput(id, inputs[i]);
        i := i + 1;
      }
      assert inputs[..i] == inputs;
      MadeConserved(old(nodes), o, outputs, NewNode(kind, inputs, ty, payload));
      version := version + 1;
    }

    static method ReplaceIn(inputs: seq<NodeId>, was: NodeId, new_: NodeId) returns (ins: seq<NodeId>, replaced: nat)
      ensures ins == Replaced(inputs, was, new_) && replaced == multiset(inputs)[was]
    {
      hide Replaced;
      ins, replaced := inputs, 0;
      var i := 0;
      NothingReplaced([], was, new_);
      while i < |ins|
        invariant i <= |ins| == |inputs|
        invariant ins == Replaced(inputs[..i], was, new_) + inputs[i..]
        invariant replaced == multiset(inputs[..i])[was]
      {
        ReplacedInPlace(inputs, ins, i, was, new_);
        if ins[i] == was {
          ins := ins[i := new_];
          replaced := replaced + 1;
        }
        i := i + 1;
      }
      assert inputs[..i] == inputs;
    }

    /** Turns every edge of `n` to `was` towards `new_`, one unlink and one link for each. */
    method SwapInput(n: NodeId, was: NodeId, new_: NodeId)
      requires Valid() && n < |nodes|
      modifies this
      ensures Valid() && nodes == WithInputs(old(nodes), n, Replaced(old(nodes[n].inputs), was, new_))
      ensures |outputs| >= |old(outputs)|
    {
      var ins, replaced := ReplaceIn(nodes[n].inputs, was, new_);
      if replaced == 0 {
        NothingReplaced(nodes[n].inputs, was, new_);
        assert nodes == WithInputs(nodes, n, ins);
        return;
      }
      ghost var o := outputs;
      assert was != INVALID ==> Entries(outputs, was, n) == Uses(nodes, n, was);
      hide Conserved;
      nodes := nodes[n := nodes[n].(inputs := ins)];
      Relink(n, was, new_, replaced, old(nodes));
      SwappedConserved(old(nodes), o, n, was, new_, outputs);
      version := version + 1;
    }

    method Relink(n: NodeId, was: NodeId, new_: NodeId, times: nat, ghost before: seq<Node>)
      requires INVALID < |outputs| ==> outputs[INVALID] == []
      requires was != INVALID ==> Entries(outputs, was, n) >= times
      modifies this`outputs
      ensures |outputs| >= |old(outputs)| && (INVALID < |outputs| ==> outputs[INVALID] == [])
      ensures forall a: NodeId, b: NodeId :: a != INVALID ==>
        Entries(outputs, a, b) == Entries(old(outputs), a, b)
          - (if a == was && b == n then times else 0) + (if a == new_ && b == n then times else 0)
    {
      var r := 0;
      while r < times
        invariant r <= times && |outputs| >= |old(outputs)| && (INVALID < |outputs| ==> outputs[INVALID] == [])
        invariant forall a: NodeId, b: NodeId :: a != INVALID ==>
          Entries(outputs, a, b) == Entries(old(outputs), a, b)
            - (if a == was && b == n then r else 0) + (if a == new_ && b == n then r else 0)
      {
        UnlinkEntries(outputs, n, was);
        UnlinkOutput(n, was);
        LinkEntries(outputs, n, new_);
        LinkOutput(n, new_);
        r := r + 1;
      }
    }

    method SetInput(n: NodeId, i: nat, new_: NodeId)
      requires Valid() && n < |nodes| && i < |nodes[n].inputs|
      modifies this
      ensures Valid() && nodes == WithInputs(old(nodes), n, old(nodes[n].inputs)[i := new_])
    {
      var was := nodes[n].inputs[i];
      if was == new_ {
        assert nodes[n].inputs[i := new_] == nodes[n].inputs;
        return;
      }
      ghost var o := outputs;
      assert was != INVALID ==> Entries(outputs, was, n) == Uses(nodes, n, was);
      nodes := nodes[n := nodes[n].(inputs := nodes[n].inputs[i := new_])];
      Relink(n, was, new_, 1, old(nodes));
      SetConserved(old(nodes), o, n, i, new_, outputs);
      version := version + 1;
    }

    /** Refuses an edge to a missing node. */
    method AppendInput(n: NodeId, new_: NodeId)
      requires Valid() && n < |nodes|
      modifies this
      ensures Valid()
      ensures nodes == if new_ == INVALID || new_ >= |old(nodes)| then old(nodes)
                       else WithInputs(old(nodes), n, old(nodes[n].inputs) + [new_])
    {
      if new_ == INVALID || new_ >= |nodes| { return; }
      ghost var o := outputs;
      ghost var was := nodes;
      nodes := nodes[n := nodes[n].(inputs := nodes[n].inputs + [new_])];
      LinkEntries(outputs, n, new_);
      LinkOutput(n, new_);
      forall a: NodeId, b: NodeId | a != INVALID ensures Entries(outputs, a, b) == Uses(nodes, b, a) {
        assert Entries(o, a, b) == Uses(was, b, a);
      }
      version := version + 1;
    }

    method MarkDead(n: NodeId)
      requires Valid() && n < |nodes|
      modifies this
      ensures Valid() && nodes == old(nodes)[n := old(nodes)[n].(dead := true)]
    {
      ghost var was := nodes;
      nodes := nodes[n := nodes[n].(dead := true)];
      forall a: NodeId, b: NodeId | a != INVALID ensures Entries(outputs, a, b) == Uses(nodes, b, a) {
        assert Entries(outputs, a, b) == Uses(was, b, a);
      }
      version := version + 1;
    }

    /** A copy of the user list, one entry for each edge. */
    function UsersSnapshot(n: NodeId): seq<NodeId>
      reads this
    {
      if n < |outputs| then outputs[n] else []
    }

    /** Turns every edge to `a` towards `b` by going through a snapshot of the users of `a`. */
    method ReplaceUses(a: NodeId, b: NodeId)
      requires Valid() && a < |nodes| && a != INVALID && a != b
      modifies this
      ensures Valid() && |nodes| == |old(nodes)|
      ensures forall n: NodeId :: n < |nodes| ==>
        nodes[n] == TurnedNode(old(nodes)[n], a, b) && a !in nodes[n].inputs
      ensures UsersSnapshot(a) == []
    {
      var users := UsersSnapshot(a);
      ghost var was := nodes;
      assert forall n: NodeId :: n in users <==> n < |was| && a in was[n].inputs by {
        forall n: NodeId { OutputsAreUsers(nodes, outputs, a, n); }
      }
      hide Conserved, Turned;
      TurnedNone(was, a, b);
      var i := 0;
      while i < |users|
        invariant i <= |users| && Valid() && |nodes| == |was| && |outputs| >= |old(outputs)|
        invariant Turned(was, nodes, users[..i], a, b)
      {
        assert users[..i + 1] == users[..i] + [users[i]];
        assert users[i] in users;
        TurnedOne(was, nodes, users[..i], users[i], a, b);
        SwapInput(users[i], a, b);
        i := i + 1;
      }
      assert users[..i] == users;
      TurnedAll(was, nodes, users, a, b);
      NoUsesNoOutputs(nodes, outputs, a);
    }

    /** The verifier's edge checks. */
    method Verify() returns (ok: bool)
      ensures ok <==> InputsAlive(nodes) && EffectChained(nodes) && OutputsListed(nodes, outputs)
      ensures Valid() ==> (ok <==> InputsAlive(nodes) && EffectChained(nodes))
    {
      if Conserved(nodes, outputs) && (INVALID < |outputs| ==> outputs[INVALID] == []) {
        ConservedIsListed(nodes, outputs);
      }
      var id := 0;
      while id < |nodes|
        invariant id <= |nodes|
        invariant forall k: NodeId :: k < id && !nodes[k].dead ==> AliveIn(nodes, nodes[k].inputs)
      {
        if !nodes[id].dead && !AliveIn(nodes, nodes[id].inputs) { return false; }
        id := id + 1;
      }
      id := 0;
      while id < |nodes|
        invariant id <= |nodes|
        invariant forall k: NodeId :: k < id && !nodes[k].dead ==> HasEffectIn(nodes[k])
      {
        if !nodes[id].dead && !HasEffectIn(nodes[id]) { return false; }
        id := id + 1;
      }
      id := 0;
      while id < |outputs|
        invariant id <= |outputs|
        invariant forall k: NodeId :: k < id ==> ListedRight(nodes, k, outputs[k])
      {
        if !ListedRight(nodes, id, outputs[id]) { return false; }
        id := id + 1;
      }
      return true;
    }
  }
}
