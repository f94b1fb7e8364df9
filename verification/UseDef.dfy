/** Use-def edges of the graph as values: how output lists follow the input lists. */
module UseDef {
  import opened IR

  /** Removes the first occurrence by moving the last element into its place. */
  function RemoveFirst(s: seq<NodeId>, v: NodeId): (r: seq<NodeId>)
    ensures multiset(r) == multiset(s) - multiset{v}
  {
    if v !in s then s
    else
      var i := FirstAt(s, v);
      RemovedAt(s, i);
      s[i := s[|s| - 1]][..|s| - 1]
  }

  function FirstAt(s: seq<NodeId>, v: NodeId): (i: nat)
    requires v in s
    ensures i < |s| && s[i] == v && v !in s[..i]
  {
    if s[0] == v then 0
    else
      var i := FirstAt(s[1..], v);
      assert s[..i + 1] == [s[0]] + s[1..][..i];
      i + 1
  }

  lemma RemovedAt(s: seq<NodeId>, i: nat)
    requires i < |s|
    ensures multiset(s[i := s[|s| - 1]][..|s| - 1]) == multiset(s) - multiset{s[i]}
  {
    var last := |s| - 1;
    var t := s[i := s[last]];
    assert t == t[..last] + [s[last]];
    assert multiset(t) == multiset(t[..last]) + multiset{s[last]};
    assert s == s[..i] + [s[i]] + s[i + 1..];
    assert t == s[..i] + [s[last]] + s[i + 1..];
    assert multiset(s) == multiset(s[..i]) + multiset{s[i]} + multiset(s[i + 1..]);
    assert multiset(t) == multiset(s[..i]) + multiset{s[last]} + multiset(s[i + 1..]);
  }

  /** The inputs with every edge to `a` turned towards `b`. */
  function Replaced(s: seq<NodeId>, a: NodeId, b: NodeId): (r: seq<NodeId>)
    ensures |r| == |s|
  {
    if s == [] then [] else Replaced(s[..|s| - 1], a, b) + [if s[|s| - 1] == a then b else s[|s| - 1]]
  }

  lemma {:induction false} ReplacedAt(s: seq<NodeId>, a: NodeId, b: NodeId, i: nat)
    requires i < |s|
    ensures Replaced(s, a, b)[i] == if s[i] == a then b else s[i]
  {
    if i < |s| - 1 { ReplacedAt(s[..|s| - 1], a, b, i); }
  }

  lemma {:induction false} ReplacedCount(s: seq<NodeId>, a: NodeId, b: NodeId, c: NodeId)
    ensures multiset(Replaced(s, a, b))[c]
         == if a == b then multiset(s)[c]
            else if c == a then 0
            else if c == b then multiset(s)[a] + multiset(s)[b]
            else multiset(s)[c]
  {
    if s != [] {
      var front := s[..|s| - 1];
      var last := s[|s| - 1];
      ReplacedCount(front, a, b, c);
      var turned: NodeId := if last == a then b else last;
      var was := Replaced(front, a, b);
      hide Replaced;
      ReplacedLast(s, a, b);
      assert s == front + [last];
      CountLast(front, last, a);
      CountLast(front, last, b);
      CountLast(front, last, c);
      CountLast(was, turned, c);
    }
  }

  lemma ReplacedLast(s: seq<NodeId>, a: NodeId, b: NodeId)
    requires s != []
    ensures Replaced(s, a, b) == Replaced(s[..|s| - 1], a, b) + [if s[|s| - 1] == a then b else s[|s| - 1]]
  {
  }

  lemma CountLast(s: seq<NodeId>, x: NodeId, c: NodeId)
    ensures multiset(s + [x])[c] == multiset(s)[c] + One(x == c)
  {
  }

  /** How many edges `b` has to `a`, among the inputs of `b`. */
  function Uses(nodes: seq<Node>, b: NodeId, a: NodeId): nat {
    if b < |nodes| then multiset(nodes[b].inputs)[a] else 0
  }

  /** The same, among the outputs of `a`. */
  function Entries(outputs: seq<seq<NodeId>>, a: NodeId, b: NodeId): nat {
    if a < |outputs| then multiset(outputs[a])[b] else 0
  }

  /** Every edge is recorded as often on its output side as on its input side. */
  ghost predicate Conserved(nodes: seq<Node>, outputs: seq<seq<NodeId>>) {
    && |nodes| <= |outputs|
    && forall a: NodeId, b: NodeId {:trigger Entries(outputs, a, b)} {:trigger Uses(nodes, b, a)} ::
         a != INVALID ==> Entries(outputs, a, b) == Uses(nodes, b, a)
  }

  function WithSlot(outputs: seq<seq<NodeId>>, id: NodeId): (r: seq<seq<NodeId>>)
    ensures |r| > id && outputs <= r
    ensures forall k :: |outputs| <= k < |r| ==> r[k] == []
    decreases id + 1 - |outputs|
  {
    if |outputs| > id then outputs else WithSlot(outputs + [[]], id)
  }

  function Link(outputs: seq<seq<NodeId>>, node: NodeId, input: NodeId): seq<seq<NodeId>> {
    if input == INVALID then outputs
    else
      var o := WithSlot(outputs, input);
      o[input := o[input] + [node]]
  }

  function Unlink(outputs: seq<seq<NodeId>>, node: NodeId, input: NodeId): seq<seq<NodeId>> {
    if input == INVALID || input >= |outputs| then outputs
    else outputs[input := RemoveFirst(outputs[input], node)]
  }

  function One(yes: bool): nat {
    if yes then 1 else 0
  }

  lemma LinkEntries(outputs: seq<seq<NodeId>>, node: NodeId, input: NodeId)
    ensures |Link(outputs, node, input)| >= |outputs|
    ensures forall a: NodeId, b: NodeId ::
      Entries(Link(outputs, node, input), a, b)
        == Entries(outputs, a, b) + One(input != INVALID && a == input && b == node)
  {
  }

  lemma UnlinkEntries(outputs: seq<seq<NodeId>>, node: NodeId, input: NodeId)
    requires input != INVALID ==> Entries(outputs, input, node) > 0
    ensures |Unlink(outputs, node, input)| == |outputs|
    ensures forall a: NodeId, b: NodeId ::
      Entries(Unlink(outputs, node, input), a, b)
        == Entries(outputs, a, b) - One(input != INVALID && a == input && b == node)
  {
  }

  /** A node whose outputs are exactly accounted for has an empty list once nothing uses it. */
  lemma NoUsesNoOutputs(nodes: seq<Node>, outputs: seq<seq<NodeId>>, a: NodeId)
    requires Conserved(nodes, outputs) && a != INVALID && a < |outputs|
    requires forall b :: 0 <= b < |nodes| ==> a !in nodes[b].inputs
    ensures outputs[a] == []
  {
    if outputs[a] != [] {
      OutputsAreUsers(nodes, outputs, a, outputs[a][0]);
    }
  }

  /** The users of a node, read off its output list, are exactly the nodes that have it as an input. */
  lemma OutputsAreUsers(nodes: seq<Node>, outputs: seq<seq<NodeId>>, a: NodeId, b: NodeId)
    requires Conserved(nodes, outputs) && a != INVALID && a < |outputs|
    ensures b in outputs[a] <==> b < |nodes| && a in nodes[b].inputs
  {
    assert Entries(outputs, a, b) == Uses(nodes, b, a);
  }
}
