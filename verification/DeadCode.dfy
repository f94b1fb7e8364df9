/** Dead-code elimination: mark backwards from the roots, sweep the rest. */
module DeadCode {
  import opened Words
  import opened Finite
  import opened IR
  import opened UseDef
  import opened Graph
  import opened Valuation

  // ---- What is wanted ----

  predicate IsRoot(n: Node) {
    !n.dead && (EffectOf(n.kind).Crowded? || n.kind.Return? || n.kind.Stop?)
  }

  /** A walk along input edges from a root through live nodes. */
  ghost predicate Walk(nodes: seq<Node>, p: seq<NodeId>) {
    && p != []
    && (forall i :: 0 <= i < |p| ==> p[i] < |nodes| && !nodes[p[i]].dead)
    && IsRoot(nodes[p[0]])
    && forall i :: 0 < i < |p| ==> p[i] in nodes[p[i - 1]].inputs
  }

  /** Some root needs the node. */
  ghost predicate Wanted(nodes: seq<Node>, id: NodeId) {
    exists p: seq<NodeId> :: Walk(nodes, p) && p[|p| - 1] == id
  }

  lemma RootWanted(nodes: seq<Node>, id: NodeId)
    requires id < |nodes| && IsRoot(nodes[id])
    ensures Wanted(nodes, id)
  {
    assert Walk(nodes, [id]);
  }

  lemma InputWanted(nodes: seq<Node>, id: NodeId, x: NodeId)
    requires Wanted(nodes, id) && id < |nodes| && x in nodes[id].inputs && x < |nodes| && !nodes[x].dead
    ensures Wanted(nodes, x)
  {
    var p: seq<NodeId> :| Walk(nodes, p) && p[|p| - 1] == id;
    assert Walk(nodes, p + [x]);
    assert (p + [x])[|p + [x]| - 1] == x;
  }

  /** A set that holds the roots and the live inputs of its members holds everything wanted. */
  ghost predicate Closed(nodes: seq<Node>, marked: set<NodeId>) {
    && (forall id: NodeId :: id < |nodes| && IsRoot(nodes[id]) ==> id in marked)
    && forall id: NodeId :: id in marked ==> InputsIn(nodes, id, marked)
  }

  ghost predicate InputsIn(nodes: seq<Node>, id: NodeId, marked: set<NodeId>) {
    id < |nodes| && forall i :: 0 <= i < |nodes[id].inputs| ==> Handled(nodes, nodes[id].inputs[i], marked)
  }

  ghost predicate Handled(nodes: seq<Node>, x: NodeId, marked: set<NodeId>) {
    x < |nodes| && !nodes[x].dead ==> x in marked
  }

  lemma {:induction false} WalkInClosed(nodes: seq<Node>, p: seq<NodeId>, marked: set<NodeId>)
    requires Walk(nodes, p) && Closed(nodes, marked)
    ensures p[|p| - 1] in marked
  {
    if |p| > 1 {
      var front := p[..|p| - 1];
      assert Walk(nodes, front);
      WalkInClosed(nodes, front, marked);
      var from := p[|p| - 2];
      assert InputsIn(nodes, from, marked);
      assert p[|p| - 1] in nodes[from].inputs;
    }
  }

  // ---- The sweep ----

  ghost predicate Kept(nodes: seq<Node>, id: NodeId) {
    id == START || Wanted(nodes, id)
  }

  ghost function SweptNode(n: Node, id: NodeId, wanted: bool): Node {
    if id == START || n.dead then n else if wanted then n.(live := true) else n.(dead := true)
  }

  ghost predicate Swept(nodes: seq<Node>, now: seq<Node>) {
    && |now| == |nodes|
    && forall id: NodeId :: id < |nodes| ==> now[id] == SweptNode(nodes[id], id, Wanted(nodes, id))
  }

  /** Everything reachable backwards from the roots. */
  method Mark(g: SeaGraph) returns (live: array<bool>)
    ensures fresh(live) && live.Length == |g.nodes|
    ensures forall id: NodeId :: id < |g.nodes| ==> (live[id] <==> Wanted(g.nodes, id))
  {
    var n := |g.nodes|;
    live := new bool[n](_ => false);
    var work: seq<NodeId> := [];
    ghost var marked: set<NodeId> := {};
    var id := 0;
    while id < n
      invariant id <= n && live.Length == n
      invariant forall x: NodeId :: x < n ==> (live[x] <==> x in marked)
      invariant forall x: NodeId :: x in marked <==> x < id && IsRoot(g.nodes[x])
      invariant forall x: NodeId :: x in marked <==> x in work
    {
      if IsRoot(g.nodes[id]) {
        RootWanted(g.nodes, id);
        live[id] := true;
        work := work + [id];
        marked := marked + {id};
      }
      id := id + 1;
    }
    forall x: NodeId | x in marked ensures Wanted(g.nodes, x) { RootWanted(g.nodes, x); }
    marked := Drain(g.nodes, live, work, marked);
    forall x: NodeId | x < n && Wanted(g.nodes, x) ensures x in marked {
      var p: seq<NodeId> :| Walk(g.nodes, p) && p[|p| - 1] == x;
      WalkInClosed(g.nodes, p, marked);
    }
  }

  /** The worklist loop. */
  method Drain(nodes: seq<Node>, live: array<bool>, start: seq<NodeId>, ghost from: set<NodeId>)
        returns (ghost marked: set<NodeId>)
    requires live.Length == |nodes|
    requires forall x: NodeId :: x in from ==> x < |nodes| && Wanted(nodes, x) && x in start
    requires forall x: NodeId :: x in start ==> x in from
    requires forall x: NodeId :: x < |nodes| ==> (live[x] <==> x in from)
    requires forall x: NodeId :: x < |nodes| && IsRoot(nodes[x]) ==> x in from
    modifies live
    ensures forall x: NodeId :: x < |nodes| ==> (live[x] <==> x in marked)
    ensures Closed(nodes, marked) && forall x: NodeId :: x in marked ==> Wanted(nodes, x)
  {
    hide Wanted;
    var n := |nodes|;
    var work := start;
    marked := from;
    while work != []
      invariant forall x: NodeId :: x < n ==> (live[x] <==> x in marked)
      invariant forall x: NodeId :: x in marked ==>
        x < n && Wanted(nodes, x) && (x in work || InputsIn(nodes, x, marked))
      invariant forall k :: 0 <= k < |work| ==> work[k] in marked
      invariant from <= marked && marked <= Range(0, n)
      decreases n - |marked|, |work|
    {
      var id := work[|work| - 1];
      work := work[..|work| - 1];
      ghost var before, count := marked, |work|;
      work, marked := Spread(nodes, live, id, work, marked);
      SubsetSize(before, marked);
      SubsetSize(marked, Range(0, n));
      if marked != before { ProperSize(before, marked); }
    }
  }

  /** Marks and queues the unmarked live inputs of one node. */
  method Spread(nodes: seq<Node>, live: array<bool>, id: NodeId, queue: seq<NodeId>, ghost before: set<NodeId>)
    returns (work: seq<NodeId>, ghost marked: set<NodeId>)
    requires live.Length == |nodes| && id < |nodes| && Wanted(nodes, id)
    requires forall x: NodeId :: x < |nodes| ==> (live[x] <==> x in before)
    requires forall x: NodeId :: x in before ==> x < |nodes| && Wanted(nodes, x)
    requires forall k :: 0 <= k < |queue| ==> queue[k] in before
    modifies live
    ensures forall x: NodeId :: x < |nodes| ==> (live[x] <==> x in marked)
    ensures forall x: NodeId :: x in marked ==> x < |nodes| && Wanted(nodes, x) && (x in before || x in work)
    ensures forall k :: 0 <= k < |work| ==> work[k] in marked
    ensures queue <= work && before <= marked && InputsIn(nodes, id, marked)
    ensures marked == before ==> work == queue
  {
    hide Wanted;
    var n := |nodes|;
    var ins := nodes[id].inputs;
    work, marked := queue, before;
    var i := 0;
    while i < |ins|
      invariant i <= |ins|
      invariant forall x: NodeId :: x < n ==> (live[x] <==> x in marked)
      invariant forall x: NodeId :: x in marked ==> x < n && Wanted(nodes, x) && (x in before || x in work)
      invariant forall k :: 0 <= k < |work| ==> work[k] in marked
      invariant forall k :: 0 <= k < i ==> Handled(nodes, ins[k], marked)
      invariant queue <= work && before <= marked
      invariant marked == before ==> work == queue
    {
      var x := ins[i];
      if x < n && !nodes[x].dead && !live[x] {
        InputWanted(nodes, id, x);
        live[x] := true;
        work := work + [x];
        marked := marked + {x};
      }
      i := i + 1;
    }
  }

  lemma ProperSize(a: set<NodeId>, b: set<NodeId>)
    requires a <= b && a != b
    ensures |a| < |b|
  {
    assert !(b <= a);
    var x :| x in b && x !in a;
    SubsetSize(a, b - {x});
  }

  method Run(g: SeaGraph) returns (removed: nat)
    requires g.Valid()
    modifies g
    ensures g.Valid() && Swept(old(g.nodes), g.nodes)
    ensures removed == 0 <==> forall id: NodeId :: id < |g.nodes| ==> g.nodes[id].dead == old(g.nodes)[id].dead
  {
    hide Wanted;
    var live := Mark(g);
    ghost var was := g.nodes;
    removed := 0;
    var id := 0;
    while id < |g.nodes|
      invariant id <= |g.nodes| == |was| && live.Length == |was| && g.Valid()
      invariant forall x: NodeId :: x < |was| ==> (live[x] <==> Wanted(was, x))
      invariant forall x: NodeId :: x < |was| ==>
        g.nodes[x] == if x < id then SweptNode(was[x], x, Wanted(was, x)) else was[x]
      invariant removed == 0 <==> forall x: NodeId :: x < id ==> g.nodes[x].dead == was[x].dead
    {
      if id != START && !g.nodes[id].dead {
        if live[id] {
          SetLive(g, id);
        } else {
          g.MarkDead(id);
          removed := removed + 1;
          assert g.nodes[id].dead != was[id].dead;
        }
      }
      id := id + 1;
    }
  }

  method SetLive(g: SeaGraph, id: NodeId)
    requires g.Valid() && id < |g.nodes|
    modifies g
    ensures g.Valid() && g.nodes == old(g.nodes)[id := old(g.nodes)[id].(live := true)]
  {
    ghost var was := g.nodes;
    g.nodes := g.nodes[id := g.nodes[id].(live := true)];
    forall a: NodeId, b: NodeId | a != INVALID ensures Entries(g.outputs, a, b) == Uses(g.nodes, b, a) {
      assert Entries(g.outputs, a, b) == Uses(was, b, a);
    }
  }

  // ---- What the sweep leaves ----

  lemma {:induction false} WalkSurvives(nodes: seq<Node>, now: seq<Node>, p: seq<NodeId>)
    requires Swept(nodes, now) && Walk(nodes, p)
    ensures Walk(now, p)
  {
    forall i | 0 <= i < |p| ensures !now[p[i]].dead {
      PrefixWalk(nodes, p, i);
      assert Wanted(nodes, p[i]);
    }
  }

  lemma PrefixWalk(nodes: seq<Node>, p: seq<NodeId>, i: nat)
    requires Walk(nodes, p) && i < |p|
    ensures Walk(nodes, p[..i + 1]) && p[..i + 1][|p[..i + 1]| - 1] == p[i]
  {
  }

  /** Exactly the entry node and what a root needs survive. */
  lemma SurvivorsAreWanted(nodes: seq<Node>, now: seq<Node>, id: NodeId)
    requires Swept(nodes, now) && id < |nodes| && !nodes[id].dead
    ensures !now[id].dead <==> Kept(nodes, id)
    ensures Wanted(now, id) <==> Wanted(nodes, id)
  {
    if Wanted(nodes, id) {
      var p: seq<NodeId> :| Walk(nodes, p) && p[|p| - 1] == id;
      WalkSurvives(nodes, now, p);
    }
    if Wanted(now, id) {
      var p: seq<NodeId> :| Walk(now, p) && p[|p| - 1] == id;
      assert Walk(nodes, p);
    }
  }

  // ---- The same, by the kinds of the nodes ----

  /** What a program does that can be seen from outside: calls with unknown effects, atomics, fences, guards and their
      exits, and what it returns. */
  predicate Observable(k: NodeKind) {
    k.CallCrowded? || k.AtomicLoad? || k.AtomicStore? || k.AtomicRMW? || k.Fence? || k.Guard? || k.Deopt?
      || k.Return? || k.Stop?
  }

  /** `id` is an input of an input ... of an observable node, all of them alive. */
  ghost predicate NeededFrom(nodes: seq<Node>, p: seq<NodeId>, id: NodeId) {
    && p != [] && p[|p| - 1] == id
    && (forall i :: 0 <= i < |p| ==> p[i] < |nodes| && !nodes[p[i]].dead)
    && Observable(nodes[p[0]].kind)
    && forall i :: 0 < i < |p| ==> p[i] in nodes[p[i - 1]].inputs
  }

  /** What is observable stays as it is. */
  lemma ObservableStays(nodes: seq<Node>, now: seq<Node>, id: NodeId)
    requires Swept(nodes, now) && id < |nodes| && !nodes[id].dead && Observable(nodes[id].kind)
    ensures !now[id].dead && now[id].kind == nodes[id].kind && now[id].inputs == nodes[id].inputs
  {
    RootKinds(nodes[id]);
    hide IsRoot, Observable, Wanted;
    RootWanted(nodes, id);
  }

  /** Exactly the entry node and what something observable needs survives. */
  lemma SurvivorsAreNeeded(nodes: seq<Node>, now: seq<Node>, id: NodeId)
    requires Swept(nodes, now) && id < |nodes| && !nodes[id].dead
    ensures !now[id].dead <==> id == START || exists p: seq<NodeId> :: NeededFrom(nodes, p, id)
  {
    SurvivorsAreWanted(nodes, now, id);
    WantedIsNeeded(nodes, id);
    hide Wanted, NeededFrom, Swept;
  }

  lemma WalkIsNeeded(nodes: seq<Node>, p: seq<NodeId>, id: NodeId)
    ensures NeededFrom(nodes, p, id) <==> Walk(nodes, p) && p[|p| - 1] == id
  {
    if p != [] && p[0] < |nodes| { RootKinds(nodes[p[0]]); }
    hide IsRoot, Observable;
  }

  lemma RootKinds(n: Node)
    ensures IsRoot(n) <==> !n.dead && Observable(n.kind)
  {
  }

  lemma WantedIsNeeded(nodes: seq<Node>, id: NodeId)
    ensures Wanted(nodes, id) <==> exists p: seq<NodeId> :: NeededFrom(nodes, p, id)
  {
    hide NeededFrom, IsRoot;
    if Wanted(nodes, id) {
      var p: seq<NodeId> :| Walk(nodes, p) && p[|p| - 1] == id;
      WalkIsNeeded(nodes, p, id);
    }
    if p: seq<NodeId> :| NeededFrom(nodes, p, id) {
      WalkIsNeeded(nodes, p, id);
    }
  }

  /** A second run finds nothing to remove. */
  lemma SweptTwice(nodes: seq<Node>, now: seq<Node>, again: seq<Node>)
    requires Swept(nodes, now) && Swept(now, again)
    ensures forall id: NodeId :: id < |nodes| ==> again[id] == now[id]
  {
    forall id: NodeId | id < |nodes| ensures again[id] == now[id] {
      if !nodes[id].dead { SurvivorsAreWanted(nodes, now, id); }
    }
  }

  /** No surviving node loses an input, so the verifier's edge check still passes. */
  lemma SweptAlive(nodes: seq<Node>, now: seq<Node>)
    requires Swept(nodes, now) && InputsAlive(nodes) && (nodes != [] ==> nodes[START].inputs == [])
    ensures InputsAlive(now)
  {
    forall id: NodeId | id < |now| && !now[id].dead ensures AliveIn(now, now[id].inputs) {
      if id != START {
        assert AliveIn(nodes, nodes[id].inputs);
        forall i | 0 <= i < |nodes[id].inputs|
          ensures var x := nodes[id].inputs[i]; x == INVALID || (x < |now| && !now[x].dead)
        {
          var x := nodes[id].inputs[i];
          if x != INVALID { InputWanted(nodes, id, x); }
        }
      }
    }
  }

  /** Returns stay, and every surviving node keeps its meaning. */
  lemma SweptKeeps(nodes: seq<Node>, now: seq<Node>, w: World, v: Values)
    requires Swept(nodes, now) && Satisfies(nodes, w, v)
    ensures Satisfies(now, w, v)
    ensures forall id: NodeId :: id < |nodes| && nodes[id].kind.Return? ==>
      now[id].dead == nodes[id].dead && now[id].inputs == nodes[id].inputs
  {
    forall id: NodeId, t: nat | id < |now| && !now[id].dead ensures v(t, id) == Meaning(w, now[id], id, v, t) {
      assert SameInputs(v, nodes[id].inputs, v, now[id].inputs);
      SameMeaning(w, nodes[id], now[id], id, v, v, t);
    }
    forall id: NodeId | id < |nodes| && nodes[id].kind.Return? && !nodes[id].dead ensures !now[id].dead {
      RootWanted(nodes, id);
    }
  }

  // ---- Nothing new either ----

  predicate Removed(nodes: seq<Node>, now: seq<Node>, id: NodeId) {
    id < |nodes| && id < |now| && !nodes[id].dead && now[id].dead
  }

  /** An input that was not removed, or is computed before the node. */
  predicate Below(nodes: seq<Node>, now: seq<Node>, rank: NodeId -> nat, x: NodeId, id: NodeId) {
    Removed(nodes, now, x) ==> rank(x) < rank(id)
  }

  /** The removed nodes can be computed in order: each from removed nodes of lower rank, and a phi from an earlier
      moment. */
  ghost predicate Computable(nodes: seq<Node>, now: seq<Node>, w: World, rank: NodeId -> nat) {
    forall id: NodeId :: Removed(nodes, now, id) ==> ComputableNode(nodes, now, w, rank, id)
  }

  ghost predicate ComputableNode(nodes: seq<Node>, now: seq<Node>, w: World, rank: NodeId -> nat, id: NodeId)
    requires id < |nodes|
  {
    var ins := nodes[id].inputs;
    if nodes[id].kind.Phi? && |ins| >= 2 then
      && Below(nodes, now, rank, ins[0], id)
      && forall x: Word, t: nat {:trigger w.route(x, t)} ::
           var (slot, before) := w.route(x, t);
           before < t || (before == t && Below(nodes, now, rank, ins[PhiSlot(ins, slot)], id))
    else
      forall i :: 0 <= i < |ins| ==> Below(nodes, now, rank, ins[i], id)
  }

  /** The value a removed node had, given those of the others. */
  ghost function Recomputed(nodes: seq<Node>, now: seq<Node>, w: World, rank: NodeId -> nat, v: Values, t: nat,
        id: NodeId): Word
    decreases t, rank(id), 1
  {
    if Removed(nodes, now, id) then
      Meaning(w, nodes[id], id, (s: nat, x: NodeId) => KnownBefore(nodes, now, w, rank, v, t, id, s, x), t)
    else v(t, id)
  }

  /** What is known when that value is computed. */
  ghost function KnownBefore(nodes: seq<Node>, now: seq<Node>, w: World, rank: NodeId -> nat, v: Values, t: nat,
        id: NodeId, s: nat, x: NodeId): Word
    decreases t, rank(id), 0
  {
    if s < t || (s == t && rank(x) < rank(id)) then Recomputed(nodes, now, w, rank, v, s, x) else v(s, x)
  }

  /** Meaning depends only on the inputs read: all of them now, or a phi's region now and one value at its moment. */
  lemma ReadMeaning(w: World, n: Node, id: NodeId, v: Values, u: Values, t: nat)
    requires !(n.kind.Phi? && |n.inputs| >= 2) ==> forall i :: 0 <= i < |n.inputs| ==>
      v(t, n.inputs[i]) == u(t, n.inputs[i])
    requires n.kind.Phi? && |n.inputs| >= 2 ==>
      && v(t, n.inputs[0]) == u(t, n.inputs[0])
      && var (slot, before) := w.route(v(t, n.inputs[0]), t);
         v(before, n.inputs[PhiSlot(n.inputs, slot)]) == u(before, n.inputs[PhiSlot(n.inputs, slot)])
    ensures Meaning(w, n, id, v, t) == Meaning(w, n, id, u, t)
  {
    hide EvalBin, EvalUn, Args;
    if !(n.kind.Phi? && |n.inputs| >= 2) {
      forall i | 0 <= i < |n.inputs| ensures Args(v, t, n.inputs)[i] == Args(u, t, n.inputs)[i] {
        ArgsAt(v, t, n.inputs, i);
        ArgsAt(u, t, n.inputs, i);
      }
      assert Args(v, t, n.inputs) == Args(u, t, n.inputs);
    }
  }

  lemma RecomputedMeets(nodes: seq<Node>, now: seq<Node>, w: World, rank: NodeId -> nat, v: Values, u: Values,
        t: nat, id: NodeId)
    requires Computable(nodes, now, w, rank) && Removed(nodes, now, id)
    requires forall s: nat, x: NodeId :: u(s, x) == Recomputed(nodes, now, w, rank, v, s, x)
    ensures u(t, id) == Meaning(w, nodes[id], id, u, t)
  {
    hide Meaning;
    var n := nodes[id];
    var part: Values := (s: nat, x: NodeId) => KnownBefore(nodes, now, w, rank, v, t, id, s, x);
    assert ComputableNode(nodes, now, w, rank, id);
    assert u(t, id) == Meaning(w, n, id, part, t);
    if n.kind.Phi? && |n.inputs| >= 2 {
      assert part(t, n.inputs[0]) == u(t, n.inputs[0]);
      var (slot, before) := w.route(part(t, n.inputs[0]), t);
      assert part(before, n.inputs[PhiSlot(n.inputs, slot)]) == u(before, n.inputs[PhiSlot(n.inputs, slot)]);
    }
    ReadMeaning(w, n, id, part, u, t);
  }

  /** Where the removed nodes are computable the graph before and after have the same runs: none is lost, and none is
      new. */
  lemma SweptEquivalent(nodes: seq<Node>, now: seq<Node>, w: World, rank: NodeId -> nat)
    requires Swept(nodes, now) && Computable(nodes, now, w, rank) && (nodes != [] ==> nodes[START].inputs == [])
    ensures Equivalent(nodes, now, w)
  {
    forall v: Values | Satisfies(nodes, w, v) ensures Extends(nodes, now, w, v) {
      SweptKeeps(nodes, now, w, v);
      assert Agree(v, v, now, |nodes|);
    }
    forall v: Values | Satisfies(now, w, v) ensures Restricts(nodes, now, w, v) {
      var u: Values := (t: nat, id: NodeId) => Recomputed(nodes, now, w, rank, v, t, id);
      SurvivorsMeet(nodes, now, w, rank, v, u);
      forall id: NodeId, t: nat | id < |nodes| && !nodes[id].dead ensures u(t, id) == Meaning(w, nodes[id], id, u, t) {
        if Removed(nodes, now, id) { RecomputedMeets(nodes, now, w, rank, v, u, t, id); }
      }
      assert Satisfies(nodes, w, u) && Agree(u, v, now, |nodes|);
    }
  }

  lemma SurvivorsMeet(nodes: seq<Node>, now: seq<Node>, w: World, rank: NodeId -> nat, v: Values, u: Values)
    requires Swept(nodes, now) && Satisfies(now, w, v) && (nodes != [] ==> nodes[START].inputs == [])
    requires forall s: nat, x: NodeId :: u(s, x) == Recomputed(nodes, now, w, rank, v, s, x)
    ensures forall id: NodeId, t: nat :: id < |nodes| && !now[id].dead ==>
      u(t, id) == v(t, id) == Meaning(w, nodes[id], id, u, t)
  {
    forall id: NodeId, t: nat | id < |nodes| && !now[id].dead
      ensures u(t, id) == v(t, id) == Meaning(w, nodes[id], id, u, t)
    {
      forall i: nat | i < |nodes[id].inputs| ensures !Removed(nodes, now, nodes[id].inputs[i]) {
        var x := nodes[id].inputs[i];
        if x < |nodes| && !nodes[x].dead && id != START { InputWanted(nodes, id, x); }
      }
      assert SameInputs(u, nodes[id].inputs, v, now[id].inputs);
      SameMeaning(w, nodes[id], now[id], id, u, v, t);
    }
  }
}
