/** Constant propagation: the fixpoint over the lattice, and the rewrite of what it proved constant. */
module ConstantPropagation {
  import opened Wrappers
  import opened Words
  import opened IR
  import opened UseDef
  import opened Graph
  import opened Valuation
  import opened Rewriting
  import opened Lattice

  // ---- The fixpoint ----

  function Heights(state: seq<Cell>): nat {
    if state == [] then 0 else Heights(state[..|state| - 1]) + Height(state[|state| - 1])
  }

  lemma {:induction false} HeightsUpdate(state: seq<Cell>, id: nat, cell: Cell)
    requires id < |state|
    ensures Heights(state[id := cell]) == Heights(state) - Height(state[id]) + Height(cell)
  {
    var last := |state| - 1;
    if id < last {
      HeightsUpdate(state[..last], id, cell);
      assert state[id := cell][..last] == state[..last][id := cell];
    } else {
      assert state[id := cell][..last] == state[..last];
    }
  }

  method PhiCell(nodes: seq<Node>, state: array<Cell>, ins: seq<NodeId>) returns (meet: Option<Word>)
    requires state.Length == |nodes|
    ensures meet == PhiMeet(nodes, state[..], ins, 0, None)
  {
    meet := None;
    var i := 0;
    while i < |ins|
      invariant PhiMeet(nodes, state[..], ins, i, meet) == PhiMeet(nodes, state[..], ins, 0, None)
    {
      var x := ins[i];
      if InGraph(nodes, x) && !IsMerge(nodes[x].kind) {
        if !state[x].Const? { return None; }
        if meet.None? {
          meet := Some(state[x].value);
        } else if meet.value != state[x].value {
          return None;
        }
      }
      i := i + 1;
    }
  }

  method FoldCell(nodes: seq<Node>, state: array<Cell>, kind: NodeKind, ins: seq<NodeId>) returns (cell: Cell)
    requires state.Length == |nodes|
    ensures cell == Fold(nodes, state[..], kind, ins, 0, None, true)
  {
    hide Apply;
    var acc: Option<Word>, all := None, true;
    var i := 0;
    while i < |ins|
      invariant Fold(nodes, state[..], kind, ins, i, acc, all) == Fold(nodes, state[..], kind, ins, 0, None, true)
    {
      var x := ins[i];
      if InGraph(nodes, x) {
        match state[x]
        case Top => all := false;
        case Bottom => return Bottom;
        case Const(v) =>
          if acc.None? {
            acc := Some(v);
          } else {
            var folded := Apply(kind, acc.value, v);
            if folded.None? { return Top; }
            acc := folded;
          }
      }
      i := i + 1;
    }
    cell := if all && acc.Some? then Const(acc.value) else Top;
  }

  /** Visits one node; `changed` says whether its cell fell. */
  method Visit(nodes: seq<Node>, state: array<Cell>, id: NodeId) returns (changed: bool)
    requires id < |nodes| == state.Length
    modifies state
    ensures state[..] == old(state[..])[id := Transfer(nodes, old(state[..]), id)]
    ensures changed <==> state[id] != old(state[id])
    ensures changed ==> Heights(state[..]) < Heights(old(state[..]))
  {
    hide PhiMeet, Fold;
    var n := nodes[id];
    if n.dead || n.kind.Constant? {
      assert state[..][id := state[id]] == state[..];
      return false;
    }
    var learned := Top;
    if n.kind.Phi? {
      var meet := PhiCell(nodes, state, n.DataIns());
      learned := if meet.Some? then Const(meet.value) else Bottom;
    } else if n.kind.Un? {
      if n.DataIns() != [] && InGraph(nodes, n.DataIns()[0]) {
        match state[n.DataIns()[0]]
        case Top =>
        case Bottom => learned := Bottom;
        case Const(v) => learned := Const(EvalUn(n.kind.un, v));
      }
    } else {
      learned := FoldCell(nodes, state, n.kind, n.DataIns());
    }
    assert learned == Learned(nodes, state[..], id);
    MergeFalls(state[id], learned);
    HeightsUpdate(state[..], id, Merge(state[id], learned));
    changed := Merge(state[id], learned) != state[id];
    state[id] := Merge(state[id], learned);
    assert state[..] == old(state[..])[id := Transfer(nodes, old(state[..]), id)];
  }

  /** Sweeps over all nodes until no cell changes: on every graph that ends, since cells only fall. */
  method Fixpoint(nodes: seq<Node>) returns (state: array<Cell>, ghost when: seq<nat>, ghost clock: nat)
    ensures fresh(state) && state.Length == |nodes| && Fixed(nodes, state[..])
    ensures Shaped(nodes) ==> Sound(nodes, state[..], when, clock) && Eager(nodes, state[..])
  {
    hide Sound, Shaped, Transfer, Eager;
    state := new Cell[|nodes|](i requires 0 <= i < |nodes| => Seed(nodes[i]));
    when := seq(|nodes|, _ => 0);
    clock := 1;
    SeedSound(nodes, state[..], when);
    SeedEager(nodes, state[..]);
    var changed := true;
    while changed
      invariant (Shaped(nodes) ==> Sound(nodes, state[..], when, clock) && Eager(nodes, state[..])) && |when| == |nodes|
      invariant !changed ==> Fixed(nodes, state[..])
      decreases Heights(state[..]), changed
    {
      changed := false;
      ghost var before := state[..];
      var id := 0;
      while id < |nodes|
        invariant id <= |nodes| && |when| == |nodes|
        invariant Shaped(nodes) ==> Sound(nodes, state[..], when, clock) && Eager(nodes, state[..])
        invariant !changed ==> state[..] == before
        invariant changed ==> Heights(state[..]) < Heights(before)
        invariant !changed ==> forall x: NodeId :: x < id ==> Transfer(nodes, before, x) == before[x]
      {
        if Shaped(nodes) {
          VisitEager(nodes, state[..], when, clock, id);
          VisitSound(nodes, state[..], when, clock, id);
        }
        ghost var cells := state[..];
        var fell := Visit(nodes, state, id);
        when := when[id := if cells[id].Const? then when[id] else clock];
        clock := clock + 1;
        if fell { changed := true; } else { assert state[..] == cells; }
        id := id + 1;
      }
    }
  }

  lemma SeedSound(nodes: seq<Node>, state: seq<Cell>, when: seq<nat>)
    requires |state| == |when| == |nodes|
    requires forall i :: 0 <= i < |nodes| ==> state[i] == Seed(nodes[i]) && when[i] == 0
    ensures Sound(nodes, state, when, 1)
  {
    forall id: NodeId | id < |nodes| && !nodes[id].dead ensures Justified(nodes, state, when, id) {
    }
  }

  // ---- What constant means ----

  /** No node of another kind has taken the constant of its single data input; a return may. */
  ghost predicate Harmless(nodes: seq<Node>, state: seq<Cell>)
    requires |state| == |nodes|
  {
    forall id: NodeId :: id < |nodes| && !nodes[id].dead && IsOpaque(nodes[id].kind) && !nodes[id].kind.Return?
      ==> !state[id].Const?
  }

  /** At the fixpoint that means: none has a single data input in the graph that is constant. */
  lemma HarmlessExactly(nodes: seq<Node>, state: seq<Cell>, when: seq<nat>, clock: nat)
    requires Sound(nodes, state, when, clock) && Fixed(nodes, state)
    ensures Harmless(nodes, state) <==>
      !exists id: NodeId :: id < |nodes| && !nodes[id].dead && IsOpaque(nodes[id].kind) && !nodes[id].kind.Return?
        && TakesConstant(nodes, state, id)
  {
    hide Sound, Fixed;
    assert |state| == |nodes| by { SoundSizes(nodes, state, when, clock); }
    forall id: NodeId | id < |nodes| && !nodes[id].dead && IsOpaque(nodes[id].kind)
      ensures state[id].Const? <==> TakesConstant(nodes, state, id)
    {
      SingleInputFolds(nodes, state, when, clock, id);
    }
  }

  /** One data input in the graph, and that constant. */
  ghost predicate TakesConstant(nodes: seq<Node>, state: seq<Cell>, id: NodeId)
    requires id < |nodes| == |state|
  {
    var ins := KnownIns(nodes, nodes[id]);
    |ins| == 1 && ins[0] < |nodes| && state[ins[0]].Const?
  }

  lemma SoundSizes(nodes: seq<Node>, state: seq<Cell>, when: seq<nat>, clock: nat)
    requires Sound(nodes, state, when, clock)
    ensures |state| == |when| == |nodes|
  {
  }

  /** A node whose equation is in force takes the constant of its cell, whatever run it is part of: its inputs do. */
  lemma {:induction false} ConstMeaning(nodes: seq<Node>, state: seq<Cell>, when: seq<nat>, a: NodeId, w: World,
        u: Values, x: NodeId, t: nat)
    requires Founded(nodes, state, when) && Harmless(nodes, state) && SatisfiesExcept(nodes, a, w, u)
    requires x < |nodes| && !nodes[x].dead && state[x].Const? && (a < |nodes| ==> when[x] <= when[a])
    ensures Meaning(w, nodes[x], x, u, t) == state[x].value
    decreases when[x], 1
  {
    var n, c := nodes[x], state[x].value;
    assert Justified(nodes, state, when, x);
    match n.kind
    case Constant =>
    case Phi =>
      var (slot, before) := w.route(u(t, n.inputs[0]), t);
      var i := PhiSlot(n.inputs, slot);
      ConstInput(nodes, state, when, a, w, u, n.inputs[i], c, when[x], before);
    case Un(op) =>
      var k: Word :| ConstBefore(nodes, state, when, n.inputs[0], k, when[x]) && c == EvalUn(op, k);
      ConstInput(nodes, state, when, a, w, u, n.inputs[0], k, when[x], t);
    case Bin(op) =>
      hide EvalBin;
      var k: Word, l: Word :| ConstBefore(nodes, state, when, n.inputs[0], k, when[x])
        && ConstBefore(nodes, state, when, n.inputs[1], l, when[x]) && EvalBin(op, k, l) == Some(c);
      ConstInput(nodes, state, when, a, w, u, n.inputs[0], k, when[x], t);
      ConstInput(nodes, state, when, a, w, u, n.inputs[1], l, when[x], t);
    case Return => ConstInput(nodes, state, when, a, w, u, n.inputs[RETURN_VALUE], c, when[x], t);
    case _ =>
  }

  lemma {:induction false} ConstInput(nodes: seq<Node>, state: seq<Cell>, when: seq<nat>, a: NodeId, w: World,
        u: Values, x: NodeId, v: Word, bound: nat, t: nat)
    requires Founded(nodes, state, when) && Harmless(nodes, state) && SatisfiesExcept(nodes, a, w, u)
    requires ConstBefore(nodes, state, when, x, v, bound) && (a < |nodes| ==> bound <= when[a])
    ensures u(t, x) == v
    decreases bound, 0
  {
    ConstMeaning(nodes, state, when, a, w, u, x, t);
    assert u(t, x) == Meaning(w, nodes[x], x, u, t);
  }

  /** A node marked with a constant never takes another value, at any time, in any run, on cyclic graphs too. */
  lemma ConstantsAreConstant(nodes: seq<Node>, state: seq<Cell>, when: seq<nat>, clock: nat, w: World, v: Values,
        id: NodeId, t: nat)
    requires Sound(nodes, state, when, clock) && Harmless(nodes, state) && Satisfies(nodes, w, v)
    requires id < |nodes| && !nodes[id].dead && state[id].Const?
    ensures v(t, id) == state[id].value
  {
    ConstMeaning(nodes, state, when, |nodes|, w, v, id, t);
    assert v(t, id) == Meaning(w, nodes[id], id, v, t);
  }

  // ---- Exactly when the constants are right ----

  /** The inputs a node's own equation reads at the same moment when phis take their entry value. */
  function ReadNow(n: Node): seq<NodeId> {
    if n.kind.Phi? && |n.inputs| >= 2 then [n.inputs[1]]
    else if n.kind.Bin? || n.kind.Un? || n.kind.Select? then n.inputs
    else if n.kind.Return? && |n.inputs| == RETURN_INPUTS then [n.inputs[RETURN_VALUE]]
    else []
  }

  /** Arithmetic, returns and phi entries lead down to nodes of lower rank: the graph's cycles go through back edges,
      calls or control. */
  ghost predicate Layered(nodes: seq<Node>, rank: seq<nat>) {
    && |rank| == |nodes|
    && forall id: NodeId, i: nat :: id < |nodes| && !nodes[id].dead && i < |ReadNow(nodes[id])|
         && ReadNow(nodes[id])[i] < |nodes|
         ==> rank[ReadNow(nodes[id])[i]] < rank[id]
  }

  /** Every call, cast and projection gives `k`, and every merge is reached by its entry. */
  function Uniform(k: Word): World {
    World((kind, ty, p, args) => k, (id, t, args) => k, (x, t) => (0, t))
  }

  /** The values of the nodes in that world. */
  ghost function UniformValue(nodes: seq<Node>, rank: seq<nat>, k: Word, id: NodeId): Word
    requires Layered(nodes, rank)
    decreases if id < |nodes| then rank[id] + 1 else 0, 1
  {
    if id >= |nodes| || nodes[id].dead then k
    else
      var n := nodes[id];
      if n.kind.Constant? then n.payload
      else if n.kind.Bin? && |n.inputs| == 2 then
        var r := EvalBin(n.kind.bin, UniformRead(nodes, rank, k, id, 0), UniformRead(nodes, rank, k, id, 1));
        if r.Some? then r.value else k
      else if n.kind.Un? && |n.inputs| == 1 then EvalUn(n.kind.un, UniformRead(nodes, rank, k, id, 0))
      else if n.kind.Select? && |n.inputs| == SELECT_INPUTS then
        if UniformRead(nodes, rank, k, id, 0) != 0 then UniformRead(nodes, rank, k, id, 1)
          else UniformRead(nodes, rank, k, id, 2)
      else if (n.kind.Phi? && |n.inputs| >= 2) || (n.kind.Return? && |n.inputs| == RETURN_INPUTS) then
        UniformRead(nodes, rank, k, id, 0)
      else k
  }

  /** The value of the `i`-th input the node reads. */
  ghost function UniformRead(nodes: seq<Node>, rank: seq<nat>, k: Word, id: NodeId, i: nat): Word
    requires Layered(nodes, rank) && id < |nodes| && !nodes[id].dead && i < |ReadNow(nodes[id])|
    decreases rank[id] + 1, 0
  {
    UniformValue(nodes, rank, k, ReadNow(nodes[id])[i])
  }

  lemma UniformRuns(nodes: seq<Node>, rank: seq<nat>, k: Word) returns (v: Values)
    requires Layered(nodes, rank)
    ensures Satisfies(nodes, Uniform(k), v) && forall t: nat, id: NodeId :: v(t, id) == UniformValue(nodes, rank, k, id)
  {
    v := (t: nat, id: NodeId) => UniformValue(nodes, rank, k, id);
    forall id: NodeId, t: nat | id < |nodes| && !nodes[id].dead
      ensures v(t, id) == Meaning(Uniform(k), nodes[id], id, v, t)
    {
      UniformMeaning(nodes, rank, k, v, id, t);
    }
  }

  lemma UniformMeaning(nodes: seq<Node>, rank: seq<nat>, k: Word, v: Values, id: NodeId, t: nat)
    requires Layered(nodes, rank) && id < |nodes| && !nodes[id].dead
    requires forall t: nat, x: NodeId :: v(t, x) == UniformValue(nodes, rank, k, x)
    ensures UniformValue(nodes, rank, k, id) == Meaning(Uniform(k), nodes[id], id, v, t)
  {
    hide EvalBin, EvalUn, Args, Layered;
    var n := nodes[id];
    if n.kind.Phi? && |n.inputs| >= 2 { assert PhiSlot(n.inputs, 0) == 1; }
  }

  /** Whatever runs the graph has, a node marked constant has that value. */
  ghost predicate ConstantsRight(nodes: seq<Node>, state: seq<Cell>)
    requires |state| == |nodes|
  {
    forall w: World, v: Values, id: NodeId, t: nat {:trigger Satisfies(nodes, w, v), state[id], v(t, id)} ::
      Satisfies(nodes, w, v) && id < |nodes| && !nodes[id].dead && state[id].Const? ==> v(t, id) == state[id].value
  }

  lemma RightIf(nodes: seq<Node>, state: seq<Cell>)
    requires |state| == |nodes|
    requires forall w: World, v: Values, id: NodeId, t: nat {:trigger Satisfies(nodes, w, v), state[id], v(t, id)} ::
      Satisfies(nodes, w, v) && id < |nodes| && !nodes[id].dead && state[id].Const? ==> v(t, id) == state[id].value
    ensures ConstantsRight(nodes, state)
  {
  }

  lemma TwoKnown(nodes: seq<Node>, ins: seq<NodeId>)
    requires |ins| >= 2 && InGraph(nodes, ins[0]) && InGraph(nodes, ins[1])
    ensures |InGraphIns(nodes, ins, 0)| >= 2
  {
    var rest := InGraphIns(nodes, ins, 1);
    assert InGraphIns(nodes, ins, 0) == [ins[0]] + rest && rest == [ins[1]] + InGraphIns(nodes, ins, 2);
  }

  /** A selection has more than one data input. */
  lemma NotSelect(nodes: seq<Node>, state: seq<Cell>, id: NodeId)
    requires |state| == |nodes| && Shaped(nodes) && Modest(nodes, state)
    requires id < |nodes| && !nodes[id].dead && IsOpaque(nodes[id].kind) && state[id].Const?
    ensures !nodes[id].kind.Select?
  {
    var n := nodes[id];
    assert ShapedNode(nodes, n) && Follows(nodes, state, id);
    if n.kind.Select? { TwoKnown(nodes, n.inputs); }
  }

  lemma UniformOpaque(nodes: seq<Node>, rank: seq<nat>, k: Word, id: NodeId)
    requires Layered(nodes, rank) && id < |nodes| && !nodes[id].dead
    requires IsOpaque(nodes[id].kind) && !nodes[id].kind.Return? && !nodes[id].kind.Select?
    ensures UniformValue(nodes, rank, k, id) == k
  {
  }

  /** The constants are right exactly when no live call, cast or projection has a constant as its single data input. */
  lemma ConstantsRightExactly(nodes: seq<Node>, state: seq<Cell>, when: seq<nat>, clock: nat, rank: seq<nat>)
    requires Sound(nodes, state, when, clock) && Fixed(nodes, state) && Shaped(nodes) && Layered(nodes, rank)
    ensures |state| == |nodes|
    ensures ConstantsRight(nodes, state) <==>
      !exists id: NodeId :: id < |nodes| && !nodes[id].dead && IsOpaque(nodes[id].kind) && !nodes[id].kind.Return?
        && TakesConstant(nodes, state, id)
  {
    HarmlessExactly(nodes, state, when, clock);
    SoundSizes(nodes, state, when, clock);
    if Harmless(nodes, state) {
      hide *;
      forall w: World, v: Values, id: NodeId, t: nat | Satisfies(nodes, w, v) && id < |nodes| && !nodes[id].dead
        && state[id].Const?
        ensures v(t, id) == state[id].value
      {
        ConstantsAreConstant(nodes, state, when, clock, w, v, id, t);
      }
      RightIf(nodes, state);
    } else {
      var id: NodeId :| id < |nodes| && !nodes[id].dead && IsOpaque(nodes[id].kind) && !nodes[id].kind.Return?
        && state[id].Const?;
      NotSelect(nodes, state, id);
      var k := Wrap(state[id].value + 1);
      hide Sound, Fixed, Layered, UniformValue;
      var v := UniformRuns(nodes, rank, k);
      UniformOpaque(nodes, rank, k, id);
      assert v(0, id) == k;
      assert Satisfies(nodes, Uniform(k), v);
    }
  }

  // ---- The rewrite ----

  function ConstNode(c: Word, ty: nat): Node {
    NewNode(NodeKind.Constant, [], ty, c)
  }

  predicate Folds(nodes: seq<Node>, state: seq<Cell>, id: NodeId)
    requires id < |nodes| && id < |state|
  {
    var n := nodes[id];
    !n.dead && !n.kind.Constant? && n.IsPure() && state[id].Const?
  }

  function Folded(nodes: seq<Node>, state: seq<Cell>, id: NodeId): seq<Node>
    requires id < |nodes| && id < |state|
  {
    if Folds(nodes, state, id) then Killed(nodes + [ConstNode(state[id].value, nodes[id].ty)], id, |nodes|) else nodes
  }

  /** The original nodes from `id` on, each that is constant replaced by a new constant node. */
  function FoldAll(nodes: seq<Node>, state: seq<Cell>, id: NodeId, end: nat): seq<Node>
    requires end <= |nodes| && end <= |state|
    decreases end - id
  {
    if id >= end then nodes else FoldAll(Folded(nodes, state, id), state, id + 1, end)
  }

  /** New constants are known from the start. */
  lemma AddedFounded(nodes: seq<Node>, state: seq<Cell>, when: seq<nat>, c: Word, ty: nat)
    requires Founded(nodes, state, when) && InRange(nodes) && |nodes| < INVALID
    ensures Founded(nodes + [ConstNode(c, ty)], state + [Const(c)], when + [0])
  {
    var all, state', when' := nodes + [ConstNode(c, ty)], state + [Const(c)], when + [0];
    forall x: NodeId | x < |all| && !all[x].dead ensures Justified(all, state', when', x) {
      if x < |nodes| {
        assert Justified(nodes, state, when, x) && EdgesIn(nodes[x].inputs, |nodes|);
        SelfReplaced(nodes[x].inputs, |all|);
        RenamedJustified(nodes, state, when, all, state', when', x, |all|, |all|);
      }
    }
  }

  lemma {:induction false} SelfReplaced(s: seq<NodeId>, a: NodeId)
    ensures Replaced(s, a, a) == s
  {
    if s != [] { SelfReplaced(s[..|s| - 1], a); }
  }

  lemma EdgesAre(inputs: seq<NodeId>, size: nat)
    requires EdgesIn(inputs, size)
    ensures forall i :: 0 <= i < |inputs| ==> inputs[i] == INVALID || inputs[i] < size
  {
  }

  /** A justification carries over to a graph where one constant is replaced by an equal one known from the start. */
  lemma RenamedJustified(nodes: seq<Node>, state: seq<Cell>, when: seq<nat>, now: seq<Node>, state': seq<Cell>,
        when': seq<nat>, x: NodeId, a: NodeId, b: NodeId)
    requires |nodes| == |state| == |when| && |now| == |state'| == |when'| >= |nodes| && |now| <= INVALID
    requires x < |nodes| && Justified(nodes, state, when, x) && EdgesIn(nodes[x].inputs, |nodes|)
    requires now[x].kind == nodes[x].kind && now[x].payload == nodes[x].payload
      && now[x].inputs == Replaced(nodes[x].inputs, a, b)
    requires forall y: NodeId :: y < |nodes| ==>
      state'[y] == state[y] && when'[y] == when[y] && now[y].kind == nodes[y].kind
    requires forall y: NodeId :: y < |nodes| && y != a ==> now[y].dead == nodes[y].dead
    requires a >= |nodes| ==> b == a
    requires a < |nodes| ==>
      b < |now| && !now[b].dead && state'[b] == state[a] && when'[b] == 0 && !IsMerge(nodes[a].kind)
    ensures Justified(now, state', when', x)
  {
    hide EvalBin, EvalUn, Replaced, EdgesIn;
    var ins, ins' := nodes[x].inputs, now[x].inputs;
    forall i | 0 <= i < |ins| ensures ins'[i] == if ins[i] == a then b else ins[i] { ReplacedAt(ins, a, b, i); }
    forall i: nat, v: Word | i < |ins| && ConstBefore(nodes, state, when, ins[i], v, when[x])
      ensures ConstBefore(now, state', when', ins'[i], v, when'[x]) { }
    if state[x].Const? {
      match nodes[x].kind
      case Phi =>
        assert ins[0] == INVALID || ins[0] < |nodes| by { EdgesAre(ins, |nodes|); }
        forall i | 0 <= i < |ins'| && (i >= 1 || IsPhiValue(now, ins'[0]))
          ensures ConstBefore(now, state', when', ins'[i], state'[x].value, when'[x])
        {
        }
      case Un(op) =>
        var k: Word :| ConstBefore(nodes, state, when, ins[0], k, when[x]) && state[x].value == EvalUn(op, k);
        assert ConstBefore(now, state', when', ins'[0], k, when'[x]);
      case Bin(op) =>
        var k: Word, l: Word :| ConstBefore(nodes, state, when, ins[0], k, when[x])
          && ConstBefore(nodes, state, when, ins[1], l, when[x]) && EvalBin(op, k, l) == Some(state[x].value);
        assert ConstBefore(now, state', when', ins'[0], k, when'[x])
          && ConstBefore(now, state', when', ins'[1], l, when'[x]);
      case _ =>
    }
  }

  lemma KilledFounded(all: seq<Node>, state: seq<Cell>, when: seq<nat>, a: NodeId, b: NodeId)
    requires Founded(all, state, when) && InRange(all) && |all| <= INVALID && a < |all| && b < |all| && a != b
    requires !all[a].dead && !all[b].dead && state[a].Const? && state[b] == state[a] && when[b] == 0
    requires Harmless(all, state)
    ensures Founded(Killed(all, a, b), state, when) && Harmless(Killed(all, a, b), state)
  {
    var now := Killed(all, a, b);
    assert !IsMerge(all[a].kind);
    forall x: NodeId | x < |now| && !now[x].dead ensures Justified(now, state, when, x) {
      assert Justified(all, state, when, x) && EdgesIn(all[x].inputs, |all|);
      hide Founded, Killed;
      RenamedJustified(all, state, when, now, state, when, x, a, b);
    }
  }

  /** Replacing one proved constant keeps every valuation, and what is known about the others. */
  lemma FoldedEquivalent(nodes: seq<Node>, state: seq<Cell>, when: seq<nat>, id: NodeId, w: World)
    requires Founded(nodes, state, when) && Harmless(nodes, state) && InRange(nodes) && |nodes| < INVALID
    requires id < |nodes| && id < |state| && Folds(nodes, state, id)
    ensures state[id].Const?
    ensures var c, now := state[id].value, Folded(nodes, state, id);
      && Equivalent(nodes, now, w) && Later(nodes, now) && InRange(now) && |now| == |nodes| + 1
      && Founded(now, state + [Const(c)], when + [0]) && Harmless(now, state + [Const(c)])
  {
    hide Equivalent, Founded, InRange, SatisfiesExcept, Killed, Meaning;
    var c := state[id].value;
    var all := nodes + [ConstNode(c, nodes[id].ty)];
    AddedEquivalent(nodes, ConstNode(c, nodes[id].ty), w);
    AddedFounded(nodes, state, when, c, nodes[id].ty);
    assert |state| == |when| == |nodes| by { FoundedSizes(nodes, state, when); }
    var state', when' := state + [Const(c)], when + [0];
    assert all[id] == nodes[id] && state'[id] == state[id];
    assert |all| == |state'| && Harmless(all, state');
    forall u: Values, t: nat | SatisfiesExcept(all, id, w, u) ensures Meaning(w, all[id], id, u, t) == u(t, |nodes|) {
      ConstMeaning(all, state', when', id, w, u, id, t);
      ConstNodeValue(all, |nodes|, id, c, w, u, t);
    }
    KillEquivalent(all, id, |nodes|, w);
    EquivalentTrans(nodes, all, Killed(all, id, |nodes|), w);
    KilledFounded(all, state', when', id, |nodes|);
    KilledInRange(all, id, |nodes|);
  }

  lemma FoundedSizes(nodes: seq<Node>, state: seq<Cell>, when: seq<nat>)
    requires Founded(nodes, state, when)
    ensures |state| == |when| == |nodes|
  {
  }

  lemma ConstNodeValue(all: seq<Node>, x: NodeId, a: NodeId, c: Word, w: World, u: Values, t: nat)
    requires SatisfiesExcept(all, a, w, u) && x < |all| && x != a && all[x].kind.Constant? && all[x].payload == c
      && !all[x].dead
    ensures u(t, x) == c
  {
    assert u(t, x) == Meaning(w, all[x], x, u, t);
  }

  /** The whole rewrite changes the value of no remaining node, returned values included. */
  lemma {:induction false} FoldAllEquivalent(nodes: seq<Node>, state: seq<Cell>, when: seq<nat>, id: NodeId,
        end: nat, w: World)
    requires Founded(nodes, state, when) && Harmless(nodes, state) && InRange(nodes)
    requires end <= |nodes| && |nodes| + (if id < end then end - id else 0) < INVALID
    ensures Equivalent(nodes, FoldAll(nodes, state, id, end), w) && Later(nodes, FoldAll(nodes, state, id, end))
    decreases end - id
  {
    hide *;
    FoundedSizes(nodes, state, when);
    FoldAllUnfolds(nodes, state, id, end);
    if id >= end {
      EquivalentSelf(nodes, w);
    } else if Folds(nodes, state, id) {
      FoldedEquivalent(nodes, state, when, id, w);
      var now, state', when' := Folded(nodes, state, id), state + [Const(state[id].value)], when + [0];
      FoldAllEquivalent(now, state', when', id + 1, end, w);
      SamePrefix(now, state, state', id + 1, end);
      EquivalentTrans(nodes, now, FoldAll(nodes, state, id, end), w);
    } else {
      NotFolded(nodes, state, id);
      FoldAllEquivalent(nodes, state, when, id + 1, end, w);
    }
  }

  lemma FoldAllUnfolds(nodes: seq<Node>, state: seq<Cell>, id: NodeId, end: nat)
    requires end <= |nodes| && end <= |state|
    ensures FoldAll(nodes, state, id, end) == if id >= end then nodes
      else FoldAll(Folded(nodes, state, id), state, id + 1, end)
  {
  }

  lemma NotFolded(nodes: seq<Node>, state: seq<Cell>, id: NodeId)
    requires id < |nodes| && id < |state| && !Folds(nodes, state, id)
    ensures Folded(nodes, state, id) == nodes
  {
  }

  lemma {:induction false} SamePrefix(nodes: seq<Node>, state: seq<Cell>, longer: seq<Cell>, id: NodeId, end: nat)
    requires end <= |nodes| && end <= |state| && state <= longer
    ensures FoldAll(nodes, state, id, end) == FoldAll(nodes, longer, id, end)
    decreases end - id
  {
    if id < end {
      assert longer[id] == state[id];
      assert Folded(nodes, state, id) == Folded(nodes, longer, id);
      hide Folded;
      SamePrefix(Folded(nodes, state, id), state, longer, id + 1, end);
    }
  }

  lemma FoldedIs(nodes: seq<Node>, state: seq<Cell>, id: NodeId)
    requires id < |nodes| && id < |state| && Folds(nodes, state, id)
    ensures Folded(nodes, state, id) == Killed(nodes + [ConstNode(state[id].value, nodes[id].ty)], id, |nodes|)
  {
  }

  lemma FoldedAlive(nodes: seq<Node>, state: seq<Cell>, id: NodeId)
    requires InputsAlive(nodes) && id < |nodes| && id < |state| && Folds(nodes, state, id)
    ensures InputsAlive(Folded(nodes, state, id))
  {
    var all := nodes + [ConstNode(state[id].value, nodes[id].ty)];
    forall x: NodeId | x < |all| && !all[x].dead ensures AliveIn(all, all[x].inputs) {
      if x < |nodes| { assert AliveIn(nodes, nodes[x].inputs); }
    }
    KilledAlive(all, id, |nodes|);
  }

  /** Exactly the live nodes without effects that are constant, and are not constants already, go. */
  lemma {:induction false} FoldAllExactly(nodes: seq<Node>, state: seq<Cell>, id: NodeId, end: nat, x: NodeId)
    requires end <= |nodes| && end <= |state| && x < |nodes|
    ensures x < |FoldAll(nodes, state, id, end)|
    ensures FoldAll(nodes, state, id, end)[x].dead <==>
      nodes[x].dead || (id <= x < end && !nodes[x].kind.Constant? && !HasEffects(nodes[x].kind) && state[x].Const?)
    decreases end - id
  {
    hide Folded;
    if id < end {
      FoldedNodes(nodes, state, id, x);
      FoldAllExactly(Folded(nodes, state, id), state, id + 1, end, x);
    }
  }

  lemma FoldedNodes(nodes: seq<Node>, state: seq<Cell>, id: NodeId, x: NodeId)
    requires id < |nodes| && id < |state| && x < |nodes|
    ensures var now := Folded(nodes, state, id);
      && |nodes| <= |now| && now[x].kind == nodes[x].kind
      && (now[x].dead <==>
            nodes[x].dead || (x == id && !nodes[x].kind.Constant? && !HasEffects(nodes[x].kind) && state[x].Const?))
  {
  }

  // ---- The pass ----

  method Run(g: SeaGraph) returns (removed: nat, ghost state: seq<Cell>, ghost when: seq<nat>, ghost clock: nat)
    requires g.Valid() && 2 * |g.nodes| < INVALID
    modifies g
    ensures |state| == |old(g.nodes)| && Fixed(old(g.nodes), state)
    ensures Shaped(old(g.nodes)) ==> Sound(old(g.nodes), state, when, clock) && Eager(old(g.nodes), state)
    ensures g.Valid() && g.nodes == FoldAll(old(g.nodes), state, 0, |old(g.nodes)|)
    ensures InputsAlive(old(g.nodes)) ==> InputsAlive(g.nodes)
    ensures removed == 0 ==> g.nodes == old(g.nodes)
  {
    hide Sound, Shaped, Fixed, Eager, Folded, Killed, InputsAlive;
    var cells: array<Cell>;
    cells, when, clock := Fixpoint(g.nodes);
    state := cells[..];
    removed := 0;
    var n := |g.nodes|;
    var id := 0;
    while id < n
      invariant cells[..] == state && n == |state| == |old(g.nodes)|
      invariant g.Valid() && n <= |g.nodes| && |g.nodes| <= n + id && id <= n
      invariant FoldAll(g.nodes, state, id, n) == FoldAll(old(g.nodes), state, 0, n)
      invariant InputsAlive(old(g.nodes)) ==> InputsAlive(g.nodes)
      invariant removed == 0 ==> g.nodes == old(g.nodes)
    {
      var nd := g.nodes[id];
      if !nd.dead && !nd.kind.Constant? && nd.IsPure() && cells[id].Const? {
        if InputsAlive(g.nodes) { FoldedAlive(g.nodes, state, id); }
        FoldedIs(g.nodes, state, id);
        var fresh_ := g.MakeNode(NodeKind.Constant, [], nd.ty, cells[id].value);
        KillNode(g, id, fresh_);
        removed := removed + 1;
      } else {
        NotFolded(g.nodes, state, id);
      }
      id := id + 1;
    }
  }

  // ---- A graph it is not meant for ----

  /** `return f(c)`, with a call that has effects. */
  function CallGraph(c: Word): seq<Node> {
    [NewNode(NodeKind.Start, [], 0, 0), ConstNode(c, 0), NewNode(CallAltered, [0, 0, 1], 0, 0),
     NewNode(Proj, [2], 0, 0), NewNode(Return, [0, 0, 3], 0, 0)]
  }

  function CallCells(c: Word): seq<Cell> {
    [Top, Const(c), Const(c), Const(c), Top]
  }

  /** The call takes the cell of its argument, and its projection that of the call. */
  lemma CallCellsFixed(c: Word)
    ensures Fixed(CallGraph(c), CallCells(c))
  {
    var nodes, state := CallGraph(c), CallCells(c);
    assert Fold(nodes, state, CallAltered, [1], 1, Some(c), true) == Const(c);
    assert Fold(nodes, state, Proj, [2], 1, Some(c), true) == Const(c);
    assert Fold(nodes, state, Return, [0, 0, 3], 1, None, false) == Fold(nodes, state, Return, [0, 0, 3], 2, None,
      false);
    assert nodes[2].DataIns() == [1];
  }

  function AfterCall(c: Word): seq<Node> {
    [NewNode(NodeKind.Start, [], 0, 0), ConstNode(c, 0), NewNode(CallAltered, [0, 0, 1], 0, 0),
     NewNode(Proj, [2], 0, 0).(dead := true), NewNode(Return, [0, 0, 5], 0, 0), ConstNode(c, 0)]
  }

  lemma CallRewritten(c: Word)
    ensures FoldAll(CallGraph(c), CallCells(c), 0, 5) == AfterCall(c)
  {
    var nodes, state, after := CallGraph(c), CallCells(c), AfterCall(c);
    assert !Folds(nodes, state, 0) && !Folds(nodes, state, 1) && !Folds(nodes, state, 2) && !Folds(after, state, 4);
    CallFolds(c);
    hide *;
    CallSizes(c);
    FoldAllUnfolds(nodes, state, 0, 5); NotFolded(nodes, state, 0);
    FoldAllUnfolds(nodes, state, 1, 5); NotFolded(nodes, state, 1);
    FoldAllUnfolds(nodes, state, 2, 5); NotFolded(nodes, state, 2);
    FoldAllUnfolds(nodes, state, 3, 5);
    FoldAllUnfolds(after, state, 4, 5); NotFolded(after, state, 4);
    FoldAllUnfolds(after, state, 5, 5);
  }

  lemma CallSizes(c: Word)
    ensures |CallGraph(c)| == |CallCells(c)| == 5 && |AfterCall(c)| == 6
  {
  }

  lemma CallFolds(c: Word)
    ensures Folded(CallGraph(c), CallCells(c), 3) == AfterCall(c)
  {
    var nodes, after := CallGraph(c), AfterCall(c);
    var all := nodes + [ConstNode(c, 0)];
    assert Folds(nodes, CallCells(c), 3) && CallCells(c)[3].value == c && nodes[3].ty == 0;
    FoldedIs(nodes, CallCells(c), 3);
    ReplacedThree(0, 0, 1);
    ReplacedThree(0, 0, 3);
    assert Replaced([2], 3, 5) == [2] && Replaced([], 3, 5) == [];
    hide Replaced, Folded;
    var k := Killed(all, 3, 5);
    assert k[0] == after[0] && k[1] == after[1] && k[2] == after[2];
    assert k[3] == after[3] && k[4] == after[4] && k[5] == after[5];
    assert k == after;
  }

  lemma ReplacedThree(x: NodeId, y: NodeId, z: NodeId)
    ensures Replaced([x, y, z], 3, 5) == [if x == 3 then 5 else x, if y == 3 then 5 else y, if z == 3 then 5 else z]
  {
    forall i | 0 <= i < 3 ensures Replaced([x, y, z], 3, 5)[i] == if [x, y, z][i] == 3 then 5 else [x, y, z][i] {
      ReplacedAt([x, y, z], 3, 5, i);
    }
  }

  function CallWorld(r: Word): World {
    World((k, ty, p, args) => if |args| > 0 then args[0] else 0, (id, t, args) => r, (x, t) => (0, t))
  }

  function CallValues(c: Word, r: Word): Values {
    (t, id) => if id == 1 then c else if id == 0 then 0 else r
  }

  lemma CallRuns(c: Word, r: Word)
    ensures Satisfies(CallGraph(c), CallWorld(r), CallValues(c, r))
  {
    var nodes, w, v := CallGraph(c), CallWorld(r), CallValues(c, r);
    forall id: NodeId, t: nat | id < 5 ensures v(t, id) == Meaning(w, nodes[id], id, v, t) {
      assert Args(v, t, [2]) == [r] by { assert [2][..0] == []; }
    }
  }

  lemma AfterCallReturns(c: Word, w: World, u: Values)
    requires Satisfies(AfterCall(c), w, u)
    ensures u(0, 4) == c
  {
    var now := AfterCall(c);
    assert u(0, 5) == Meaning(w, now[5], 5, u, 0);
    assert u(0, 4) == Meaning(w, now[4], 4, u, 0);
  }

  /** After the rewrite the program returns the argument, although the call may return anything else. */
  lemma CallIsLost(c: Word, r: Word)
    requires r != c
    ensures Fixed(CallGraph(c), CallCells(c))
    ensures !Equivalent(CallGraph(c), FoldAll(CallGraph(c), CallCells(c), 0, 5), CallWorld(r))
  {
    var nodes, now, w, v := CallGraph(c), AfterCall(c), CallWorld(r), CallValues(c, r);
    CallCellsFixed(c);
    CallRewritten(c);
    CallRuns(c, r);
    assert v(0, 4) == r;
    hide Satisfies, CallGraph, CallWorld, CallValues, FoldAll;
    forall u: Values ensures !(Satisfies(now, w, u) && Agree(v, u, now, 5)) {
      if Satisfies(now, w, u) {
        AfterCallReturns(c, w, u);
        assert u(0, 4) != v(0, 4);
      }
    }
    CallSizes(c);
    assert !Extends(nodes, now, w, v);
  }
}
