/** Copy propagation: identity casts, selects between equal values and phis of one value give way to that value. */
module CopyPropagation {
  import opened Wrappers
  import opened Words
  import opened IR
  import opened UseDef
  import opened Graph
  import opened Valuation
  import opened Rewriting

  // ---- What one visit does ----

  /** A phi's only value, passing over absent edges and regions; `first` is the value seen so far. */
  function OnlyValue(nodes: seq<Node>, inputs: seq<NodeId>, idx: nat, first: Option<NodeId>): Option<NodeId>
    decreases |inputs| - idx
  {
    if idx >= |inputs| then first
    else if Passed(nodes, inputs[idx]) then OnlyValue(nodes, inputs, idx + 1, first)
    else if first.None? then OnlyValue(nodes, inputs, idx + 1, Some(inputs[idx]))
    else if first.value != inputs[idx] then None
    else OnlyValue(nodes, inputs, idx + 1, first)
  }

  predicate Passed(nodes: seq<Node>, x: NodeId) {
    x == INVALID || x >= |nodes| || nodes[x].kind.Region? || nodes[x].kind.Loop?
  }

  /** The value a live node is a copy of. */
  function CopyOf(nodes: seq<Node>, id: NodeId): (r: Option<NodeId>)
    requires id < |nodes|
  {
    var n := nodes[id];
    if n.dead then None
    else if n.kind.Cast? && |n.inputs| == 1 then
      var src := n.inputs[0];
      if src != INVALID && src < |nodes| && nodes[src].ty == n.ty then Some(src) else None
    else if n.kind.Select? && |n.inputs| == SELECT_INPUTS && n.inputs[1] == n.inputs[2] && n.inputs[1] != INVALID then
      Some(n.inputs[1])
    else if n.kind.Phi? then OnlyValue(nodes, n.inputs, 1, None)
    else None
  }

  function Visit(nodes: seq<Node>, id: NodeId): (r: seq<Node>)
    requires id < |nodes|
    ensures |r| == |nodes|
  {
    var c := CopyOf(nodes, id);
    if c.Some? then Killed(nodes, id, c.value) else nodes
  }

  function Propagate(nodes: seq<Node>, id: NodeId): (r: seq<Node>)
    ensures |r| == |nodes|
    decreases |nodes| - id
  {
    if id >= |nodes| then nodes else Propagate(Visit(nodes, id), id + 1)
  }

  // ---- The pass ----

  method PhiCopy(nodes: seq<Node>, inputs: seq<NodeId>) returns (r: Option<NodeId>)
    ensures r == OnlyValue(nodes, inputs, 1, None)
  {
    var first: Option<NodeId> := None;
    var idx := 1;
    while idx < |inputs|
      invariant idx >= 1
      invariant OnlyValue(nodes, inputs, idx, first) == OnlyValue(nodes, inputs, 1, None)
    {
      var x := inputs[idx];
      if !Passed(nodes, x) {
        if first.None? {
          first := Some(x);
        } else if first.value != x {
          return None;
        }
      }
      idx := idx + 1;
    }
    r := first;
  }

  method FindCopy(nodes: seq<Node>, id: NodeId) returns (r: Option<NodeId>)
    requires id < |nodes| && !nodes[id].dead
    ensures r == CopyOf(nodes, id)
  {
    var n := nodes[id];
    r := None;
    if n.kind.Cast? {
      if |n.inputs| == 1 {
        var src := n.inputs[0];
        if src != INVALID && src < |nodes| && nodes[src].ty == n.ty { r := Some(src); }
      }
    } else if n.kind.Select? {
      if |n.inputs| == SELECT_INPUTS && n.inputs[1] == n.inputs[2] && n.inputs[1] != INVALID { r := Some(n.inputs[1]); }
    } else if n.kind.Phi? {
      r := PhiCopy(nodes, n.inputs);
    }
  }

  method Run(g: SeaGraph, ghost rank: NodeId -> nat) returns (removed: nat)
    requires g.Valid() && Grounded(g.nodes, rank) && |g.nodes| <= INVALID
    modifies g
    ensures g.Valid() && g.nodes == Propagate(old(g.nodes), 0) && Grounded(g.nodes, rank)
    ensures InputsAlive(old(g.nodes)) ==> InputsAlive(g.nodes)
    ensures removed == 0 ==> g.nodes == old(g.nodes)
  {
    hide Propagate, CopyOf, Grounded, Killed, InputsAlive;
    removed := 0;
    var id := 0;
    while id < |g.nodes|
      invariant g.Valid() && |g.nodes| == |old(g.nodes)|
      invariant Propagate(g.nodes, id) == Propagate(old(g.nodes), 0)
      invariant Grounded(g.nodes, rank)
      invariant InputsAlive(old(g.nodes)) ==> InputsAlive(g.nodes)
      invariant removed == 0 ==> g.nodes == old(g.nodes)
    {
      PropagateUnfolds(g.nodes, id);
      if !g.nodes[id].dead {
        var copy := FindCopy(g.nodes, id);
        if copy.Some? {
          CopyIsLower(g.nodes, id, rank);
          KilledGrounded(g.nodes, id, rank);
          if InputsAlive(g.nodes) { CopyAlive(g.nodes, id, rank); KilledAlive(g.nodes, id, copy.value); }
          KillNode(g, id, copy.value);
          removed := removed + 1;
        }
      } else {
        DeadIsNoCopy(g.nodes, id);
      }
      id := id + 1;
    }
    PropagateUnfolds(g.nodes, id);
  }

  lemma PropagateUnfolds(nodes: seq<Node>, id: NodeId)
    ensures Propagate(nodes, id) == if id >= |nodes| then nodes else Propagate(Visit(nodes, id), id + 1)
  {
  }

  lemma DeadIsNoCopy(nodes: seq<Node>, id: NodeId)
    requires id < |nodes| && nodes[id].dead
    ensures CopyOf(nodes, id) == None
  {
  }

  // ---- What graphs it is meant for ----

  /** The edges of casts, selects and phis that carry a value lead to values. */
  ghost predicate ValueEdge(nodes: seq<Node>, x: NodeId) {
    x < |nodes| && x != INVALID && !nodes[x].kind.Region? && !nodes[x].kind.Loop?
  }

  /** `rank` follows the order in which values come to be: a cast or select ranks above its operands, and a phi
      above its region, which ranks above the value some edge brings in from before it. */
  ghost predicate GroundedNode(nodes: seq<Node>, id: NodeId, rank: NodeId -> nat)
    requires id < |nodes|
  {
    var n := nodes[id];
    && (n.kind.Cast? && |n.inputs| == 1 ==> ValueEdge(nodes, n.inputs[0]) && rank(n.inputs[0]) < rank(id))
    && (n.kind.Select? && |n.inputs| == SELECT_INPUTS ==>
          ValueEdge(nodes, n.inputs[1]) && ValueEdge(nodes, n.inputs[2]) && rank(n.inputs[1]) < rank(id))
    && (n.kind.Phi? ==>
          && |n.inputs| >= 2 && IsStructural(nodes, n.inputs[0]) && rank(n.inputs[0]) < rank(id)
          && (forall i :: 1 <= i < |n.inputs| ==> ValueEdge(nodes, n.inputs[i]))
          && exists i {:trigger n.inputs[i]} :: 1 <= i < |n.inputs| && rank(n.inputs[i]) < rank(n.inputs[0]))
  }

  ghost predicate Grounded(nodes: seq<Node>, rank: NodeId -> nat) {
    forall id: NodeId :: id < |nodes| && !nodes[id].dead ==> GroundedNode(nodes, id, rank)
  }

  /** The nodes that stand for places in the control flow. */
  predicate IsStructural(nodes: seq<Node>, r: NodeId) {
    r < |nodes| && !nodes[r].dead && IsControlPlace(nodes[r].kind)
  }

  predicate IsControlPlace(k: NodeKind) {
    k.Start? || k.If? || k.Proj? || k.Region? || k.Loop?
  }

  predicate IsCopyKind(k: NodeKind) {
    k.Cast? || k.Select? || k.Phi?
  }

  lemma {:induction false} OnlyValueIs(nodes: seq<Node>, inputs: seq<NodeId>, idx: nat, first: Option<NodeId>)
    requires forall i :: idx <= i < |inputs| ==> ValueEdge(nodes, inputs[i])
    ensures var r := OnlyValue(nodes, inputs, idx, first);
      r.Some? ==> (first.Some? ==> r == first) && forall i :: idx <= i < |inputs| ==> inputs[i] == r.value
    decreases |inputs| - idx
  {
    if idx < |inputs| {
      OnlyValueIs(nodes, inputs, idx + 1, if first.None? then Some(inputs[idx]) else first);
    }
  }

  /** What is copied ranks below the copy, so no node is a copy of itself. */
  lemma CopyIsLower(nodes: seq<Node>, id: NodeId, rank: NodeId -> nat)
    requires Grounded(nodes, rank) && id < |nodes| && CopyOf(nodes, id).Some?
    ensures var b := CopyOf(nodes, id).value;
      && b != id && rank(b) < rank(id) && ValueEdge(nodes, b) && b in nodes[id].inputs
      && (nodes[id].kind.Phi? ==> rank(b) < rank(nodes[id].inputs[0]) && forall i :: 1 <= i < |nodes[id].inputs| ==>
           nodes[id].inputs[i] == b)
    ensures !nodes[id].dead && IsCopyKind(nodes[id].kind)
  {
    assert GroundedNode(nodes, id, rank);
    if nodes[id].kind.Phi? { OnlyValueIs(nodes, nodes[id].inputs, 1, None); }
  }

  /** Values only move down in rank, so the graph stays grounded. */
  lemma KilledGrounded(nodes: seq<Node>, id: NodeId, rank: NodeId -> nat)
    requires Grounded(nodes, rank) && id < |nodes| && CopyOf(nodes, id).Some?
    ensures Grounded(Killed(nodes, id, CopyOf(nodes, id).value), rank)
  {
    CopyIsLower(nodes, id, rank);
    var b := CopyOf(nodes, id).value;
    var now := Killed(nodes, id, b);
    forall x: NodeId | x < |now| && !now[x].dead ensures GroundedNode(now, x, rank) {
      assert GroundedNode(nodes, x, rank);
      hide CopyOf, Grounded, Killed;
      KilledNodeGrounded(nodes, now, x, id, b, rank);
    }
  }

  lemma KilledNodeGrounded(nodes: seq<Node>, now: seq<Node>, x: NodeId, a: NodeId, b: NodeId, rank: NodeId -> nat)
    requires |now| == |nodes| && x < |nodes| && a < |nodes| && x != a && GroundedNode(nodes, x, rank)
    requires forall i :: 0 <= i < |nodes| ==> now[i] == KilledNode(nodes[i], i == a, a, b)
    requires rank(b) < rank(a) && ValueEdge(nodes, b) && IsCopyKind(nodes[a].kind)
    ensures GroundedNode(now, x, rank)
  {
    var ins, ins' := nodes[x].inputs, now[x].inputs;
    forall i | 0 <= i < |ins| ensures ins'[i] == if ins[i] == a then b else ins[i] {
      ReplacedAt(ins, a, b, i);
    }
    if nodes[x].kind.Phi? {
      var i :| 1 <= i < |ins| && rank(ins[i]) < rank(ins[0]);
      assert rank(ins'[i]) < rank(ins'[0]);
    }
  }

  lemma CopyAlive(nodes: seq<Node>, id: NodeId, rank: NodeId -> nat)
    requires Grounded(nodes, rank) && InputsAlive(nodes) && id < |nodes| && CopyOf(nodes, id).Some?
    ensures var b := CopyOf(nodes, id).value; b != id && b < |nodes| && !nodes[b].dead
  {
    CopyIsLower(nodes, id, rank);
    assert AliveIn(nodes, nodes[id].inputs);
  }

  // ---- What the pass preserves ----

  /** Casting a word to the type it already has gives the word back. */
  ghost predicate IdentityCasts(nodes: seq<Node>, w: World) {
    forall id: NodeId, x: Word {:trigger w.pure(NodeKind.Cast, nodes[id].ty, nodes[id].payload, [x])} ::
      id < |nodes| && CastsToSameType(nodes, id) ==> w.pure(NodeKind.Cast, nodes[id].ty, nodes[id].payload, [x]) == x
  }

  predicate CastsToSameType(nodes: seq<Node>, id: NodeId)
    requires id < |nodes|
  {
    var n := nodes[id];
    !n.dead && n.kind.Cast? && |n.inputs| == 1 && n.inputs[0] < |nodes| && nodes[n.inputs[0]].ty == n.ty
  }

  /** Phis and selects have the type of their operands. */
  ghost predicate Typed(nodes: seq<Node>) {
    forall id: NodeId, i: nat {:trigger nodes[id].inputs[i]} :: id < |nodes| && i < |nodes[id].inputs|
      && !nodes[id].dead
      && ((nodes[id].kind.Phi? && i >= 1) || (nodes[id].kind.Select? && i >= 1)) && nodes[id].inputs[i] < |nodes|
      ==> nodes[nodes[id].inputs[i]].ty == nodes[id].ty
  }

  /** Arriving at a place in the control flow changes nothing that came to be before it. */
  ghost predicate Steady(nodes: seq<Node>, w: World, rank: NodeId -> nat, v: Values) {
    forall r: NodeId, x: NodeId, t: nat {:trigger rank(r), v(t, x)} ::
      IsStructural(nodes, r) && rank(x) < rank(r) ==> v(w.route(v(t, r), t).1, x) == v(t, x)
  }

  /** A copy has the value of what it copies. */
  lemma CopyMeaning(nodes: seq<Node>, id: NodeId, w: World, rank: NodeId -> nat, v: Values, t: nat)
    requires Grounded(nodes, rank) && id < |nodes| && CopyOf(nodes, id).Some?
    requires IdentityCasts(nodes, w) && Steady(nodes, w, rank, v)
    ensures Meaning(w, nodes[id], id, v, t) == v(t, CopyOf(nodes, id).value)
  {
    CopyIsLower(nodes, id, rank);
    var b := CopyOf(nodes, id).value;
    var n := nodes[id];
    assert GroundedNode(nodes, id, rank);
    if n.kind.Phi? {
      var r := n.inputs[0];
      assert IsStructural(nodes, r) && rank(b) < rank(r);
      var (slot, before) := w.route(v(t, r), t);
      assert v(before, b) == v(t, b);
      assert n.inputs[PhiSlot(n.inputs, slot)] == b;
    } else if n.kind.Cast? {
      assert CastsToSameType(nodes, id);
      assert Args(v, t, n.inputs) == [v(t, b)] by { assert n.inputs[..0] == []; }
    }
  }

  /** One visit keeps every valuation of the graph. */
  lemma VisitKeeps(nodes: seq<Node>, id: NodeId, w: World, rank: NodeId -> nat, v: Values)
    requires Grounded(nodes, rank) && id < |nodes| && IdentityCasts(nodes, w)
    requires Satisfies(nodes, w, v) && Steady(nodes, w, rank, v)
    ensures Satisfies(Visit(nodes, id), w, v) && Steady(Visit(nodes, id), w, rank, v)
  {
    if CopyOf(nodes, id).Some? {
      var b := CopyOf(nodes, id).value;
      CopyIsLower(nodes, id, rank);
      KilledRewired(nodes, id, b);
      forall x: NodeId, t: nat ensures v(t, Turn(id, b)(x)) == v(t, x) {
        if x == id { CopyMeaning(nodes, id, w, rank, v, t); }
      }
      RewiredKeeps(nodes, Killed(nodes, id, b), Turn(id, b), w, v);
    }
  }

  /** Conversely, giving the killed copy the value of what it copied turns a valuation after the visit into one before
      it. */
  lemma VisitReflects(nodes: seq<Node>, id: NodeId, w: World, rank: NodeId -> nat, v: Values) returns (u: Values)
    requires Grounded(nodes, rank) && id < |nodes| && IdentityCasts(nodes, w)
    requires Satisfies(Visit(nodes, id), w, v) && Steady(Visit(nodes, id), w, rank, v)
    ensures Satisfies(nodes, w, u) && Steady(nodes, w, rank, u) && Agree(u, v, Visit(nodes, id), |nodes|)
  {
    u := v;
    if CopyOf(nodes, id).Some? {
      var b := CopyOf(nodes, id).value;
      CopyIsLower(nodes, id, rank);
      KilledRewired(nodes, id, b);
      u := Back(v, Turn(id, b));
      assert Steady(nodes, w, rank, u) by { BackSteady(nodes, id, b, w, rank, v); }
      forall t: nat ensures v(t, b) == Meaning(w, nodes[id], id, u, t) {
        CopyMeaning(nodes, id, w, rank, u, t);
      }
      RewiredReflects(nodes, Killed(nodes, id, b), Turn(id, b), w, v);
    }
  }

  lemma BackSteady(nodes: seq<Node>, a: NodeId, b: NodeId, w: World, rank: NodeId -> nat, v: Values)
    requires a < |nodes| && IsCopyKind(nodes[a].kind) && rank(b) < rank(a)
    requires Steady(Killed(nodes, a, b), w, rank, v)
    ensures Steady(nodes, w, rank, Back(v, Turn(a, b)))
  {
    var u := Back(v, Turn(a, b));
    forall r: NodeId, x: NodeId, t: nat | IsStructural(nodes, r) && rank(x) < rank(r)
      ensures u(w.route(u(t, r), t).1, x) == u(t, x)
    {
      assert IsStructural(Killed(nodes, a, b), r);
      var y := Turn(a, b)(x);
      assert rank(y) < rank(r) && v(w.route(v(t, r), t).1, y) == v(t, y);
    }
  }

  lemma VisitTyped(nodes: seq<Node>, id: NodeId, w: World, rank: NodeId -> nat)
    requires Grounded(nodes, rank) && id < |nodes| && Typed(nodes) && IdentityCasts(nodes, w)
    ensures Grounded(Visit(nodes, id), rank) && Typed(Visit(nodes, id)) && IdentityCasts(Visit(nodes, id), w)
  {
    if CopyOf(nodes, id).Some? {
      CopyIsLower(nodes, id, rank);
      KilledGrounded(nodes, id, rank);
      SameType(nodes, id, rank);
      KilledTyped(nodes, id, CopyOf(nodes, id).value, w);
    }
  }

  lemma SameType(nodes: seq<Node>, id: NodeId, rank: NodeId -> nat)
    requires Grounded(nodes, rank) && id < |nodes| && Typed(nodes) && CopyOf(nodes, id).Some?
    ensures var b := CopyOf(nodes, id).value; b < |nodes| && nodes[b].ty == nodes[id].ty
  {
    CopyIsLower(nodes, id, rank);
    assert GroundedNode(nodes, id, rank);
    var n := nodes[id];
    if n.kind.Phi? {
      assert nodes[n.inputs[1]].ty == n.ty;
    } else if n.kind.Select? {
      assert nodes[n.inputs[1]].ty == n.ty;
    }
  }

  lemma KilledTyped(nodes: seq<Node>, a: NodeId, b: NodeId, w: World)
    requires a < |nodes| && b < |nodes| && nodes[b].ty == nodes[a].ty && Typed(nodes) && IdentityCasts(nodes, w)
    ensures Typed(Killed(nodes, a, b)) && IdentityCasts(Killed(nodes, a, b), w)
  {
    var now := Killed(nodes, a, b);
    forall id: NodeId, i: nat | id < |nodes| && i < |nodes[id].inputs|
      ensures now[id].inputs[i] == if nodes[id].inputs[i] == a then b else nodes[id].inputs[i]
    {
      KilledInput(nodes, a, b, id, i);
    }
    forall id: NodeId, x: Word | id < |now| && CastsToSameType(now, id)
      ensures w.pure(NodeKind.Cast, now[id].ty, now[id].payload, [x]) == x
    {
      assert now[id].inputs[0] == if nodes[id].inputs[0] == a then b else nodes[id].inputs[0];
      assert CastsToSameType(nodes, id);
      assert w.pure(NodeKind.Cast, nodes[id].ty, nodes[id].payload, [x]) == x;
    }
  }

  /** The whole pass keeps every valuation as it is. */
  lemma {:induction false} PropagateKeeps(nodes: seq<Node>, id: NodeId, w: World, rank: NodeId -> nat, v: Values)
    requires Grounded(nodes, rank) && Typed(nodes) && IdentityCasts(nodes, w)
    requires Satisfies(nodes, w, v) && Steady(nodes, w, rank, v)
    ensures Satisfies(Propagate(nodes, id), w, v)
    decreases |nodes| - id
  {
    hide Grounded, Typed, IdentityCasts, Satisfies, Steady, Visit;
    if id < |nodes| {
      VisitKeeps(nodes, id, w, rank, v);
      VisitTyped(nodes, id, w, rank);
      PropagateKeeps(Visit(nodes, id), id + 1, w, rank, v);
    }
  }

  /** And no valuation is new: whatever the remaining nodes do after the pass they could do before it. */
  lemma {:induction false} PropagateReflects(nodes: seq<Node>, id: NodeId, w: World, rank: NodeId -> nat, v: Values)
        returns (u: Values)
    requires Grounded(nodes, rank) && Typed(nodes) && IdentityCasts(nodes, w)
    requires Satisfies(Propagate(nodes, id), w, v) && Steady(Propagate(nodes, id), w, rank, v)
    ensures Satisfies(nodes, w, u) && Steady(nodes, w, rank, u) && Agree(u, v, Propagate(nodes, id), |nodes|)
    decreases |nodes| - id
  {
    hide Grounded, Typed, IdentityCasts, Satisfies, Steady, Visit, Agree, Later;
    u := v;
    if id < |nodes| {
      VisitTyped(nodes, id, w, rank);
      var mid := PropagateReflects(Visit(nodes, id), id + 1, w, rank, v);
      u := VisitReflects(nodes, id, w, rank, mid);
      VisitLater(nodes, id);
      PropagateLater(Visit(nodes, id), id + 1);
      AgreeTrans(u, mid, v, nodes, Visit(nodes, id), Propagate(nodes, id));
    } else {
      AgreeSelf(v, nodes);
    }
  }

  lemma AgreeSelf(v: Values, nodes: seq<Node>)
    ensures Agree(v, v, nodes, |nodes|)
  {
  }

  lemma VisitLater(nodes: seq<Node>, id: NodeId)
    requires id < |nodes|
    ensures Later(nodes, Visit(nodes, id))
  {
    hide CopyOf;
  }

  lemma {:induction false} PropagateLater(nodes: seq<Node>, id: NodeId)
    ensures Later(nodes, Propagate(nodes, id))
    decreases |nodes| - id
  {
    hide Visit;
    if id < |nodes| {
      VisitLater(nodes, id);
      PropagateLater(Visit(nodes, id), id + 1);
    }
  }

  // ---- What the pass does not leave ----

  /** A live node that only passes a value on: a cast from the type it casts to, a selection between one value and
      itself, a phi all of whose values are one. */
  ghost predicate PassesOn(nodes: seq<Node>, id: NodeId) {
    && id < |nodes| && !nodes[id].dead
    && var ins := nodes[id].inputs;
       match nodes[id].kind
       case Cast => |ins| == 1 && ins[0] < |nodes| && ins[0] != INVALID && nodes[ins[0]].ty == nodes[id].ty
       case Select => |ins| == 3 && ins[1] == ins[2]
       case Phi => |ins| >= 2 && forall i :: 2 <= i < |ins| ==> ins[i] == ins[1]
       case _ => false
  }

  lemma {:induction false} OnlyOne(nodes: seq<Node>, inputs: seq<NodeId>, idx: nat, b: NodeId)
    requires ValueEdge(nodes, b) && forall i :: idx <= i < |inputs| ==> inputs[i] == b
    ensures OnlyValue(nodes, inputs, idx, Some(b)) == Some(b)
    ensures idx < |inputs| ==> OnlyValue(nodes, inputs, idx, None) == Some(b)
    decreases |inputs| - idx
  {
    if idx < |inputs| { OnlyOne(nodes, inputs, idx + 1, b); }
  }

  lemma PassesOnIsCopy(nodes: seq<Node>, id: NodeId, rank: NodeId -> nat)
    requires Grounded(nodes, rank) && PassesOn(nodes, id)
    ensures CopyOf(nodes, id).Some?
  {
    assert GroundedNode(nodes, id, rank);
    if nodes[id].kind.Phi? { OnlyOne(nodes, nodes[id].inputs, 1, nodes[id].inputs[1]); }
  }

  /** Visits of other nodes leave it one. */
  lemma StillPassesOn(nodes: seq<Node>, cur: NodeId, id: NodeId, rank: NodeId -> nat)
    requires Grounded(nodes, rank) && Typed(nodes) && cur < |nodes| && cur != id && PassesOn(nodes, id)
    ensures PassesOn(Visit(nodes, cur), id)
  {
    if CopyOf(nodes, cur).Some? {
      var b := CopyOf(nodes, cur).value;
      CopyIsLower(nodes, cur, rank);
      SameType(nodes, cur, rank);
      var ins := nodes[id].inputs;
      forall i | 0 <= i < |ins| ensures Visit(nodes, cur)[id].inputs[i] == if ins[i] == cur then b else ins[i] {
        ReplacedAt(ins, cur, b, i);
      }
      hide CopyOf, Grounded, Typed;
    }
  }

  lemma {:induction false} DeadStays(nodes: seq<Node>, id: NodeId, x: NodeId)
    requires x < |nodes| && nodes[x].dead
    ensures Propagate(nodes, id)[x].dead
    decreases |nodes| - id
  {
    hide CopyOf;
    if id < |nodes| { DeadStays(Visit(nodes, id), id + 1, x); }
  }

  /** Every node that passes a value on is gone after the pass. */
  lemma {:induction false} CopiesGo(nodes: seq<Node>, id: NodeId, x: NodeId, rank: NodeId -> nat)
    requires Grounded(nodes, rank) && Typed(nodes) && id <= x && PassesOn(nodes, x)
    ensures Propagate(nodes, id)[x].dead
    decreases |nodes| - id
  {
    hide Grounded, Typed, PassesOn, Visit;
    InNodes(nodes, x);
    var w := World((k, ty, p, args) => if |args| > 0 then args[0] else 0, (n, t, args) => 0, (v, t) => (0, t));
    assert IdentityCasts(nodes, w);
    if x == id {
      PassesOnIsCopy(nodes, x, rank);
      VisitKills(nodes, x);
      DeadStays(Visit(nodes, id), id + 1, x);
    } else {
      StillPassesOn(nodes, id, x, rank);
      VisitTyped(nodes, id, w, rank);
      CopiesGo(Visit(nodes, id), id + 1, x, rank);
    }
  }

  lemma InNodes(nodes: seq<Node>, x: NodeId)
    requires PassesOn(nodes, x)
    ensures x < |nodes|
  {
  }

  lemma VisitKills(nodes: seq<Node>, id: NodeId)
    requires id < |nodes| && CopyOf(nodes, id).Some?
    ensures Visit(nodes, id)[id].dead
  {
    hide CopyOf;
  }
}
