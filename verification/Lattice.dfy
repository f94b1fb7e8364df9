/** The lattice of constant propagation and what one visit of a node does to its cell. */
module Lattice {
  import opened Wrappers
  import opened Words
  import opened IR

  datatype Cell = Top | Const(value: Word) | Bottom

  /** The meet as the pass computes it. */
  function Merge(cell: Cell, other: Cell): Cell {
    match other
    case Top => cell
    case Bottom => Bottom
    case Const(v) =>
      match cell
      case Top => other
      case Bottom => Bottom
      case Const(u) => if u == v then cell else Bottom
  }

  function Height(cell: Cell): nat {
    match cell case Top => 2 case Const(_) => 1 case Bottom => 0
  }

  /** A merge only ever goes down, so a cell changes at most twice. */
  lemma MergeFalls(cell: Cell, other: Cell)
    ensures Merge(cell, other) == cell || Height(Merge(cell, other)) < Height(cell)
  {
  }

  predicate InGraph(nodes: seq<Node>, x: NodeId) {
    x != INVALID && x < |nodes|
  }

  predicate IsMerge(k: NodeKind) {
    k.Region? || k.Loop?
  }

  /** The common constant of a phi's values from the `i`-th on; nothing when they differ or one is not constant. */
  function PhiMeet(nodes: seq<Node>, state: seq<Cell>, ins: seq<NodeId>, i: nat, meet: Option<Word>): Option<Word>
    requires |state| == |nodes|
    decreases |ins| - i
  {
    if i >= |ins| then meet
    else if !InGraph(nodes, ins[i]) || IsMerge(nodes[ins[i]].kind) then PhiMeet(nodes, state, ins, i + 1, meet)
    else if !state[ins[i]].Const? then None
    else if meet.None? then PhiMeet(nodes, state, ins, i + 1, Some(state[ins[i]].value))
    else if meet.value != state[ins[i]].value then None
    else PhiMeet(nodes, state, ins, i + 1, meet)
  }

  /** Folding is left alone where the operation has no defined result. */
  function Apply(kind: NodeKind, a: Word, b: Word): Option<Word> {
    if kind.Bin? then EvalBin(kind.bin, a, b) else None
  }

  /** The accumulated value of the constant inputs from the `i`-th on, for every kind but phis and unary ones. */
  function Fold(nodes: seq<Node>, state: seq<Cell>, kind: NodeKind, ins: seq<NodeId>, i: nat, acc: Option<Word>,
        all: bool): Cell
    requires |state| == |nodes|
    decreases |ins| - i
  {
    if i >= |ins| then
      if all && acc.Some? then Const(acc.value) else Top
    else if !InGraph(nodes, ins[i]) then Fold(nodes, state, kind, ins, i + 1, acc, all)
    else match state[ins[i]]
      case Top => Fold(nodes, state, kind, ins, i + 1, acc, false)
      case Bottom => Bottom
      case Const(v) =>
        if acc.None? then Fold(nodes, state, kind, ins, i + 1, Some(v), all)
        else if Apply(kind, acc.value, v).None? then Top
        else Fold(nodes, state, kind, ins, i + 1, Apply(kind, acc.value, v), all)
  }

  /** What a visit learns about a node from the cells of its inputs; `Top` is nothing. */
  function Learned(nodes: seq<Node>, state: seq<Cell>, id: NodeId): Cell
    requires id < |nodes| == |state|
  {
    var n := nodes[id];
    if n.kind.Phi? then
      var meet := PhiMeet(nodes, state, n.DataIns(), 0, None);
      if meet.Some? then Const(meet.value) else Bottom
    else if n.kind.Un? then
      if n.DataIns() == [] || !InGraph(nodes, n.DataIns()[0]) then Top
      else match state[n.DataIns()[0]]
        case Top => Top
        case Bottom => Bottom
        case Const(v) => Const(EvalUn(n.kind.un, v))
    else Fold(nodes, state, n.kind, n.DataIns(), 0, None, true)
  }

  function Transfer(nodes: seq<Node>, state: seq<Cell>, id: NodeId): Cell
    requires id < |nodes| == |state|
  {
    if nodes[id].dead || nodes[id].kind.Constant? then state[id] else Merge(state[id], Learned(nodes, state, id))
  }

  function Seed(n: Node): Cell {
    if !n.dead && n.kind.Constant? then Const(n.payload) else Top
  }

  // ---- Why a cell is constant ----

  predicate IsOpaque(k: NodeKind) {
    !k.Constant? && !k.Phi? && !k.Bin? && !k.Un?
  }

  /** An input whose cell a phi looks at. */
  predicate IsPhiValue(nodes: seq<Node>, x: NodeId) {
    InGraph(nodes, x) && !IsMerge(nodes[x].kind)
  }

  /** A live node that became constant before `bound`, with this value. */
  ghost predicate ConstBefore(nodes: seq<Node>, state: seq<Cell>, when: seq<nat>, x: NodeId, v: Word, bound: nat) {
    x < |nodes| && x < |state| && x < |when| && x != INVALID && !nodes[x].dead && state[x] == Const(v)
      && when[x] < bound
  }

  /** The cell of an arithmetic node, a phi or a return follows from cells that became constant before it. */
  ghost predicate Justified(nodes: seq<Node>, state: seq<Cell>, when: seq<nat>, id: NodeId)
    requires id < |nodes| == |state| == |when|
  {
    var n := nodes[id];
    state[id].Const? ==>
      match n.kind
      case Constant => state[id].value == n.payload
      case Phi =>
        && |n.inputs| >= 2
        && forall i :: 0 <= i < |n.inputs| && (i >= 1 || IsPhiValue(nodes, n.inputs[0])) ==>
             ConstBefore(nodes, state, when, n.inputs[i], state[id].value, when[id])
      case Un(op) =>
        && |n.inputs| == 1 && InGraph(nodes, n.inputs[0])
        && exists a: Word :: ConstBefore(nodes, state, when, n.inputs[0], a, when[id])
             && state[id].value == EvalUn(op, a)
      case Bin(op) =>
        && |n.inputs| == 2
        && exists a: Word, b: Word ::
             ConstBefore(nodes, state, when, n.inputs[0], a, when[id])
             && ConstBefore(nodes, state, when, n.inputs[1], b, when[id])
             && EvalBin(op, a, b) == Some(state[id].value)
      case Return =>
        |n.inputs| == RETURN_INPUTS && ConstBefore(nodes, state, when, n.inputs[RETURN_VALUE], state[id].value,
          when[id])
      case _ => true
  }

  ghost predicate Founded(nodes: seq<Node>, state: seq<Cell>, when: seq<nat>) {
    && |state| == |when| == |nodes|
    && forall id: NodeId :: id < |nodes| && !nodes[id].dead ==> Justified(nodes, state, when, id)
  }

  // ---- What graphs it is meant for ----

  function InGraphIns(nodes: seq<Node>, ins: seq<NodeId>, i: nat): seq<NodeId>
    decreases |ins| - i
  {
    if i >= |ins| then []
    else if InGraph(nodes, ins[i]) then [ins[i]] + InGraphIns(nodes, ins, i + 1)
    else InGraphIns(nodes, ins, i + 1)
  }

  /** Arithmetic and selections have their operands, returns their value, and phis have values behind their region. */
  predicate ShapedNode(nodes: seq<Node>, n: Node) {
    && (n.kind.Bin? ==> |n.inputs| == 2 && InGraph(nodes, n.inputs[0]) && InGraph(nodes, n.inputs[1]))
    && (n.kind.Un? ==> |n.inputs| == 1)
    && (n.kind.Phi? ==> |n.inputs| >= 2 && forall i :: 1 <= i < |n.inputs| ==> IsPhiValue(nodes, n.inputs[i]))
    && (n.kind.Return? ==> |n.inputs| == RETURN_INPUTS && InGraph(nodes, n.inputs[RETURN_VALUE]))
    && (n.kind.Select? ==> |n.inputs| == SELECT_INPUTS && InGraph(nodes, n.inputs[0]) && InGraph(nodes, n.inputs[1]))
  }

  ghost predicate Shaped(nodes: seq<Node>) {
    forall id: NodeId :: id < |nodes| && !nodes[id].dead ==> ShapedNode(nodes, nodes[id])
  }

  /** The data inputs of a node that are in the graph. */
  function KnownIns(nodes: seq<Node>, n: Node): seq<NodeId> {
    InGraphIns(nodes, n.DataIns(), 0)
  }

  lemma {:induction false} PhiMeetAll(nodes: seq<Node>, state: seq<Cell>, ins: seq<NodeId>, i: nat, meet: Option<Word>)
    requires |state| == |nodes| && PhiMeet(nodes, state, ins, i, meet).Some?
    ensures meet.Some? ==> PhiMeet(nodes, state, ins, i, meet) == meet
    ensures forall j :: i <= j < |ins| && InGraph(nodes, ins[j]) && !IsMerge(nodes[ins[j]].kind) ==>
      state[ins[j]] == Const(PhiMeet(nodes, state, ins, i, meet).value)
    decreases |ins| - i
  {
    if i < |ins| {
      if !InGraph(nodes, ins[i]) || IsMerge(nodes[ins[i]].kind) {
        PhiMeetAll(nodes, state, ins, i + 1, meet);
      } else {
        PhiMeetAll(nodes, state, ins, i + 1, if meet.None? then Some(state[ins[i]].value) else meet);
      }
    }
  }

  /** Of the kinds that are not arithmetic only those with a single input fold, and they take its value. */
  lemma {:induction false} FoldOther(nodes: seq<Node>, state: seq<Cell>, kind: NodeKind, ins: seq<NodeId>, i: nat,
        acc: Option<Word>, all: bool)
    requires |state| == |nodes| && !kind.Bin? && Fold(nodes, state, kind, ins, i, acc, all).Const?
    ensures var known := InGraphIns(nodes, ins, i);
      && all && (acc.Some? ==> known == [] && acc.value == Fold(nodes, state, kind, ins, i, acc, all).value)
      && (acc.None? ==>
            |known| == 1 && known[0] < |nodes| && state[known[0]] == Fold(nodes, state, kind, ins, i, acc, all))
    decreases |ins| - i
  {
    if i < |ins| {
      if !InGraph(nodes, ins[i]) {
        FoldOther(nodes, state, kind, ins, i + 1, acc, all);
      } else if state[ins[i]].Top? {
        FoldOther(nodes, state, kind, ins, i + 1, acc, false);
      } else if acc.None? {
        FoldOther(nodes, state, kind, ins, i + 1, Some(state[ins[i]].value), all);
      }
    }
  }

  lemma FoldTwo(nodes: seq<Node>, state: seq<Cell>, op: BinOp, ins: seq<NodeId>)
    requires |state| == |nodes| && |ins| == 2 && InGraph(nodes, ins[0]) && InGraph(nodes, ins[1])
    ensures Fold(nodes, state, Bin(op), ins, 0, None, true)
         == var x, y := state[ins[0]], state[ins[1]];
            if x.Bottom? || y.Bottom? then Bottom
            else if x.Const? && y.Const? && EvalBin(op, x.value, y.value).Some?
              then Const(EvalBin(op, x.value, y.value).value)
            else Top
  {
    hide EvalBin;
    var k := Bin(op);
    match state[ins[0]]
    case Bottom =>
    case Top => assert Fold(nodes, state, k, ins, 1, None, false) == if state[ins[1]].Bottom? then Bottom else Top;
    case Const(a) =>
      match state[ins[1]]
      case Bottom => assert Fold(nodes, state, k, ins, 1, Some(a), true) == Bottom;
      case Top => assert Fold(nodes, state, k, ins, 1, Some(a), true) == Top;
      case Const(b) =>
        assert Fold(nodes, state, k, ins, 1, Some(a), true)
            == if EvalBin(op, a, b).Some? then Const(EvalBin(op, a, b).value) else Top;
  }

  lemma {:induction false} FoldSkips(nodes: seq<Node>, state: seq<Cell>, kind: NodeKind, ins: seq<NodeId>, i: nat,
                                     acc: Option<Word>, all: bool)
    requires |state| == |nodes| && InGraphIns(nodes, ins, i) == []
    ensures Fold(nodes, state, kind, ins, i, acc, all) == if all && acc.Some? then Const(acc.value) else Top
    decreases |ins| - i
  {
    if i < |ins| { FoldSkips(nodes, state, kind, ins, i + 1, acc, all); }
  }

  /** A single data input in the graph hands its cell on, whatever the node does with its value. */
  lemma {:induction false} FoldSingle(nodes: seq<Node>, state: seq<Cell>, kind: NodeKind, ins: seq<NodeId>, i: nat,
        x: NodeId)
    requires |state| == |nodes| && InGraphIns(nodes, ins, i) == [x]
    ensures x < |nodes| && Fold(nodes, state, kind, ins, i, None, true) == state[x]
    decreases |ins| - i
  {
    if InGraph(nodes, ins[i]) {
      var rest := InGraphIns(nodes, ins, i + 1);
      assert ([ins[i]] + rest)[1..] == rest && ([ins[i]] + rest)[0] == ins[i];
      if !state[x].Bottom? {
        FoldSkips(nodes, state, kind, ins, i + 1,
                  if state[x].Const? then Some(state[x].value) else None, state[x].Const?);
      }
    } else {
      FoldSingle(nodes, state, kind, ins, i + 1, x);
    }
  }

  // ---- What a visit keeps ----

  /** A node of another kind is constant only if it has a single known data input, with the same constant, and falls to
      bottom after that input. */
  ghost predicate Follows(nodes: seq<Node>, state: seq<Cell>, id: NodeId)
    requires id < |nodes| == |state|
  {
    var ins := KnownIns(nodes, nodes[id]);
    && (state[id].Const? ==> |ins| == 1 && ins[0] < |nodes| && state[ins[0]] == state[id])
    && (state[id].Bottom? && |ins| == 1 ==> ins[0] < |nodes| && state[ins[0]].Bottom?)
  }

  /** Dead nodes are never anything, and nodes of other kinds follow their inputs. */
  ghost predicate Modest(nodes: seq<Node>, state: seq<Cell>)
    requires |state| == |nodes|
  {
    && (forall id: NodeId :: id < |nodes| && nodes[id].dead ==> state[id] == Top)
    && forall id: NodeId :: id < |nodes| && !nodes[id].dead && IsOpaque(nodes[id].kind) ==> Follows(nodes, state, id)
  }

  lemma {:induction false} PhiMeetOf(nodes: seq<Node>, state: seq<Cell>, ins: seq<NodeId>, i: nat,
        meet: Option<Word>, c: Word)
    requires |state| == |nodes| && (meet.Some? ==> meet.value == c)
    requires forall j :: i <= j < |ins| && InGraph(nodes, ins[j]) && !IsMerge(nodes[ins[j]].kind) ==>
      state[ins[j]] == Const(c)
    requires meet.Some? || exists j :: i <= j < |ins| && InGraph(nodes, ins[j]) && !IsMerge(nodes[ins[j]].kind)
    ensures PhiMeet(nodes, state, ins, i, meet) == Some(c)
    decreases |ins| - i
  {
    if i < |ins| {
      var skip := !InGraph(nodes, ins[i]) || IsMerge(nodes[ins[i]].kind);
      PhiMeetOf(nodes, state, ins, i + 1, if skip then meet else Some(c), c);
    }
  }

  /** A justified constant learns itself again: nothing falls from constant to bottom. */
  lemma ConstStays(nodes: seq<Node>, state: seq<Cell>, when: seq<nat>, id: NodeId)
    requires id < |nodes| == |state| == |when| && !nodes[id].dead && state[id].Const?
    requires Justified(nodes, state, when, id) && ShapedNode(nodes, nodes[id])
    requires IsOpaque(nodes[id].kind) ==> Follows(nodes, state, id)
    ensures Transfer(nodes, state, id) == state[id]
  {
    var n := nodes[id];
    if n.kind.Phi? {
      assert IsPhiValue(nodes, n.inputs[1]);
      PhiMeetOf(nodes, state, n.inputs, 0, None, state[id].value);
    } else if n.kind.Bin? {
      FoldTwo(nodes, state, n.kind.bin, n.inputs);
    } else if IsOpaque(n.kind) {
      OneKnown(nodes, n);
      FoldSingle(nodes, state, n.kind, n.DataIns(), 0, KnownIns(nodes, n)[0]);
    }
  }

  lemma OneKnown(nodes: seq<Node>, n: Node)
    requires |KnownIns(nodes, n)| == 1
    ensures KnownIns(nodes, n) == [KnownIns(nodes, n)[0]]
  {
  }

  /** A return's value is among its known inputs. */
  lemma {:induction false} KnownHas(nodes: seq<Node>, ins: seq<NodeId>, i: nat, k: nat)
    requires i <= k < |ins| && InGraph(nodes, ins[k])
    ensures ins[k] in InGraphIns(nodes, ins, i)
    decreases k - i
  {
    if i < k { KnownHas(nodes, ins, i + 1, k); }
  }

  /** A cell that becomes constant is justified by cells that were constant already. */
  lemma NewConstJustified(nodes: seq<Node>, state: seq<Cell>, when: seq<nat>, id: NodeId, clock: nat)
    requires id < |nodes| == |state| == |when| && !nodes[id].dead && state[id].Top? && !nodes[id].kind.Constant?
    requires ShapedNode(nodes, nodes[id]) && Modest(nodes, state)
    requires forall x: NodeId :: x < |nodes| && state[x].Const? ==> when[x] < clock
    requires Transfer(nodes, state, id).Const?
    ensures Justified(nodes, state[id := Transfer(nodes, state, id)], when[id := clock], id)
  {
    var n := nodes[id];
    var c := Learned(nodes, state, id);
    assert Transfer(nodes, state, id) == c;
    var state', when' := state[id := c], when[id := clock];
    if n.kind.Phi? {
      PhiMeetAll(nodes, state, n.inputs, 0, None);
      forall i | 0 <= i < |n.inputs| && (i >= 1 || IsPhiValue(nodes, n.inputs[0]))
        ensures ConstBefore(nodes, state', when', n.inputs[i], c.value, clock)
      {
      }
    } else if n.kind.Un? {
      assert ConstBefore(nodes, state', when', n.inputs[0], state[n.inputs[0]].value, clock);
    } else if n.kind.Bin? {
      FoldTwo(nodes, state, n.kind.bin, n.inputs);
      assert ConstBefore(nodes, state', when', n.inputs[0], state[n.inputs[0]].value, clock);
      assert ConstBefore(nodes, state', when', n.inputs[1], state[n.inputs[1]].value, clock);
    } else if n.kind.Return? {
      FoldOther(nodes, state, n.kind, n.DataIns(), 0, None, true);
      KnownHas(nodes, n.inputs, 0, RETURN_VALUE);
      assert ConstBefore(nodes, state', when', n.inputs[RETURN_VALUE], c.value, clock);
    }
  }

  /** A visit of a node of another kind: it goes on following its single input, if it has one. */
  lemma VisitFollows(nodes: seq<Node>, state: seq<Cell>, id: NodeId)
    requires id < |nodes| == |state| && !nodes[id].dead && IsOpaque(nodes[id].kind) && Follows(nodes, state, id)
    ensures Follows(nodes, state[id := Transfer(nodes, state, id)], id)
  {
    var n := nodes[id];
    var ins := KnownIns(nodes, n);
    if |ins| == 1 {
      OneKnown(nodes, n);
      FoldSingle(nodes, state, n.kind, n.DataIns(), 0, ins[0]);
    } else if Learned(nodes, state, id).Const? {
      FoldOther(nodes, state, n.kind, n.DataIns(), 0, None, true);
    }
  }

  /** Justifications survive a change of a cell that was not constant. */
  lemma JustifiedFrame(nodes: seq<Node>, state: seq<Cell>, when: seq<nat>, id: NodeId, cell: Cell, clock: nat,
        x: NodeId)
    requires |nodes| == |state| == |when| && id < |nodes| && x < |nodes| && x != id
    requires !state[id].Const? && Justified(nodes, state, when, x)
    ensures Justified(nodes, state[id := cell], when[id := clock], x)
  {
    var state', when' := state[id := cell], when[id := clock];
    assert forall y: NodeId, v: Word, b: nat :: ConstBefore(nodes, state, when, y, v, b) ==>
      ConstBefore(nodes, state', when', y, v, b);
    if state[x].Const? && nodes[x].kind.Un? {
      var a: Word :| ConstBefore(nodes, state, when, nodes[x].inputs[0], a, when[x])
        && state[x].value == EvalUn(nodes[x].kind.un, a);
      assert ConstBefore(nodes, state', when', nodes[x].inputs[0], a, when'[x]);
    }
    if state[x].Const? && nodes[x].kind.Bin? {
      var a: Word, b: Word :| ConstBefore(nodes, state, when, nodes[x].inputs[0], a, when[x])
        && ConstBefore(nodes, state, when, nodes[x].inputs[1], b, when[x])
        && EvalBin(nodes[x].kind.bin, a, b) == Some(state[x].value);
      assert ConstBefore(nodes, state', when', nodes[x].inputs[0], a, when'[x]);
      assert ConstBefore(nodes, state', when', nodes[x].inputs[1], b, when'[x]);
    }
  }

  /** The run's invariant: every constant is justified by earlier ones. */
  ghost predicate Sound(nodes: seq<Node>, state: seq<Cell>, when: seq<nat>, clock: nat) {
    && Founded(nodes, state, when)
    && Modest(nodes, state)
    && (forall id: NodeId :: id < |nodes| && !nodes[id].dead && nodes[id].kind.Constant? ==> state[id].Const?)
    && forall id: NodeId :: id < |nodes| && state[id].Const? ==> when[id] < clock
  }

  /** The others follow on when a cell that is not constant is visited. */
  lemma OthersFollow(nodes: seq<Node>, state: seq<Cell>, id: NodeId, y: NodeId)
    requires id < |nodes| == |state| && y < |nodes| && y != id && !state[id].Const? && Follows(nodes, state, y)
    ensures Follows(nodes, state[id := Transfer(nodes, state, id)], y)
  {
    hide Learned;
  }

  lemma ModestNext(nodes: seq<Node>, state: seq<Cell>, id: NodeId)
    requires id < |nodes| == |state| && Modest(nodes, state) && !nodes[id].dead && !state[id].Const?
    ensures Modest(nodes, state[id := Transfer(nodes, state, id)])
  {
    hide Transfer, Follows;
    var state' := state[id := Transfer(nodes, state, id)];
    forall y: NodeId | y < |nodes| && !nodes[y].dead && IsOpaque(nodes[y].kind) ensures Follows(nodes, state', y) {
      if y == id { VisitFollows(nodes, state, id); } else { OthersFollow(nodes, state, id, y); }
    }
  }

  /** One visit keeps it, changes only its own cell, and never takes a constant away. */
  lemma VisitSound(nodes: seq<Node>, state: seq<Cell>, when: seq<nat>, clock: nat, id: NodeId)
    requires Sound(nodes, state, when, clock) && Shaped(nodes) && id < |nodes|
    ensures Sound(nodes, state[id := Transfer(nodes, state, id)],
                  when[id := if state[id].Const? then when[id] else clock], clock + 1)
    ensures state[id].Const? ==> Transfer(nodes, state, id) == state[id]
  {
    var cell := Transfer(nodes, state, id);
    if nodes[id].dead {
      assert state[id := cell] == state;
      JustifiedAll(nodes, state, when, id, cell, clock);
    } else if state[id].Const? {
      assert Justified(nodes, state, when, id);
      ConstStays(nodes, state, when, id);
      assert state[id := cell] == state && when[id := when[id]] == when;
    } else {
      JustifiedAll(nodes, state, when, id, cell, clock);
      VisitedTop(nodes, state, when, clock, id);
      ModestNext(nodes, state, id);
    }
  }

  lemma JustifiedAll(nodes: seq<Node>, state: seq<Cell>, when: seq<nat>, id: NodeId, cell: Cell, clock: nat)
    requires Founded(nodes, state, when) && id < |nodes| && !state[id].Const?
    ensures forall x: NodeId :: x < |nodes| && !nodes[x].dead && x != id ==>
      Justified(nodes, state[id := cell], when[id := clock], x)
  {
    forall x: NodeId | x < |nodes| && !nodes[x].dead && x != id
      ensures Justified(nodes, state[id := cell], when[id := clock], x)
    {
      JustifiedFrame(nodes, state, when, id, cell, clock, x);
    }
  }

  lemma VisitedTop(nodes: seq<Node>, state: seq<Cell>, when: seq<nat>, clock: nat, id: NodeId)
    requires Sound(nodes, state, when, clock) && Shaped(nodes) && id < |nodes| && !nodes[id].dead && !state[id].Const?
    ensures Justified(nodes, state[id := Transfer(nodes, state, id)], when[id := clock], id)
  {
    assert ShapedNode(nodes, nodes[id]);
    if Transfer(nodes, state, id).Const? {
      NewConstJustified(nodes, state, when, id, clock);
    }
  }

  // ---- At the fixpoint ----

  ghost predicate Fixed(nodes: seq<Node>, state: seq<Cell>)
    requires |state| == |nodes|
  {
    forall id: NodeId :: id < |nodes| ==> Transfer(nodes, state, id) == state[id]
  }

  /** A node that is not arithmetic, a phi or a constant, call, cast and projection alike, ends up constant exactly
      when it has one data input in the graph and that is constant. */
  lemma SingleInputFolds(nodes: seq<Node>, state: seq<Cell>, when: seq<nat>, clock: nat, id: NodeId)
    requires Sound(nodes, state, when, clock) && Fixed(nodes, state)
    requires id < |nodes| && !nodes[id].dead && IsOpaque(nodes[id].kind)
    ensures var ins := KnownIns(nodes, nodes[id]);
      && (state[id].Const? <==> |ins| == 1 && ins[0] < |nodes| && state[ins[0]].Const?)
      && (state[id].Const? ==> state[id] == state[ins[0]])
  {
    var ins := KnownIns(nodes, nodes[id]);
    assert Follows(nodes, state, id) && Transfer(nodes, state, id) == state[id];
    if |ins| == 1 {
      OneKnown(nodes, nodes[id]);
      FoldSingle(nodes, state, nodes[id].kind, nodes[id].DataIns(), 0, ins[0]);
    }
  }

  // ---- Nothing is given up for nothing ----

  /** A phi all of whose values are live constants of one payload. */
  ghost predicate ConstantPhi(nodes: seq<Node>, id: NodeId, c: Word) {
    && id < |nodes| && !nodes[id].dead && nodes[id].kind.Phi? && |nodes[id].inputs| >= 2
    && (InGraph(nodes, nodes[id].inputs[0]) ==> IsMerge(nodes[nodes[id].inputs[0]].kind))
    && forall i :: 1 <= i < |nodes[id].inputs| ==> ConstantNode(nodes, nodes[id].inputs[i], c)
  }

  predicate ConstantNode(nodes: seq<Node>, x: NodeId, c: Word) {
    InGraph(nodes, x) && !nodes[x].dead && nodes[x].kind.Constant? && nodes[x].payload == c
  }

  ghost predicate BottomInput(nodes: seq<Node>, state: seq<Cell>, id: NodeId)
    requires id < |nodes| == |state|
  {
    exists i :: 0 <= i < |nodes[id].inputs| && nodes[id].inputs[i] < |state| && state[nodes[id].inputs[i]].Bottom?
  }

  predicate ArithmeticAtBottom(nodes: seq<Node>, state: seq<Cell>, id: NodeId)
    requires id < |nodes| == |state|
  {
    !nodes[id].dead && (nodes[id].kind.Bin? || nodes[id].kind.Un?) && state[id].Bottom?
  }

  /** Arithmetic is at bottom only behind an input that is, and a phi of one constant never. */
  ghost predicate Eager(nodes: seq<Node>, state: seq<Cell>)
    requires |state| == |nodes|
  {
    && (forall id: NodeId :: id < |nodes| && ArithmeticAtBottom(nodes, state, id) ==> BottomInput(nodes, state, id))
    && forall id: NodeId, c: Word :: ConstantPhi(nodes, id, c) ==> !state[id].Bottom?
  }

  lemma BottomInputStays(nodes: seq<Node>, state: seq<Cell>, id: NodeId, x: NodeId, cell: Cell)
    requires id < |nodes| == |state| && x < |nodes| && BottomInput(nodes, state, x)
      && (state[id].Bottom? ==> cell.Bottom?)
    ensures BottomInput(nodes, state[id := cell], x)
  {
    var i :| 0 <= i < |nodes[x].inputs| && nodes[x].inputs[i] < |state| && state[nodes[x].inputs[i]].Bottom?;
    assert state[id := cell][nodes[x].inputs[i]].Bottom?;
  }

  /** A visited arithmetic node that falls to bottom has an input there. */
  lemma VisitedBottom(nodes: seq<Node>, state: seq<Cell>, when: seq<nat>, clock: nat, id: NodeId)
    requires Sound(nodes, state, when, clock) && Shaped(nodes) && Eager(nodes, state)
    requires id < |nodes| && !nodes[id].dead && (nodes[id].kind.Bin? || nodes[id].kind.Un?)
    requires Transfer(nodes, state, id).Bottom?
    ensures BottomInput(nodes, state, id)
  {
    var n := nodes[id];
    assert ShapedNode(nodes, n) && Justified(nodes, state, when, id);
    if state[id].Const? {
      ConstStays(nodes, state, when, id);
    } else if n.kind.Bin? {
      FoldTwo(nodes, state, n.kind.bin, n.inputs);
      hide EvalBin;
      if !state[id].Bottom? {
        assert state[n.inputs[0]].Bottom? || state[n.inputs[1]].Bottom?;
      }
    } else if !state[id].Bottom? {
      assert state[n.inputs[0]].Bottom?;
    }
  }

  lemma VisitedPhi(nodes: seq<Node>, state: seq<Cell>, when: seq<nat>, clock: nat, id: NodeId, c: Word)
    requires Sound(nodes, state, when, clock) && ConstantPhi(nodes, id, c) && !state[id].Bottom?
    requires state[id].Const? ==> Transfer(nodes, state, id) == state[id]
    ensures Transfer(nodes, state, id) == Const(c)
  {
    var ins := nodes[id].inputs;
    forall i | 1 <= i < |ins| ensures state[ins[i]] == Const(c) {
      assert ConstantNode(nodes, ins[i], c) && Justified(nodes, state, when, ins[i]);
    }
    assert InGraph(nodes, ins[1]) && !IsMerge(nodes[ins[1]].kind);
    PhiMeetOf(nodes, state, ins, 0, None, c);
  }

  lemma VisitEager(nodes: seq<Node>, state: seq<Cell>, when: seq<nat>, clock: nat, id: NodeId)
    requires Sound(nodes, state, when, clock) && Shaped(nodes) && Eager(nodes, state) && id < |nodes|
    ensures Eager(nodes, state[id := Transfer(nodes, state, id)])
  {
    var cell := Transfer(nodes, state, id);
    var state' := state[id := cell];
    VisitSound(nodes, state, when, clock, id);
    forall x: NodeId | x < |nodes| && ArithmeticAtBottom(nodes, state', x)
      ensures BottomInput(nodes, state', x)
    {
      if x == id { VisitedBottom(nodes, state, when, clock, id); }
      hide Transfer, Sound, Shaped, BottomInput;
      BottomFalls(nodes, state, id);
      BottomInputStays(nodes, state, id, x, cell);
    }
    forall x: NodeId, c: Word | ConstantPhi(nodes, x, c) ensures !state'[x].Bottom? {
      hide Transfer, Sound, Shaped, BottomInput;
      if x == id { VisitedPhi(nodes, state, when, clock, id, c); }
    }
  }

  lemma BottomFalls(nodes: seq<Node>, state: seq<Cell>, id: NodeId)
    requires id < |nodes| == |state|
    ensures state[id].Bottom? ==> Transfer(nodes, state, id).Bottom?
  {
    hide Learned;
  }

  lemma SeedEager(nodes: seq<Node>, state: seq<Cell>)
    requires |state| == |nodes| && forall i :: 0 <= i < |nodes| ==> state[i] == Seed(nodes[i])
    ensures Eager(nodes, state)
  {
  }

  /** At the fixpoint arithmetic is constant exactly when its operands are and the operation has a value, and with that
      value; a phi of one constant is that constant. */
  lemma ArithmeticFolds(nodes: seq<Node>, state: seq<Cell>, when: seq<nat>, clock: nat, id: NodeId, v: Word)
    requires Sound(nodes, state, when, clock) && Shaped(nodes) && Eager(nodes, state) && Fixed(nodes, state)
    requires id < |nodes| && !nodes[id].dead
    ensures nodes[id].kind.Bin? ==>
      var x, y := nodes[id].inputs[0], nodes[id].inputs[1];
      state[id] == Const(v) <==>
        state[x].Const? && state[y].Const? && EvalBin(nodes[id].kind.bin, state[x].value, state[y].value) == Some(v)
    ensures nodes[id].kind.Un? && InGraph(nodes, nodes[id].inputs[0]) ==>
      var x := nodes[id].inputs[0];
      state[id] == Const(v) <==> state[x].Const? && EvalUn(nodes[id].kind.un, state[x].value) == v
    ensures ConstantPhi(nodes, id, v) ==> state[id] == Const(v)
  {
    hide EvalBin, EvalUn;
    var n := nodes[id];
    assert ShapedNode(nodes, n) && Justified(nodes, state, when, id) && Transfer(nodes, state, id) == state[id];
    if n.kind.Bin? {
      FoldTwo(nodes, state, n.kind.bin, n.inputs);
      NoBottomInput(nodes, state, id);
    } else if n.kind.Un? && InGraph(nodes, n.inputs[0]) {
      NoBottomInput(nodes, state, id);
    } else if ConstantPhi(nodes, id, v) {
      VisitedPhi(nodes, state, when, clock, id, v);
    }
  }

  lemma NoBottomInput(nodes: seq<Node>, state: seq<Cell>, id: NodeId)
    requires |state| == |nodes| && Eager(nodes, state) && id < |nodes| && !nodes[id].dead
    requires nodes[id].kind.Bin? || nodes[id].kind.Un?
    requires forall i :: 0 <= i < |nodes[id].inputs| ==> nodes[id].inputs[i] < |state|
    ensures (forall i :: 0 <= i < |nodes[id].inputs| ==> !state[nodes[id].inputs[i]].Bottom?) ==> !state[id].Bottom?
  {
    if state[id].Bottom? {
      assert ArithmeticAtBottom(nodes, state, id);
      assert BottomInput(nodes, state, id);
    }
  }
}
