/** The explicit-stack post-order schedule of straight-line code, and the sweep of definitions nothing reads. */
module Scheduler {
  import opened Finite
  import opened MachineIR
  import opened IR
  import opened InstrSel

  datatype Visit = VisitNew | VisitOnStack | VisitDone

  datatype Frame = Frame(node: NodeId, expanded: bool)

  /** Inputs rank below the nodes that read them. */
  ghost predicate Ranked(nodes: seq<Node>, rank: seq<nat>) {
    && |rank| == |nodes|
    && forall id: NodeId, input: NodeId :: InputOf(nodes, id, input) ==> rank[input] < rank[id]
  }

  ghost predicate Acyclic(nodes: seq<Node>) {
    exists rank: seq<nat> :: Ranked(nodes, rank)
  }

  predicate InRange(nodes: seq<Node>, id: NodeId) {
    id < |nodes| && IsCollected(nodes[id])
  }

  /** `input` and `id` both have instructions, and the first is an input of the second. */
  predicate InputOf(nodes: seq<Node>, id: NodeId, input: NodeId) {
    InRange(nodes, id) && InRange(nodes, input) && input in nodes[id].inputs
  }

  // ---- The invariant of the schedule ----

  /** Every node stands after its inputs. */
  ghost predicate InputsFirst(nodes: seq<Node>, order: seq<NodeId>) {
    forall j, input: NodeId :: 0 <= j < |order| && InputOf(nodes, order[j], input) ==> input in order[..j]
  }

  ghost predicate Emitted(nodes: seq<Node>, state: seq<Visit>, order: seq<NodeId>) {
    && |state| == |nodes|
    && Distinct(order) && InputsFirst(nodes, order)
    && (forall id: NodeId :: id in order <==> id < |nodes| && state[id].VisitDone?)
    && (forall id: NodeId :: id in order ==> InRange(nodes, id))
  }

  /** A node is on the stack exactly when it has an expanded frame. */
  ghost predicate FramesMatch(nodes: seq<Node>, state: seq<Visit>, stack: seq<Frame>)
    requires |state| == |nodes|
  {
    && (forall i :: 0 <= i < |stack| ==> InRange(nodes, stack[i].node))
    && (forall i :: 0 <= i < |stack| && stack[i].expanded ==> state[stack[i].node].VisitOnStack?)
    && (forall id: NodeId :: id < |nodes| && state[id].VisitOnStack? ==> Frame(id, true) in stack)
  }

  /** What lies above an expanded frame ranks below it. */
  ghost predicate Descending(rank: seq<nat>, stack: seq<Frame>)
    requires forall i :: 0 <= i < |stack| ==> stack[i].node < |rank|
  {
    forall i, j :: 0 <= i < j < |stack| && stack[i].expanded ==> rank[stack[j].node] < rank[stack[i].node]
  }

  ghost predicate Above(stack: seq<Frame>, i: nat, id: NodeId) {
    exists j :: i < j < |stack| && stack[j].node == id
  }

  /** The inputs of an expanded frame are done or wait above it. */
  ghost predicate Pending(nodes: seq<Node>, state: seq<Visit>, stack: seq<Frame>)
    requires |state| == |nodes|
  {
    forall i, input: NodeId ::
      0 <= i < |stack| && stack[i].expanded && InputOf(nodes, stack[i].node, input)
      ==> state[input].VisitDone? || Above(stack, i, input)
  }

  ghost predicate Scheduling(nodes: seq<Node>, rank: seq<nat>, state: seq<Visit>, stack: seq<Frame>,
        order: seq<NodeId>)
  {
    && Ranked(nodes, rank)
    && Emitted(nodes, state, order)
    && FramesMatch(nodes, state, stack)
    && Descending(rank, stack)
    && Pending(nodes, state, stack)
  }

  /** How many nodes have not been visited. */
  ghost function NewNodes(state: seq<Visit>): nat {
    if state == [] then 0 else (if state[0].VisitNew? then 1 else 0) + NewNodes(state[1..])
  }

  /** What a visit never takes back. */
  ghost predicate Progress(state: seq<Visit>, state': seq<Visit>) {
    && |state| == |state'|
    && forall id :: 0 <= id < |state| && state[id].VisitDone? ==> state'[id].VisitDone?
  }

  // ---- Steps ----

  /** A frame whose node is already done goes away. */
  lemma DropDone(nodes: seq<Node>, rank: seq<nat>, state: seq<Visit>, stack: seq<Frame>, order: seq<NodeId>)
    requires Scheduling(nodes, rank, state, stack, order) && stack != []
    requires !stack[|stack| - 1].expanded && state[stack[|stack| - 1].node].VisitDone?
    ensures Scheduling(nodes, rank, state, stack[..|stack| - 1], order)
  {
    var rest := stack[..|stack| - 1];
    PendingWithoutTop(nodes, state, state, stack);
    hide InputOf, Emitted, Ranked;
    forall id: NodeId | id < |nodes| && state[id].VisitOnStack? ensures Frame(id, true) in rest {
      var i :| 0 <= i < |stack| && stack[i] == Frame(id, true);
      assert rest[i] == Frame(id, true);
    }
  }

  lemma PendingWithoutTop(nodes: seq<Node>, state: seq<Visit>, state': seq<Visit>, stack: seq<Frame>)
    requires |state| == |nodes| && stack != [] && Pending(nodes, state, stack)
    requires Progress(state, state') && stack[|stack| - 1].node < |nodes| && state'[stack[|stack| - 1].node].VisitDone?
    ensures Pending(nodes, state', stack[..|stack| - 1])
  {
    hide IsCollected;
    var rest := stack[..|stack| - 1];
    forall i, input: NodeId |
      0 <= i < |rest| && rest[i].expanded && InputOf(nodes, rest[i].node, input) && !state'[input].VisitDone?
      ensures Above(rest, i, input)
    {
      assert Above(stack, i, input);
      var j :| i < j < |stack| && stack[j].node == input;
      assert rest[j].node == input;
    }
  }

  /** The top frame's node is not open further down. */
  lemma TopIsFresh(nodes: seq<Node>, rank: seq<nat>, state: seq<Visit>, stack: seq<Frame>, order: seq<NodeId>)
    requires Scheduling(nodes, rank, state, stack, order) && stack != [] && !stack[|stack| - 1].expanded
    ensures !state[stack[|stack| - 1].node].VisitOnStack?
  {
    forall i | 0 <= i < |stack| ensures stack[i] != Frame(stack[|stack| - 1].node, true) {
      if stack[i].expanded {
        assert rank[stack[|stack| - 1].node] < rank[stack[i].node];
      }
    }
  }

  /** The top frame is emitted once its inputs are. */
  lemma EmitTop(nodes: seq<Node>, rank: seq<nat>, state: seq<Visit>, stack: seq<Frame>, order: seq<NodeId>)
    requires Scheduling(nodes, rank, state, stack, order) && stack != [] && stack[|stack| - 1].expanded
    ensures var top := stack[|stack| - 1].node;
      Scheduling(nodes, rank, state[top := VisitDone], stack[..|stack| - 1], order + [top])
  {
    var top := stack[|stack| - 1].node;
    var rest := stack[..|stack| - 1];
    var state' := state[top := VisitDone];
    EmitTopOrder(nodes, rank, state, stack, order);
    PendingWithoutTop(nodes, state, state', stack);
    hide InputOf, Emitted, Ranked;
    forall i | 0 <= i < |rest| && rest[i].expanded ensures state'[rest[i].node].VisitOnStack? {
      assert rank[top] < rank[rest[i].node];
    }
    forall id: NodeId | id < |nodes| && state'[id].VisitOnStack? ensures Frame(id, true) in rest {
      var i :| 0 <= i < |stack| && stack[i] == Frame(id, true);
      assert rest[i] == Frame(id, true);
    }
  }

  lemma EmitTopOrder(nodes: seq<Node>, rank: seq<nat>, state: seq<Visit>, stack: seq<Frame>, order: seq<NodeId>)
    requires Scheduling(nodes, rank, state, stack, order) && stack != [] && stack[|stack| - 1].expanded
    ensures var top := stack[|stack| - 1].node; Emitted(nodes, state[top := VisitDone], order + [top])
  {
    hide Descending, Ranked, IsCollected;
    var top := stack[|stack| - 1].node;
    var order' := order + [top];
    assert top !in order;
    forall j, input: NodeId | 0 <= j < |order'| && InputOf(nodes, order'[j], input) ensures input in order'[..j] {
      if j < |order| {
        assert order'[..j] == order[..j];
      } else {
        assert order'[..j] == order && order'[j] == top;
        assert !Above(stack, |stack| - 1, input);
        assert state[input].VisitDone?;
      }
    }
  }

  /** The unfinished inputs of `id` that the source stacks, last input lowest. */
  function Unvisited(nodes: seq<Node>, state: seq<Visit>, inputs: seq<NodeId>): (r: seq<Frame>)
    requires |state| == |nodes|
    ensures forall f :: f in r <==>
      !f.expanded && f.node in inputs && InRange(nodes, f.node) && state[f.node].VisitNew?
  {
    if inputs == [] then []
    else
      Unvisited(nodes, state, inputs[1..])
      + (if InRange(nodes, inputs[0]) && state[inputs[0]].VisitNew? then [Frame(inputs[0], false)] else [])
  }

  method PushInputs(nodes: seq<Node>, state: seq<Visit>, inputs: seq<NodeId>, stack0: seq<Frame>)
    returns (stack: seq<Frame>, pushedAny: bool)
    requires |state| == |nodes|
    ensures stack == stack0 + Unvisited(nodes, state, inputs)
    ensures pushedAny <==> Unvisited(nodes, state, inputs) != []
    ensures inputs == [] ==> !pushedAny && stack == stack0
  {
    stack, pushedAny := stack0, false;
    var k := |inputs|;
    assert inputs[k..] == [];
    while k > 0
      invariant 0 <= k <= |inputs|
      invariant stack == stack0 + Unvisited(nodes, state, inputs[k..])
      invariant pushedAny <==> Unvisited(nodes, state, inputs[k..]) != []
    {
      k := k - 1;
      assert inputs[k..][1..] == inputs[k + 1..];
      var input := inputs[k];
      if input < |nodes| && IsCollected(nodes[input]) && state[input].VisitNew? {
        stack, pushedAny := stack + [Frame(input, false)], true;
      }
    }
    assert inputs[0..] == inputs;
  }

  /** Opening the top frame and stacking its unvisited inputs. */
  lemma ExpandTop(nodes: seq<Node>, rank: seq<nat>, state: seq<Visit>, stack: seq<Frame>, order: seq<NodeId>)
    requires Scheduling(nodes, rank, state, stack, order) && stack != []
    requires !stack[|stack| - 1].expanded && state[stack[|stack| - 1].node].VisitNew?
    ensures var top := stack[|stack| - 1].node; var marked := state[top := VisitOnStack];
      Scheduling(nodes, rank, marked,
                 stack[|stack| - 1 := Frame(top, true)] + Unvisited(nodes, marked, nodes[top].inputs), order)
  {
    var t := |stack| - 1;
    var top := stack[t].node;
    var marked := state[top := VisitOnStack];
    var added := Unvisited(nodes, marked, nodes[top].inputs);
    var stack' := stack[t := Frame(top, true)] + added;
    forall j | |stack| <= j < |stack'| ensures InputOf(nodes, top, stack'[j].node) && !stack'[j].expanded {
      assert stack'[j] in added;
    }
    assert Emitted(nodes, marked, order);
    ExpandPending(nodes, rank, state, stack, order, added);
    hide Pending, Unvisited, Emitted, IsCollected;
    ExpandFrames(nodes, rank, state, stack, added);
  }

  lemma ExpandFrames(nodes: seq<Node>, rank: seq<nat>, state: seq<Visit>, stack: seq<Frame>, added: seq<Frame>)
    requires |state| == |nodes| && Ranked(nodes, rank) && stack != [] && FramesMatch(nodes, state, stack)
    requires Descending(rank, stack)
    requires !stack[|stack| - 1].expanded && state[stack[|stack| - 1].node].VisitNew?
    requires forall j :: 0 <= j < |added| ==>
      !added[j].expanded && InputOf(nodes, stack[|stack| - 1].node, added[j].node)
    ensures var top := stack[|stack| - 1].node; var marked := state[top := VisitOnStack];
      var stack' := stack[|stack| - 1 := Frame(top, true)] + added;
      FramesMatch(nodes, marked, stack') && Descending(rank, stack')
  {
    var t := |stack| - 1;
    var top := stack[t].node;
    var marked := state[top := VisitOnStack];
    var stack' := stack[t := Frame(top, true)] + added;
    hide IsCollected;
    forall j | |stack| <= j < |stack'| ensures InputOf(nodes, top, stack'[j].node) && !stack'[j].expanded {
      assert stack'[j] == added[j - |stack|];
    }
    forall i, j | 0 <= i < j < |stack'| && stack'[i].expanded
      ensures rank[stack'[j].node] < rank[stack'[i].node]
    {
      if j > t {
        assert rank[stack'[j].node] < rank[top];
      }
    }
    forall id: NodeId | id < |nodes| && marked[id].VisitOnStack? ensures Frame(id, true) in stack' {
      if id == top {
        assert stack'[t] == Frame(id, true);
      } else {
        var i :| 0 <= i < |stack| && stack[i] == Frame(id, true);
        assert stack'[i] == Frame(id, true);
      }
    }
  }

  lemma ExpandPending(nodes: seq<Node>, rank: seq<nat>, state: seq<Visit>, stack: seq<Frame>, order: seq<NodeId>,
                      added: seq<Frame>)
    requires Scheduling(nodes, rank, state, stack, order) && stack != []
    requires !stack[|stack| - 1].expanded && state[stack[|stack| - 1].node].VisitNew?
    requires added == Unvisited(nodes, state[stack[|stack| - 1].node := VisitOnStack],
      nodes[stack[|stack| - 1].node].inputs)
    ensures var top := stack[|stack| - 1].node;
      Pending(nodes, state[top := VisitOnStack], stack[|stack| - 1 := Frame(top, true)] + added)
  {
    hide IsCollected, InputsFirst, Ranked, Descending;
    var t := |stack| - 1;
    var top := stack[t].node;
    var marked := state[top := VisitOnStack];
    var stack' := stack[t := Frame(top, true)] + added;
    forall i | t < i < |stack'| ensures !stack'[i].expanded {
      assert stack'[i] in added;
    }
    forall i, input: NodeId |
      0 <= i <= t && stack'[i].expanded && InputOf(nodes, stack'[i].node, input) && !marked[input].VisitDone?
      ensures Above(stack', i, input)
    {
      if i < t {
        StaysAbove(stack, stack', i, input);
      } else {
        InputNotOpen(nodes, rank, state, stack, order, input);
        assert Frame(input, false) in added;
        var j :| 0 <= j < |added| && added[j] == Frame(input, false);
        assert stack'[t + 1 + j].node == input;
      }
    }
  }

  lemma StaysAbove(stack: seq<Frame>, stack': seq<Frame>, i: nat, input: NodeId)
    requires Above(stack, i, input) && |stack| <= |stack'|
    requires forall j :: 0 <= j < |stack| ==> stack'[j].node == stack[j].node
    ensures Above(stack', i, input)
  {
    var j :| i < j < |stack| && stack[j].node == input;
    assert stack'[j].node == input;
  }

  /** No input of the top frame's node is open: it would rank above it. */
  lemma InputNotOpen(nodes: seq<Node>, rank: seq<nat>, state: seq<Visit>, stack: seq<Frame>, order: seq<NodeId>,
                     input: NodeId)
    requires Scheduling(nodes, rank, state, stack, order) && stack != []
    requires !stack[|stack| - 1].expanded && InputOf(nodes, stack[|stack| - 1].node, input)
    ensures input != stack[|stack| - 1].node && !state[input].VisitOnStack?
  {
    var top := stack[|stack| - 1].node;
    assert rank[input] < rank[top];
    forall i | 0 <= i < |stack| ensures stack[i] != Frame(input, true) {
      if stack[i].expanded {
        assert rank[top] < rank[stack[i].node];
      }
    }
  }

  // ---- The schedule ----

  ghost predicate CodeListed(list: seq<NodeInstr>, order: seq<NodeId>, out: Program) {
    && |out| == |order|
    && forall j :: 0 <= j < |order| ==> NodeInstr(order[j], out[j]) in list
  }

  /** Where each node's instruction is listed. */
  ghost predicate Indexed(nodes: seq<Node>, list: seq<NodeInstr>, instrOf: map<NodeId, nat>) {
    forall id: NodeId :: InRange(nodes, id) ==>
      id in instrOf && instrOf[id] < |list| && list[instrOf[id]].node == id
  }

  /** A visit only appends to the order, and the visit of a leaf appends just the leaf. */
  ghost predicate Grown(leaf: bool, root: NodeId, order0: seq<NodeId>, order: seq<NodeId>, stack: seq<Frame>) {
    && |order0| <= |order| && order[..|order0|] == order0
    && (stack != [] ==> stack[0].node == root)
    && (leaf ==> if stack == [] then order == order0 + [root] else order == order0 && stack == [Frame(root, false)])
  }

  lemma GrownByEmit(leaf: bool, root: NodeId, order0: seq<NodeId>, order: seq<NodeId>, stack: seq<Frame>)
    requires Grown(leaf, root, order0, order, stack) && stack != []
    ensures Grown(leaf, root, order0, order + [stack[|stack| - 1].node], stack[..|stack| - 1])
    ensures |stack| == 1 ==> stack[0].node == root
  {
  }

  lemma GrownByStack(root: NodeId, order0: seq<NodeId>, order: seq<NodeId>, stack: seq<Frame>, stack': seq<Frame>)
    requires Grown(false, root, order0, order, stack)
      && (stack' != [] ==> stack != [] && stack'[0].node == stack[0].node)
    ensures Grown(false, root, order0, order, stack')
    ensures |stack| == 1 ==> stack[0].node == root
  {
  }

  lemma LeafIsFresh(root: NodeId, order0: seq<NodeId>, order: seq<NodeId>, stack: seq<Frame>)
    requires Grown(true, root, order0, order, stack) && stack != []
    ensures stack == [Frame(root, false)]
  {
  }

  // ---- What a visit may emit ----

  /** Holds the inputs of everything in it. */
  ghost predicate Closed(nodes: seq<Node>, d: set<NodeId>) {
    forall id: NodeId, input: NodeId :: id in d && InputOf(nodes, id, input) ==> input in d
  }

  ghost predicate Within(ids: seq<NodeId>, d: set<NodeId>) {
    forall i :: 0 <= i < |ids| ==> ids[i] in d
  }

  ghost predicate StackWithin(stack: seq<Frame>, d: set<NodeId>) {
    forall i :: 0 <= i < |stack| ==> stack[i].node in d
  }

  /** A visit to `root` emits and opens only what `root` needs. */
  ghost predicate Needed(nodes: seq<Node>, root: NodeId, order0: seq<NodeId>, order: seq<NodeId>, stack: seq<Frame>) {
    forall d: set<NodeId> {:trigger Closed(nodes, d)} :: Closed(nodes, d) && root in d && Within(order0, d)
      ==> Within(order, d) && StackWithin(stack, d)
  }

  lemma NeededByEmit(nodes: seq<Node>, root: NodeId, order0: seq<NodeId>, order: seq<NodeId>, stack: seq<Frame>)
    requires Needed(nodes, root, order0, order, stack) && stack != []
    ensures Needed(nodes, root, order0, order + [stack[|stack| - 1].node], stack[..|stack| - 1])
    ensures Needed(nodes, root, order0, order, stack[..|stack| - 1])
  {
    hide Closed;
  }

  lemma NeededByPush(nodes: seq<Node>, state: seq<Visit>, root: NodeId, order0: seq<NodeId>, order: seq<NodeId>,
                     stack: seq<Frame>)
    requires Needed(nodes, root, order0, order, stack) && stack != [] && |state| == |nodes|
    requires InRange(nodes, stack[|stack| - 1].node)
    ensures var top := stack[|stack| - 1].node;
      Needed(nodes, root, order0, order,
             stack[|stack| - 1 := Frame(top, true)] + Unvisited(nodes, state, nodes[top].inputs))
  {
    hide IsCollected;
    var t := |stack| - 1;
    var top := stack[t].node;
    var added := Unvisited(nodes, state, nodes[top].inputs);
    forall d: set<NodeId> | Closed(nodes, d) && root in d && Within(order0, d)
      ensures Within(order, d) && StackWithin(stack[t := Frame(top, true)] + added, d)
    {
      assert stack[t].node in d;
      forall i | 0 <= i < |added| ensures added[i].node in d {
        assert added[i] in added;
        assert InputOf(nodes, top, added[i].node);
      }
    }
  }

  /** The state of a visit to `root` that began with `state0` and `order0`. */
  ghost predicate Visiting(nodes: seq<Node>, list: seq<NodeInstr>, root: NodeId, rank: seq<nat>,
                           state0: seq<Visit>, order0: seq<NodeId>,
                           state: seq<Visit>, stack: seq<Frame>, out: Program, order: seq<NodeId>)
  {
    && Scheduling(nodes, rank, state, stack, order) && Progress(state0, state)
    && CodeListed(list, order, out)
    && InRange(nodes, root) && Grown(nodes[root].inputs == [], root, order0, order, stack)
    && Needed(nodes, root, order0, order, stack)
    && (if stack == [] then state[root].VisitDone? else nodes[root].inputs == [] ==> state[root].VisitNew?)
  }

  /** One turn of the scheduler's loop: emits, drops or opens the top frame. */
  method VisitTop(nodes: seq<Node>, list: seq<NodeInstr>, instrOf: map<NodeId, nat>, ghost root: NodeId,
                  state0: seq<Visit>, stack0: seq<Frame>, out0: Program,
                  ghost rank: seq<nat>, ghost first: seq<Visit>, ghost begun: seq<NodeId>, ghost order0: seq<NodeId>)
    returns (state: seq<Visit>, stack: seq<Frame>, out: Program, ghost order: seq<NodeId>)
    requires Visiting(nodes, list, root, rank, first, begun, state0, stack0, out0, order0) && stack0 != []
    requires Indexed(nodes, list, instrOf)
    ensures Visiting(nodes, list, root, rank, first, begun, state, stack, out, order)
    ensures NewNodes(state) < NewNodes(state0) || (NewNodes(state) == NewNodes(state0) && |stack| < |stack0|)
  {
    hide Scheduling, Indexed, CodeListed, NewNodes, Unvisited, IsCollected, Progress, Ranked, Schedules, Grown, Needed;
    ghost var leaf := nodes[root].inputs == [];
    state, stack, out, order := state0, stack0, out0, order0;
    var t := |stack| - 1;
    var top := stack[t].node;
    TopFacts(nodes, rank, state, stack, order);
    if leaf { LeafIsFresh(root, begun, order, stack); }
    NeededByEmit(nodes, root, begun, order, stack);
    if stack[t].expanded {
      EmitTop(nodes, rank, state, stack, order);
      GrownByEmit(leaf, root, begun, order, stack);
      state, out, order := Emit(list, instrOf, top, state, out, nodes, first, order);
      stack := stack[..t];
    } else if state[top].VisitDone? {
      DropDone(nodes, rank, state, stack, order);
      GrownByStack(root, begun, order, stack, stack[..t]);
      stack := stack[..t];
    } else {
      TopIsFresh(nodes, rank, state, stack, order);
      ExpandTop(nodes, rank, state, stack, order);
      Moving(first, state, top, VisitOnStack);
      state := state[top := VisitOnStack];
      NeededByPush(nodes, state, root, begun, order, stack);
      var pushed, pushedAny := PushInputs(nodes, state, nodes[top].inputs, stack[t := Frame(top, true)]);
      if pushedAny {
        GrownByStack(root, begun, order, stack, pushed);
        stack := pushed;
      } else {
        EmitTop(nodes, rank, state, pushed, order);
        GrownByEmit(leaf, root, begun, order, stack);
        state, out, order := Emit(list, instrOf, top, state, out, nodes, first, order);
        assert pushed[..t] == stack[..t];
        stack := stack[..t];
      }
    }
  }

  /** Emits `root` and everything it needs that has not been emitted. */
  method VisitNode(nodes: seq<Node>, list: seq<NodeInstr>, instrOf: map<NodeId, nat>, root: NodeId,
                   state0: seq<Visit>, out0: Program, ghost rank: seq<nat>, ghost order0: seq<NodeId>)
    returns (state: seq<Visit>, out: Program, ghost order: seq<NodeId>)
    requires Scheduling(nodes, rank, state0, [], order0) && Indexed(nodes, list, instrOf)
    requires InRange(nodes, root) && state0[root].VisitNew? && CodeListed(list, order0, out0)
    ensures Visiting(nodes, list, root, rank, state0, order0, state, [], out, order)
  {
    state, out, order := state0, out0, order0;
    var stack := [Frame(root, false)];
    assert Scheduling(nodes, rank, state, stack, order);
    assert Needed(nodes, root, order0, order, stack);
    assert Visiting(nodes, list, root, rank, state0, order0, state, stack, out, order);
    hide Visiting, Indexed, NewNodes;
    while stack != []
      invariant Visiting(nodes, list, root, rank, state0, order0, state, stack, out, order)
      decreases NewNodes(state), |stack|
    {
      state, stack, out, order := VisitTop(nodes, list, instrOf, root, state, stack, out, rank, state0, order0, order);
    }
  }

  /** Appends the instruction of `id` and marks it done. */
  method Emit(list: seq<NodeInstr>, instrOf: map<NodeId, nat>, id: NodeId, state: seq<Visit>, out: Program,
              ghost nodes: seq<Node>, ghost state0: seq<Visit>, ghost order: seq<NodeId>)
    returns (state': seq<Visit>, out': Program, ghost order': seq<NodeId>)
    requires Indexed(nodes, list, instrOf) && InRange(nodes, id) && |state| == |nodes| && !state[id].VisitNew?
    requires CodeListed(list, order, out) && Progress(state0, state)
    ensures state' == state[id := VisitDone] && order' == order + [id]
    ensures CodeListed(list, order', out') && Progress(state0, state') && NewNodes(state') == NewNodes(state)
  {
    IndexOf(nodes, list, instrOf, id);
    Listing(list, order, out, id, list[instrOf[id]].mi);
    Moving(state0, state, id, VisitDone);
    state', out', order' := state[id := VisitDone], out + [list[instrOf[id]].mi], order + [id];
  }

  lemma {:induction false} NewNodesUpdate(state: seq<Visit>, top: NodeId, v: Visit)
    requires top < |state| && !v.VisitNew?
    ensures NewNodes(state[top := v]) == NewNodes(state) - if state[top].VisitNew? then 1 else 0
  {
    if top > 0 {
      assert state[top := v][1..] == state[1..][top - 1 := v];
      NewNodesUpdate(state[1..], top - 1, v);
    } else {
      assert state[top := v][1..] == state[1..];
    }
  }

  lemma Moving(state0: seq<Visit>, state: seq<Visit>, top: NodeId, v: Visit)
    requires top < |state| && !v.VisitNew? && Progress(state0, state) && (v.VisitDone? || state[top].VisitNew?)
    ensures NewNodes(state[top := v]) == NewNodes(state) - if state[top].VisitNew? then 1 else 0
    ensures Progress(state0, state[top := v])
  {
    NewNodesUpdate(state, top, v);
  }

  lemma Listing(list: seq<NodeInstr>, order: seq<NodeId>, out: Program, id: NodeId, mi: Instr)
    requires CodeListed(list, order, out) && NodeInstr(id, mi) in list
    ensures CodeListed(list, order + [id], out + [mi])
  {
  }

  lemma TopFacts(nodes: seq<Node>, rank: seq<nat>, state: seq<Visit>, stack: seq<Frame>, order: seq<NodeId>)
    requires Scheduling(nodes, rank, state, stack, order) && stack != []
    ensures |state| == |nodes| && InRange(nodes, stack[|stack| - 1].node)
    ensures stack[|stack| - 1].expanded ==> !state[stack[|stack| - 1].node].VisitNew?
  {
  }

  lemma IndexOf(nodes: seq<Node>, list: seq<NodeInstr>, instrOf: map<NodeId, nat>, id: NodeId)
    requires Indexed(nodes, list, instrOf) && InRange(nodes, id)
    ensures id in instrOf && instrOf[id] < |list| && list[instrOf[id]].node == id
    ensures NodeInstr(id, list[instrOf[id]].mi) in list
  {
  }

  // ---- All collected nodes ----

  lemma StartSchedule(nodes: seq<Node>, rank: seq<nat>, state: seq<Visit>)
    requires Ranked(nodes, rank) && |state| == |nodes|
    requires forall id :: 0 <= id < |nodes| ==> state[id].VisitNew?
    ensures Scheduling(nodes, rank, state, [], [])
  {
  }

  /** What a schedule is for: every collected node exactly once, after all its inputs. */
  ghost predicate Schedules(nodes: seq<Node>, order: seq<NodeId>) {
    && Distinct(order)
    && (forall id: NodeId :: id in order <==> InRange(nodes, id))
    && InputsFirst(nodes, order)
  }

  lemma ScheduleComplete(nodes: seq<Node>, rank: seq<nat>, state: seq<Visit>, order: seq<NodeId>)
    requires Scheduling(nodes, rank, state, [], order)
    requires forall id: NodeId :: InRange(nodes, id) ==> state[id].VisitDone?
    ensures Schedules(nodes, order)
  {
  }

  method IndexList(nodes: seq<Node>, list: seq<NodeInstr>) returns (instrOf: map<NodeId, nat>)
    requires forall id: NodeId :: InRange(nodes, id) ==> exists k :: 0 <= k < |list| && list[k].node == id
    ensures Indexed(nodes, list, instrOf)
  {
    instrOf := map[];
    for k := 0 to |list|
      invariant forall id: NodeId :: id in instrOf ==> instrOf[id] < |list| && list[instrOf[id]].node == id
      invariant forall j :: 0 <= j < k ==> list[j].node in instrOf
    {
      instrOf := instrOf[list[k].node := k];
    }
  }

  /** How many nodes at the head of `ids` have no inputs. */
  ghost function LeafPrefix(nodes: seq<Node>, ids: seq<NodeId>): (r: nat)
    ensures r <= |ids|
    ensures forall j :: 0 <= j < r ==> ids[j] < |nodes| && nodes[ids[j]].inputs == []
    ensures r < |ids| ==> ids[r] >= |nodes| || nodes[ids[r]].inputs != []
  {
    if ids == [] || ids[0] >= |nodes| || nodes[ids[0]].inputs != [] then 0 else 1 + LeafPrefix(nodes, ids[1..])
  }

  /** The order so far begins with the leaves that head the list. */
  ghost predicate LedBy(ids: seq<NodeId>, lead: nat, k: nat, order: seq<NodeId>)
    requires lead <= |ids| && k <= |ids|
  {
    if k <= lead then order == ids[..k] else |order| >= lead && order[..lead] == ids[..lead]
  }

  lemma LedByNext(ids: seq<NodeId>, lead: nat, k: nat, order: seq<NodeId>, leaf: bool, order': seq<NodeId>)
    requires lead <= |ids| && k < |ids| && LedBy(ids, lead, k, order) && (k < lead ==> leaf)
    requires Grown(leaf, ids[k], order, order', [])
    ensures LedBy(ids, lead, k + 1, order')
  {
  }

  lemma LedBySame(ids: seq<NodeId>, lead: nat, k: nat, order: seq<NodeId>)
    requires lead <= |ids| && k < |ids| && LedBy(ids, lead, k, order) && Distinct(ids) && ids[k] in order
    ensures LedBy(ids, lead, k + 1, order)
  {
  }

  ghost predicate AllDone(state: seq<Visit>, ids: seq<NodeId>, n: nat)
    requires n <= |ids|
  {
    forall j :: 0 <= j < n ==> ids[j] < |state| && state[ids[j]].VisitDone?
  }

  lemma AllDoneNext(state: seq<Visit>, state': seq<Visit>, ids: seq<NodeId>, n: nat)
    requires n < |ids| && AllDone(state, ids, n) && Progress(state, state')
    requires ids[n] < |state'| && state'[ids[n]].VisitDone?
    ensures AllDone(state', ids, n + 1)
  {
  }

  /** The first `q` nodes of the order hold the first `m` of the list and only what those need. */
  ghost predicate Stage(nodes: seq<Node>, ids: seq<NodeId>, m: nat, q: nat, order: seq<NodeId>) {
    && m <= |ids| && q <= |order|
    && (forall i :: 0 <= i < m ==> ids[i] in order[..q])
    && forall d: set<NodeId> {:trigger Closed(nodes, d)} :: Closed(nodes, d) && Within(ids[..m], d) ==>
         Within(order[..q], d)
  }

  ghost predicate StagedTo(nodes: seq<Node>, ids: seq<NodeId>, m: nat, order: seq<NodeId>) {
    exists q: nat :: Stage(nodes, ids, m, q, order)
  }

  /** Whatever stands early in the list is emitted before anything it does not need. */
  ghost predicate InStages(nodes: seq<Node>, ids: seq<NodeId>, k: nat, order: seq<NodeId>) {
    forall m: nat :: m <= k ==> StagedTo(nodes, ids, m, order)
  }

  lemma StageGrows(nodes: seq<Node>, ids: seq<NodeId>, k: nat, order: seq<NodeId>, order': seq<NodeId>)
    requires InStages(nodes, ids, k, order) && |order| <= |order'| && order'[..|order|] == order
    ensures InStages(nodes, ids, k, order')
  {
    hide Closed;
    forall m: nat | m <= k ensures StagedTo(nodes, ids, m, order') {
      assert StagedTo(nodes, ids, m, order);
      var q: nat :| Stage(nodes, ids, m, q, order);
      assert order'[..q] == order[..q];
      assert Stage(nodes, ids, m, q, order');
    }
  }

  lemma NextStage(nodes: seq<Node>, ids: seq<NodeId>, k: nat, order: seq<NodeId>, order': seq<NodeId>)
    requires k < |ids| && InStages(nodes, ids, k, order) && Stage(nodes, ids, k, |order|, order)
    requires |order| <= |order'| && order'[..|order|] == order && ids[k] in order'
    requires Needed(nodes, ids[k], order, order', [])
    ensures InStages(nodes, ids, k + 1, order') && Stage(nodes, ids, k + 1, |order'|, order')
  {
    hide Closed;
    StageGrows(nodes, ids, k, order, order');
    assert order'[..|order'|] == order' && order[..|order|] == order;
    forall i | 0 <= i < k + 1 ensures ids[i] in order' {
      if i < k {
        var a :| 0 <= a < |order| && order[a] == ids[i];
        assert order'[..|order|][a] == ids[i];
      }
    }
    forall d: set<NodeId> | Closed(nodes, d) && Within(ids[..k + 1], d) ensures Within(order', d) {
      assert ids[..k + 1][k] == ids[k];
      assert Within(ids[..k], d) by {
        forall i | 0 <= i < k ensures ids[i] in d { assert ids[..k + 1][i] == ids[i]; }
      }
    }
    assert Stage(nodes, ids, k + 1, |order'|, order');
  }

  lemma NothingStaged(nodes: seq<Node>, ids: seq<NodeId>)
    ensures InStages(nodes, ids, 0, []) && Stage(nodes, ids, 0, 0, [])
  {
    hide Closed;
    assert Stage(nodes, ids, 0, 0, []);
  }

  /** Visits the listed nodes in list order; the leaves that head the list are emitted at once. */
  method VisitAll(nodes: seq<Node>, list: seq<NodeInstr>, instrOf: map<NodeId, nat>, ghost rank: seq<nat>,
                  ghost ids: seq<NodeId>)
    returns (state: seq<Visit>, out: Program, ghost order: seq<NodeId>)
    requires Ranked(nodes, rank) && Indexed(nodes, list, instrOf) && Distinct(ids)
    requires |ids| == |list| && forall k :: 0 <= k < |list| ==> list[k].node == ids[k] && InRange(nodes, ids[k])
    ensures |state| == |nodes| && Scheduling(nodes, rank, state, [], order)
    ensures AllDone(state, ids, |ids|) && CodeListed(list, order, out)
    ensures LedBy(ids, LeafPrefix(nodes, ids), |ids|, order) && InStages(nodes, ids, |ids|, order)
  {
    hide Scheduling, IsCollected, CodeListed, Indexed, Ranked, LedBy, Grown, Distinct, LeafPrefix, AllDone,
         Progress, Visiting, InStages, Stage, Needed;
    ghost var lead := LeafPrefix(nodes, ids);
    state, out, order := seq(|nodes|, _ => VisitNew), [], [];
    StartSchedule(nodes, rank, state);
    NothingVisited(nodes, list, ids, state);
    NothingStaged(nodes, ids);
    for k := 0 to |list|
      invariant |state| == |nodes| && Scheduling(nodes, rank, state, [], order) && AllDone(state, ids, k)
      invariant CodeListed(list, order, out) && LedBy(ids, lead, k, order)
      invariant InStages(nodes, ids, k, order) && Stage(nodes, ids, k, |order|, order)
    {
      var id := list[k].node;
      if state[id].VisitNew? {
        ghost var before, was := order, state;
        state, out, order := VisitNode(nodes, list, instrOf, id, state, out, rank, order);
        VisitEnds(nodes, list, id, rank, was, before, state, out, order);
        LedByNext(ids, lead, k, before, nodes[id].inputs == [], order);
        AllDoneNext(was, state, ids, k);
        NextStage(nodes, ids, k, before, order);
      } else {
        NothingOpen(nodes, rank, state, order, id);
        AllDoneNext(state, state, ids, k);
        LedBySame(ids, lead, k, order);
        NoneNeeded(nodes, id, order);
        NextStage(nodes, ids, k, order, order);
      }
    }
  }

  lemma VisitEnds(nodes: seq<Node>, list: seq<NodeInstr>, root: NodeId, rank: seq<nat>, state0: seq<Visit>,
                  order0: seq<NodeId>, state: seq<Visit>, out: Program, order: seq<NodeId>)
    requires Visiting(nodes, list, root, rank, state0, order0, state, [], out, order)
    ensures |state| == |nodes| && Scheduling(nodes, rank, state, [], order) && Progress(state0, state)
    ensures root < |nodes| && state[root].VisitDone? && CodeListed(list, order, out)
    ensures Grown(nodes[root].inputs == [], root, order0, order, []) && Needed(nodes, root, order0, order, [])
    ensures |order0| <= |order| && order[..|order0|] == order0 && root in order
  {
  }

  lemma NoneNeeded(nodes: seq<Node>, id: NodeId, order: seq<NodeId>)
    ensures Needed(nodes, id, order, order, []) && order[..|order|] == order
  {
  }

  lemma NothingVisited(nodes: seq<Node>, list: seq<NodeInstr>, ids: seq<NodeId>, state: seq<Visit>)
    ensures CodeListed(list, [], []) && LedBy(ids, LeafPrefix(nodes, ids), 0, []) && AllDone(state, ids, 0)
  {
  }

  /** Emits the listed instructions in an order that puts operands first; on an acyclic graph it terminates
      and emits each exactly once, beginning with the leaves of lowest id. */
  method Schedule(nodes: seq<Node>, list: seq<NodeInstr>, ghost names: Naming)
    returns (out: Program, ghost order: seq<NodeId>)
    requires Acyclic(nodes) && Lists(nodes, names, CollectedTo(nodes, |nodes|), list)
    ensures Schedules(nodes, order) && CodeOfAll(nodes, names, order, out)
    ensures var ids := CollectedTo(nodes, |nodes|);
      LedBy(ids, LeafPrefix(nodes, ids), |ids|, order) && InStages(nodes, ids, |ids|, order)
  {
    ListCoversCollected(nodes, names, list);
    ghost var ids := CollectedTo(nodes, |nodes|);
    var instrOf := IndexList(nodes, list);
    ghost var rank: seq<nat> :| Ranked(nodes, rank);
    hide Scheduling, IsCollected, AllNamed, CodeOf, CollectedTo, CodeListed, Lists, Indexed, Ranked, Schedules,
         CodeOfAll, LedBy, LeafPrefix, InStages;
    var state;
    state, out, order := VisitAll(nodes, list, instrOf, rank, ids);
    forall id: NodeId | InRange(nodes, id) ensures state[id].VisitDone? {
      var k :| 0 <= k < |ids| && ids[k] == id;
    }
    ScheduleComplete(nodes, rank, state, order);
    ListedCode(nodes, names, list, order, out);
  }

  ghost predicate CodeOfAll(nodes: seq<Node>, names: Naming, ids: seq<NodeId>, code: Program) {
    && |code| == |ids|
    && forall j :: 0 <= j < |ids| ==>
         ids[j] < |nodes| && AllNamed(nodes, names, ids[j]) && code[j] == CodeOf(nodes, names, ids[j])
  }

  lemma ListCoversCollected(nodes: seq<Node>, names: Naming, list: seq<NodeInstr>)
    requires Lists(nodes, names, CollectedTo(nodes, |nodes|), list)
    ensures var ids := CollectedTo(nodes, |nodes|);
      && Distinct(ids) && |ids| == |list|
      && (forall k :: 0 <= k < |list| ==> list[k].node == ids[k] && InRange(nodes, ids[k]))
      && (forall id: NodeId :: InRange(nodes, id) ==> exists k :: 0 <= k < |ids| && ids[k] == id)
  {
    hide AllNamed, CodeOf, IsCollected;
    CollectedToMembers(nodes, |nodes|);
    var ids := CollectedTo(nodes, |nodes|);
    forall k | 0 <= k < |list| ensures InRange(nodes, ids[k]) {
      assert ids[k] in ids;
    }
  }

  lemma ListedCode(nodes: seq<Node>, names: Naming, list: seq<NodeInstr>, order: seq<NodeId>, out: Program)
    requires Lists(nodes, names, CollectedTo(nodes, |nodes|), list) && CodeListed(list, order, out)
    ensures CodeOfAll(nodes, names, order, out)
  {
    hide AllNamed, CodeOf, CollectedTo;
    forall j | 0 <= j < |order|
      ensures order[j] < |nodes| && AllNamed(nodes, names, order[j]) && out[j] == CodeOf(nodes, names, order[j])
    {
      var k :| 0 <= k < |list| && list[k] == NodeInstr(order[j], out[j]);
    }
  }

  lemma NothingOpen(nodes: seq<Node>, rank: seq<nat>, state: seq<Visit>, order: seq<NodeId>, id: NodeId)
    requires Scheduling(nodes, rank, state, [], order) && id < |nodes| == |state| && !state[id].VisitNew?
    ensures state[id].VisitDone? && id in order && Progress(state, state)
  {
  }

  // ---- The sweep ----

  predicate Reads(p: Program, v: VReg) {
    exists i :: 0 <= i < |p| && v in p[i].uses
  }

  /** Returns stay; so does every definition some instruction of the unswept program reads. */
  predicate Kept(p: Program, mi: Instr) {
    mi.op.OpRet? || mi.defs == [] || Reads(p, mi.defs[0])
  }

  /** The positions among the first `n` that survive. */
  ghost function KeptTo(p: Program, n: nat): (r: seq<nat>)
    requires n <= |p|
    ensures forall k :: 0 <= k < |r| ==> r[k] < n
  {
    if n == 0 then [] else KeptTo(p, n - 1) + if Kept(p, p[n - 1]) then [n - 1] else []
  }

  ghost predicate SelectedFrom(p: Program, places: seq<nat>, q: Program) {
    && |q| == |places|
    && forall k :: 0 <= k < |q| ==> places[k] < |p| && q[k] == p[places[k]]
  }

  lemma {:induction false} KeptToFacts(p: Program, n: nat)
    requires n <= |p|
    ensures forall i :: i in KeptTo(p, n) <==> 0 <= i < n && Kept(p, p[i])
    ensures forall a, b :: 0 <= a < b < |KeptTo(p, n)| ==> KeptTo(p, n)[a] < KeptTo(p, n)[b]
  {
    if n > 0 {
      KeptToFacts(p, n - 1);
      var front := KeptTo(p, n - 1);
      forall a | 0 <= a < |front| ensures front[a] < n - 1 {
        assert front[a] in front;
      }
    }
  }

  method MarkUsed(p: Program, next: VReg) returns (used: seq<bool>)
    ensures |used| == next
    ensures forall v :: 0 <= v < next ==> (used[v] <==> Reads(p, v))
  {
    used := seq(next, _ => false);
    for i := 0 to |p|
      invariant |used| == next
      invariant forall v :: 0 <= v < next ==> (used[v] <==> exists k :: 0 <= k < i && v in p[k].uses)
    {
      ghost var before := used;
      var uses := p[i].uses;
      for n := 0 to |uses|
        invariant |used| == next
        invariant forall v :: 0 <= v < next ==> (used[v] <==> before[v] || v in uses[..n])
      {
        if uses[n] < next {
          used := used[uses[n] := true];
        }
        assert uses[..n + 1] == uses[..n] + [uses[n]];
      }
      assert uses[..|uses|] == uses;
    }
  }

  method Sweep(p: Program, next: VReg) returns (q: Program)
    requires forall i :: 0 <= i < |p| && p[i].defs != [] ==> p[i].defs[0] < next
    ensures SelectedFrom(p, KeptTo(p, |p|), q)
  {
    var used := MarkUsed(p, next);
    q := [];
    for i := 0 to |p|
      invariant SelectedFrom(p, KeptTo(p, i), q)
    {
      if p[i].op.OpRet? || p[i].defs == [] || used[p[i].defs[0]] {
        q := q + [p[i]];
      }
    }
  }
}
