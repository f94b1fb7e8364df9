/** Instruction selection, collection: one machine instruction per value node, with a virtual register
    for every node an instruction names. */
module InstrSel {
  import opened Wrappers
  import opened Words
  import opened MachineIR
  import opened IR

  datatype NodeInstr = NodeInstr(node: NodeId, mi: Instr)

  /** The registers given to nodes so far. */
  type Naming = map<NodeId, VReg>

  // ---- Which nodes become instructions ----

  /** Comparisons of unsigned words have no machine mapping. */
  predicate HasMnemonic(b: BinOp) {
    !(b.CmpUlt? || b.CmpUle? || b.CmpUgt? || b.CmpUge?)
  }

  predicate IsValueKind(k: NodeKind) {
    k.Constant? || k.Parameter? || k.Un? || (k.Bin? && HasMnemonic(k.bin))
  }

  predicate IsCollected(n: Node) {
    !n.dead && (IsValueKind(n.kind) || n.kind.Return?)
  }

  predicate IsLiveValue(nodes: seq<Node>, id: NodeId) {
    id < |nodes| && !nodes[id].dead && IsValueKind(nodes[id].kind)
  }

  /** A shift by a constant in 0..63 carries its count as an immediate. */
  predicate FoldsShift(nodes: seq<Node>, id: NodeId)
    requires id < |nodes|
  {
    var n := nodes[id];
    && n.kind.Bin? && IsShift(n.kind.bin) && |n.inputs| >= 2
    && n.inputs[1] < |nodes| && nodes[n.inputs[1]].kind.Constant?
    && 0 <= Signed(nodes[n.inputs[1]].payload) < 64
  }

  /** The nodes an instruction reads, in operand order. */
  function OperandNodes(nodes: seq<Node>, id: NodeId): seq<NodeId>
    requires id < |nodes|
  {
    var n := nodes[id];
    match n.kind
    case Un(_) => if n.inputs == [] then [] else [n.inputs[0]]
    case Bin(b) =>
      if FoldsShift(nodes, id) then [n.inputs[0]]
      else if |n.inputs| >= 2 then n.inputs[..2]
      else n.inputs
    case Return => if |n.inputs| >= RETURN_INPUTS then [n.inputs[RETURN_VALUE]] else []
    case _ => []
  }

  /** Parameters are numbered by a counter that passes over dead ones. */
  function LiveParametersBefore(nodes: seq<Node>, id: NodeId): nat
    requires id <= |nodes|
  {
    if id == 0 then 0
    else LiveParametersBefore(nodes, id - 1)
         + if !nodes[id - 1].dead && nodes[id - 1].kind.Parameter? then 1 else 0
  }

  function NamesOf(names: Naming, ids: seq<NodeId>): (r: seq<VReg>)
    requires forall k :: 0 <= k < |ids| ==> ids[k] in names
    ensures |r| == |ids| && forall k :: 0 <= k < |r| ==> r[k] == names[ids[k]]
  {
    seq(|ids|, k requires 0 <= k < |ids| => names[ids[k]])
  }

  /** The nodes an instruction names: its own, unless it is a return, and its operands'. */
  function Named(nodes: seq<Node>, id: NodeId): seq<NodeId>
    requires id < |nodes|
  {
    (if nodes[id].kind.Return? then [] else [id]) + OperandNodes(nodes, id)
  }

  predicate AllNamed(nodes: seq<Node>, names: Naming, id: NodeId)
    requires id < |nodes|
  {
    forall k :: 0 <= k < |Named(nodes, id)| ==> Named(nodes, id)[k] in names
  }

  lemma NamedParts(nodes: seq<Node>, names: Naming, id: NodeId)
    requires id < |nodes| && AllNamed(nodes, names, id)
    ensures !nodes[id].kind.Return? ==> id in names
    ensures forall k :: 0 <= k < |OperandNodes(nodes, id)| ==> OperandNodes(nodes, id)[k] in names
  {
    hide OperandNodes;
    if !nodes[id].kind.Return? {
      assert Named(nodes, id)[0] == id;
    }
    forall k | 0 <= k < |OperandNodes(nodes, id)| ensures OperandNodes(nodes, id)[k] in names {
      assert Named(nodes, id)[|Named(nodes, id)| - |OperandNodes(nodes, id)| + k] == OperandNodes(nodes, id)[k];
    }
  }

  /** The instruction of node `id` when `params` live parameters come before it. */
  function InstrOf(nodes: seq<Node>, names: Naming, id: NodeId, params: nat): Instr
    requires id < |nodes| && AllNamed(nodes, names, id)
  {
    NamedParts(nodes, names, id);
    var n := nodes[id];
    var uses := NamesOf(names, OperandNodes(nodes, id));
    match n.kind
    case Constant => Instr(OpMovImm, [names[id]], [], Some(Signed(n.payload)), General)
    case Parameter => Instr(OpParam, [names[id]], [], Some(params), General)
    case Un(u) => Instr(OpUn(u), [names[id]], uses, None, General)
    case Bin(b) =>
      Instr(OpBin(b), [names[id]], uses,
            if FoldsShift(nodes, id) then Some(Signed(nodes[n.inputs[1]].payload)) else None, General)
    case _ => Instr(OpRet, [], uses, None, General)
  }

  function CodeOf(nodes: seq<Node>, names: Naming, id: NodeId): Instr
    requires id < |nodes| && AllNamed(nodes, names, id)
  {
    InstrOf(nodes, names, id, LiveParametersBefore(nodes, id))
  }

  // ---- The graphs the straight-line path handles ----

  /** Live nodes are constants, parameters, unary and binary operators, the start, its projections and
      returns; operators and returns have their operands, which are live values, and a return's control and
      effect are not instructions. */
  ghost predicate StraightLine(nodes: seq<Node>) {
    && |nodes| < INVALID
    && forall id :: 0 <= id < |nodes| && !nodes[id].dead ==> WellFormed(nodes, nodes[id])
  }

  ghost predicate WellFormed(nodes: seq<Node>, n: Node) {
    && (IsValueKind(n.kind) || n.kind.Return? || n.kind.Start? || n.kind.Proj? || n.kind.Stop?)
    && (n.kind.Constant? || n.kind.Parameter? ==> n.inputs == [])
    && (n.kind.Un? ==> |n.inputs| == 1 && IsLiveValue(nodes, n.inputs[0]))
    && (n.kind.Bin? ==> |n.inputs| == 2 && IsLiveValue(nodes, n.inputs[0]) && IsLiveValue(nodes, n.inputs[1]))
    && (n.kind.Return? ==>
          && |n.inputs| == RETURN_INPUTS && IsLiveValue(nodes, n.inputs[RETURN_VALUE])
          && (n.inputs[0] < |nodes| ==> !IsCollected(nodes[n.inputs[0]]))
          && (n.inputs[1] < |nodes| ==> !IsCollected(nodes[n.inputs[1]])))
  }

  lemma OperandsAreValues(nodes: seq<Node>, id: NodeId)
    requires StraightLine(nodes) && id < |nodes| && IsCollected(nodes[id])
    ensures forall k :: 0 <= k < |OperandNodes(nodes, id)| ==>
      IsLiveValue(nodes, OperandNodes(nodes, id)[k]) && OperandNodes(nodes, id)[k] in nodes[id].inputs
  {
    assert WellFormed(nodes, nodes[id]);
    var n := nodes[id];
    if n.kind.Un? {
      assert n.inputs[0] in n.inputs;
    } else if n.kind.Bin? {
      assert n.inputs[0] in n.inputs && n.inputs[1] in n.inputs;
    } else if n.kind.Return? {
      assert n.inputs[RETURN_VALUE] in n.inputs;
    }
  }

  // ---- Collection ----

  /** Distinct nodes have distinct registers, all below `next`. */
  ghost predicate Assigned(names: Naming, next: VReg) {
    && (forall a :: a in names ==> names[a] < next)
    && (forall a, b :: a in names && b in names && a != b ==> names[a] != names[b])
  }

  /** `later` only adds registers to `earlier`. */
  ghost predicate Extends(earlier: Naming, later: Naming) {
    forall a :: a in earlier ==> a in later && later[a] == earlier[a]
  }

  method GetOrAssign(names0: Naming, next0: VReg, id: NodeId) returns (names: Naming, next: VReg)
    requires Assigned(names0, next0)
    ensures Assigned(names, next) && Extends(names0, names) && id in names
  {
    if id in names0 {
      return names0, next0;
    }
    names, next := names0[id := next0], next0 + 1;
  }

  method NameAll(names0: Naming, next0: VReg, ids: seq<NodeId>) returns (names: Naming, next: VReg)
    requires Assigned(names0, next0)
    ensures Assigned(names, next) && Extends(names0, names)
    ensures forall k :: 0 <= k < |ids| ==> ids[k] in names
  {
    names, next := names0, next0;
    for k := 0 to |ids|
      invariant Assigned(names, next) && Extends(names0, names)
      invariant forall j :: 0 <= j < k ==> ids[j] in names
    {
      names, next := GetOrAssign(names, next, ids[k]);
    }
  }

  ghost function CollectedTo(nodes: seq<Node>, n: nat): seq<NodeId>
    requires n <= |nodes|
  {
    if n == 0 then []
    else if IsCollected(nodes[n - 1]) then CollectedTo(nodes, n - 1) + [n - 1]
    else CollectedTo(nodes, n - 1)
  }

  lemma {:induction false} CollectedToMembers(nodes: seq<Node>, n: nat)
    requires n <= |nodes|
    ensures forall id: NodeId :: id in CollectedTo(nodes, n) <==> id < n && IsCollected(nodes[id])
    ensures forall i, j :: 0 <= i < j < |CollectedTo(nodes, n)| ==> CollectedTo(nodes, n)[i] < CollectedTo(nodes, n)[j]
  {
    if n > 0 {
      CollectedToMembers(nodes, n - 1);
      var front := CollectedTo(nodes, n - 1);
      forall i | 0 <= i < |front| ensures front[i] < n - 1 {
        assert front[i] in front;
      }
    }
  }

  /** `list` holds the instructions of the nodes `ids`. */
  ghost predicate Lists(nodes: seq<Node>, names: Naming, ids: seq<NodeId>, list: seq<NodeInstr>) {
    && |list| == |ids|
    && forall k :: 0 <= k < |ids| ==>
         ids[k] < |nodes| && AllNamed(nodes, names, ids[k])
         && list[k] == NodeInstr(ids[k], CodeOf(nodes, names, ids[k]))
  }

  lemma ExtendsKeepsCode(nodes: seq<Node>, names: Naming, names': Naming, id: NodeId, params: nat)
    requires id < |nodes| && AllNamed(nodes, names, id) && Extends(names, names')
    ensures AllNamed(nodes, names', id) && InstrOf(nodes, names', id, params) == InstrOf(nodes, names, id, params)
  {
    hide OperandNodes;
    NamedParts(nodes, names, id);
    assert NamesOf(names, OperandNodes(nodes, id)) == NamesOf(names', OperandNodes(nodes, id));
  }

  lemma ExtendsKeepsLists(nodes: seq<Node>, names: Naming, names': Naming, ids: seq<NodeId>, list: seq<NodeInstr>)
    requires Lists(nodes, names, ids, list) && Extends(names, names')
    ensures Lists(nodes, names', ids, list)
  {
    hide AllNamed, InstrOf, LiveParametersBefore, Extends;
    forall k | 0 <= k < |ids|
      ensures AllNamed(nodes, names', ids[k]) && CodeOf(nodes, names', ids[k]) == CodeOf(nodes, names, ids[k])
    {
      ExtendsKeepsCode(nodes, names, names', ids[k], LiveParametersBefore(nodes, ids[k]));
    }
  }

  /** Names registers and lists the instructions of the collected nodes in id order. */
  method Collect(nodes: seq<Node>) returns (list: seq<NodeInstr>, next: VReg, ghost names: Naming)
    requires StraightLine(nodes)
    ensures Assigned(names, next) && Lists(nodes, names, CollectedTo(nodes, |nodes|), list)
  {
    list, next := [], 0;
    var given: Naming := map[];
    var params := 0;
    assert Assigned(given, next);
    hide InstrOf, OperandNodes, Assigned, Extends, StraightLine, IsCollected;
    for id := 0 to |nodes|
      invariant Assigned(given, next) && Lists(nodes, given, CollectedTo(nodes, id), list)
      invariant params == LiveParametersBefore(nodes, id)
    {
      if IsCollected(nodes[id]) {
        ghost var before := given;
        given, next := NameAll(given, next, Named(nodes, id));
        ExtendsKeepsLists(nodes, before, given, CollectedTo(nodes, id), list);
        list := list + [NodeInstr(id, InstrOf(nodes, given, id, params))];
      }
      if !nodes[id].dead && nodes[id].kind.Parameter? { params := params + 1; }
    }
    names := given;
  }
}
