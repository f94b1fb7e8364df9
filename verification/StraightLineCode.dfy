/** From a graph of pure nodes to bytes: the scheduled and swept program computes the graph's value, and so
    does the function encoded from it. */
module StraightLineCode {
  import opened Wrappers
  import opened Words
  import opened Finite
  import opened MachineIR
  import opened IR
  import opened InstrSel
  import opened Scheduler
  import opened LiveIntervals
  import opened LinearScan
  import opened Liveness
  import opened X86
  import opened EncoderSpec
  import opened StraightEncoding
  import opened ExecEncoder
  import opened Simulation

  // ---- What the graph means ----

  ghost predicate NodeHolds(nodes: seq<Node>, args: seq<Word>, val: seq<Word>, id: NodeId)
    requires id < |nodes| == |val| && WellFormed(nodes, nodes[id])
  {
    var n := nodes[id];
    match n.kind
    case Constant => val[id] == n.payload
    case Parameter => SignatureIndex(nodes, id) < |args| && val[id] == args[SignatureIndex(nodes, id)]
    case Un(u) => val[id] == EvalUn(u, val[n.inputs[0]])
    case Bin(b) => EvalBin(b, val[n.inputs[0]], val[n.inputs[1]]) == Some(val[id])
    case _ => true
  }

  /** `val` gives the live value nodes of `d` the values their operands determine; none of them traps. */
  ghost predicate Valuation(nodes: seq<Node>, args: seq<Word>, val: seq<Word>, d: set<NodeId>)
    requires StraightLine(nodes)
  {
    && |val| == |nodes|
    && forall id: NodeId {:trigger NodeHolds(nodes, args, val, id)} ::
         id in d && IsLiveValue(nodes, id) ==> NodeHolds(nodes, args, val, id)
  }

  // ---- What the straight-line path needs of the graph ----

  predicate LiveParameter(nodes: seq<Node>, id: NodeId) {
    id < |nodes| && !nodes[id].dead && nodes[id].kind.Parameter?
  }

  /** No live parameter has a dead one before it. */
  ghost predicate ParametersIntact(nodes: seq<Node>) {
    forall dead: NodeId, id: NodeId ::
      dead < id && LiveParameter(nodes, id) && nodes[dead].kind.Parameter? ==> !nodes[dead].dead
  }

  /** Live parameters have lower ids than everything else that becomes an instruction. */
  ghost predicate ParametersLowest(nodes: seq<Node>) {
    forall a: NodeId, b: NodeId ::
      LiveParameter(nodes, a) && InRange(nodes, b) && !LiveParameter(nodes, b) ==> a < b
  }

  /** The return control comes to: any other has a higher id. */
  ghost predicate FirstReturn(nodes: seq<Node>, ret: NodeId) {
    && InRange(nodes, ret) && nodes[ret].kind.Return?
    && forall id: NodeId :: InRange(nodes, id) && nodes[id].kind.Return? ==> ret <= id
  }

  /** Everything up to the return, and whatever that needs. */
  ghost predicate Demanded(nodes: seq<Node>, ret: NodeId, d: set<NodeId>) {
    Closed(nodes, d) && forall id: NodeId :: InRange(nodes, id) && id <= ret ==> id in d
  }

  lemma {:induction false} CounterBound(nodes: seq<Node>, id: NodeId)
    requires id <= |nodes|
    ensures LiveParametersBefore(nodes, id) <= SignatureIndex(nodes, id)
    ensures LiveParametersBefore(nodes, id) == SignatureIndex(nodes, id)
      <==> forall d: NodeId :: d < id && nodes[d].kind.Parameter? ==> !nodes[d].dead
  {
    if id > 0 {
      CounterBound(nodes, id - 1);
    }
  }

  /** Selection numbers every live parameter by its signature index exactly when none of them has a dead
      parameter before it. */
  lemma ParameterNumbering(nodes: seq<Node>)
    ensures ParametersIntact(nodes) <==>
      forall id: NodeId :: LiveParameter(nodes, id) ==> LiveParametersBefore(nodes, id) == SignatureIndex(nodes, id)
  {
    forall id: NodeId | LiveParameter(nodes, id)
      ensures LiveParametersBefore(nodes, id) == SignatureIndex(nodes, id)
        <==> forall d: NodeId :: d < id && nodes[d].kind.Parameter? ==> !nodes[d].dead
    {
      CounterBound(nodes, id);
    }
  }

  // ---- The swept program ----

  ghost predicate OperandsFirst(nodes: seq<Node>, ids: seq<NodeId>)
    requires forall j :: 0 <= j < |ids| ==> ids[j] < |nodes|
  {
    forall j, k :: 0 <= j < |ids| && 0 <= k < |OperandNodes(nodes, ids[j])|
      ==> OperandNodes(nodes, ids[j])[k] in ids[..j]
  }

  /** `p` holds the code of the nodes `ids`: each once, operands first. */
  ghost predicate Selected(nodes: seq<Node>, names: Naming, next: VReg, ids: seq<NodeId>, p: Program) {
    && Assigned(names, next) && CodeOfAll(nodes, names, ids, p)
    && (forall j :: 0 <= j < |ids| ==> InRange(nodes, ids[j]))
    && Distinct(ids) && OperandsFirst(nodes, ids)
  }

  /** The return stands at place `at`, after nothing but what is demanded. */
  ghost predicate ReturnAt(nodes: seq<Node>, ret: NodeId, ids: seq<NodeId>, at: nat) {
    && at < |ids| && ids[at] == ret
    && forall d: set<NodeId> {:trigger Demanded(nodes, ret, d)} :: Demanded(nodes, ret, d) ==> Within(ids[..at], d)
  }

  ghost function Pick(order: seq<NodeId>, places: seq<nat>): (r: seq<NodeId>)
    requires forall k :: 0 <= k < |places| ==> places[k] < |order|
    ensures |r| == |places| && forall k :: 0 <= k < |r| ==> r[k] == order[places[k]]
  {
    seq(|places|, k requires 0 <= k < |places| => order[places[k]])
  }

  /** On the way from the schedule to the program nothing an instruction reads is lost. */
  lemma OperandKept(nodes: seq<Node>, names: Naming, order: seq<NodeId>, sched: Program, j: nat, k: nat)
    requires StraightLine(nodes) && Schedules(nodes, order) && CodeOfAll(nodes, names, order, sched)
    requires j < |order| && k < |OperandNodes(nodes, order[j])|
    ensures exists i :: 0 <= i < j && order[i] == OperandNodes(nodes, order[j])[k] && Kept(sched, sched[i])
  {
    var o := OperandNodes(nodes, order[j])[k];
    assert InRange(nodes, order[j]);
    OperandsAreValues(nodes, order[j]);
    hide OperandNodes, StraightLine;
    assert InputOf(nodes, order[j], o);
    var i :| 0 <= i < j && order[i] == o;
    NamedParts(nodes, names, order[j]);
    OperandUse(nodes, names, order[j], k);
    DefOfValue(nodes, names, o);
    assert names[o] in sched[j].uses && sched[i].defs == [names[o]];
  }

  lemma OperandUse(nodes: seq<Node>, names: Naming, id: NodeId, k: nat)
    requires id < |nodes| && AllNamed(nodes, names, id) && k < |OperandNodes(nodes, id)|
    ensures OperandNodes(nodes, id)[k] in names && names[OperandNodes(nodes, id)[k]] in CodeOf(nodes, names, id).uses
  {
    NamedParts(nodes, names, id);
    var uses := CodeOf(nodes, names, id).uses;
    assert uses[k] == names[OperandNodes(nodes, id)[k]];
  }

  lemma DefOfValue(nodes: seq<Node>, names: Naming, id: NodeId)
    requires id < |nodes| && AllNamed(nodes, names, id) && IsValueKind(nodes[id].kind)
    ensures id in names && CodeOf(nodes, names, id).defs == [names[id]]
  {
    NamedParts(nodes, names, id);
  }

  lemma SweptIsSelected(nodes: seq<Node>, names: Naming, next: VReg, order: seq<NodeId>,
                        sched: Program, p: Program) returns (ids: seq<NodeId>)
    requires StraightLine(nodes)
    requires Assigned(names, next) && Schedules(nodes, order) && CodeOfAll(nodes, names, order, sched)
    requires SelectedFrom(sched, KeptTo(sched, |sched|), p)
    ensures |sched| == |order| && ids == Pick(order, KeptTo(sched, |sched|)) && Selected(nodes, names, next, ids, p)
  {
    var places := KeptTo(sched, |sched|);
    KeptToFacts(sched, |sched|);
    ids := Pick(order, places);
    hide OperandNodes, StraightLine, AllNamed, CodeOf, KeptTo, Kept, IsCollected, OperandsFirst,
         CodeOfAll, Assigned, Schedules, InputOf, Distinct, SelectedFrom, InRange;
    SweptCode(nodes, names, order, sched, places, ids, p);
    SweptOperandsFirst(nodes, names, order, sched, places, ids);
  }

  lemma SweptCode(nodes: seq<Node>, names: Naming, order: seq<NodeId>, sched: Program, places: seq<nat>,
                  ids: seq<NodeId>, p: Program)
    requires Schedules(nodes, order) && CodeOfAll(nodes, names, order, sched) && SelectedFrom(sched, places, p)
    requires forall a, b :: 0 <= a < b < |places| ==> places[a] < places[b]
    requires |ids| == |places| && forall k :: 0 <= k < |places| ==> places[k] < |order| && ids[k] == order[places[k]]
    ensures CodeOfAll(nodes, names, ids, p) && Distinct(ids)
    ensures forall j :: 0 <= j < |ids| ==> InRange(nodes, ids[j])
  {
    hide AllNamed, CodeOf, IsCollected, InputsFirst;
    forall j | 0 <= j < |ids| ensures InRange(nodes, ids[j]) {
      assert order[places[j]] in order;
    }
  }

  lemma SweptOperandsFirst(nodes: seq<Node>, names: Naming, order: seq<NodeId>, sched: Program,
                           places: seq<nat>, ids: seq<NodeId>)
    requires StraightLine(nodes) && Schedules(nodes, order) && CodeOfAll(nodes, names, order, sched)
    requires forall i :: i in places <==> 0 <= i < |sched| && Kept(sched, sched[i])
    requires forall a, b :: 0 <= a < b < |places| ==> places[a] < places[b]
    requires |ids| == |places| && forall k :: 0 <= k < |places| ==> places[k] < |order| && ids[k] == order[places[k]]
    ensures OperandsFirst(nodes, ids)
  {
    hide OperandNodes, StraightLine, AllNamed, CodeOf, Kept, IsCollected;
    forall j, k | 0 <= j < |ids| && 0 <= k < |OperandNodes(nodes, ids[j])|
      ensures OperandNodes(nodes, ids[j])[k] in ids[..j]
    {
      OperandKept(nodes, names, order, sched, places[j], k);
      var i :| 0 <= i < places[j] && order[i] == OperandNodes(nodes, ids[j])[k] && Kept(sched, sched[i]);
      assert i in places;
      var a :| 0 <= a < |places| && places[a] == i;
      assert a < j;
      assert ids[..j][a] == OperandNodes(nodes, ids[j])[k];
    }
  }

  /** The return survives the sweep, and what stands before it is demanded. */
  lemma SweptReturn(nodes: seq<Node>, names: Naming, ret: NodeId, order: seq<NodeId>, sched: Program, ids: seq<NodeId>)
    returns (at: nat)
    requires FirstReturn(nodes, ret) && CodeOfAll(nodes, names, order, sched)
    requires var all := CollectedTo(nodes, |nodes|); InStages(nodes, all, |all|, order)
    requires |sched| == |order| && ids == Pick(order, KeptTo(sched, |sched|))
    ensures ReturnAt(nodes, ret, ids, at)
  {
    var all := CollectedTo(nodes, |nodes|);
    var q := ReturnStage(nodes, ret, order);
    var t :| 0 <= t < q && order[..q][t] == ret;
    assert InRange(nodes, ret) && order[t] == ret;
    hide IsCollected, Closed, InStages, CollectedTo, KeptTo, FirstReturn, Demanded, CodeOfAll, Kept;
    ReturnIsKept(nodes, names, order, sched, t);
    KeptToFacts(sched, |sched|);
    var places := KeptTo(sched, |sched|);
    assert t in places;
    at :| 0 <= at < |places| && places[at] == t;
    forall d: set<NodeId> | Demanded(nodes, ret, d) ensures Within(ids[..at], d) {
      PickedBefore(order, places, at, q, d);
    }
  }

  lemma PickedBefore(order: seq<NodeId>, places: seq<nat>, at: nat, q: nat, d: set<NodeId>)
    requires forall k :: 0 <= k < |places| ==> places[k] < |order|
    requires forall a, b :: 0 <= a < b < |places| ==> places[a] < places[b]
    requires at < |places| && places[at] < q <= |order| && Within(order[..q], d)
    ensures Within(Pick(order, places)[..at], d)
  {
    forall j | 0 <= j < at ensures Pick(order, places)[..at][j] in d {
      assert order[..q][places[j]] in d;
    }
  }

  lemma ReturnStage(nodes: seq<Node>, ret: NodeId, order: seq<NodeId>) returns (q: nat)
    requires FirstReturn(nodes, ret)
    requires var all := CollectedTo(nodes, |nodes|); InStages(nodes, all, |all|, order)
    ensures q <= |order| && ret in order[..q]
    ensures forall d: set<NodeId> {:trigger Demanded(nodes, ret, d)} :: Demanded(nodes, ret, d) ==>
      Within(order[..q], d)
  {
    var all := CollectedTo(nodes, |nodes|);
    CollectedToMembers(nodes, |nodes|);
    var m :| 0 <= m < |all| && all[m] == ret;
    assert StagedTo(nodes, all, m + 1, order);
    hide IsCollected, Closed, CollectedTo;
    q :| Stage(nodes, all, m + 1, q, order);
    forall d: set<NodeId> | Demanded(nodes, ret, d) ensures Within(order[..q], d) {
      forall i | 0 <= i <= m ensures all[i] in d {
        assert all[i] in all;
      }
      assert Within(all[..m + 1], d);
    }
  }

  lemma ReturnIsKept(nodes: seq<Node>, names: Naming, order: seq<NodeId>, sched: Program, t: nat)
    requires CodeOfAll(nodes, names, order, sched) && t < |order|
    requires order[t] < |nodes| && nodes[order[t]].kind.Return?
    ensures t < |sched| && Kept(sched, sched[t])
  {
    hide AllNamed;
  }

  /** What the sweep leaves: the returns, and the values some scheduled instruction reads. */
  ghost predicate Survives(nodes: seq<Node>, id: NodeId) {
    && InRange(nodes, id)
    && (nodes[id].kind.Return?
        || exists user: NodeId :: InRange(nodes, user) && id in OperandNodes(nodes, user))
  }

  /** A definition is read exactly when its node is an operand. */
  lemma KeptExactly(nodes: seq<Node>, names: Naming, next: VReg, order: seq<NodeId>, sched: Program, i: nat)
    requires StraightLine(nodes) && Assigned(names, next) && Schedules(nodes, order)
      && CodeOfAll(nodes, names, order, sched)
    requires i < |order|
    ensures i < |sched| && (Kept(sched, sched[i]) <==> Survives(nodes, order[i]))
  {
    var id := order[i];
    assert InRange(nodes, id) by { assert id in order; }
    hide OperandNodes, StraightLine, InputsFirst;
    if nodes[id].kind.Return? {
      ReturnIsKept(nodes, names, order, sched, i);
    } else {
      DefOfValue(nodes, names, id);
      if Kept(sched, sched[i]) {
        var j :| 0 <= j < |sched| && names[id] in sched[j].uses;
        UsesAreOperands(nodes, names, order[j]);
        var k :| 0 <= k < |OperandNodes(nodes, order[j])| && names[OperandNodes(nodes, order[j])[k]] == names[id];
        assert InRange(nodes, order[j]) by { assert order[j] in order; }
        assert OperandNodes(nodes, order[j])[k] == id;
      }
      if Survives(nodes, id) {
        var user: NodeId :| InRange(nodes, user) && id in OperandNodes(nodes, user);
        var j :| 0 <= j < |order| && order[j] == user;
        var k :| 0 <= k < |OperandNodes(nodes, user)| && OperandNodes(nodes, user)[k] == id;
        OperandUse(nodes, names, user, k);
        assert names[id] in sched[j].uses;
      }
    }
  }

  /** The sweep removes exactly the values nothing reads. */
  lemma SweptExactly(nodes: seq<Node>, names: Naming, next: VReg, order: seq<NodeId>, sched: Program, id: NodeId)
    requires StraightLine(nodes) && Assigned(names, next) && Schedules(nodes, order)
      && CodeOfAll(nodes, names, order, sched)
    ensures |sched| == |order| && (id in Pick(order, KeptTo(sched, |sched|)) <==> Survives(nodes, id))
  {
    KeptToFacts(sched, |sched|);
    var places := KeptTo(sched, |sched|);
    hide StraightLine, Kept, CodeOfAll, IsCollected, KeptTo, Assigned, InputsFirst, OperandNodes;
    assert |sched| == |order| by { SameLength(nodes, names, order, sched); }
    var ids := Pick(order, places);
    if id in ids {
      var a :| 0 <= a < |ids| && ids[a] == id;
      assert places[a] in places;
      KeptExactly(nodes, names, next, order, sched, places[a]);
    }
    if Survives(nodes, id) {
      var i :| 0 <= i < |order| && order[i] == id;
      KeptExactly(nodes, names, next, order, sched, i);
      assert i in places;
      var a :| 0 <= a < |places| && places[a] == i;
      assert ids[a] == id;
    }
  }

  lemma SameLength(nodes: seq<Node>, names: Naming, order: seq<NodeId>, sched: Program)
    requires CodeOfAll(nodes, names, order, sched)
    ensures |sched| == |order|
  {
  }

  // ---- What the program computes ----

  /** The registers of the first `j` nodes hold their values. */
  ghost predicate Holding(names: Naming, ids: seq<NodeId>, val: seq<Word>, j: nat, env: map<VReg, Word>)
    requires j <= |ids|
  {
    forall i :: 0 <= i < j ==>
      ids[i] < |val| && ids[i] in names && names[ids[i]] in env && env[names[ids[i]]] == val[ids[i]]
  }

  lemma UsesReady(nodes: seq<Node>, names: Naming, ids: seq<NodeId>, val: seq<Word>, j: nat, env: map<VReg, Word>)
    requires j < |ids| && (forall i :: 0 <= i < |ids| ==> ids[i] < |nodes|) && OperandsFirst(nodes, ids)
    requires Holding(names, ids, val, j, env)
    ensures OperandsHeld(nodes, names, val, ids[j], env)
  {
    hide OperandNodes;
    forall k | 0 <= k < |OperandNodes(nodes, ids[j])|
      ensures var o := OperandNodes(nodes, ids[j])[k];
        o < |val| && o in names && names[o] in env && env[names[o]] == val[o]
    {
      var i :| 0 <= i < j && ids[i] == OperandNodes(nodes, ids[j])[k];
    }
  }

  lemma ImmediateRoundTrip(w: Word)
    ensures Wrap(Signed(w)) == w
    ensures 0 <= Signed(w) < 64 ==> Signed(w) == w
  {
  }

  /** Node `id`'s operands are in the environment. */
  ghost predicate OperandsHeld(nodes: seq<Node>, names: Naming, val: seq<Word>, id: NodeId, env: map<VReg, Word>)
    requires id < |nodes|
  {
    forall k :: 0 <= k < |OperandNodes(nodes, id)| ==>
      var o := OperandNodes(nodes, id)[k];
      o < |val| && o in names && names[o] in env && env[names[o]] == val[o]
  }

  lemma UnComputes(nodes: seq<Node>, names: Naming, args: seq<Word>, val: seq<Word>, id: NodeId, env: map<VReg, Word>)
    requires id < |nodes| == |val| && WellFormed(nodes, nodes[id]) && nodes[id].kind.Un?
    requires NodeHolds(nodes, args, val, id) && AllNamed(nodes, names, id) && OperandsHeld(nodes, names, val, id, env)
    ensures ValueOf(CodeOf(nodes, names, id), args, env) == Some(val[id])
  {
    hide EvalUn, LiveParametersBefore;
    NamedParts(nodes, names, id);
    assert OperandNodes(nodes, id) == [nodes[id].inputs[0]];
    var mi := CodeOf(nodes, names, id);
    assert mi.uses == [names[nodes[id].inputs[0]]];
  }

  lemma BinComputes(nodes: seq<Node>, names: Naming, args: seq<Word>, val: seq<Word>, id: NodeId, env: map<VReg, Word>)
    requires id < |nodes| == |val| && WellFormed(nodes, nodes[id]) && nodes[id].kind.Bin? && !FoldsShift(nodes, id)
    requires NodeHolds(nodes, args, val, id) && AllNamed(nodes, names, id) && OperandsHeld(nodes, names, val, id, env)
    ensures ValueOf(CodeOf(nodes, names, id), args, env) == Some(val[id])
  {
    hide EvalBin, LiveParametersBefore;
    NamedParts(nodes, names, id);
    var ins := nodes[id].inputs;
    assert OperandNodes(nodes, id) == ins;
    var mi := CodeOf(nodes, names, id);
    assert OperandNodes(nodes, id)[0] == ins[0] && OperandNodes(nodes, id)[1] == ins[1];
    assert mi.uses == [names[ins[0]], names[ins[1]]];
  }

  /** The count of a folded shift is the constant the graph shifts by. */
  lemma FoldedShiftComputes(nodes: seq<Node>, names: Naming, args: seq<Word>, val: seq<Word>, id: NodeId,
                            env: map<VReg, Word>)
    requires id < |nodes| == |val| && WellFormed(nodes, nodes[id]) && nodes[id].kind.Bin? && FoldsShift(nodes, id)
    requires NodeHolds(nodes, args, val, id) && AllNamed(nodes, names, id) && OperandsHeld(nodes, names, val, id, env)
    requires val[nodes[id].inputs[1]] == nodes[nodes[id].inputs[1]].payload
    ensures ValueOf(CodeOf(nodes, names, id), args, env) == Some(val[id])
  {
    hide EvalBin, LiveParametersBefore;
    NamedParts(nodes, names, id);
    var ins := nodes[id].inputs;
    ImmediateRoundTrip(nodes[ins[1]].payload);
    assert OperandNodes(nodes, id) == [ins[0]];
    var mi := CodeOf(nodes, names, id);
    assert mi.uses == [names[ins[0]]];
  }

  /** One instruction computes its node's value. */
  lemma NodeComputes(nodes: seq<Node>, names: Naming, args: seq<Word>, val: seq<Word>, d: set<NodeId>, id: NodeId,
                     env: map<VReg, Word>)
    requires StraightLine(nodes) && Valuation(nodes, args, val, d) && Closed(nodes, d) && id in d
      && IsLiveValue(nodes, id)
    requires AllNamed(nodes, names, id) && OperandsHeld(nodes, names, val, id, env)
    requires LiveParameter(nodes, id) ==> LiveParametersBefore(nodes, id) == SignatureIndex(nodes, id)
    ensures ValueOf(CodeOf(nodes, names, id), args, env) == Some(val[id])
  {
    hide EvalBin, EvalUn, LiveParametersBefore, SignatureIndex, OperandsHeld, AllNamed;
    assert NodeHolds(nodes, args, val, id) && WellFormed(nodes, nodes[id]);
    var n := nodes[id];
    if n.kind.Un? {
      UnComputes(nodes, names, args, val, id, env);
    } else if n.kind.Bin? {
      if FoldsShift(nodes, id) {
        var count := n.inputs[1];
        assert InputOf(nodes, id, count) && count in d;
        assert IsLiveValue(nodes, count) && NodeHolds(nodes, args, val, count);
        FoldedShiftComputes(nodes, names, args, val, id, env);
      } else {
        BinComputes(nodes, names, args, val, id, env);
      }
    } else {
      NamedParts(nodes, names, id);
      ImmediateRoundTrip(n.payload);
    }
  }

  lemma HoldingNext(names: Naming, next: VReg, ids: seq<NodeId>, val: seq<Word>, j: nat, env: map<VReg, Word>)
    requires Assigned(names, next) && Distinct(ids) && j < |ids| && Holding(names, ids, val, j, env)
    requires ids[j] in names && ids[j] < |val|
    ensures Holding(names, ids, val, j + 1, env[names[ids[j]] := val[ids[j]]])
  {
  }

  lemma CodeAt(nodes: seq<Node>, names: Naming, next: VReg, ids: seq<NodeId>, p: Program, j: nat)
    requires Selected(nodes, names, next, ids, p) && j < |ids|
    ensures |p| == |ids| && ids[j] < |nodes| && AllNamed(nodes, names, ids[j]) && p[j] == CodeOf(nodes, names, ids[j])
    ensures InRange(nodes, ids[j]) && (IsLiveValue(nodes, ids[j]) || nodes[ids[j]].kind.Return?)
  {
    hide AllNamed, CodeOf, OperandNodes;
  }

  /** Nothing stands before the return but values. */
  lemma BeforeReturn(nodes: seq<Node>, names: Naming, next: VReg, ret: NodeId, ids: seq<NodeId>, p: Program, at: nat,
        j: nat)
    requires StraightLine(nodes) && Selected(nodes, names, next, ids, p)
    requires FirstReturn(nodes, ret) && ReturnAt(nodes, ret, ids, at) && j < at
    ensures IsLiveValue(nodes, ids[j])
  {
    hide AllNamed, CodeOf, OperandNodes, OperandsFirst, CodeOfAll;
    var d := set id: NodeId | id in Range(0, |nodes|) && InRange(nodes, id) && (id <= ret || !nodes[id].kind.Return?);
    ValuesClosed(nodes, ret, d);
    assert ids[..at][j] in d;
  }

  lemma ValuesClosed(nodes: seq<Node>, ret: NodeId, d: set<NodeId>)
    requires StraightLine(nodes)
    requires forall id: NodeId :: id in d <==> InRange(nodes, id) && (id <= ret || !nodes[id].kind.Return?)
    ensures Demanded(nodes, ret, d)
  {
    forall id: NodeId, input: NodeId | id in d && InputOf(nodes, id, input) ensures input in d {
      assert WellFormed(nodes, nodes[id]);
      var k :| 0 <= k < |nodes[id].inputs| && nodes[id].inputs[k] == input;
      assert IsLiveValue(nodes, input);
    }
  }

  lemma ValueInstrShape(nodes: seq<Node>, names: Naming, id: NodeId)
    requires StraightLine(nodes) && IsLiveValue(nodes, id) && AllNamed(nodes, names, id)
    ensures var mi := CodeOf(nodes, names, id);
      && id in names && mi.defs == [names[id]] && mi.rc == General
      && (mi.op.OpParam? || mi.op.OpMovImm? || mi.op.OpBin? || mi.op.OpUn?)
      && (mi.op.OpParam? <==> LiveParameter(nodes, id)) && (mi.op.OpParam? ==> mi.uses == [])
  {
    NamedParts(nodes, names, id);
  }

  lemma ReturnInstrShape(nodes: seq<Node>, names: Naming, ret: NodeId)
    requires StraightLine(nodes) && InRange(nodes, ret) && nodes[ret].kind.Return? && AllNamed(nodes, names, ret)
    ensures |nodes[ret].inputs| == RETURN_INPUTS && OperandNodes(nodes, ret) == [nodes[ret].inputs[RETURN_VALUE]]
    ensures nodes[ret].inputs[RETURN_VALUE] in names
    ensures CodeOf(nodes, names, ret)
         == Instr(OpRet, [], [names[nodes[ret].inputs[RETURN_VALUE]]], None, General)
  {
    assert WellFormed(nodes, nodes[ret]);
    NamedParts(nodes, names, ret);
    assert OperandNodes(nodes, ret)[0] in names;
  }

  /** One instruction before the return: it gives its node's register the node's value. */
  lemma ValueStepHolds(nodes: seq<Node>, names: Naming, next: VReg, ids: seq<NodeId>, p: Program,
                       args: seq<Word>, val: seq<Word>, d: set<NodeId>, j: nat, env: map<VReg, Word>)
    returns (env': map<VReg, Word>)
    requires StraightLine(nodes) && Valuation(nodes, args, val, d) && Closed(nodes, d) && ParametersIntact(nodes)
    requires Selected(nodes, names, next, ids, p) && j < |ids| && IsLiveValue(nodes, ids[j]) && ids[j] in d
    requires Holding(names, ids, val, j, env)
    ensures Holding(names, ids, val, j + 1, env') && VStep(p, args, VState(j, env)) == Next(VState(j + 1, env'))
  {
    hide AllNamed, CodeOf, OperandNodes, ValueOf, LiveParametersBefore, SignatureIndex, NodeHolds, OperandsHeld, Closed,
         StraightLine, IsLiveValue, OperandsFirst;
    var id := ids[j];
    CodeAt(nodes, names, next, ids, p, j);
    SelectedOrder(nodes, names, next, ids, p);
    UsesReady(nodes, names, ids, val, j, env);
    ParameterNumbering(nodes);
    NodeComputes(nodes, names, args, val, d, id, env);
    assert |val| == |nodes|;
    ValueInstrShape(nodes, names, id);
    HoldingNext(names, next, ids, val, j, env);
    env' := env[names[id] := val[id]];
  }

  lemma SelectedOrder(nodes: seq<Node>, names: Naming, next: VReg, ids: seq<NodeId>, p: Program)
    requires Selected(nodes, names, next, ids, p)
    ensures (forall i :: 0 <= i < |ids| ==> ids[i] < |nodes|) && OperandsFirst(nodes, ids)
    ensures Assigned(names, next) && Distinct(ids)
  {
    hide CodeOfAll, OperandsFirst;
  }

  lemma ReturnStepHolds(nodes: seq<Node>, names: Naming, next: VReg, ids: seq<NodeId>, p: Program, args: seq<Word>,
                        val: seq<Word>, j: nat, env: map<VReg, Word>)
    requires StraightLine(nodes) && Selected(nodes, names, next, ids, p) && |val| == |nodes|
    requires j < |ids| && InRange(nodes, ids[j]) && nodes[ids[j]].kind.Return? && Holding(names, ids, val, j, env)
    ensures |nodes[ids[j]].inputs| == RETURN_INPUTS && nodes[ids[j]].inputs[RETURN_VALUE] < |val|
    ensures VRun(p, args, VState(j, env), 1) == Returned(val[nodes[ids[j]].inputs[RETURN_VALUE]])
  {
    hide AllNamed, CodeOf, OperandNodes, ValueOf, OperandsFirst, CodeOfAll, StraightLine;
    CodeAt(nodes, names, next, ids, p, j);
    SelectedOrder(nodes, names, next, ids, p);
    UsesReady(nodes, names, ids, val, j, env);
    ReturnInstrShape(nodes, names, ids[j]);
    assert OperandNodes(nodes, ids[j])[0] == nodes[ids[j]].inputs[RETURN_VALUE];
  }

  /** From any point before its return the program runs on to it, and returns the graph's value. */
  lemma {:induction false} RunsToReturn(nodes: seq<Node>, names: Naming, next: VReg, ret: NodeId, ids: seq<NodeId>,
                                        p: Program, at: nat, args: seq<Word>, val: seq<Word>, d: set<NodeId>,
                                        j: nat, env: map<VReg, Word>)
    requires StraightLine(nodes) && Valuation(nodes, args, val, d) && Demanded(nodes, ret, d) && ParametersIntact(nodes)
    requires Selected(nodes, names, next, ids, p) && FirstReturn(nodes, ret) && ReturnAt(nodes, ret, ids, at)
    requires j <= at && Holding(names, ids, val, j, env)
    ensures |nodes[ret].inputs| == RETURN_INPUTS && nodes[ret].inputs[RETURN_VALUE] < |val|
    ensures VRun(p, args, VState(j, env), at + 1 - j) == Returned(val[nodes[ret].inputs[RETURN_VALUE]])
    decreases at - j
  {
    hide StraightLine, Selected, Holding, NodeHolds, Closed, ParametersIntact, VStep;
    if j == at {
      ReturnStepHolds(nodes, names, next, ids, p, args, val, j, env);
    } else {
      BeforeReturn(nodes, names, next, ret, ids, p, at, j);
      assert ids[..at][j] == ids[j] && ids[j] in d;
      var env' := ValueStepHolds(nodes, names, next, ids, p, args, val, d, j, env);
      RunsToReturn(nodes, names, next, ret, ids, p, at, args, val, d, j + 1, env');
    }
  }

  // ---- The program meets the demands of encoding ----

  lemma Successor(nodes: seq<Node>, names: Naming, next: VReg, ids: seq<NodeId>, p: Program, j: nat)
    requires StraightLine(nodes) && Selected(nodes, names, next, ids, p) && j < |p|
    ensures |p| == |ids| && (Succs(p, j) == [] || Succs(p, j) == [j + 1])
    ensures WellShaped(p[j]) && (forall v :: v in p[j].uses ==> exists d :: 0 <= d < j && v in p[d].defs)
    ensures !p[j].op.OpLabel? && p[j].rc == General && (p[j].op.OpParam? <==> LiveParameter(nodes, ids[j]))
  {
    hide AllNamed, CodeOf, OperandNodes, Succs;
    CodeAt(nodes, names, next, ids, p, j);
    UsesAreEarlier(nodes, names, next, ids, p, j);
    if IsLiveValue(nodes, ids[j]) {
      ValueInstrShape(nodes, names, ids[j]);
      ValueSuccs(p, j);
      forall k | 0 <= k < |p[j].uses| ensures p[j].uses[k] != p[j].defs[0] {
        assert p[j].uses[k] in p[j].uses;
      }
    } else {
      ReturnInstrShape(nodes, names, ids[j]);
      ReturnSuccs(p, j);
    }
  }

  lemma ValueSuccs(p: Program, j: nat)
    requires j < |p| && (p[j].op.OpParam? || p[j].op.OpMovImm? || p[j].op.OpBin? || p[j].op.OpUn?)
    ensures Succs(p, j) == [j + 1]
  {
  }

  lemma ReturnSuccs(p: Program, j: nat)
    requires j < |p| && p[j].op.OpRet?
    ensures Succs(p, j) == []
  {
  }

  lemma UsesAreEarlier(nodes: seq<Node>, names: Naming, next: VReg, ids: seq<NodeId>, p: Program, j: nat)
    requires StraightLine(nodes) && Selected(nodes, names, next, ids, p) && j < |ids|
    ensures |p| == |ids|
    ensures forall v :: v in p[j].uses ==> exists d :: 0 <= d < j && v in p[d].defs
    ensures IsLiveValue(nodes, ids[j]) ==> ids[j] in names && forall v :: v in p[j].uses ==> v != names[ids[j]]
  {
    hide AllNamed, OperandNodes;
    CodeAt(nodes, names, next, ids, p, j);
    OperandsAreValues(nodes, ids[j]);
    NamedParts(nodes, names, ids[j]);
    forall v | v in p[j].uses
      ensures exists d :: 0 <= d < j && v in p[d].defs
      ensures IsLiveValue(nodes, ids[j]) ==> v != names[ids[j]]
    {
      var operands := OperandNodes(nodes, ids[j]);
      UsesAreOperands(nodes, names, ids[j]);
      var k :| 0 <= k < |operands| && names[operands[k]] == v;
      var d :| 0 <= d < j && ids[d] == operands[k];
      CodeAt(nodes, names, next, ids, p, d);
      ValueInstrShape(nodes, names, ids[d]);
      assert p[d].defs == [v];
    }
  }

  lemma UsesAreOperands(nodes: seq<Node>, names: Naming, id: NodeId)
    requires id < |nodes| && AllNamed(nodes, names, id)
    ensures forall k :: 0 <= k < |OperandNodes(nodes, id)| ==> OperandNodes(nodes, id)[k] in names
    ensures forall v :: v in CodeOf(nodes, names, id).uses ==>
      exists k :: 0 <= k < |OperandNodes(nodes, id)| && names[OperandNodes(nodes, id)[k]] == v
  {
    hide OperandNodes;
    NamedParts(nodes, names, id);
    var uses := CodeOf(nodes, names, id).uses;
    forall v | v in uses
      ensures exists k :: 0 <= k < |OperandNodes(nodes, id)| && names[OperandNodes(nodes, id)[k]] == v
    {
      var k :| 0 <= k < |uses| && uses[k] == v;
      assert names[OperandNodes(nodes, id)[k]] == v;
    }
  }

  /** Straight-line code: control moves to the next instruction or nowhere, and reads follow writes. */
  ghost predicate OneWay(p: Program) {
    forall j :: 0 <= j < |p| ==>
      && (Succs(p, j) == [] || Succs(p, j) == [j + 1])
      && forall v :: v in p[j].uses ==> exists d :: 0 <= d < j && v in p[d].defs
  }

  lemma {:induction false} ReadsFollowWrites(p: Program, v: VReg, i: nat, n: nat)
    requires OneWay(p) && UsedFrom(p, v, i, n)
    ensures exists d :: 0 <= d < i && v in p[d].defs
    decreases n
  {
    if v !in p[i].uses {
      var j :| j in Succs(p, i) && UsedFrom(p, v, j, n - 1);
      ReadsFollowWrites(p, v, j, n - 1);
    }
  }

  lemma OneWayIsStructured(p: Program)
    requires OneWay(p)
    ensures Structured(p) && DefinedOnAllPaths(p)
  {
    hide SpanAt, Succs;
    forall v: VReg ensures !LiveAt(p, v, 0) {
      forall n: nat ensures !UsedFrom(p, v, 0, n) {
        if UsedFrom(p, v, 0, n) {
          ReadsFollowWrites(p, v, 0, n);
        }
      }
    }
  }

  // ---- Parameters first ----

  ghost predicate ParamsLead(nodes: seq<Node>, ids: seq<NodeId>) {
    forall a, b :: 0 <= a < b < |ids| && LiveParameter(nodes, ids[b]) ==> LiveParameter(nodes, ids[a])
  }

  /** Parameters stand in signature order. */
  ghost predicate ParamsAscend(nodes: seq<Node>, ids: seq<NodeId>) {
    forall a, b :: 0 <= a < b < |ids| && LiveParameter(nodes, ids[a]) && LiveParameter(nodes, ids[b]) ==>
      ids[a] < ids[b]
  }

  ghost function ParamPrefix(nodes: seq<Node>, ids: seq<NodeId>): (r: nat)
    ensures r <= |ids|
    ensures forall j :: 0 <= j < r ==> LiveParameter(nodes, ids[j])
    ensures r < |ids| ==> !LiveParameter(nodes, ids[r])
  {
    if ids == [] || !LiveParameter(nodes, ids[0]) then 0 else 1 + ParamPrefix(nodes, ids[1..])
  }

  lemma CollectedLead(nodes: seq<Node>)
    requires StraightLine(nodes) && ParametersLowest(nodes)
    ensures var all := CollectedTo(nodes, |nodes|);
      forall j :: 0 <= j < |all| ==> (LiveParameter(nodes, all[j]) <==> j < ParamPrefix(nodes, all))
  {
    var all := CollectedTo(nodes, |nodes|);
    CollectedToMembers(nodes, |nodes|);
    var k := ParamPrefix(nodes, all);
    hide WellFormed, CollectedTo, ParamPrefix;
    forall j | k <= j < |all| ensures !LiveParameter(nodes, all[j]) {
      assert all[j] in all && all[k] in all;
      assert k == j || all[k] < all[j];
    }
  }

  lemma OrderLeads(nodes: seq<Node>, order: seq<NodeId>)
    requires StraightLine(nodes) && ParametersLowest(nodes) && Schedules(nodes, order)
    requires var all := CollectedTo(nodes, |nodes|); LedBy(all, LeafPrefix(nodes, all), |all|, order)
    ensures ParamsLead(nodes, order) && ParamsAscend(nodes, order)
  {
    var all := CollectedTo(nodes, |nodes|);
    CollectedToMembers(nodes, |nodes|);
    CollectedLead(nodes);
    PrefixesAgree(nodes, all);
    var k := ParamPrefix(nodes, all);
    hide StraightLine, ParametersLowest, InputsFirst, LeafPrefix, CollectedTo, ParamPrefix, LiveParameter, IsCollected;
    SamePrefix(all, LeafPrefix(nodes, all), k, order);
    forall j | 0 <= j < |order| ensures order[j] in all {
      assert order[j] in order;
    }
    LeadsLike(nodes, order, all, k);
  }

  lemma SamePrefix(all: seq<NodeId>, lead: nat, k: nat, order: seq<NodeId>)
    requires k <= lead <= |all| && LedBy(all, lead, |all|, order)
    ensures k <= |order| && forall j :: 0 <= j < k ==> order[j] == all[j]
  {
    if lead < |all| {
      forall j | 0 <= j < k ensures order[j] == all[j] {
        assert order[..lead][j] == all[..lead][j];
      }
    }
  }

  lemma LeadsLike(nodes: seq<Node>, order: seq<NodeId>, all: seq<NodeId>, k: nat)
    requires Distinct(order) && k <= |all| && k <= |order| && forall j :: 0 <= j < k ==> order[j] == all[j]
    requires forall j :: 0 <= j < |order| ==> order[j] in all
    requires forall j :: 0 <= j < |all| ==> (LiveParameter(nodes, all[j]) <==> j < k)
    requires forall i, j :: 0 <= i < j < |all| ==> all[i] < all[j]
    ensures ParamsLead(nodes, order) && ParamsAscend(nodes, order)
  {
    hide LiveParameter;
    forall b | k <= b < |order| ensures !LiveParameter(nodes, order[b]) {
      var i :| 0 <= i < |all| && all[i] == order[b];
    }
  }

  lemma PrefixesAgree(nodes: seq<Node>, all: seq<NodeId>)
    requires StraightLine(nodes)
    ensures ParamPrefix(nodes, all) <= LeafPrefix(nodes, all)
  {
    var k, r := ParamPrefix(nodes, all), LeafPrefix(nodes, all);
    forall j | 0 <= j < k ensures all[j] < |nodes| && nodes[all[j]].inputs == [] {
      assert WellFormed(nodes, nodes[all[j]]);
    }
  }

  lemma PickLeads(nodes: seq<Node>, order: seq<NodeId>, places: seq<nat>)
    requires ParamsLead(nodes, order) && ParamsAscend(nodes, order) && forall k :: 0 <= k < |places| ==>
      places[k] < |order|
    requires forall a, b :: 0 <= a < b < |places| ==> places[a] < places[b]
    ensures ParamsLead(nodes, Pick(order, places)) && ParamsAscend(nodes, Pick(order, places))
  {
  }

  lemma LeadsPrefix(nodes: seq<Node>, ids: seq<NodeId>)
    requires ParamsLead(nodes, ids)
    ensures forall j :: 0 <= j < |ids| ==> (LiveParameter(nodes, ids[j]) <==> j < ParamPrefix(nodes, ids))
  {
  }

  lemma OneWayProgram(nodes: seq<Node>, names: Naming, next: VReg, ids: seq<NodeId>, p: Program)
    requires StraightLine(nodes) && Selected(nodes, names, next, ids, p)
    ensures |p| == |ids| && OneWay(p)
  {
    hide Selected, StraightLine, Succs;
    ProgramSize(nodes, names, next, ids, p);
    forall j | 0 <= j < |p|
      ensures Succs(p, j) == [] || Succs(p, j) == [j + 1]
      ensures forall v :: v in p[j].uses ==> exists d :: 0 <= d < j && v in p[d].defs
    {
      Successor(nodes, names, next, ids, p, j);
    }
  }

  lemma ProgramSize(nodes: seq<Node>, names: Naming, next: VReg, ids: seq<NodeId>, p: Program)
    requires Selected(nodes, names, next, ids, p)
    ensures |p| == |ids|
  {
  }

  lemma ProgramExecutable(nodes: seq<Node>, names: Naming, next: VReg, ids: seq<NodeId>, p: Program)
    requires StraightLine(nodes) && Selected(nodes, names, next, ids, p) && ParamsLead(nodes, ids)
    ensures Executable(p, ParamPrefix(nodes, ids))
    ensures forall i :: 0 <= i < |p| ==> p[i].rc == General
  {
    var k := ParamPrefix(nodes, ids);
    LeadsPrefix(nodes, ids);
    OneWayProgram(nodes, names, next, ids, p);
    OneWayIsStructured(p);
    hide Executable, Selected, StraightLine, Succs, OneWay, Structured, DefinedOnAllPaths, ParamsLead,
         IsCollected, CodeOf, AllNamed, LiveParameter, ParamPrefix, WellShaped;
    forall j | 0 <= j < |p|
      ensures WellShaped(p[j]) && p[j].rc == General && (p[j].op.OpParam? <==> j < k)
    {
      Successor(nodes, names, next, ids, p, j);
    }
    ExecutableParts(p, k);
  }

  lemma ExecutableParts(p: Program, k: nat)
    requires Structured(p) && DefinedOnAllPaths(p) && k <= |p|
    requires forall j :: 0 <= j < |p| ==> WellShaped(p[j]) && (p[j].op.OpParam? <==> j < k)
    ensures Executable(p, k)
  {
    hide WellShaped, Structured, DefinedOnAllPaths;
  }

  // ---- The whole path ----

  lemma DistinctIdsFit(nodes: seq<Node>, order: seq<NodeId>)
    requires Schedules(nodes, order)
    ensures |order| <= |nodes|
  {
    hide InputsFirst;
    DistinctSize(order);
    forall id | id in Members(order) ensures id in Range(0, |nodes|) {
      assert id in order;
    }
    SubsetSize(Members(order), Range(0, |nodes|));
  }

  /** Graphs the straight-line path selects code for ... */
  ghost predicate Selectable(nodes: seq<Node>, ret: NodeId) {
    StraightLine(nodes) && Acyclic(nodes) && FirstReturn(nodes, ret) && ParametersLowest(nodes)
  }

  /** ... and with the right argument for every parameter. */
  ghost predicate Compilable(nodes: seq<Node>, ret: NodeId) {
    Selectable(nodes, ret) && ParametersIntact(nodes)
  }

  /** Collects, schedules and sweeps: what is left are the returns and the values that are read, operands first, in a
      program that meets every demand of the byte-level theorem. */
  method Select(nodes: seq<Node>, ghost ret: NodeId)
    returns (p: Program, ghost ids: seq<NodeId>, ghost names: Naming, ghost next: VReg, ghost at: nat)
    requires Selectable(nodes, ret)
    ensures Selected(nodes, names, next, ids, p) && ReturnAt(nodes, ret, ids, at) && |p| <= |nodes|
    ensures Executable(p, ParamPrefix(nodes, ids)) && forall i :: 0 <= i < |p| ==> p[i].rc == General
    ensures (forall id: NodeId :: id in ids <==> Survives(nodes, id)) && ParamsLead(nodes, ids)
      && ParamsAscend(nodes, ids)
  {
    var list, size;
    list, size, names := Collect(nodes);
    next := size;
    var sched;
    ghost var order;
    hide StraightLine, FirstReturn, ParametersLowest, Schedules, CodeOfAll, Selected, KeptTo, LedBy, LeafPrefix,
         CollectedTo, ParamsLead, ParamsAscend, Assigned, Executable, Lists, ParametersIntact, AllNamed, CodeOf,
           SelectedFrom,
         IsCollected, InStages, ReturnAt, Survives;
    sched, order := Schedule(nodes, list, names);
    DefsBelow(nodes, names, size, order, sched);
    p := Sweep(sched, size);
    ids := SweptIsSelected(nodes, names, next, order, sched, p);
    at := SweptReturn(nodes, names, ret, order, sched, ids);
    forall id: NodeId ensures id in ids <==> Survives(nodes, id) {
      SweptExactly(nodes, names, next, order, sched, id);
    }
    SweptFacts(nodes, names, order, sched, ids, p);
    ProgramExecutable(nodes, names, next, ids, p);
  }

  lemma DefsBelow(nodes: seq<Node>, names: Naming, next: VReg, order: seq<NodeId>, sched: Program)
    requires Assigned(names, next) && CodeOfAll(nodes, names, order, sched)
    ensures forall i :: 0 <= i < |sched| && sched[i].defs != [] ==> sched[i].defs[0] < next
  {
    hide AllNamed, OperandNodes;
    forall i | 0 <= i < |sched| && sched[i].defs != [] ensures sched[i].defs[0] < next {
      NamedParts(nodes, names, order[i]);
    }
  }

  lemma SweptFacts(nodes: seq<Node>, names: Naming, order: seq<NodeId>, sched: Program, ids: seq<NodeId>, p: Program)
    requires StraightLine(nodes) && ParametersLowest(nodes)
    requires Schedules(nodes, order) && CodeOfAll(nodes, names, order, sched)
    requires var all := CollectedTo(nodes, |nodes|); LedBy(all, LeafPrefix(nodes, all), |all|, order)
    requires |sched| == |order| && ids == Pick(order, KeptTo(sched, |sched|))
    requires SelectedFrom(sched, KeptTo(sched, |sched|), p)
    ensures ParamsLead(nodes, ids) && ParamsAscend(nodes, ids) && |p| <= |nodes|
  {
    var places := KeptTo(sched, |sched|);
    assert |sched| == |order| && |p| == |places|;
    KeptToFacts(sched, |sched|);
    hide StraightLine, ParametersLowest, Schedules, CodeOfAll, LedBy, LeafPrefix, CollectedTo, ParamsLead, ParamsAscend,
         IsCollected, KeptTo, Kept, Pick;
    OrderLeads(nodes, order);
    PickLeads(nodes, order, places);
    DistinctIdsFit(nodes, order);
    AscendingFits(places, |order|);
  }

  lemma {:induction false} AscendingFits(places: seq<nat>, n: nat)
    requires forall a, b :: 0 <= a < b < |places| ==> places[a] < places[b]
    requires forall a :: 0 <= a < |places| ==> places[a] < n
    ensures |places| <= n
  {
    if places != [] {
      AscendingFits(places[..|places| - 1], places[|places| - 1]);
    }
  }

  /** The function in `bytes`, called with the arguments a valuation is about, returns the graph's value with
      the caller's stack and callee-saved registers as they were. */
  ghost predicate ReturnsValue(bytes: seq<Byte>, m: Machine, value: Word, base: seq<Word>, back: Word) {
    exists m' :: Reaches(bytes, m, m') && ReturnedTo(m', value, m.core, base, back)
  }

  /** For all arguments, whatever valuation there is of the nodes up to the return and those they need, on every machine
      the function is entered on. */
  ghost predicate ComputesGraph(nodes: seq<Node>, ret: NodeId, bytes: seq<Byte>)
    requires StraightLine(nodes) && FirstReturn(nodes, ret)
  {
    forall args: seq<Word>, val: seq<Word>, d: set<NodeId>, m: Machine, base: seq<Word>, back: Word ::
      Demanded(nodes, ret, d) && Valuation(nodes, args, val, d) && Entered(m, args, base, back)
      ==> |nodes[ret].inputs| == RETURN_INPUTS && nodes[ret].inputs[RETURN_VALUE] < |val|
          && ReturnsValue(bytes, m, val[nodes[ret].inputs[RETURN_VALUE]], base, back)
  }

  lemma ReturnedNode(nodes: seq<Node>, ret: NodeId)
    requires StraightLine(nodes) && FirstReturn(nodes, ret)
    ensures WellFormed(nodes, nodes[ret]) && |nodes[ret].inputs| == RETURN_INPUTS
    ensures nodes[ret].inputs[RETURN_VALUE] < |nodes|
  {
    assert WellFormed(nodes, nodes[ret]);
  }

  /** Run from its start, the program returns the graph's value. */
  lemma ProgramReturns(nodes: seq<Node>, names: Naming, next: VReg, ret: NodeId, ids: seq<NodeId>, p: Program, at: nat,
                       args: seq<Word>, val: seq<Word>, d: set<NodeId>)
    requires StraightLine(nodes) && FirstReturn(nodes, ret) && ReturnAt(nodes, ret, ids, at) && ParametersIntact(nodes)
    requires Selected(nodes, names, next, ids, p) && Demanded(nodes, ret, d) && Valuation(nodes, args, val, d)
    ensures ret < |nodes| && |nodes[ret].inputs| == RETURN_INPUTS && nodes[ret].inputs[RETURN_VALUE] < |val|
    ensures VRun(p, args, VState(0, map[]), at + 1) == Returned(val[nodes[ret].inputs[RETURN_VALUE]])
  {
    hide NodeHolds, ParametersIntact, VRun, CodeOfAll, OperandsFirst, Demanded;
    ReturnedNode(nodes, ret);
    assert Holding(names, ids, val, 0, map[]);
    RunsToReturn(nodes, names, next, ret, ids, p, at, args, val, d, 0, map[]);
  }

  lemma EncodedComputesGraph(nodes: seq<Node>, names: Naming, next: VReg, ret: NodeId, ids: seq<NodeId>, p: Program,
                             at: nat, al: Allocation)
    requires StraightLine(nodes) && FirstReturn(nodes, ret) && ReturnAt(nodes, ret, ids, at) && ParametersIntact(nodes)
    requires Selected(nodes, names, next, ids, p)
    requires Executable(p, ParamPrefix(nodes, ids)) && ParametersArrive(p, al, ParamPrefix(nodes, ids))
    requires KeepsApart(p, al) && Assemble(p, al).Ok?
    ensures ComputesGraph(nodes, ret, Assemble(p, al).value.bytes)
  {
    hide ParametersIntact, Selected, Executable, ParametersArrive, KeepsApart, ParamPrefix, Assemble, Valuation,
      Entered,
         ReturnsValue, VRun, Demanded, ReturnAt;
    assert WellFormed(nodes, nodes[ret]);
    forall args: seq<Word>, val: seq<Word>, d: set<NodeId>, m: Machine, base: seq<Word>, back: Word |
      Demanded(nodes, ret, d) && Valuation(nodes, args, val, d) && Entered(m, args, base, back)
      ensures nodes[ret].inputs[RETURN_VALUE] < |val|
      ensures ReturnsValue(Assemble(p, al).value.bytes, m, val[nodes[ret].inputs[RETURN_VALUE]], base, back)
    {
      ProgramReturns(nodes, names, next, ret, ids, p, at, args, val, d);
      BytesReturn(p, al, ParamPrefix(nodes, ids), args, at + 1, val[nodes[ret].inputs[RETURN_VALUE]], m, base, back);
    }
  }

  lemma BytesReturn(p: Program, al: Allocation, k: nat, args: seq<Word>, n: nat, value: Word,
                    m: Machine, base: seq<Word>, back: Word)
    requires Assemble(p, al).Ok? && Executable(p, k) && KeepsApart(p, al) && ParametersArrive(p, al, k)
    requires VRun(p, args, VState(0, map[]), n) == Returned(value) && Entered(m, args, base, back)
    ensures ReturnsValue(Assemble(p, al).value.bytes, m, value, base, back)
  {
    hide KeepsApart, ParametersArrive, ParamMoves, Executable, Assemble, VRun, Reaches, ReturnedTo, Entered;
    var m' := EncodedFunctionReturns(p, al, args, k, n, value, m, base, back);
  }

  // ---- What selection leaves is straight-line code ----

  lemma SelectedInstr(nodes: seq<Node>, names: Naming, id: NodeId)
    requires StraightLine(nodes) && InRange(nodes, id) && AllNamed(nodes, names, id)
    ensures var mi := CodeOf(nodes, names, id);
      && StraightInstr(mi) && (mi.op.OpRet? ==> mi.defs == []) && (nodes[id].kind.Return? ==> mi.op.OpRet?)
      && (LiveParameter(nodes, id) ==> mi.imm == Some(LiveParametersBefore(nodes, id)))
  {
    hide LiveParametersBefore, StraightBin;
    if nodes[id].kind.Return? {
      hide CodeOf;
      ReturnInstrShape(nodes, names, id);
    } else if nodes[id].kind.Bin? {
      SelectedBin(nodes, names, id);
    } else {
      assert WellFormed(nodes, nodes[id]);
      NamedParts(nodes, names, id);
    }
  }

  lemma SelectedBin(nodes: seq<Node>, names: Naming, id: NodeId)
    requires StraightLine(nodes) && IsLiveValue(nodes, id) && AllNamed(nodes, names, id) && nodes[id].kind.Bin?
    ensures StraightInstr(CodeOf(nodes, names, id)) && CodeOf(nodes, names, id).op.OpBin?
  {
    BinOperands(nodes, id);
    hide *;
    BinCode(nodes, names, id);
    BinStraight(nodes, id, CodeOf(nodes, names, id));
  }

  lemma BinCode(nodes: seq<Node>, names: Naming, id: NodeId)
    requires InRange(nodes, id) && AllNamed(nodes, names, id) && nodes[id].kind.Bin?
    ensures var mi := CodeOf(nodes, names, id);
      && mi.op == OpBin(nodes[id].kind.bin) && |mi.defs| == 1 && |mi.uses| == |OperandNodes(nodes, id)|
      && mi.imm.Some? == FoldsShift(nodes, id)
      && (mi.imm.Some? ==>
            && |nodes[id].inputs| >= 2 && nodes[id].inputs[1] < |nodes|
            && mi.imm.value == Signed(nodes[nodes[id].inputs[1]].payload))
  {
    hide OperandNodes, Named, AllNamed, Signed, LiveParametersBefore;
  }

  lemma BinStraight(nodes: seq<Node>, id: NodeId, mi: Instr)
    requires IsLiveValue(nodes, id) && nodes[id].kind.Bin?
    requires mi.op == OpBin(nodes[id].kind.bin) && |mi.defs| == 1
    requires |mi.uses| == if FoldsShift(nodes, id) then 1 else 2
    requires mi.imm.Some? == FoldsShift(nodes, id)
      && (mi.imm.Some? ==>
            && |nodes[id].inputs| >= 2 && nodes[id].inputs[1] < |nodes|
            && mi.imm.value == Signed(nodes[nodes[id].inputs[1]].payload))
    ensures StraightInstr(mi) && mi.op.OpBin?
  {
    hide Signed;
  }

  lemma BinOperands(nodes: seq<Node>, id: NodeId)
    requires StraightLine(nodes) && IsLiveValue(nodes, id) && nodes[id].kind.Bin?
    ensures |nodes[id].inputs| == 2 && |OperandNodes(nodes, id)| == if FoldsShift(nodes, id) then 1 else 2
  {
    hide FoldsShift;
    assert WellFormed(nodes, nodes[id]);
  }

  lemma SelectedStraight(nodes: seq<Node>, names: Naming, next: VReg, ids: seq<NodeId>, p: Program, at: nat)
    requires StraightLine(nodes) && Selected(nodes, names, next, ids, p)
    requires at < |ids| && ids[at] < |nodes| && nodes[ids[at]].kind.Return?
    ensures StraightProgram(p) && forall i :: 0 <= i < |p| && p[i].op.OpRet? ==> p[i].defs == []
  {
    hide StraightLine, AllNamed, CodeOf, IsCollected, OperandsFirst;
    forall i | 0 <= i < |p| ensures StraightInstr(p[i]) && (p[i].op.OpRet? ==> p[i].defs == []) {
      SelectedInstr(nodes, names, ids[i]);
    }
    SelectedInstr(nodes, names, ids[at]);
    assert p[at].op.OpRet?;
  }

  lemma {:induction false} CounterGrows(nodes: seq<Node>, a: NodeId, b: NodeId)
    requires a < b <= |nodes| && LiveParameter(nodes, a)
    ensures LiveParametersBefore(nodes, a) < LiveParametersBefore(nodes, b)
  {
    if a < b - 1 { CounterGrows(nodes, a, b - 1); }
  }

  lemma SelectedAscending(nodes: seq<Node>, names: Naming, next: VReg, ids: seq<NodeId>, p: Program)
    requires StraightLine(nodes) && Selected(nodes, names, next, ids, p) && ParamsAscend(nodes, ids)
    ensures ParamPrefix(nodes, ids) <= |p| && InSignatureOrder(p, ParamPrefix(nodes, ids))
  {
    var k := ParamPrefix(nodes, ids);
    hide StraightLine, AllNamed, CodeOf, IsCollected, OperandsFirst, ParamPrefix, LiveParametersBefore;
    forall j: nat | j < k ensures LiveParameter(nodes, ids[j])
      && p[j].imm == Some(LiveParametersBefore(nodes, ids[j]))
    {
      SelectedInstr(nodes, names, ids[j]);
    }
    forall i, j | 0 <= i < j < k ensures p[i].imm.value < p[j].imm.value {
      CounterGrows(nodes, ids[i], ids[j]);
    }
  }

  /** A shift whose count is a constant from 0 to 63. */
  predicate CountsByConstant(nodes: seq<Node>, id: NodeId) {
    && id < |nodes| && |nodes[id].inputs| == 2 && nodes[id].inputs[1] < |nodes|
    && nodes[nodes[id].inputs[1]].kind.Constant? && nodes[nodes[id].inputs[1]].payload < 64
  }

  /** What the encoder supports, by the nodes that survive: at most the sixth live parameter, and shifts by constants.
      */
  ghost predicate SupportedNodes(nodes: seq<Node>, ids: seq<NodeId>) {
    forall id: NodeId :: id in ids && id < |nodes| ==>
      && (LiveParameter(nodes, id) ==> LiveParametersBefore(nodes, id) < 6)
      && (nodes[id].kind == Bin(Shl) || nodes[id].kind == Bin(Shr) || nodes[id].kind == Bin(LShr) ==>
           CountsByConstant(nodes, id))
  }

  lemma SupportedInstr(nodes: seq<Node>, names: Naming, id: NodeId)
    requires StraightLine(nodes) && InRange(nodes, id) && AllNamed(nodes, names, id)
    ensures InRegister(CodeOf(nodes, names, id)) <==> (LiveParameter(nodes, id) ==> LiveParametersBefore(nodes, id) < 6)
    ensures ShiftsByRegister(CodeOf(nodes, names, id)) <==>
      (nodes[id].kind == Bin(Shl) || nodes[id].kind == Bin(Shr) || nodes[id].kind == Bin(LShr))
        && !CountsByConstant(nodes, id)
  {
    hide LiveParametersBefore;
    assert WellFormed(nodes, nodes[id]);
    NamedParts(nodes, names, id);
    if nodes[id].kind.Bin? { assert |OperandNodes(nodes, id)| == if FoldsShift(nodes, id) then 1 else 2; }
  }

  /** The selected program is supported exactly when its nodes are. */
  lemma SupportedExactly(nodes: seq<Node>, names: Naming, next: VReg, ids: seq<NodeId>, p: Program)
    requires StraightLine(nodes) && Selected(nodes, names, next, ids, p)
    ensures Supported(p) <==> SupportedNodes(nodes, ids)
  {
    hide StraightLine, AllNamed, CodeOf, IsCollected, OperandsFirst, LiveParameter, CountsByConstant, InRegister,
         ShiftsByRegister, LiveParametersBefore;
    forall i: nat | i < |p| ensures InRange(nodes, ids[i]) {
      SupportedInstr(nodes, names, ids[i]);
    }
    forall i: nat | i < |p|
      ensures InRegister(p[i]) <==> (LiveParameter(nodes, ids[i]) ==> LiveParametersBefore(nodes, ids[i]) < 6)
      ensures ShiftsByRegister(p[i]) <==>
        (nodes[ids[i]].kind == Bin(Shl) || nodes[ids[i]].kind == Bin(Shr) || nodes[ids[i]].kind == Bin(LShr))
        && !CountsByConstant(nodes, ids[i])
    {
      SupportedInstr(nodes, names, ids[i]);
    }
  }

  // ---- The allocation ----

  /** Somewhere a register starts where as many others are in use as there are homes. */
  ghost predicate Crowded(p: Program) {
    exists v: VReg :: Live(p, v) && |OpenAtStart(p, v)| >= HOME_COUNT
  }

  /** The first-fit allocation: registers in use together have different homes, each the lowest there was. */
  ghost predicate FirstFitting(p: Program, al: Allocation) {
    KeepsApart(p, al) && FitsFirst(p, al)
  }

  lemma {:induction false} AllGeneral(p: Program, v: VReg, n: nat)
    requires n <= |p| && forall i :: 0 <= i < |p| ==> p[i].rc.General?
    ensures ClassOf(p, v, n).General?
  {
    if n > 0 { AllGeneral(p, v, n - 1); }
  }

  /** What the allocator promises comes down to this when all registers are general and none is set aside. */
  lemma Allocated(ra: LinearScanAllocator, spills: nat)
    requires ra.numGpr == HOME_COUNT && ra.calleeSavedFrom == 0 && forall i :: 0 <= i < |ra.program| ==>
      ra.program[i].rc.General?
    requires ra.NoConflict() && (spills == 0 ==> ra.AllHomed() && ra.FirstFit())
    requires spills == |SpilledSet(ra.spilled)| && forall v: VReg :: ra.IsSpilled(v) ==> Live(ra.program, v)
    requires ra.OneRange() ==> (spills > 0 <==> exists v: VReg :: Live(ra.program, v) && ra.Outnumbered(v))
    ensures spills > 0 <==> Crowded(ra.program)
    ensures spills == 0 ==> FirstFitting(ra.program, ra.Tables()) && Homed(ra.program, ra.Tables())
    ensures spills > 0 ==> exists v: VReg :: Live(ra.program, v) && ra.Tables().IsSpilled(v)
  {
    hide Begin, Finish, SpansCall, OpenAtStart;
    var p := ra.program;
    forall v: VReg ensures ClassOf(p, v, |p|).General? { AllGeneral(p, v, |p|); }
    assert ra.OneRange();
    forall v: VReg ensures ra.Outnumbered(v) <==> |OpenAtStart(p, v)| >= HOME_COUNT {
    }
    if spills == 0 {
      ZeroSpillAllocation(ra);
      hide HomeOf, KeepsApart;
      forall i, v | 0 <= i < |p| && Mentions(p[i], v) ensures HomeOf(ra.Tables(), v).Ok? {
        assert Live(p, v);
      }
    } else {
      var v :| v in SpilledSet(ra.spilled);
      assert ra.IsSpilled(v);
    }
  }

  method Allocate(p: Program) returns (spills: nat, al: Allocation)
    requires |p| < UNSET && forall i :: 0 <= i < |p| ==> p[i].rc.General?
    ensures spills > 0 <==> Crowded(p)
    ensures spills == 0 ==> FirstFitting(p, al) && Homed(p, al)
    ensures spills > 0 ==> exists v: VReg :: Live(p, v) && al.IsSpilled(v)
  {
    hide Crowded, FirstFitting, Homed, Live;
    var ra := new LinearScanAllocator(p, HOME_COUNT, 0);
    spills := ra.Run();
    al := ra.Tables();
    Allocated(ra, spills);
  }

  /** End to end. The program is what selection makes of the graph, the allocation the first-fit one, and the result
      that of assembling them. The encoder accepts it exactly when no place is too crowded, every parameter is passed
      in a register, no shift takes its count from one, and all cycles of the parameter moves pass through the first;
      when every parameter is read there are no other cycles. If moreover the parameter block overwrites no parameter
      that is read, as it never does when all are, the bytes compute the graph: for all arguments, on every machine
      the function is entered on. */
  method Compile(nodes: seq<Node>, ghost ret: NodeId)
    returns (r: Result<Image, EncodeError>, spills: nat, p: Program, al: Allocation,
             ghost ids: seq<NodeId>, ghost names: Naming, ghost next: VReg)
    requires Compilable(nodes, ret)
    ensures Selected(nodes, names, next, ids, p) && forall id: NodeId :: id in ids <==> Survives(nodes, id)
    ensures r == Assemble(p, al) && Executable(p, ParamPrefix(nodes, ids))
    ensures (spills > 0 <==> Crowded(p)) && (spills == 0 ==> FirstFitting(p, al))
    ensures r.Ok? <==> !Crowded(p) && Encodes(p, al)
    ensures AllRead(p, ParamPrefix(nodes, ids)) ==>
      && (r.Ok? <==> !Crowded(p) && Supported(p))
      && (r.Ok? ==> ParametersArrive(p, al, ParamPrefix(nodes, ids)))
    ensures r.Ok? && ParametersArrive(p, al, ParamPrefix(nodes, ids)) ==> ComputesGraph(nodes, ret, r.value.bytes)
  {
    hide StraightLine, FirstReturn, ParametersLowest, ParametersIntact, Acyclic, Selected, Executable, KeepsApart,
         ParamPrefix, Assemble, ParametersArrive, ReturnAt, Survives, ParamsAscend, ParamsLead, FitsFirst,
           StraightProgram,
         Crowded, AllRead, Supported, Encodes, Homed, InSignatureOrder;
    ghost var at;
    p, ids, names, next, at := Select(nodes, ret);
    ghost var k := ParamPrefix(nodes, ids);
    assert |p| < UNSET by { SizeFits(nodes); }
    spills, al := Allocate(p);
    r := EncodeOne(p, al);
    ReturnSelected(nodes, ret, ids, at);
    SelectedStraight(nodes, names, next, ids, p, at);
    if spills > 0 {
      ghost var v: VReg :| Live(p, v) && al.IsSpilled(v);
      SpilledIsRefused(p, al, v);
    } else {
      AssembleExactly(p, al);
      SelectedAscending(nodes, names, next, ids, p);
      if AllRead(p, k) { AllReadFits(p, al, k); }
      if r.Ok? && ParametersArrive(p, al, k) {
        EncodedComputesGraph(nodes, names, next, ret, ids, p, at, al);
      }
    }
  }

  lemma ReturnSelected(nodes: seq<Node>, ret: NodeId, ids: seq<NodeId>, at: nat)
    requires FirstReturn(nodes, ret) && ReturnAt(nodes, ret, ids, at)
    ensures at < |ids| && ids[at] < |nodes| && nodes[ids[at]].kind.Return?
  {
  }

  lemma AllReadFits(p: Program, al: Allocation, k: nat)
    requires Executable(p, k) && FirstFitting(p, al) && AllRead(p, k) && k <= |p| && InSignatureOrder(p, k)
    requires StraightProgram(p) && Homed(p, al)
    ensures (Encodes(p, al) <==> Supported(p)) && ParametersArrive(p, al, k)
  {
    hide Executable, KeepsApart, FitsFirst, Supported, InSignatureOrder, StraightProgram, Homed, Wanted,
      ParametersArrive;
    ReadParamsArrive(p, al, k);
    hide AllRead;
    if Supported(p) { ReadEncodes(p, al, k); }
  }

  lemma SizeFits(nodes: seq<Node>)
    requires StraightLine(nodes)
    ensures |nodes| < UNSET
  {
  }

  // ---- A parameter that died ----

  /** `fn f(a, b) { return b; }` after the first parameter was removed. */
  function WithoutFirst(): seq<Node> {
    [Node(NodeKind.Start, [], 0, 0, false, false),
     Node(Proj, [0], 0, 0, false, false), Node(Proj, [0], 0, 1, false, false),
     Node(Parameter, [], 0, 0, true, false), Node(Parameter, [], 0, 0, false, false),
     Node(Return, [1, 2, 4], 0, 0, false, false)]
  }

  lemma WithoutFirstSelectable()
    ensures Selectable(WithoutFirst(), 5) && !ParametersIntact(WithoutFirst())
  {
    var g := WithoutFirst();
    WithoutFirstStraight();
    WithoutFirstRanked();
    hide Acyclic, StraightLine;
    assert g[3].kind.Parameter? && g[3].dead && LiveParameter(g, 4);
  }

  lemma WithoutFirstRanked()
    ensures Acyclic(WithoutFirst())
  {
    assert Ranked(WithoutFirst(), [0, 0, 0, 0, 0, 1]);
  }

  lemma WithoutFirstStraight()
    ensures StraightLine(WithoutFirst())
  {
    var g := WithoutFirst();
    assert IsLiveValue(g, 4);
    forall id | 0 <= id < |g| && !g[id].dead ensures WellFormed(g, g[id]) {
    }
  }

  lemma WithoutFirstSize()
    ensures |WithoutFirst()| == 6 && |WithoutFirst()[5].inputs| == RETURN_INPUTS
      && WithoutFirst()[5].inputs[RETURN_VALUE] == 4
  {
  }

  lemma WithoutFirstIds(ids: seq<NodeId>)
    requires Distinct(ids) && ParamsLead(WithoutFirst(), ids)
    requires forall id: NodeId :: id in ids <==> Survives(WithoutFirst(), id)
    ensures ids == [4, 5]
  {
    var g := WithoutFirst();
    assert OperandNodes(g, 5) == [4] && OperandNodes(g, 4) == [];
    assert 4 in OperandNodes(g, 5);
    forall id: NodeId ensures id in ids <==> id == 4 || id == 5 { assert Survives(g, id) <==> id == 4 || id == 5; }
    DistinctSize(ids);
    assert Members(ids) == {4, 5};
    assert |ids| == 2;
    assert ids[0] in ids && ids[1] in ids && 4 in ids;
    assert LiveParameter(g, 4) && !LiveParameter(g, 5);
  }

  /** The remaining parameter is numbered 0. */
  lemma WithoutFirstProgram(names: Naming, next: VReg, p: Program, args: seq<Word>)
    requires Selected(WithoutFirst(), names, next, [4, 5], p) && |args| >= 2
    ensures VRun(p, args, VState(0, map[]), 2) == Returned(args[0])
  {
    var g := WithoutFirst();
    var ids: seq<NodeId> := [4, 5];
    forall j | 0 <= j < 2 ensures AllNamed(g, names, ids[j]) && p[j] == CodeOf(g, names, ids[j]) {
    }
    assert ids[0] == 4 && ids[1] == 5;
    NamedParts(g, names, 4);
    NamedParts(g, names, 5);
    assert LiveParametersBefore(g, 4) == 0 by {
      assert LiveParametersBefore(g, 1) == 0 && LiveParametersBefore(g, 2) == 0 && LiveParametersBefore(g, 3) == 0;
    }
    assert OperandNodes(g, 5) == [4];
    var v := names[4];
    assert p[0] == Instr(OpParam, [v], [], Some(0), General) && p[1].op == OpRet && p[1].uses == [v];
    assert VStep(p, args, VState(0, map[])) == Next(VState(1, map[v := args[0]]));
    assert VRun(p, args, VState(1, map[v := args[0]]), 1) == Returned(args[0]);
  }

  lemma WithoutFirstMeans(args: seq<Word>, val: seq<Word>, d: set<NodeId>)
    requires StraightLine(WithoutFirst()) && Demanded(WithoutFirst(), 5, d) && Valuation(WithoutFirst(), args, val, d)
    ensures |args| >= 2 && |val| == 6 && val[WithoutFirst()[5].inputs[RETURN_VALUE]] == args[1]
  {
    var g := WithoutFirst();
    assert InRange(g, 4) && 4 in d;
    assert NodeHolds(g, args, val, 4);
    assert SignatureIndex(g, 4) == 1 by {
      assert SignatureIndex(g, 1) == 0 && SignatureIndex(g, 2) == 0 && SignatureIndex(g, 3) == 0;
    }
  }

  /** The graph returns its second argument, the code selected for it the first. */
  method SelectWithoutFirst() returns (p: Program)
    ensures Selectable(WithoutFirst(), 5)
    ensures forall args: seq<Word>, val: seq<Word>, d: set<NodeId> ::
      Demanded(WithoutFirst(), 5, d) && Valuation(WithoutFirst(), args, val, d)
      ==> |args| >= 2 && |val| == 6 && val[WithoutFirst()[5].inputs[RETURN_VALUE]] == args[1]
    ensures forall args: seq<Word> :: |args| >= 2 ==> VRun(p, args, VState(0, map[]), 2) == Returned(args[0])
  {
    hide Selected, Demanded, Valuation, VRun, Survives, ParamsLead, ReturnAt, Executable, WithoutFirst;
    WithoutFirstSelectable();
    WithoutFirstSize();
    ghost var ids, names, next, at;
    p, ids, names, next, at := Select(WithoutFirst(), 5);
    assert Distinct(ids) by { SelectedDistinct(WithoutFirst(), names, next, ids, p); }
    WithoutFirstIds(ids);
    forall args: seq<Word> | |args| >= 2 ensures VRun(p, args, VState(0, map[]), 2) == Returned(args[0]) {
      WithoutFirstProgram(names, next, p, args);
    }
    forall args: seq<Word>, val: seq<Word>, d: set<NodeId> |
      Demanded(WithoutFirst(), 5, d) && Valuation(WithoutFirst(), args, val, d)
      ensures |args| >= 2 && |val| == 6 && |WithoutFirst()| == 6 && |WithoutFirst()[5].inputs| == RETURN_INPUTS
      ensures WithoutFirst()[5].inputs[RETURN_VALUE] < 6 && val[WithoutFirst()[5].inputs[RETURN_VALUE]] == args[1]
    {
      WithoutFirstMeans(args, val, d);
    }
  }

  lemma SelectedDistinct(nodes: seq<Node>, names: Naming, next: VReg, ids: seq<NodeId>, p: Program)
    requires Selected(nodes, names, next, ids, p)
    ensures Distinct(ids)
  {
    hide CodeOfAll, OperandsFirst;
  }
}
