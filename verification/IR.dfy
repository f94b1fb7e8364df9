/** Nodes of the sea-of-nodes graph, and what a pure node computes. */
module IR {
  import opened Words

  type NodeId = nat

  /** The id that marks an absent edge. */
  const INVALID: NodeId := 0xFFFFFFFF

  const START: NodeId := 0

  datatype NodeKind =
    | Start | Region | Loop | If | Proj | Return | Branch | Stop
    | Constant | Parameter | Phi | Bin(bin: BinOp) | Un(un: UnOp)
    | Load | Store | Alloc | StackAlloc | GetElementPtr | GetFieldPtr | Cast | Select
    | CallPure | CallAltered | CallCrowded
    | AtomicLoad | AtomicStore | AtomicRMW | Fence
    | Guard | Deopt | FrameState | ProfiledEntry | MachineOp

  datatype Effect = Pure | Altered | Crowded

  function EffectOf(k: NodeKind): Effect {
    match k
    case Load | Store | Alloc | CallAltered => Altered
    case CallCrowded | AtomicLoad | AtomicStore | AtomicRMW | Fence | Guard | Deopt => Crowded
    case _ => Pure
  }

  /** What may be done once only, or not moved: memory, calls with effects, atomics, fences, guards. */
  predicate HasEffects(k: NodeKind) {
    || k.Load? || k.Store? || k.Alloc? || k.CallAltered? || k.CallCrowded? || k.AtomicLoad? || k.AtomicStore?
    || k.AtomicRMW? || k.Fence? || k.Guard? || k.Deopt?
  }

  /** `payload` is the raw 64-bit slot: a constant's value, a projection's index, a symbol. */
  datatype Node = Node(kind: NodeKind, inputs: seq<NodeId>, ty: nat, payload: Word, dead: bool, live: bool) {
    predicate IsPure() {
      EffectOf(kind).Pure?
    }

    /** All inputs of a pure node; those after control and effect of the others. */
    function DataIns(): seq<NodeId> {
      if IsPure() then inputs else if |inputs| > 2 then inputs[2..] else []
    }
  }

  const RETURN_INPUTS: nat := 3
  const RETURN_VALUE: nat := 2
  const PHI_INPUTS: nat := 3
  const IF_INPUTS: nat := 2
  const IF_CONDITION: nat := 1
  const SELECT_INPUTS: nat := 3

  /** A parameter's place in the signature. */
  function SignatureIndex(nodes: seq<Node>, id: NodeId): nat
    requires id <= |nodes|
  {
    if id == 0 then 0 else SignatureIndex(nodes, id - 1) + if nodes[id - 1].kind.Parameter? then 1 else 0
  }
}
