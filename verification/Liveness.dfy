/** Liveness over the paths of a program with labels and jumps, and the theorem that the allocator's
    textual, loop-widened intervals cover it. */
module Liveness {
  import opened Wrappers
  import opened MachineIR
  import opened LiveIntervals
  import opened LinearScan

  function JumpTargets(p: Program, mi: Instr): seq<nat> {
    if mi.imm.None? then []
    else match LabelIndex(p, mi.imm.value)
      case Some(t) => [t]
      case None => []
  }

  /** Where control may go after instruction `i`. */
  function Succs(p: Program, i: nat): seq<nat>
    requires i < |p|
  {
    match p[i].op
    case OpJmp => JumpTargets(p, p[i])
    case OpJz => [i + 1] + JumpTargets(p, p[i])
    case OpRet => []
    case _ => [i + 1]
  }

  /** Some path of at most `n` instructions from `i` reads `v` before writing it. */
  ghost predicate UsedFrom(p: Program, v: VReg, i: nat, n: nat)
    decreases n
  {
    && n > 0 && i < |p|
    && (v in p[i].uses
        || (v !in p[i].defs && exists j :: j in Succs(p, i) && UsedFrom(p, v, j, n - 1)))
  }

  ghost predicate LiveAt(p: Program, v: VReg, i: nat) {
    exists n: nat :: UsedFrom(p, v, i, n)
  }

  ghost predicate DefinedOnAllPaths(p: Program) {
    forall v: VReg :: !LiveAt(p, v, 0)
  }

  /** Control can come to `i` from the start of the program by going forward only. */
  ghost predicate ForwardReachable(p: Program, i: nat) {
    i == 0 || exists k: nat :: k < i && k < |p| && ForwardReachable(p, k) && i in Succs(p, k)
  }

  predicate BackEdge(p: Program, t: nat, h: nat) {
    t < |p| && h in Succs(p, t) && h <= t
  }

  /** Every backward transfer is the `jmp` that closes the loop span of its target, and a loop head is
      entered from above. */
  ghost predicate Structured(p: Program) {
    forall t: nat, h: nat {:trigger BackEdge(p, t, h)} ::
      BackEdge(p, t, h) && ForwardReachable(p, t)
      ==> ForwardReachable(p, h) && SpanAt(p, h) == Some((h, t))
  }

  lemma ReachabilityStep(p: Program, i: nat, j: nat)
    requires Structured(p) && i < |p| && ForwardReachable(p, i) && j in Succs(p, i)
    ensures ForwardReachable(p, j)
    ensures j <= i ==> SpanAt(p, j) == Some((j, i))
  {
    if j <= i {
      assert BackEdge(p, i, j);
    }
  }

  /** What a path reads must have been mentioned earlier in the text. */
  lemma {:induction false} LiveMeansMentioned(p: Program, v: VReg, i: nat, n: nat)
    requires DefinedOnAllPaths(p) && ForwardReachable(p, i) && UsedFrom(p, v, i, n)
    ensures Occurs(p, v, i)
  {
    if i == 0 {
      assert LiveAt(p, v, 0);
    } else {
      var k: nat :| k < i && k < |p| && ForwardReachable(p, k) && i in Succs(p, k);
      if !Mentions(p[k], v) {
        assert UsedFrom(p, v, k, n + 1);
        LiveMeansMentioned(p, v, k, n + 1);
      }
    }
  }

  lemma OccursIsLive(p: Program, v: VReg, i: nat)
    requires i <= |p| && Occurs(p, v, i)
    ensures Live(p, v) && Begin(p, v) < i
  {
    var k :| 0 <= k < i && Mentions(p[k], v);
    assert Begin(p, v) <= k;
  }

  /** Coverage, for paths of any length through any nest of loops. */
  lemma {:induction false} IntervalsCover(p: Program, v: VReg, i: nat, n: nat)
    requires Structured(p) && DefinedOnAllPaths(p)
    requires i < |p| && ForwardReachable(p, i) && UsedFrom(p, v, i, n)
    ensures Live(p, v) && Begin(p, v) < i <= Finish(p, v)
    decreases n
  {
    LiveMeansMentioned(p, v, i, n);
    OccursIsLive(p, v, i);
    IntervalNonEmpty(p, v);
    if v in p[i].uses {
      assert Mentions(p[i], v);
    } else {
      var j := NextOnPath(p, v, i, n);
      IntervalsCover(p, v, j, n - 1);
      if j <= i {
        LoopClosure(p, v, j);
      }
    }
  }

  lemma NextOnPath(p: Program, v: VReg, i: nat, n: nat) returns (j: nat)
    requires Structured(p) && i < |p| && ForwardReachable(p, i)
    requires UsedFrom(p, v, i, n) && v !in p[i].uses
    ensures ForwardReachable(p, j) && UsedFrom(p, v, j, n - 1) && j < |p|
    ensures j <= i ==> SpanAt(p, j) == Some((j, i))
  {
    j :| j in Succs(p, i) && UsedFrom(p, v, j, n - 1);
    ReachabilityStep(p, i, j);
  }

  lemma LiveAtCovered(p: Program, v: VReg, i: nat)
    requires Structured(p) && DefinedOnAllPaths(p)
    requires i < |p| && ForwardReachable(p, i) && LiveAt(p, v, i)
    ensures Live(p, v) && Begin(p, v) < i <= Finish(p, v)
  {
    var n: nat :| UsedFrom(p, v, i, n);
    IntervalsCover(p, v, i, n);
  }

  lemma LiveThrough(p: Program, v: VReg, i: nat, j: nat)
    requires i < |p| && j in Succs(p, i) && LiveAt(p, v, j) && v !in p[i].defs
    ensures LiveAt(p, v, i)
  {
    var n: nat :| UsedFrom(p, v, j, n);
    assert UsedFrom(p, v, i, n + 1);
  }

  lemma UseIsLive(p: Program, v: VReg, i: nat)
    requires i < |p| && v in p[i].uses
    ensures LiveAt(p, v, i)
  {
    assert UsedFrom(p, v, i, 1);
  }

  // ---- What that means for homes ----

  /** An allocation that keeps registers with overlapping intervals apart, as one without spills does. */
  ghost predicate KeepsApart(p: Program, al: Allocation) {
    forall u, v: VReg ::
      u != v && Live(p, u) && Live(p, v) && Overlap(IntervalOf(p, u), IntervalOf(p, v))
      ==> al.Assignment(u) != al.Assignment(v)
  }

  lemma LivePairApart(p: Program, al: Allocation, u: VReg, v: VReg, i: nat)
    requires Structured(p) && DefinedOnAllPaths(p) && KeepsApart(p, al)
    requires i < |p| && ForwardReachable(p, i) && LiveAt(p, u, i) && LiveAt(p, v, i) && u != v
    ensures al.Assignment(u) != al.Assignment(v)
  {
    hide LiveAt, ForwardReachable, Structured, DefinedOnAllPaths;
    LiveAtCovered(p, u, i);
    LiveAtCovered(p, v, i);
    assert Overlap(IntervalOf(p, u), IntervalOf(p, v));
  }

  /** A definition never lands in the home of another register that is live before it: an operand of the
      same instruction keeps its own register because intervals end after their last use. */
  lemma DefinitionApart(p: Program, al: Allocation, d: VReg, v: VReg, i: nat)
    requires Structured(p) && DefinedOnAllPaths(p) && KeepsApart(p, al)
    requires i < |p| && ForwardReachable(p, i) && d in p[i].defs && LiveAt(p, v, i) && d != v
    ensures al.Assignment(d) != al.Assignment(v)
  {
    hide LiveAt, ForwardReachable, Structured, DefinedOnAllPaths;
    LiveAtCovered(p, v, i);
    assert Mentions(p[i], d);
    IntervalNonEmpty(p, d);
    assert Overlap(IntervalOf(p, d), IntervalOf(p, v));
  }
}
