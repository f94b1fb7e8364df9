/** Live intervals of a machine function: first and last mention of each virtual register, widened over
    back edges, and whether the interval spans a call. */
module LiveIntervals {
  import opened Wrappers
  import opened MachineIR

  const UNSET: nat := 0xFFFFFFFF

  datatype LiveInterval = LiveInterval(vreg: VReg, rc: RegClass, start: nat, end: nat, spansCall: bool)

  predicate Overlap(a: LiveInterval, b: LiveInterval) {
    a.start < b.end && b.start < a.end
  }

  // ---- Specification: one virtual register at a time ----

  /** Is `v` mentioned by one of the first `n` instructions? */
  ghost predicate Occurs(p: Program, v: VReg, n: nat) {
    exists i :: 0 <= i < n && i < |p| && Mentions(p[i], v)
  }

  ghost function FirstOf(p: Program, v: VReg, n: nat): (r: nat)
    requires n <= |p|
    ensures Occurs(p, v, n) ==> r < n && Mentions(p[r], v)
    ensures Occurs(p, v, n) ==> forall i :: 0 <= i < n && Mentions(p[i], v) ==> r <= i
    ensures !Occurs(p, v, n) ==> r == UNSET
  {
    if n == 0 then UNSET
    else if Occurs(p, v, n - 1) then FirstOf(p, v, n - 1)
    else if Mentions(p[n - 1], v) then n - 1
    else UNSET
  }

  ghost function LastOf(p: Program, v: VReg, n: nat): (r: nat)
    requires n <= |p|
    ensures Occurs(p, v, n) ==> r < n && Mentions(p[r], v)
    ensures Occurs(p, v, n) ==> forall i :: 0 <= i < n && Mentions(p[i], v) ==> i <= r
  {
    if n == 0 then 0
    else if Mentions(p[n - 1], v) then n - 1
    else LastOf(p, v, n - 1)
  }

  ghost function ClassOf(p: Program, v: VReg, n: nat): RegClass
    requires n <= |p|
  {
    if n == 0 then General
    else if Mentions(p[n - 1], v) then p[n - 1].rc
    else ClassOf(p, v, n - 1)
  }

  /** The first `jmp` to `id` at or after `j`. */
  function BackJump(p: Program, id: int, j: nat): (r: Option<nat>)
    ensures r.Some? ==> j <= r.value < |p| && p[r.value].op.OpJmp? && p[r.value].imm == Some(id)
    ensures r.Some? ==> forall k :: j <= k < r.value && p[k].op.OpJmp? ==> p[k].imm != Some(id)
    ensures r.None? ==> forall k :: j <= k < |p| && p[k].op.OpJmp? ==> p[k].imm != Some(id)
    decreases |p| - j
  {
    if j >= |p| then None
    else if p[j].op.OpJmp? && p[j].imm == Some(id) then Some(j)
    else BackJump(p, id, j + 1)
  }

  /** The loop span opened at `i`, if instruction `i` is a label some later `jmp` returns to. */
  function SpanAt(p: Program, i: nat): (r: Option<(nat, nat)>)
    requires i < |p|
    ensures r.Some? ==> r.value.0 == i < r.value.1 < |p|
  {
    if p[i].op.OpLabel? && p[i].imm.Some? then
      match BackJump(p, p[i].imm.value, i + 1)
      case Some(j) => Some((i, j))
      case None => None
    else None
  }

  /** The loop spans of the first `n` instructions, in the order of their heads. */
  function SpansTo(p: Program, n: nat): seq<(nat, nat)>
    requires n <= |p|
  {
    if n == 0 then []
    else
      var rest := SpansTo(p, n - 1);
      match SpanAt(p, n - 1)
      case Some(s) => rest + [s]
      case None => rest
  }

  /** The last position of a register that starts at `f`, after widening over the first `k` spans. */
  ghost function Widen(spans: seq<(nat, nat)>, k: nat, f: nat, l: nat): nat
    requires k <= |spans|
  {
    if k == 0 then l
    else
      var l' := Widen(spans, k - 1, f, l);
      var (head, tail) := spans[k - 1];
      if f < head && l' >= head && l' < tail then tail else l'
  }

  ghost function Begin(p: Program, v: VReg): nat {
    FirstOf(p, v, |p|)
  }

  ghost function Finish(p: Program, v: VReg): nat {
    var spans := SpansTo(p, |p|);
    Widen(spans, |spans|, Begin(p, v), LastOf(p, v, |p|))
  }

  ghost predicate SpansCall(p: Program, v: VReg) {
    exists i :: 0 <= i < |p| && p[i].op.OpCall? && Begin(p, v) < i < Finish(p, v)
  }

  ghost function IntervalOf(p: Program, v: VReg): LiveInterval {
    LiveInterval(v, ClassOf(p, v, |p|), Begin(p, v), Finish(p, v) + 1, SpansCall(p, v))
  }

  ghost predicate Live(p: Program, v: VReg) {
    Occurs(p, v, |p|)
  }

  ghost function IntervalsTo(p: Program, n: nat): seq<LiveInterval> {
    if n == 0 then []
    else if Live(p, n - 1) then IntervalsTo(p, n - 1) + [IntervalOf(p, n - 1)]
    else IntervalsTo(p, n - 1)
  }

  // ---- What widening achieves ----

  lemma {:induction false} WidenGrows(spans: seq<(nat, nat)>, k: nat, f: nat, l: nat)
    requires k <= |spans|
    ensures Widen(spans, k, f, l) >= l
  {
    if k > 0 {
      WidenGrows(spans, k - 1, f, l);
    }
  }

  ghost predicate HeadsAscend(spans: seq<(nat, nat)>) {
    forall a, b :: 0 <= a < b < |spans| ==> spans[a].0 < spans[b].0
  }

  /** One pass in head order reaches closure: widening over a later (inner or following) span never
      re-opens an earlier one. */
  lemma {:induction false} WidenCloses(spans: seq<(nat, nat)>, k: nat, f: nat, l: nat, s: nat)
    requires HeadsAscend(spans) && s < k <= |spans|
    requires f < spans[s].0 <= Widen(spans, k, f, l)
    ensures Widen(spans, k, f, l) >= spans[s].1
  {
    if s < k - 1 {
      if Widen(spans, k - 1, f, l) >= spans[s].0 {
        WidenCloses(spans, k - 1, f, l, s);
      }
    }
  }

  lemma {:induction false} SpansToFacts(p: Program, n: nat)
    requires n <= |p|
    ensures HeadsAscend(SpansTo(p, n))
    ensures forall k :: 0 <= k < |SpansTo(p, n)| ==> SpansTo(p, n)[k].0 < n
    ensures forall i :: 0 <= i < n && SpanAt(p, i).Some? ==> SpanAt(p, i).value in SpansTo(p, n)
  {
    if n > 0 {
      SpansToFacts(p, n - 1);
    }
  }

  /** A register that is defined before a loop head and still wanted inside the loop keeps its interval
      open to the loop's back edge, however the loops nest. */
  lemma LoopClosure(p: Program, v: VReg, head: nat)
    requires head < |p| && SpanAt(p, head).Some?
    requires Begin(p, v) < head <= Finish(p, v)
    ensures Finish(p, v) >= SpanAt(p, head).value.1
  {
    SpansToFacts(p, |p|);
    var spans := SpansTo(p, |p|);
    var s :| 0 <= s < |spans| && spans[s] == SpanAt(p, head).value;
    WidenCloses(spans, |spans|, Begin(p, v), LastOf(p, v, |p|), s);
  }

  lemma IntervalNonEmpty(p: Program, v: VReg)
    requires Live(p, v)
    ensures Begin(p, v) <= LastOf(p, v, |p|) <= Finish(p, v)
    ensures forall i :: 0 <= i < |p| && Mentions(p[i], v) ==> Begin(p, v) <= i <= Finish(p, v)
  {
    var spans := SpansTo(p, |p|);
    WidenGrows(spans, |spans|, Begin(p, v), LastOf(p, v, |p|));
  }

  /** From a label to the first `jmp` after it that returns to it. */
  ghost predicate LoopSpan(p: Program, head: nat, tail: nat) {
    && head < tail < |p|
    && p[head].op.OpLabel? && p[head].imm.Some?
    && p[tail].op.OpJmp? && p[tail].imm == p[head].imm
    && forall k :: head < k < tail && p[k].op.OpJmp? ==> p[k].imm != p[head].imm
  }

  /** Every mention of `v` lies in `a..e`, and a loop entered after `a` and no later than `e` is done by `e`. */
  ghost predicate Encloses(p: Program, v: VReg, a: nat, e: nat) {
    && (forall i :: 0 <= i < |p| && Mentions(p[i], v) ==> a <= i <= e)
    && forall head: nat, tail: nat :: LoopSpan(p, head, tail) && a < head <= e ==> tail <= e
  }

  lemma SpanIsLoop(p: Program, head: nat, tail: nat)
    requires head < |p|
    ensures SpanAt(p, head) == Some((head, tail)) <==> LoopSpan(p, head, tail)
  {
  }

  lemma {:induction false} SpansAreLoops(p: Program, n: nat)
    requires n <= |p|
    ensures forall k :: 0 <= k < |SpansTo(p, n)| ==> LoopSpan(p, SpansTo(p, n)[k].0, SpansTo(p, n)[k].1)
  {
    hide LoopSpan, SpanAt;
    if n > 0 {
      SpansAreLoops(p, n - 1);
      if SpanAt(p, n - 1).Some? { SpanIsLoop(p, n - 1, SpanAt(p, n - 1).value.1); }
    }
  }

  lemma {:induction false} WidenStays(p: Program, v: VReg, k: nat, f: nat, l: nat, e: nat)
    requires k <= |SpansTo(p, |p|)| && l <= e && Encloses(p, v, f, e)
    ensures Widen(SpansTo(p, |p|), k, f, l) <= e
  {
    if k > 0 {
      WidenStays(p, v, k - 1, f, l, e);
      SpansAreLoops(p, |p|);
      hide LoopSpan, SpansTo;
    }
  }

  /** The interval of a register starts at its first mention and ends at the least point that encloses its mentions
      and is inside no loop entered since. It spans the calls strictly between. */
  lemma IntervalIsLeast(p: Program, v: VReg, e: nat)
    requires Live(p, v)
    ensures var iv := IntervalOf(p, v);
      && iv.start < |p| && Mentions(p[iv.start], v)
      && iv.end > 0 && Encloses(p, v, iv.start, iv.end - 1)
      && (Encloses(p, v, iv.start, e) ==> iv.end - 1 <= e)
      && (iv.spansCall <==> exists i :: iv.start < i < iv.end - 1 && i < |p| && p[i].op.OpCall?)
      && forall i :: 0 <= i < |p| && LastMention(p, v, i) ==> iv.rc == p[i].rc
  {
    hide SpansTo, Widen, SpanAt, LoopSpan;
    forall i | 0 <= i < |p| && LastMention(p, v, i) ensures ClassOf(p, v, |p|) == p[i].rc {
      ClassIsLast(p, v, |p|, i);
    }
    IntervalNonEmpty(p, v);
    forall head: nat, tail: nat | LoopSpan(p, head, tail) && Begin(p, v) < head <= Finish(p, v)
      ensures tail <= Finish(p, v)
    {
      LoopInside(p, head, tail);
      LoopClosure(p, v, head);
    }
    if Encloses(p, v, Begin(p, v), e) {
      WidenStays(p, v, |SpansTo(p, |p|)|, Begin(p, v), LastOf(p, v, |p|), e);
    }
  }

  ghost predicate LastMention(p: Program, v: VReg, i: nat)
    requires i < |p|
  {
    Mentions(p[i], v) && forall j :: i < j < |p| ==> !Mentions(p[j], v)
  }

  lemma {:induction false} ClassIsLast(p: Program, v: VReg, n: nat, i: nat)
    requires i < n <= |p| && LastMention(p, v, i)
    ensures ClassOf(p, v, n) == p[i].rc
  {
    if i < n - 1 { ClassIsLast(p, v, n - 1, i); }
  }

  lemma LoopInside(p: Program, head: nat, tail: nat)
    requires LoopSpan(p, head, tail)
    ensures head < |p| && SpanAt(p, head) == Some((head, tail))
  {
    SpanIsLoop(p, head, tail);
  }

  lemma {:induction false} IntervalsToFacts(p: Program, n: nat)
    ensures forall k :: 0 <= k < |IntervalsTo(p, n)| ==>
      var iv := IntervalsTo(p, n)[k]; iv.vreg < n && Live(p, iv.vreg) && iv == IntervalOf(p, iv.vreg)
    ensures forall j, k :: 0 <= j < k < |IntervalsTo(p, n)| ==>
      IntervalsTo(p, n)[j].vreg < IntervalsTo(p, n)[k].vreg
    ensures forall v :: 0 <= v < n && Live(p, v) ==> IntervalOf(p, v) in IntervalsTo(p, n)
  {
    if n > 0 {
      IntervalsToFacts(p, n - 1);
    }
  }

  // ---- The computation ----

  method MaxVReg(p: Program) returns (maxV: VReg)
    ensures forall i, v: VReg :: 0 <= i < |p| && Mentions(p[i], v) ==> v <= maxV
  {
    maxV := 0;
    for i := 0 to |p|
      invariant forall k, v: VReg :: 0 <= k < i && Mentions(p[k], v) ==> v <= maxV
    {
      for k := 0 to |p[i].defs|
        invariant forall k, v: VReg :: 0 <= k < i && Mentions(p[k], v) ==> v <= maxV
        invariant forall j :: 0 <= j < k ==> p[i].defs[j] <= maxV
      {
        if p[i].defs[k] > maxV { maxV := p[i].defs[k]; }
      }
      for k := 0 to |p[i].uses|
        invariant forall k, v: VReg :: 0 <= k < i && Mentions(p[k], v) ==> v <= maxV
        invariant forall j :: 0 <= j < |p[i].defs| ==> p[i].defs[j] <= maxV
        invariant forall j :: 0 <= j < k ==> p[i].uses[j] <= maxV
      {
        if p[i].uses[k] > maxV { maxV := p[i].uses[k]; }
      }
    }
  }

  /** The tables after the mentions `seen` of instruction `i` have been recorded. */
  ghost predicate Recorded(p: Program, i: nat, seen: seq<VReg>,
                           first: seq<nat>, last: seq<nat>, rc: seq<RegClass>)
    requires i < |p|
  {
    && |first| == |last| == |rc|
    && forall v :: 0 <= v < |first| ==>
      && first[v] == (if v in seen && !Occurs(p, v, i) then i else FirstOf(p, v, i))
      && last[v] == (if v in seen then i else LastOf(p, v, i))
      && rc[v] == (if v in seen then p[i].rc else ClassOf(p, v, i))
  }

  method RecordMentions(p: Program, i: nat, ghost before: seq<VReg>, vs: seq<VReg>,
                        first0: seq<nat>, last0: seq<nat>, rc0: seq<RegClass>)
    returns (first: seq<nat>, last: seq<nat>, rc: seq<RegClass>)
    requires i < |p| < UNSET
    requires Recorded(p, i, before, first0, last0, rc0)
    requires forall k :: 0 <= k < |vs| ==> vs[k] < |first0|
    ensures |first| == |first0| && Recorded(p, i, before + vs, first, last, rc)
  {
    first, last, rc := first0, last0, rc0;
    assert before + vs[..0] == before;
    for k := 0 to |vs|
      invariant |first| == |first0| && Recorded(p, i, before + vs[..k], first, last, rc)
    {
      var v := vs[k];
      assert before + vs[..k + 1] == before + vs[..k] + [v];
      assert forall w :: w in before + vs[..k + 1] <==> w in before + vs[..k] || w == v;
      if first[v] == UNSET {
        first := first[v := i];
      }
      last := last[v := i];
      rc := rc[v := p[i].rc];
    }
    assert vs[..|vs|] == vs;
  }

  method ScanMentions(p: Program, maxV: VReg)
    returns (first: seq<nat>, last: seq<nat>, rc: seq<RegClass>)
    requires |p| < UNSET
    requires forall i, v: VReg :: 0 <= i < |p| && Mentions(p[i], v) ==> v <= maxV
    ensures |first| == |last| == |rc| == maxV + 1
    ensures forall v :: 0 <= v <= maxV ==>
      first[v] == Begin(p, v) && last[v] == LastOf(p, v, |p|) && rc[v] == ClassOf(p, v, |p|)
  {
    first := seq(maxV + 1, _ => UNSET);
    last := seq(maxV + 1, _ => 0);
    rc := seq(maxV + 1, _ => General);
    for i := 0 to |p|
      invariant |first| == |last| == |rc| == maxV + 1
      invariant forall v :: 0 <= v <= maxV ==>
        first[v] == FirstOf(p, v, i) && last[v] == LastOf(p, v, i) && rc[v] == ClassOf(p, v, i)
    {
      assert forall k :: 0 <= k < |p[i].defs| ==> Mentions(p[i], p[i].defs[k]);
      assert forall k :: 0 <= k < |p[i].uses| ==> Mentions(p[i], p[i].uses[k]);
      first, last, rc := RecordMentions(p, i, [], p[i].defs, first, last, rc);
      assert [] + p[i].defs == p[i].defs;
      first, last, rc := RecordMentions(p, i, p[i].defs, p[i].uses, first, last, rc);
      forall v | 0 <= v <= maxV
        ensures first[v] == FirstOf(p, v, i + 1) && last[v] == LastOf(p, v, i + 1)
             && rc[v] == ClassOf(p, v, i + 1)
      {
        assert v in p[i].defs + p[i].uses <==> Mentions(p[i], v);
      }
    }
  }

  method CollectSpans(p: Program) returns (spans: seq<(nat, nat)>)
    ensures spans == SpansTo(p, |p|)
  {
    spans := [];
    for i := 0 to |p|
      invariant spans == SpansTo(p, i)
    {
      if p[i].op.OpLabel? && p[i].imm.Some? {
        var j := i + 1;
        while j < |p| && !(p[j].op.OpJmp? && p[j].imm == p[i].imm)
          invariant i + 1 <= j <= |p|
          invariant BackJump(p, p[i].imm.value, i + 1) == BackJump(p, p[i].imm.value, j)
        {
          j := j + 1;
        }
        if j < |p| {
          spans := spans + [(i, j)];
        }
      }
    }
  }

  method WidenOverLoops(p: Program, maxV: VReg, first: seq<nat>, last0: seq<nat>) returns (last: seq<nat>)
    requires |first| == |last0| == maxV + 1 && |p| < UNSET
    requires forall v :: 0 <= v <= maxV ==> first[v] == Begin(p, v) && last0[v] == LastOf(p, v, |p|)
    ensures |last| == maxV + 1
    ensures forall v :: 0 <= v <= maxV && Live(p, v) ==> last[v] == Finish(p, v)
  {
    var spans := CollectSpans(p);
    last := last0;
    for k := 0 to |spans|
      invariant |last| == maxV + 1
      invariant forall v :: 0 <= v <= maxV && Live(p, v) ==> last[v] == Widen(spans, k, first[v], last0[v])
    {
      var head, tail := spans[k].0, spans[k].1;
      for v := 0 to maxV + 1
        invariant |last| == maxV + 1
        invariant forall w :: 0 <= w < v && Live(p, w) ==> last[w] == Widen(spans, k + 1, first[w], last0[w])
        invariant forall w :: v <= w <= maxV && Live(p, w) ==> last[w] == Widen(spans, k, first[w], last0[w])
      {
        if first[v] != UNSET && first[v] < head && last[v] >= head && last[v] < tail {
          last := last[v := tail];
        }
      }
    }
  }

  method MarkCallSpans(p: Program, maxV: VReg, first: seq<nat>, last: seq<nat>) returns (spansCall: seq<bool>)
    requires |first| == |last| == maxV + 1 && |p| < UNSET
    requires forall v :: 0 <= v <= maxV ==> first[v] == Begin(p, v)
    requires forall v :: 0 <= v <= maxV && Live(p, v) ==> last[v] == Finish(p, v)
    ensures |spansCall| == maxV + 1
    ensures forall v :: 0 <= v <= maxV && Live(p, v) ==> spansCall[v] == SpansCall(p, v)
  {
    spansCall := seq(maxV + 1, _ => false);
    for i := 0 to |p|
      invariant |spansCall| == maxV + 1
      invariant forall v :: 0 <= v <= maxV && Live(p, v) ==>
        (spansCall[v] <==> exists k :: 0 <= k < i && p[k].op.OpCall? && Begin(p, v) < k < Finish(p, v))
    {
      if p[i].op.OpCall? {
        ghost var before := spansCall;
        for v := 0 to maxV + 1
          invariant |spansCall| == maxV + 1
          invariant forall w :: v <= w <= maxV ==> spansCall[w] == before[w]
          invariant forall w :: 0 <= w < v && Live(p, w) ==>
            (spansCall[w] <==> before[w] || Begin(p, w) < i < Finish(p, w))
        {
          if first[v] != UNSET && first[v] < i < last[v] {
            spansCall := spansCall[v := true];
          }
        }
      }
    }
  }

  method ComputeIntervals(p: Program) returns (out: seq<LiveInterval>, ghost bound: nat)
    requires |p| < UNSET
    ensures forall v: VReg :: Live(p, v) ==> v < bound
    ensures out == IntervalsTo(p, bound)
  {
    var maxV := MaxVReg(p);
    var first, last, rc := ScanMentions(p, maxV);
    last := WidenOverLoops(p, maxV, first, last);
    var spansCall := MarkCallSpans(p, maxV, first, last);
    out := [];
    for v := 0 to maxV + 1
      invariant out == IntervalsTo(p, v)
    {
      if first[v] != UNSET {
        out := out + [LiveInterval(v, rc[v], first[v], last[v] + 1, spansCall[v])];
      }
    }
    bound := maxV + 1;
  }
}
