/** The jumps of emitted regions all have their labels, so what the encoder accepts of an emitted function is a matter
    of its instructions alone. */
module StructuredAcceptance {
  import opened Wrappers
  import opened MachineIR
  import opened LinearScan
  import opened EncoderSpec
  import opened EncoderAccepts
  import opened StructuredCode

  lemma LabelledJoin(s: Program, t: Program)
    requires AllLabelled(s) && AllLabelled(t)
    ensures AllLabelled(s + t)
  {
    var p := s + t;
    forall i | 0 <= i < |p| && IsJump(p[i]) ensures Labelled(p, p[i]) {
      if i < |s| {
        LabelledIn(s, [], t, i);
        assert [] + s + t == p;
      } else {
        LabelledIn(t, s, [], i - |s|);
        assert s + t + [] == p;
      }
    }
  }

  lemma LabelledIn(t: Program, before: Program, after: Program, i: nat)
    requires i < |t| && Labelled(t, t[i])
    ensures Labelled(before + t + after, t[i])
  {
    var k :| 0 <= k < |t| && t[k].op.OpLabel? && t[k].imm == t[i].imm;
    assert (before + t + after)[|before| + k] == t[k];
  }

  lemma NoJumpsLabelled(t: Program)
    requires forall i :: 0 <= i < |t| ==> !IsJump(t[i])
    ensures AllLabelled(t)
  {
  }

  /** A jump to what stands somewhere in the text. */
  lemma JumpLabelled(p: Program, mi: Instr, id: nat, k: nat)
    requires mi.imm == Some(id) && k < |p| && p[k] == LabelAt(id)
    ensures Labelled(p, mi)
  {
  }

  /** Every jump of an emitted text goes to a label of that text. */
  lemma {:induction false} TextLabelled(code: Code, c: Counters)
    requires PlainBlocks(code)
    ensures AllLabelled(Text(code, c))
    decreases code
  {
    hide AllLabelled;
    match code
    case Block(instrs) =>
      PlainLabelled(instrs);
    case Chain(first, second) =>
      TextLabelled(first, c);
      TextLabelled(second, After(first, c));
      LabelledJoin(Text(first, c), Text(second, After(first, c)));
    case Choose(test, cond, yes, yesValue, no, noValue, dst) =>
      var c0 := c.(selects := c.selects + 2);
      var c1 := After(test, c0);
      var c2 := After(yes, c1);
      TextLabelled(test, c0);
      TextLabelled(yes, c1);
      TextLabelled(no, c2);
      ChooseLabelled(Text(test, c0), cond, Text(yes, c1), yesValue, Text(no, c2), noValue, dst, c);
    case Repeat(entry, body, cond, updates) =>
      var c0 := c.(loops := c.loops + 2);
      var c1 := After(entry, c0);
      TextLabelled(entry, c0);
      TextLabelled(body, c1);
      RepeatLabelled(Text(entry, c0), Text(body, c1), cond, updates, c);
  }

  lemma PlainLabelled(instrs: seq<Instr>)
    requires forall i :: 0 <= i < |instrs| ==> IsPlain(instrs[i])
    ensures AllLabelled(instrs)
  {
  }

  /** All jumps of a piece of text have labels in the whole. */
  ghost predicate LabelledBy(p: Program, t: Program) {
    forall i :: 0 <= i < |t| && IsJump(t[i]) ==> Labelled(p, t[i])
  }

  lemma LabelledInside(p: Program, before: Program, t: Program, after: Program)
    requires AllLabelled(t) && p == before + t + after
    ensures LabelledBy(p, t)
  {
    hide Labelled;
    forall i | 0 <= i < |t| && IsJump(t[i]) ensures Labelled(p, t[i]) {
      LabelledIn(t, before, after, i);
    }
  }

  lemma LabelledTogether(p: Program, s: Program, t: Program)
    requires LabelledBy(p, s) && LabelledBy(p, t)
    ensures LabelledBy(p, s + t)
  {
    hide Labelled;
  }

  lemma ChooseLabelled(t0: Program, cond: VReg, t2: Program, y: VReg, t4: Program, n: VReg, dst: VReg, c: Counters)
    requires AllLabelled(t0) && AllLabelled(t2) && AllLabelled(t4)
    ensures AllLabelled(
      t0 + [BranchToLabel(cond, c.selects)]
      + t2 + [MovOf(VMove(dst, y)), JumpToLabel(c.selects + 1), LabelAt(c.selects)]
      + t4 + [MovOf(VMove(dst, n)), LabelAt(c.selects + 1)])
  {
    var t1 := [BranchToLabel(cond, c.selects)];
    var t3 := [MovOf(VMove(dst, y)), JumpToLabel(c.selects + 1), LabelAt(c.selects)];
    var t5 := [MovOf(VMove(dst, n)), LabelAt(c.selects + 1)];
    var p := t0 + t1 + t2 + t3 + t4 + t5;
    JumpLabelled(p, t1[0], c.selects, |t0 + t1 + t2| + 2);
    JumpLabelled(p, t3[1], c.selects + 1, |t0 + t1 + t2 + t3 + t4| + 1);
    assert LabelledBy(p, t1) && LabelledBy(p, t3) && LabelledBy(p, t5) by { hide Labelled; }
    assert p == [] + t0 + (t1 + t2 + t3 + t4 + t5) == (t0 + t1) + t2 + (t3 + t4 + t5) == (t0 + t1 + t2 + t3) + t4 + t5;
    hide AllLabelled, Labelled, LabelledBy;
    LabelledInside(p, [], t0, t1 + t2 + t3 + t4 + t5);
    LabelledInside(p, t0 + t1, t2, t3 + t4 + t5);
    LabelledInside(p, t0 + t1 + t2 + t3, t4, t5);
    LabelledTogether(p, t0, t1);
    LabelledTogether(p, t0 + t1, t2);
    LabelledTogether(p, t0 + t1 + t2, t3);
    LabelledTogether(p, t0 + t1 + t2 + t3, t4);
    LabelledTogether(p, t0 + t1 + t2 + t3 + t4, t5);
    LabelledByAll(p);
  }

  lemma LabelledByAll(p: Program)
    requires LabelledBy(p, p)
    ensures AllLabelled(p)
  {
    hide Labelled;
  }

  lemma RepeatLabelled(t0: Program, t2: Program, cond: VReg, updates: seq<VMove>, c: Counters)
    requires AllLabelled(t0) && AllLabelled(t2)
    ensures AllLabelled(
      t0 + [LabelAt(c.loops)] + t2 + [BranchToLabel(cond, c.loops + 1)]
      + Movs(updates) + [JumpToLabel(c.loops), LabelAt(c.loops + 1)])
  {
    var t1, t3 := [LabelAt(c.loops)], [BranchToLabel(cond, c.loops + 1)];
    var t4, t5 := Movs(updates), [JumpToLabel(c.loops), LabelAt(c.loops + 1)];
    var p := t0 + t1 + t2 + t3 + t4 + t5;
    JumpLabelled(p, t3[0], c.loops + 1, |t0 + t1 + t2 + t3 + t4| + 1);
    JumpLabelled(p, t5[0], c.loops, |t0|);
    assert LabelledBy(p, t1) && LabelledBy(p, t3) && LabelledBy(p, t4) && LabelledBy(p, t5) by { hide Labelled; }
    assert p == [] + t0 + (t1 + t2 + t3 + t4 + t5) == (t0 + t1) + t2 + (t3 + t4 + t5);
    hide AllLabelled, Labelled, LabelledBy;
    LabelledInside(p, [], t0, t1 + t2 + t3 + t4 + t5);
    LabelledInside(p, t0 + t1, t2, t3 + t4 + t5);
    LabelledTogether(p, t0, t1);
    LabelledTogether(p, t0 + t1, t2);
    LabelledTogether(p, t0 + t1 + t2, t3);
    LabelledTogether(p, t0 + t1 + t2 + t3, t4);
    LabelledTogether(p, t0 + t1 + t2 + t3 + t4, t5);
    LabelledByAll(p);
  }

  /** An emitted function is accepted exactly when each of its instructions can be encoded and no cycle of its parameter
      moves avoids the first, as long as its distances fit. */
  lemma EmittedAccepted(f: Function, al: Allocation)
    requires Admissible(f)
    ensures Assemble(Whole(f), al).Ok? <==>
      && (forall i :: 0 <= i < |Whole(f)| ==> Acceptable(al, Whole(f)[i]))
      && ParamsUntangled(Whole(f), al) && AllReach(Whole(f), al)
  {
    var p := Whole(f);
    hide Assemble, Acceptable, ParamsUntangled, AllReach, Checked, Text;
    TextLabelled(f.code, START_LABELS);
    NoJumpsLabelled(f.params);
    NoJumpsLabelled([ReturnOf(f.result)]);
    assert p[|p| - 1] == ReturnOf(f.result);
    AcceptedExactly(p, al);
    hide AllLabelled;
    LabelledJoin(f.params, Text(f.code, START_LABELS));
    LabelledJoin(f.params + Text(f.code, START_LABELS), [ReturnOf(f.result)]);
  }
}
