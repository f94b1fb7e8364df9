/** Code with branch regions and loop regions nested to any depth: the text instruction selection emits for
    it, what that text does, and that it meets every demand the allocator and the encoder make. */
module StructuredCode {
  import opened Wrappers
  import opened Words
  import opened MachineIR
  import opened LiveIntervals
  import opened LinearScan
  import opened Liveness
  import opened TwoOperand
  import opened X86
  import opened EncoderSpec
  import opened Simulation

  // ---- Regions and their text ----

  datatype VMove = VMove(dst: VReg, src: VReg)

  datatype Code =
    | Block(instrs: seq<Instr>)
    | Chain(first: Code, second: Code)
    /** `dst` becomes `yesValue` or `noValue`; only the chosen arm runs. */
    | Choose(test: Code, cond: VReg, yes: Code, yesValue: VReg, no: Code, noValue: VReg, dst: VReg)
    /** `entry` initialises the loop's phis, `body` computes their back values and the exit condition. */
    | Repeat(entry: Code, body: Code, cond: VReg, updates: seq<VMove>)

  /** Select labels start here, loop labels at zero. */
  const SELECT_LABEL_BASE: nat := 1_000_000

  datatype Counters = Counters(loops: nat, selects: nat)

  function MovOf(m: VMove): Instr {
    Instr(OpMov, [m.dst], [m.src], None, General)
  }

  function LabelAt(id: nat): Instr {
    Instr(OpLabel, [], [], Some(id), General)
  }

  function JumpToLabel(id: nat): Instr {
    Instr(OpJmp, [], [], Some(id), General)
  }

  function BranchToLabel(cond: VReg, id: nat): Instr {
    Instr(OpJz, [], [cond], Some(id), General)
  }

  function Movs(moves: seq<VMove>): (r: seq<Instr>)
    ensures |r| == |moves| && forall k :: 0 <= k < |r| ==> r[k] == MovOf(moves[k])
  {
    seq(|moves|, k requires 0 <= k < |moves| => MovOf(moves[k]))
  }

  /** The label counters after `code` has been emitted. */
  function After(code: Code, c: Counters): (r: Counters)
    ensures c.loops <= r.loops && c.selects <= r.selects
  {
    match code
    case Block(_) => c
    case Chain(first, second) => After(second, After(first, c))
    case Choose(test, _, yes, _, no, _, _) =>
      After(no, After(yes, After(test, c.(selects := c.selects + 2))))
    case Repeat(entry, body, _, _) => After(body, After(entry, c.(loops := c.loops + 2)))
  }

  function Text(code: Code, c: Counters): Program {
    match code
    case Block(instrs) => instrs
    case Chain(first, second) => Text(first, c) + Text(second, After(first, c))
    case Choose(test, cond, yes, yesValue, no, noValue, dst) =>
      var c0 := c.(selects := c.selects + 2);
      var c1 := After(test, c0);
      Text(test, c0) + [BranchToLabel(cond, c.selects)]
      + Text(yes, c1) + [MovOf(VMove(dst, yesValue)), JumpToLabel(c.selects + 1), LabelAt(c.selects)]
      + Text(no, After(yes, c1)) + [MovOf(VMove(dst, noValue)), LabelAt(c.selects + 1)]
    case Repeat(entry, body, cond, updates) =>
      var c0 := c.(loops := c.loops + 2);
      Text(entry, c0) + [LabelAt(c.loops)]
      + Text(body, After(entry, c0)) + [BranchToLabel(cond, c.loops + 1)]
      + Movs(updates) + [JumpToLabel(c.loops), LabelAt(c.loops + 1)]
  }

  /** Emission as the selector does it: regions append to the function and draw labels from two counters. */
  class RegionEmitter {
    var instrs: Program
    var labels: Counters

    constructor ()
      ensures instrs == [] && labels == Counters(0, 1_000_000)
    {
      instrs, labels := [], Counters(0, SELECT_LABEL_BASE);
    }

    method Append(more: Program)
      modifies this`instrs
      ensures instrs == old(instrs) + more
    {
      instrs := instrs + more;
    }

    method EmitMoves(moves: seq<VMove>)
      modifies this`instrs
      ensures instrs == old(instrs) + Movs(moves)
    {
      for k := 0 to |moves|
        invariant instrs == old(instrs) + Movs(moves)[..k]
      {
        instrs := instrs + [MovOf(moves[k])];
      }
    }

    method Emit(code: Code)
      modifies this
      ensures instrs == old(instrs) + Text(code, old(labels))
      ensures labels == After(code, old(labels))
      decreases code, 1
    {
      match code
      case Block(block) =>
        Append(block);
      case Chain(first, second) =>
        Emit(first);
        Emit(second);
      case Choose(_, _, _, _, _, _, _) =>
        EmitSelectRegion(code);
      case Repeat(_, _, _, _) =>
        EmitLoopRegion(code);
    }

    method EmitSelectRegion(code: Code)
      requires code.Choose?
      modifies this
      ensures instrs == old(instrs) + Text(code, old(labels))
      ensures labels == After(code, old(labels))
      decreases code, 0
    {
      var orElse, end := labels.selects, labels.selects + 1;
      labels := labels.(selects := labels.selects + 2);
      Emit(code.test);
      Append([BranchToLabel(code.cond, orElse)]);
      Emit(code.yes);
      Append([MovOf(VMove(code.dst, code.yesValue)), JumpToLabel(end), LabelAt(orElse)]);
      Emit(code.no);
      Append([MovOf(VMove(code.dst, code.noValue)), LabelAt(end)]);
    }

    method EmitLoopRegion(code: Code)
      requires code.Repeat?
      modifies this
      ensures instrs == old(instrs) + Text(code, old(labels))
      ensures labels == After(code, old(labels))
      decreases code, 0
    {
      var head, exit := labels.loops, labels.loops + 1;
      labels := labels.(loops := labels.loops + 2);
      Emit(code.entry);
      Append([LabelAt(head)]);
      Emit(code.body);
      Append([BranchToLabel(code.cond, exit)]);
      EmitMoves(code.updates);
      Append([JumpToLabel(head), LabelAt(exit)]);
    }
  }

  // ---- What regions mean ----

  type Env = map<VReg, Word>

  function Execute(instrs: seq<Instr>, args: seq<Word>, env: Env): Option<Env> {
    if instrs == [] then Some(env)
    else
      var v := ValueOf(instrs[0], args, env);
      if v.None? || |instrs[0].defs| != 1 then None
      else Execute(instrs[1..], args, env[instrs[0].defs[0] := v.value])
  }

  /** The moves one after the other. */
  function MoveInTurn(moves: seq<VMove>, env: Env): Option<Env> {
    if moves == [] then Some(env)
    else if moves[0].src !in env then None
    else MoveInTurn(moves[1..], env[moves[0].dst := env[moves[0].src]])
  }

  /** The environment after `code`, if it ends within `fuel` turns of each loop without a trap. */
  function Run(code: Code, args: seq<Word>, env: Env, fuel: nat): Option<Env>
    decreases code, 0
  {
    match code
    case Block(instrs) => Execute(instrs, args, env)
    case Chain(first, second) =>
      (match Run(first, args, env, fuel)
       case None => None
       case Some(e) => Run(second, args, e, fuel))
    case Choose(test, cond, yes, yesValue, no, noValue, dst) =>
      (match Run(test, args, env, fuel)
       case None => None
       case Some(e) =>
         if cond !in e then None
         else
           var arm := if e[cond] != 0 then Run(yes, args, e, fuel) else Run(no, args, e, fuel);
           var value := if e[cond] != 0 then yesValue else noValue;
           if arm.None? || value !in arm.value then None
           else Some(arm.value[dst := arm.value[value]]))
    case Repeat(entry, body, cond, updates) =>
      (match Run(entry, args, env, fuel)
       case None => None
       case Some(e) => Turns(body, cond, updates, args, e, fuel, fuel))
  }

  function Turns(body: Code, cond: VReg, updates: seq<VMove>, args: seq<Word>, env: Env, fuel: nat,
        turns: nat): Option<Env>
    decreases body, 1, turns
  {
    if turns == 0 then None
    else match Run(body, args, env, fuel)
      case None => None
      case Some(e) =>
        if cond !in e then None
        else if e[cond] == 0 then Some(e)
        else match MoveInTurn(updates, e)
          case None => None
          case Some(e') => Turns(body, cond, updates, args, e', fuel, turns - 1)
  }

  // ---- Labels ----

  ghost predicate Placed(p: Program, a: nat, t: Program) {
    a + |t| <= |p| && forall i :: 0 <= i < |t| ==> p[a + i] == t[i]
  }

  lemma PlacedParts(p: Program, a: nat, s: Program, t: Program)
    requires Placed(p, a, s + t)
    ensures Placed(p, a, s) && Placed(p, a + |s|, t)
  {
    forall i | 0 <= i < |s| ensures p[a + i] == s[i] {
      assert (s + t)[i] == s[i];
    }
    forall i | 0 <= i < |t| ensures p[a + |s| + i] == t[i] {
      assert (s + t)[|s| + i] == t[i];
    }
  }

  predicate IsTransfer(mi: Instr) {
    mi.op.OpLabel? || mi.op.OpJmp? || mi.op.OpJz?
  }

  predicate Between(id: int, c: Counters, c': Counters) {
    c.loops <= id < c'.loops || c.selects <= id < c'.selects
  }

  /** Labels and jumps of `t` use only ids given out between the two counters. */
  ghost predicate IdsBetween(t: Program, c: Counters, c': Counters) {
    forall i :: 0 <= i < |t| && IsTransfer(t[i]) ==> t[i].imm.Some? && Between(t[i].imm.value, c, c')
  }

  ghost predicate UniqueLabels(t: Program) {
    forall i, j :: 0 <= i < j < |t| && t[i].op.OpLabel? && t[j].op.OpLabel? ==> t[i].imm != t[j].imm
  }

  /** Value instructions with a single, fresh destination. */
  predicate IsPlain(mi: Instr) {
    IsValueOp(mi.op) && |mi.defs| == 1 && FreshDestination(mi)
  }

  ghost predicate PlainBlocks(code: Code) {
    match code
    case Block(instrs) => forall i :: 0 <= i < |instrs| ==> IsPlain(instrs[i])
    case Chain(first, second) => PlainBlocks(first) && PlainBlocks(second)
    case Choose(test, _, yes, _, no, _, _) => PlainBlocks(test) && PlainBlocks(yes) && PlainBlocks(no)
    case Repeat(entry, body, _, _) => PlainBlocks(entry) && PlainBlocks(body)
  }

  lemma IdsJoin(s: Program, t: Program, c: Counters, c': Counters)
    requires IdsBetween(s, c, c') && IdsBetween(t, c, c')
    ensures IdsBetween(s + t, c, c')
  {
  }

  lemma IdsWiden(t: Program, a: Counters, b: Counters, c: Counters, c': Counters)
    requires IdsBetween(t, a, b) && c.loops <= a.loops && c.selects <= a.selects
    requires b.loops <= c'.loops && b.selects <= c'.selects
    ensures IdsBetween(t, c, c')
  {
  }

  lemma {:induction false} TextIds(code: Code, c: Counters)
    requires PlainBlocks(code)
    ensures IdsBetween(Text(code, c), c, After(code, c))
    decreases code
  {
    hide IdsBetween;
    var d := After(code, c);
    match code
    case Block(instrs) =>
      PlainIds(instrs, c, d);
    case Chain(first, second) =>
      TextIds(first, c);
      TextIds(second, After(first, c));
      IdsWiden(Text(first, c), c, After(first, c), c, d);
      IdsWiden(Text(second, After(first, c)), After(first, c), d, c, d);
      IdsJoin(Text(first, c), Text(second, After(first, c)), c, d);
    case Choose(test, cond, yes, yesValue, no, noValue, dst) =>
      var c0 := c.(selects := c.selects + 2);
      var c1 := After(test, c0);
      var c2 := After(yes, c1);
      TextIds(test, c0);
      TextIds(yes, c1);
      TextIds(no, c2);
      var t0, t2, t4 := Text(test, c0), Text(yes, c1), Text(no, c2);
      var t1 := [BranchToLabel(cond, c.selects)];
      var t3 := [MovOf(VMove(dst, yesValue)), JumpToLabel(c.selects + 1), LabelAt(c.selects)];
      var t5 := [MovOf(VMove(dst, noValue)), LabelAt(c.selects + 1)];
      IdsWiden(t0, c0, c1, c, d);
      IdsWiden(t2, c1, c2, c, d);
      IdsWiden(t4, c2, d, c, d);
      SelectIds(cond, dst, yesValue, noValue, c, d);
      IdsJoin(t0, t1, c, d);
      IdsJoin(t0 + t1, t2, c, d);
      IdsJoin(t0 + t1 + t2, t3, c, d);
      IdsJoin(t0 + t1 + t2 + t3, t4, c, d);
      IdsJoin(t0 + t1 + t2 + t3 + t4, t5, c, d);
    case Repeat(entry, body, cond, updates) =>
      var c0 := c.(loops := c.loops + 2);
      var c1 := After(entry, c0);
      TextIds(entry, c0);
      TextIds(body, c1);
      var t0, t2, t4 := Text(entry, c0), Text(body, c1), Movs(updates);
      var t1, t3 := [LabelAt(c.loops)], [BranchToLabel(cond, c.loops + 1)];
      var t5 := [JumpToLabel(c.loops), LabelAt(c.loops + 1)];
      IdsWiden(t0, c0, c1, c, d);
      IdsWiden(t2, c1, d, c, d);
      LoopIds(cond, updates, c, d);
      IdsJoin(t0, t1, c, d);
      IdsJoin(t0 + t1, t2, c, d);
      IdsJoin(t0 + t1 + t2, t3, c, d);
      IdsJoin(t0 + t1 + t2 + t3, t4, c, d);
      IdsJoin(t0 + t1 + t2 + t3 + t4, t5, c, d);
  }

  lemma PlainIds(instrs: seq<Instr>, c: Counters, d: Counters)
    requires forall i :: 0 <= i < |instrs| ==> IsPlain(instrs[i])
    ensures IdsBetween(instrs, c, d)
  {
  }

  lemma SelectIds(cond: VReg, dst: VReg, y: VReg, n: VReg, c: Counters, d: Counters)
    requires c.selects + 2 <= d.selects
    ensures IdsBetween([BranchToLabel(cond, c.selects)], c, d)
    ensures IdsBetween([MovOf(VMove(dst, y)), JumpToLabel(c.selects + 1), LabelAt(c.selects)], c, d)
    ensures IdsBetween([MovOf(VMove(dst, n)), LabelAt(c.selects + 1)], c, d)
  {
  }

  lemma LoopIds(cond: VReg, updates: seq<VMove>, c: Counters, d: Counters)
    requires c.loops + 2 <= d.loops
    ensures IdsBetween([LabelAt(c.loops)], c, d) && IdsBetween([BranchToLabel(cond, c.loops + 1)], c, d)
    ensures IdsBetween(Movs(updates), c, d) && IdsBetween([JumpToLabel(c.loops), LabelAt(c.loops + 1)], c, d)
  {
  }

  // ---- Uniqueness ----

  /** No label of `s` is a label of `t`. */
  ghost predicate DisjointLabels(s: Program, t: Program) {
    forall i, j :: 0 <= i < |s| && 0 <= j < |t| && s[i].op.OpLabel? && t[j].op.OpLabel? ==> s[i].imm != t[j].imm
  }

  lemma UniqueJoin(s: Program, t: Program)
    requires UniqueLabels(s) && UniqueLabels(t) && DisjointLabels(s, t)
    ensures UniqueLabels(s + t)
  {
    var r := s + t;
    forall i, j | 0 <= i < j < |r| && r[i].op.OpLabel? && r[j].op.OpLabel? ensures r[i].imm != r[j].imm {
      if i < |s| <= j {
        assert r[i] == s[i] && r[j] == t[j - |s|];
      }
    }
  }

  lemma RangesDisjoint(s: Program, t: Program, a: Counters, b: Counters, c: Counters, d: Counters)
    requires IdsBetween(s, a, b) && IdsBetween(t, c, d)
    requires (b.loops <= c.loops && b.selects <= c.selects) || (d.loops <= a.loops && d.selects <= a.selects)
    requires b.loops <= SELECT_LABEL_BASE <= a.selects && d.loops <= SELECT_LABEL_BASE <= c.selects
    ensures DisjointLabels(s, t)
  {
  }

  lemma DisjointJoin(r: Program, s: Program, t: Program)
    requires DisjointLabels(r, t) && DisjointLabels(s, t)
    ensures DisjointLabels(r + s, t)
  {
  }

  lemma UniqueWithout(s: Program, t: Program)
    requires UniqueLabels(s) && forall i :: 0 <= i < |t| ==> !t[i].op.OpLabel?
    ensures UniqueLabels(t) && UniqueLabels(s + t)
  {
  }

  /** Every label of an emitted text is there once, as long as the two label spaces have not met. */
  lemma {:induction false} TextUnique(code: Code, c: Counters)
    requires PlainBlocks(code) && After(code, c).loops <= SELECT_LABEL_BASE <= c.selects
    ensures UniqueLabels(Text(code, c))
    decreases code
  {
    hide UniqueLabels, IdsBetween, DisjointLabels;
    var d := After(code, c);
    match code
    case Block(instrs) =>
      PlainUnique(instrs);
    case Chain(first, second) =>
      TextUnique(first, c);
      TextUnique(second, After(first, c));
      TextIds(first, c);
      TextIds(second, After(first, c));
      RangesDisjoint(Text(first, c), Text(second, After(first, c)), c, After(first, c), After(first, c), d);
      UniqueJoin(Text(first, c), Text(second, After(first, c)));
    case Choose(test, cond, yes, yesValue, no, noValue, dst) =>
      var c0 := c.(selects := c.selects + 2);
      var c1 := After(test, c0);
      var c2 := After(yes, c1);
      TextUnique(test, c0);
      TextUnique(yes, c1);
      TextUnique(no, c2);
      TextIds(test, c0);
      TextIds(yes, c1);
      TextIds(no, c2);
      ChooseUnique(Text(test, c0), cond, Text(yes, c1), yesValue, Text(no, c2), noValue, dst, c, c1, c2, d);
    case Repeat(entry, body, cond, updates) =>
      var c0 := c.(loops := c.loops + 2);
      var c1 := After(entry, c0);
      TextUnique(entry, c0);
      TextUnique(body, c1);
      TextIds(entry, c0);
      TextIds(body, c1);
      RepeatUnique(Text(entry, c0), Text(body, c1), cond, updates, c, c1, d);
  }

  lemma PlainUnique(instrs: seq<Instr>)
    requires forall i :: 0 <= i < |instrs| ==> IsPlain(instrs[i])
    ensures UniqueLabels(instrs)
  {
  }

  lemma ChooseUnique(t0: Program, cond: VReg, t2: Program, y: VReg, t4: Program, n: VReg, dst: VReg,
                     c: Counters, c1: Counters, c2: Counters, d: Counters)
    requires var c0 := c.(selects := c.selects + 2);
      && IdsBetween(t0, c0, c1) && IdsBetween(t2, c1, c2) && IdsBetween(t4, c2, d)
      && c0.loops <= c1.loops <= c2.loops <= d.loops <= SELECT_LABEL_BASE <= c.selects
      && c0.selects <= c1.selects <= c2.selects <= d.selects
    requires UniqueLabels(t0) && UniqueLabels(t2) && UniqueLabels(t4)
    ensures UniqueLabels(
      t0 + [BranchToLabel(cond, c.selects)]
      + t2 + [MovOf(VMove(dst, y)), JumpToLabel(c.selects + 1), LabelAt(c.selects)]
      + t4 + [MovOf(VMove(dst, n)), LabelAt(c.selects + 1)])
  {
    var c0 := c.(selects := c.selects + 2);
    var t1 := [BranchToLabel(cond, c.selects)];
    var t3 := [MovOf(VMove(dst, y)), JumpToLabel(c.selects + 1), LabelAt(c.selects)];
    var t5 := [MovOf(VMove(dst, n)), LabelAt(c.selects + 1)];
    UniqueWithout(t0, t1);
    assert UniqueLabels(t3) && UniqueLabels(t5) && DisjointLabels(t3, t5) && DisjointLabels(t1, t2)
      && DisjointLabels(t1, t3) && DisjointLabels(t1, t4) && DisjointLabels(t1, t5);
    assert IdsBetween(t3, c, c0) && IdsBetween(t5, c, c0);
    hide UniqueLabels, IdsBetween, DisjointLabels;
    RangesDisjoint(t0, t2, c0, c1, c1, c2);
    DisjointJoin(t0, t1, t2);
    UniqueJoin(t0 + t1, t2);
    RangesDisjoint(t0, t3, c0, c1, c, c0);
    RangesDisjoint(t2, t3, c1, c2, c, c0);
    DisjointJoin(t0, t1, t3);
    DisjointJoin(t0 + t1, t2, t3);
    UniqueJoin(t0 + t1 + t2, t3);
    RangesDisjoint(t0, t4, c0, c1, c2, d);
    RangesDisjoint(t2, t4, c1, c2, c2, d);
    RangesDisjoint(t3, t4, c, c0, c2, d);
    DisjointJoin(t0, t1, t4);
    DisjointJoin(t0 + t1, t2, t4);
    DisjointJoin(t0 + t1 + t2, t3, t4);
    UniqueJoin(t0 + t1 + t2 + t3, t4);
    RangesDisjoint(t0, t5, c0, c1, c, c0);
    RangesDisjoint(t2, t5, c1, c2, c, c0);
    RangesDisjoint(t4, t5, c2, d, c, c0);
    DisjointJoin(t0, t1, t5);
    DisjointJoin(t0 + t1, t2, t5);
    DisjointJoin(t0 + t1 + t2, t3, t5);
    DisjointJoin(t0 + t1 + t2 + t3, t4, t5);
    UniqueJoin(t0 + t1 + t2 + t3 + t4, t5);
  }

  lemma RepeatUnique(t0: Program, t2: Program, cond: VReg, updates: seq<VMove>, c: Counters, c1: Counters, d: Counters)
    requires var c0 := c.(loops := c.loops + 2);
      && IdsBetween(t0, c0, c1) && IdsBetween(t2, c1, d)
      && c0.loops <= c1.loops <= d.loops <= SELECT_LABEL_BASE <= c.selects && c0.selects <= c1.selects <= d.selects
    requires UniqueLabels(t0) && UniqueLabels(t2)
    ensures UniqueLabels(
      t0 + [LabelAt(c.loops)] + t2 + [BranchToLabel(cond, c.loops + 1)]
      + Movs(updates) + [JumpToLabel(c.loops), LabelAt(c.loops + 1)])
  {
    var c0 := c.(loops := c.loops + 2);
    var t1, t3 := [LabelAt(c.loops)], [BranchToLabel(cond, c.loops + 1)];
    var t4, t5 := Movs(updates), [JumpToLabel(c.loops), LabelAt(c.loops + 1)];
    assert UniqueLabels(t1) && UniqueLabels(t5) && DisjointLabels(t1, t5) && DisjointLabels(t3, t5)
      && DisjointLabels(t4, t5);
    assert IdsBetween(t1, c, c0) && IdsBetween(t5, c, c0);
    RangesDisjoint(t0, t1, c0, c1, c, c0);
    RangesDisjoint(t0, t2, c0, c1, c1, d);
    RangesDisjoint(t1, t2, c, c0, c1, d);
    RangesDisjoint(t0, t5, c0, c1, c, c0);
    RangesDisjoint(t2, t5, c1, d, c, c0);
    hide IdsBetween, DisjointLabels;
    UniqueJoin(t0, t1);
    DisjointJoin(t0, t1, t2);
    UniqueJoin(t0 + t1, t2);
    UniqueWithout(t0 + t1 + t2, t3);
    UniqueWithout(t0 + t1 + t2 + t3, t4);
    DisjointJoin(t0, t1, t5);
    DisjointJoin(t0 + t1, t2, t5);
    DisjointJoin(t0 + t1 + t2, t3, t5);
    DisjointJoin(t0 + t1 + t2 + t3, t4, t5);
    UniqueJoin(t0 + t1 + t2 + t3 + t4, t5);
  }

  // ---- Where the pieces lie ----

  /** The text of `code` stands at `a` in `p`, whose labels are unique. */
  ghost predicate Emitted(p: Program, a: nat, code: Code, c: Counters) {
    && Placed(p, a, Text(code, c)) && PlainBlocks(code) && UniqueLabels(p)
    && After(code, c).loops <= SELECT_LABEL_BASE <= c.selects
  }

  lemma LabelFound(p: Program, i: nat, id: nat)
    requires UniqueLabels(p) && i < |p| && p[i] == LabelAt(id)
    ensures LabelIndex(p, id) == Some(i)
  {
    var r := LabelIndex(p, id);
  }

  /** The three fixed instructions of a branch region and where they lead. */
  ghost predicate ChooseAt(p: Program, a: nat, a1: nat, a3: nat, a5: nat, code: Code, c: Counters)
    requires code.Choose?
  {
    var c0 := c.(selects := c.selects + 2);
    var c1 := After(code.test, c0);
    && a1 == a + |Text(code.test, c0)| && Emitted(p, a, code.test, c0)
    && a3 == a1 + 1 + |Text(code.yes, c1)| && Emitted(p, a1 + 1, code.yes, c1)
    && a5 == a3 + 3 + |Text(code.no, After(code.yes, c1))| && Emitted(p, a3 + 3, code.no, After(code.yes, c1))
    && a5 + 2 == a + |Text(code, c)| <= |p|
    && p[a1] == BranchToLabel(code.cond, c.selects) && Succs(p, a1) == [a1 + 1, a3 + 2]
    && LabelIndex(p, c.selects) == Some(a3 + 2) && LabelIndex(p, c.selects + 1) == Some(a5 + 1)
    && p[a3] == MovOf(VMove(code.dst, code.yesValue)) && Succs(p, a3) == [a3 + 1]
    && p[a3 + 1] == JumpToLabel(c.selects + 1) && Succs(p, a3 + 1) == [a5 + 1]
    && p[a3 + 2] == LabelAt(c.selects) && Succs(p, a3 + 2) == [a3 + 3]
    && p[a5] == MovOf(VMove(code.dst, code.noValue)) && Succs(p, a5) == [a5 + 1]
    && p[a5 + 1] == LabelAt(c.selects + 1) && Succs(p, a5 + 1) == [a5 + 2]
  }

  lemma ChoosePieces(p: Program, a: nat, code: Code, c: Counters)
    requires code.Choose? && Placed(p, a, Text(code, c))
    ensures var c0 := c.(selects := c.selects + 2);
      var c1 := After(code.test, c0);
      var t0, t2, t4 := Text(code.test, c0), Text(code.yes, c1), Text(code.no, After(code.yes, c1));
      var a1 := a + |t0|; var a3 := a1 + 1 + |t2|; var a5 := a3 + 3 + |t4|;
      && Placed(p, a, t0) && Placed(p, a1, [BranchToLabel(code.cond, c.selects)]) && Placed(p, a1 + 1, t2)
      && Placed(p, a3, [MovOf(VMove(code.dst, code.yesValue)), JumpToLabel(c.selects + 1), LabelAt(c.selects)])
      && Placed(p, a3 + 3, t4) && Placed(p, a5, [MovOf(VMove(code.dst, code.noValue)), LabelAt(c.selects + 1)])
      && a5 + 2 == a + |Text(code, c)|
  {
    var c0 := c.(selects := c.selects + 2);
    var c1 := After(code.test, c0);
    var t0, t2, t4 := Text(code.test, c0), Text(code.yes, c1), Text(code.no, After(code.yes, c1));
    var t1 := [BranchToLabel(code.cond, c.selects)];
    var t3 := [MovOf(VMove(code.dst, code.yesValue)), JumpToLabel(c.selects + 1), LabelAt(c.selects)];
    var t5 := [MovOf(VMove(code.dst, code.noValue)), LabelAt(c.selects + 1)];
    assert Text(code, c) == t0 + t1 + t2 + t3 + t4 + t5;
    hide Placed, Text, After;
    PlacedParts(p, a, t0 + t1 + t2 + t3 + t4, t5);
    PlacedParts(p, a, t0 + t1 + t2 + t3, t4);
    PlacedParts(p, a, t0 + t1 + t2, t3);
    PlacedParts(p, a, t0 + t1, t2);
    PlacedParts(p, a, t0, t1);
  }

  lemma PlacedHead(p: Program, a: nat, t: Program)
    requires Placed(p, a, t)
    ensures |t| > 0 ==> a < |p| && p[a] == t[0]
    ensures |t| > 1 ==> a + 1 < |p| && p[a + 1] == t[1]
    ensures |t| > 2 ==> a + 2 < |p| && p[a + 2] == t[2]
  {
    assert |t| > 0 ==> p[a + 0] == t[0];
  }

  lemma EmittedFacts(p: Program, a: nat, code: Code, c: Counters)
    requires Emitted(p, a, code, c)
    ensures Placed(p, a, Text(code, c)) && PlainBlocks(code) && UniqueLabels(p)
    ensures After(code, c).loops <= SELECT_LABEL_BASE <= c.selects && a + |Text(code, c)| <= |p|
  {
  }

  lemma EmittedPart(p: Program, a: nat, code: Code, c: Counters)
    requires Placed(p, a, Text(code, c)) && PlainBlocks(code) && UniqueLabels(p)
    requires After(code, c).loops <= SELECT_LABEL_BASE <= c.selects
    ensures Emitted(p, a, code, c)
  {
  }

  lemma PlacedMoves(p: Program, a: nat, updates: seq<VMove>)
    requires Placed(p, a, Movs(updates))
    ensures a + |updates| <= |p| && forall k :: 0 <= k < |updates| ==> p[a + k] == MovOf(updates[k])
  {
    forall k | 0 <= k < |updates| ensures p[a + k] == MovOf(updates[k]) {
      assert p[a + k] == Movs(updates)[k];
    }
  }

  lemma ChooseLayout(p: Program, a: nat, code: Code, c: Counters) returns (a1: nat, a3: nat, a5: nat)
    requires code.Choose? && Emitted(p, a, code, c)
    ensures ChooseAt(p, a, a1, a3, a5, code, c)
  {
    hide Placed, Text, PlainBlocks, After, UniqueLabels, Succs, Emitted, LabelIndex;
    var c0 := c.(selects := c.selects + 2);
    var c1 := After(code.test, c0);
    var c2 := After(code.yes, c1);
    EmittedFacts(p, a, code, c);
    ChoosePieces(p, a, code, c);
    ChooseParts(code, c);
    a1 := a + |Text(code.test, c0)|;
    a3 := a1 + 1 + |Text(code.yes, c1)|;
    a5 := a3 + 3 + |Text(code.no, c2)|;
    EmittedPart(p, a, code.test, c0);
    EmittedPart(p, a1 + 1, code.yes, c1);
    EmittedPart(p, a3 + 3, code.no, c2);
    PlacedHead(p, a1, [BranchToLabel(code.cond, c.selects)]);
    PlacedHead(p, a3, [MovOf(VMove(code.dst, code.yesValue)), JumpToLabel(c.selects + 1), LabelAt(c.selects)]);
    PlacedHead(p, a5, [MovOf(VMove(code.dst, code.noValue)), LabelAt(c.selects + 1)]);
    LabelFound(p, a3 + 2, c.selects);
    LabelFound(p, a5 + 1, c.selects + 1);
    TransferSuccs(p, a1);
    TransferSuccs(p, a3);
    TransferSuccs(p, a3 + 1);
    TransferSuccs(p, a3 + 2);
    TransferSuccs(p, a5);
    TransferSuccs(p, a5 + 1);
  }

  lemma ChooseParts(code: Code, c: Counters)
    requires code.Choose? && PlainBlocks(code) && After(code, c).loops <= SELECT_LABEL_BASE <= c.selects
    ensures var c0 := c.(selects := c.selects + 2);
      var c1 := After(code.test, c0);
      var c2 := After(code.yes, c1);
      && PlainBlocks(code.test) && PlainBlocks(code.yes) && PlainBlocks(code.no)
      && After(code.test, c0).loops <= SELECT_LABEL_BASE && After(code.yes, c1).loops <= SELECT_LABEL_BASE
      && After(code.no, c2).loops <= SELECT_LABEL_BASE
      && SELECT_LABEL_BASE <= c0.selects <= c1.selects <= c2.selects
  {
  }

  lemma RepeatParts(code: Code, c: Counters)
    requires code.Repeat? && PlainBlocks(code) && After(code, c).loops <= SELECT_LABEL_BASE <= c.selects
    ensures var c0 := c.(loops := c.loops + 2);
      var c1 := After(code.entry, c0);
      && PlainBlocks(code.entry) && PlainBlocks(code.body)
      && After(code.entry, c0).loops <= SELECT_LABEL_BASE && After(code.body, c1).loops <= SELECT_LABEL_BASE
      && SELECT_LABEL_BASE <= c0.selects <= c1.selects
  {
  }

  /** Where a fixed instruction leads, once its label has been found. */
  lemma TransferSuccs(p: Program, i: nat)
    requires i < |p|
    ensures p[i].op.OpLabel? || p[i].op.OpMov? ==> Succs(p, i) == [i + 1]
    ensures p[i].op.OpJmp? && p[i].imm.Some? && LabelIndex(p, p[i].imm.value).Some? ==>
      Succs(p, i) == [LabelIndex(p, p[i].imm.value).value]
    ensures p[i].op.OpJz? && p[i].imm.Some? && LabelIndex(p, p[i].imm.value).Some? ==>
      Succs(p, i) == [i + 1, LabelIndex(p, p[i].imm.value).value]
  {
    hide LabelIndex;
  }

  ghost predicate RepeatAt(p: Program, a: nat, a1: nat, a3: nat, a5: nat, code: Code, c: Counters)
    requires code.Repeat?
  {
    var c0 := c.(loops := c.loops + 2);
    var c1 := After(code.entry, c0);
    && a1 == a + |Text(code.entry, c0)| && Emitted(p, a, code.entry, c0)
    && a3 == a1 + 1 + |Text(code.body, c1)| && Emitted(p, a1 + 1, code.body, c1)
    && a5 == a3 + 1 + |code.updates| && a5 + 2 == a + |Text(code, c)| <= |p|
    && p[a1] == LabelAt(c.loops) && Succs(p, a1) == [a1 + 1]
    && p[a3] == BranchToLabel(code.cond, c.loops + 1) && Succs(p, a3) == [a3 + 1, a5 + 1]
    && LabelIndex(p, c.loops) == Some(a1) && LabelIndex(p, c.loops + 1) == Some(a5 + 1)
    && (forall k :: 0 <= k < |code.updates| ==> p[a3 + 1 + k] == MovOf(code.updates[k]))
    && p[a5] == JumpToLabel(c.loops) && Succs(p, a5) == [a1]
    && p[a5 + 1] == LabelAt(c.loops + 1) && Succs(p, a5 + 1) == [a5 + 2]
  }

  lemma RepeatPieces(p: Program, a: nat, code: Code, c: Counters)
    requires code.Repeat? && Placed(p, a, Text(code, c))
    ensures var c0 := c.(loops := c.loops + 2);
      var t0, t2 := Text(code.entry, c0), Text(code.body, After(code.entry, c0));
      var a1 := a + |t0|; var a3 := a1 + 1 + |t2|; var a5 := a3 + 1 + |code.updates|;
      && Placed(p, a, t0) && Placed(p, a1, [LabelAt(c.loops)]) && Placed(p, a1 + 1, t2)
      && Placed(p, a3, [BranchToLabel(code.cond, c.loops + 1)]) && Placed(p, a3 + 1, Movs(code.updates))
      && Placed(p, a5, [JumpToLabel(c.loops), LabelAt(c.loops + 1)])
      && a5 + 2 == a + |Text(code, c)|
  {
    var c0 := c.(loops := c.loops + 2);
    var t0, t2, t4 := Text(code.entry, c0), Text(code.body, After(code.entry, c0)), Movs(code.updates);
    var t1, t3 := [LabelAt(c.loops)], [BranchToLabel(code.cond, c.loops + 1)];
    var t5 := [JumpToLabel(c.loops), LabelAt(c.loops + 1)];
    assert Text(code, c) == t0 + t1 + t2 + t3 + t4 + t5;
    hide Placed, Text, After;
    PlacedParts(p, a, t0 + t1 + t2 + t3 + t4, t5);
    PlacedParts(p, a, t0 + t1 + t2 + t3, t4);
    PlacedParts(p, a, t0 + t1 + t2, t3);
    PlacedParts(p, a, t0 + t1, t2);
    PlacedParts(p, a, t0, t1);
  }

  lemma RepeatLayout(p: Program, a: nat, code: Code, c: Counters) returns (a1: nat, a3: nat, a5: nat)
    requires code.Repeat? && Emitted(p, a, code, c)
    ensures RepeatAt(p, a, a1, a3, a5, code, c)
  {
    hide Placed, Text, PlainBlocks, After, UniqueLabels, Succs, Emitted, LabelIndex;
    var c0 := c.(loops := c.loops + 2);
    var c1 := After(code.entry, c0);
    EmittedFacts(p, a, code, c);
    RepeatPieces(p, a, code, c);
    RepeatParts(code, c);
    a1 := a + |Text(code.entry, c0)|;
    a3 := a1 + 1 + |Text(code.body, c1)|;
    a5 := a3 + 1 + |code.updates|;
    EmittedPart(p, a, code.entry, c0);
    EmittedPart(p, a1 + 1, code.body, c1);
    PlacedMoves(p, a3 + 1, code.updates);
    PlacedHead(p, a1, [LabelAt(c.loops)]);
    PlacedHead(p, a3, [BranchToLabel(code.cond, c.loops + 1)]);
    PlacedHead(p, a5, [JumpToLabel(c.loops), LabelAt(c.loops + 1)]);
    LabelFound(p, a1, c.loops);
    LabelFound(p, a5 + 1, c.loops + 1);
    TransferSuccs(p, a1);
    TransferSuccs(p, a3);
    TransferSuccs(p, a5);
    TransferSuccs(p, a5 + 1);
  }

  lemma ChainLayout(p: Program, a: nat, code: Code, c: Counters)
    requires code.Chain? && Emitted(p, a, code, c)
    ensures Emitted(p, a, code.first, c)
    ensures Emitted(p, a + |Text(code.first, c)|, code.second, After(code.first, c))
    ensures |Text(code, c)| == |Text(code.first, c)| + |Text(code.second, After(code.first, c))|
  {
    PlacedParts(p, a, Text(code.first, c), Text(code.second, After(code.first, c)));
    hide Placed;
  }

  // ---- Control flow ----

  /** Control from `[a, b)` stays there or goes on at `b`; only loop-closing jumps go back. */
  ghost predicate Flows(p: Program, a: nat, b: nat) {
    b <= |p| && forall i: nat, j: nat {:trigger j in Succs(p, i)} :: a <= i < b && j in Succs(p, i) ==>
      a <= j <= b && (j <= i ==> j < |p| && SpanAt(p, j) == Some((j, i)))
  }

  ghost predicate AllReachable(p: Program, a: nat, b: nat) {
    forall i :: a <= i <= b ==> ForwardReachable(p, i)
  }

  lemma FlowsJoin(p: Program, a: nat, m: nat, b: nat)
    requires Flows(p, a, m) && Flows(p, m, b) && a <= m <= b
    ensures Flows(p, a, b)
  {
  }

  lemma OneFlows(p: Program, i: nat)
    requires i < |p| && Succs(p, i) == [i + 1]
    ensures Flows(p, i, i + 1)
    ensures ForwardReachable(p, i) ==> ForwardReachable(p, i + 1)
  {
    assert i + 1 in Succs(p, i);
  }

  lemma {:induction false} PlainFlows(p: Program, a: nat, n: nat)
    requires a + n <= |p| && forall i :: a <= i < a + n ==> IsPlain(p[i])
    ensures Flows(p, a, a + n) && (ForwardReachable(p, a) ==> AllReachable(p, a, a + n))
  {
    hide ForwardReachable, SpanAt;
    if n > 0 {
      PlainFlows(p, a, n - 1);
      OneFlows(p, a + n - 1);
      FlowsJoin(p, a, a + n - 1, a + n);
    }
  }

  lemma Edge(p: Program, i: nat, j: nat)
    requires i < j && i < |p| && j in Succs(p, i) && ForwardReachable(p, i)
    ensures ForwardReachable(p, j)
  {
  }

  lemma ReachJoin(p: Program, a: nat, m: nat, b: nat)
    requires AllReachable(p, a, m) && AllReachable(p, m, b)
    ensures AllReachable(p, a, b)
  {
    hide ForwardReachable;
  }

  /** The jump that closes a loop is the first one back to its head. */
  lemma LoopSpan(p: Program, a: nat, a1: nat, a3: nat, a5: nat, code: Code, c: Counters)
    requires code.Repeat? && Emitted(p, a, code, c) && RepeatAt(p, a, a1, a3, a5, code, c)
    ensures SpanAt(p, a1) == Some((a1, a5))
  {
    hide Succs, LabelIndex, Text, PlainBlocks, UniqueLabels;
    var c1 := After(code.entry, c.(loops := c.loops + 2));
    BodyIds(code, c);
    forall k | a1 + 1 <= k < a5 && p[k].op.OpJmp? ensures p[k].imm != Some(c.loops) {
      assert k > a3 ==> p[k] == MovOf(code.updates[k - (a3 + 1)]);
      assert p[a1 + 1 + (k - (a1 + 1))] == Text(code.body, c1)[k - (a1 + 1)];
    }
  }

  lemma BodyIds(code: Code, c: Counters)
    requires code.Repeat? && PlainBlocks(code)
    ensures var c1 := After(code.entry, c.(loops := c.loops + 2));
      IdsBetween(Text(code.body, c1), c1, After(code, c)) && c1.loops >= c.loops + 2 && c1.selects >= c.selects
  {
    TextIds(code.body, After(code.entry, c.(loops := c.loops + 2)));
  }

  /** Emitted code is structured: it transfers backwards only from a loop's end to its head, and all of it
      can be reached going forward. */
  lemma {:induction false} CodeFlows(p: Program, a: nat, code: Code, c: Counters)
    requires Emitted(p, a, code, c)
    ensures var b := a + |Text(code, c)|; Flows(p, a, b) && (ForwardReachable(p, a) ==> AllReachable(p, a, b))
    decreases code
  {
    hide Succs, SpanAt, ForwardReachable, Flows, Emitted, UniqueLabels, AllReachable;
    match code
    case Block(instrs) =>
      BlockPlain(p, a, code, c);
      PlainFlows(p, a, |instrs|);
    case Chain(first, second) =>
      ChainLayout(p, a, code, c);
      var m := a + |Text(first, c)|;
      CodeFlows(p, a, first, c);
      CodeFlows(p, m, second, After(first, c));
      FlowsJoin(p, a, m, a + |Text(code, c)|);
      if ForwardReachable(p, a) {
        EndReachable(p, a, m);
        ReachJoin(p, a, m, a + |Text(code, c)|);
      }
    case Choose(test, cond, yes, yesValue, no, noValue, dst) =>
      var a1, a3, a5 := ChooseLayout(p, a, code, c);
      ChooseFlows(p, a, a1, a3, a5, code, c);
    case Repeat(entry, body, cond, updates) =>
      var a1, a3, a5 := RepeatLayout(p, a, code, c);
      RepeatFlows(p, a, a1, a3, a5, code, c);
  }

  lemma BlockPlain(p: Program, a: nat, code: Code, c: Counters)
    requires code.Block? && Emitted(p, a, code, c)
    ensures a + |code.instrs| <= |p| && Text(code, c) == code.instrs
    ensures forall i :: a <= i < a + |code.instrs| ==> p[i] == code.instrs[i - a] && IsPlain(p[i])
  {
    forall i | a <= i < a + |code.instrs| ensures p[i] == code.instrs[i - a] && IsPlain(p[i]) {
      assert p[a + (i - a)] == code.instrs[i - a];
    }
  }

  lemma EndReachable(p: Program, a: nat, b: nat)
    requires a <= b && AllReachable(p, a, b)
    ensures ForwardReachable(p, b)
  {
  }

  lemma ChooseFlows(p: Program, a: nat, a1: nat, a3: nat, a5: nat, code: Code, c: Counters)
    requires code.Choose? && Emitted(p, a, code, c) && ChooseAt(p, a, a1, a3, a5, code, c)
    ensures var b := a + |Text(code, c)|; Flows(p, a, b) && (ForwardReachable(p, a) ==> AllReachable(p, a, b))
    decreases code, 0
  {
    hide SpanAt, ForwardReachable, Succs, Text, After, Emitted, LabelIndex;
    var c0 := c.(selects := c.selects + 2);
    var c1 := After(code.test, c0);
    CodeFlows(p, a, code.test, c0);
    CodeFlows(p, a1 + 1, code.yes, c1);
    CodeFlows(p, a3 + 3, code.no, After(code.yes, c1));
    OneFlows(p, a3);
    OneFlows(p, a3 + 2);
    OneFlows(p, a5);
    OneFlows(p, a5 + 1);
    if ForwardReachable(p, a) {
      Edge(p, a1, a1 + 1);
      Edge(p, a1, a3 + 2);
      assert forall i :: a <= i <= a1 ==> ForwardReachable(p, i);
      assert forall i :: a1 + 1 <= i <= a3 ==> ForwardReachable(p, i);
      assert forall i :: a3 + 3 <= i <= a5 ==> ForwardReachable(p, i);
    }
  }

  lemma UpdatesPlain(p: Program, a: nat, a1: nat, a3: nat, a5: nat, code: Code, c: Counters)
    requires code.Repeat? && RepeatAt(p, a, a1, a3, a5, code, c)
    ensures forall i :: a3 + 1 <= i < a5 ==> IsPlain(p[i])
  {
    hide Succs, Text, After, Emitted, LabelIndex;
    forall i | a3 + 1 <= i < a5 ensures IsPlain(p[i]) {
      assert p[a3 + 1 + (i - (a3 + 1))] == MovOf(code.updates[i - (a3 + 1)]);
    }
  }

  lemma RepeatFacts(p: Program, a: nat, a1: nat, a3: nat, a5: nat, code: Code, c: Counters)
    requires code.Repeat? && RepeatAt(p, a, a1, a3, a5, code, c)
    ensures var c0 := c.(loops := c.loops + 2);
      && a1 == a + |Text(code.entry, c0)| && Emitted(p, a, code.entry, c0)
      && a3 == a1 + 1 + |Text(code.body, After(code.entry, c0))| && Emitted(p, a1 + 1, code.body, After(code.entry, c0))
      && a5 == a3 + 1 + |code.updates| && a5 + 2 == a + |Text(code, c)| <= |p|
      && Succs(p, a1) == [a1 + 1] && Succs(p, a3) == [a3 + 1, a5 + 1]
      && Succs(p, a5) == [a1] && Succs(p, a5 + 1) == [a5 + 2]
  {
  }

  lemma LoopFlows(p: Program, a: nat, a1: nat, a3: nat, a5: nat)
    requires a <= a1 < a3 < a5 && a5 + 2 <= |p|
    requires Flows(p, a, a1) && Flows(p, a1 + 1, a3) && Flows(p, a3 + 1, a5)
    requires Succs(p, a1) == [a1 + 1] && Succs(p, a3) == [a3 + 1, a5 + 1]
    requires Succs(p, a5) == [a1] && Succs(p, a5 + 1) == [a5 + 2] && SpanAt(p, a1) == Some((a1, a5))
    ensures Flows(p, a, a5 + 2)
  {
    hide Succs, SpanAt;
  }

  lemma LoopReach(p: Program, a: nat, a1: nat, a3: nat, a5: nat)
    requires a <= a1 < a3 < a5 && a5 + 2 <= |p|
    requires ForwardReachable(p, a) && AllReachable(p, a, a1)
    requires ForwardReachable(p, a1 + 1) ==> AllReachable(p, a1 + 1, a3)
    requires ForwardReachable(p, a3 + 1) ==> AllReachable(p, a3 + 1, a5)
    requires Succs(p, a1) == [a1 + 1] && Succs(p, a3) == [a3 + 1, a5 + 1] && Succs(p, a5 + 1) == [a5 + 2]
    ensures AllReachable(p, a, a5 + 2)
  {
    hide Succs, ForwardReachable;
    Edge(p, a1, a1 + 1);
    Edge(p, a3, a3 + 1);
    Edge(p, a3, a5 + 1);
    Edge(p, a5 + 1, a5 + 2);
  }

  lemma RepeatFlows(p: Program, a: nat, a1: nat, a3: nat, a5: nat, code: Code, c: Counters)
    requires code.Repeat? && Emitted(p, a, code, c) && RepeatAt(p, a, a1, a3, a5, code, c)
    ensures var b := a + |Text(code, c)|; Flows(p, a, b) && (ForwardReachable(p, a) ==> AllReachable(p, a, b))
    decreases code, 0
  {
    hide *;
    LoopSpan(p, a, a1, a3, a5, code, c);
    UpdatesPlain(p, a, a1, a3, a5, code, c);
    RepeatFacts(p, a, a1, a3, a5, code, c);
    CodeFlows(p, a, code.entry, c.(loops := c.loops + 2));
    CodeFlows(p, a1 + 1, code.body, After(code.entry, c.(loops := c.loops + 2)));
    PlainFlows(p, a3 + 1, |code.updates|);
    LoopFlows(p, a, a1, a3, a5);
    if ForwardReachable(p, a) {
      LoopReach(p, a, a1, a3, a5);
    }
  }

  // ---- Definite assignment ----

  predicate Within(uses: seq<VReg>, known: set<VReg>) {
    forall k :: 0 <= k < |uses| ==> uses[k] in known
  }

  function CheckBlock(instrs: seq<Instr>, known: set<VReg>): (r: Option<set<VReg>>)
    ensures r.Some? ==> known <= r.value
  {
    if instrs == [] then Some(known)
    else if !Within(instrs[0].uses, known) || |instrs[0].defs| != 1 then None
    else CheckBlock(instrs[1..], known + {instrs[0].defs[0]})
  }

  /** The registers surely written after `code`, if it reads only registers surely written before. What an
      arm of a branch region computes stays inside it. */
  function Checked(code: Code, known: set<VReg>): (r: Option<set<VReg>>)
    ensures r.Some? ==> known <= r.value
  {
    match code
    case Block(instrs) => CheckBlock(instrs, known)
    case Chain(first, second) =>
      (match Checked(first, known) case None => None case Some(k) => Checked(second, k))
    case Choose(test, cond, yes, yesValue, no, noValue, dst) =>
      (match Checked(test, known)
       case None => None
       case Some(k) =>
         match (Checked(yes, k), Checked(no, k))
         case (Some(y), Some(n)) =>
           if cond in k && yesValue in y && noValue in n then Some(y * n + {dst}) else None
         case _ => None)
    case Repeat(entry, body, cond, updates) =>
      (match Checked(entry, known)
       case None => None
       case Some(k) =>
         match Checked(body, k)
         case None => None
         case Some(b) =>
           if cond in b && forall j :: 0 <= j < |updates| ==> updates[j].src in b && updates[j].dst in k
           then Some(b) else None)
  }

  /** A path that reads `v` first gets past an instruction that does not touch it. */
  lemma PassOne(p: Program, i: nat, j: nat, v: VReg, n: nat)
    requires i < |p| && v !in p[i].uses && UsedFrom(p, v, i, n) && Succs(p, i) == [j]
    ensures n > 0 && v !in p[i].defs && UsedFrom(p, v, j, n - 1)
  {
    hide Succs;
    var k :| k in Succs(p, i) && UsedFrom(p, v, k, n - 1);
    assert k == j;
  }

  lemma {:induction false} PassBlock(p: Program, a: nat, instrs: seq<Instr>, known: set<VReg>, v: VReg, n: nat)
    returns (m: nat)
    requires Placed(p, a, instrs) && (forall i :: 0 <= i < |instrs| ==> IsPlain(instrs[i]))
    requires CheckBlock(instrs, known).Some? && v !in known && UsedFrom(p, v, a, n)
    ensures m <= n && v !in CheckBlock(instrs, known).value && UsedFrom(p, v, a + |instrs|, m)
    decreases |instrs|
  {
    hide UsedFrom, Succs;
    m := n;
    if instrs != [] {
      assert p[a + 0] == instrs[0];
      PlainSuccs(p, a);
      PassOne(p, a, a + 1, v, n);
      assert v != instrs[0].defs[0];
      PlacedParts(p, a, [instrs[0]], instrs[1..]) by {
        assert [instrs[0]] + instrs[1..] == instrs;
      }
      m := PassBlock(p, a + 1, instrs[1..], known + {instrs[0].defs[0]}, v, n - 1);
    }
  }

  lemma PlainSuccs(p: Program, i: nat)
    requires i < |p| && IsPlain(p[i])
    ensures Succs(p, i) == [i + 1]
  {
  }

  lemma {:induction false} PassUpdates(p: Program, a: nat, updates: seq<VMove>, from: nat, v: VReg, n: nat)
    returns (m: nat)
    requires from <= |updates| && a + |updates| <= |p|
    requires forall k :: 0 <= k < |updates| ==> p[a + k] == MovOf(updates[k]) && updates[k].src != v
    requires UsedFrom(p, v, a + from, n)
    ensures m <= n && UsedFrom(p, v, a + |updates|, m)
    decreases |updates| - from
  {
    hide UsedFrom, Succs;
    m := n;
    if from < |updates| {
      assert p[a + from] == MovOf(updates[from]);
      PlainSuccs(p, a + from);
      PassOne(p, a + from, a + from + 1, v, n);
      m := PassUpdates(p, a, updates, from + 1, v, n - 1);
    }
  }

  /** A path through checked code that reads an unwritten register reads it after the code. */
  lemma {:induction false} PassCode(p: Program, a: nat, code: Code, c: Counters, known: set<VReg>, v: VReg, n: nat)
    returns (m: nat)
    requires Emitted(p, a, code, c) && Checked(code, known).Some? && v !in known && UsedFrom(p, v, a, n)
    ensures m <= n && v !in Checked(code, known).value && UsedFrom(p, v, a + |Text(code, c)|, m)
    decreases code, 1, n
  {
    hide UsedFrom, Succs, Emitted, After, Placed, PlainBlocks, LabelIndex;
    match code
    case Block(instrs) =>
      EmittedFacts(p, a, code, c);
      BlockPlain(p, a, code, c);
      m := PassBlock(p, a, instrs, known, v, n);
    case Chain(first, second) =>
      ChainLayout(p, a, code, c);
      m := PassCode(p, a, first, c, known, v, n);
      m := PassCode(p, a + |Text(first, c)|, second, After(first, c), Checked(first, known).value, v, m);
    case Choose(test, cond, yes, yesValue, no, noValue, dst) =>
      var a1, a3, a5 := ChooseLayout(p, a, code, c);
      m := PassChoose(p, a, a1, a3, a5, code, c, known, v, n);
    case Repeat(entry, body, cond, updates) =>
      var a1, a3, a5 := RepeatLayout(p, a, code, c);
      RepeatFacts(p, a, a1, a3, a5, code, c);
      m := PassCode(p, a, entry, c.(loops := c.loops + 2), known, v, n);
      m := PassLoop(p, a, a1, a3, a5, code, c, known, v, m);
  }

  lemma ChooseFacts(p: Program, a: nat, a1: nat, a3: nat, a5: nat, code: Code, c: Counters)
    requires code.Choose? && ChooseAt(p, a, a1, a3, a5, code, c)
    ensures var c0 := c.(selects := c.selects + 2);
      var c1 := After(code.test, c0);
      && a1 == a + |Text(code.test, c0)| && Emitted(p, a, code.test, c0)
      && a3 == a1 + 1 + |Text(code.yes, c1)| && Emitted(p, a1 + 1, code.yes, c1)
      && a5 == a3 + 3 + |Text(code.no, After(code.yes, c1))| && Emitted(p, a3 + 3, code.no, After(code.yes, c1))
      && a5 + 2 == a + |Text(code, c)| <= |p|
      && p[a1] == BranchToLabel(code.cond, c.selects) && Succs(p, a1) == [a1 + 1, a3 + 2]
      && p[a3] == MovOf(VMove(code.dst, code.yesValue)) && Succs(p, a3) == [a3 + 1]
      && p[a3 + 1] == JumpToLabel(c.selects + 1) && Succs(p, a3 + 1) == [a5 + 1]
      && p[a3 + 2] == LabelAt(c.selects) && Succs(p, a3 + 2) == [a3 + 3]
      && p[a5] == MovOf(VMove(code.dst, code.noValue)) && Succs(p, a5) == [a5 + 1]
      && p[a5 + 1] == LabelAt(c.selects + 1) && Succs(p, a5 + 1) == [a5 + 2]
      && LabelIndex(p, c.selects) == Some(a3 + 2) && LabelIndex(p, c.selects + 1) == Some(a5 + 1)
  {
  }

  /** A path past a two-way branch takes one of its ways. */
  lemma PassBranch(p: Program, i: nat, j: nat, k: nat, v: VReg, n: nat)
    requires i < |p| && v !in p[i].uses && UsedFrom(p, v, i, n) && Succs(p, i) == [j, k]
    ensures n > 0 && (UsedFrom(p, v, j, n - 1) || UsedFrom(p, v, k, n - 1))
  {
    hide Succs;
    var t :| t in Succs(p, i) && UsedFrom(p, v, t, n - 1);
    assert t == j || t == k;
  }

  lemma CheckedChoose(code: Code, known: set<VReg>)
    requires code.Choose? && Checked(code, known).Some?
    ensures Checked(code.test, known).Some?
    ensures var k := Checked(code.test, known).value;
      && code.cond in k && Checked(code.yes, k).Some? && Checked(code.no, k).Some?
      && code.yesValue in Checked(code.yes, k).value && code.noValue in Checked(code.no, k).value
      && Checked(code, known).value == Checked(code.yes, k).value * Checked(code.no, k).value + {code.dst}
  {
  }

  lemma CheckedRepeat(code: Code, known: set<VReg>)
    requires code.Repeat? && Checked(code, known).Some?
    ensures Checked(code.entry, known).Some?
    ensures var k := Checked(code.entry, known).value;
      && Checked(code.body, k).Some? && Checked(code, known) == Checked(code.body, k)
      && code.cond in Checked(code.body, k).value
      && forall j :: 0 <= j < |code.updates| ==>
           code.updates[j].src in Checked(code.body, k).value && code.updates[j].dst in k
  {
  }

  lemma PassChoose(p: Program, a: nat, a1: nat, a3: nat, a5: nat, code: Code, c: Counters, known: set<VReg>, v: VReg,
                   n: nat) returns (m: nat)
    requires code.Choose? && ChooseAt(p, a, a1, a3, a5, code, c)
    requires Checked(code, known).Some? && v !in known && UsedFrom(p, v, a, n)
    ensures m <= n && v !in Checked(code, known).value && UsedFrom(p, v, a + |Text(code, c)|, m)
    decreases code, 0, n
  {
    hide UsedFrom, Succs, Emitted, After, Text, LabelIndex, ChooseAt, RepeatAt, Checked;
    ChooseFacts(p, a, a1, a3, a5, code, c);
    CheckedChoose(code, known);
    var c0 := c.(selects := c.selects + 2);
    var c1 := After(code.test, c0);
    var k := Checked(code.test, known).value;
    m := PassCode(p, a, code.test, c0, known, v, n);
    PassBranch(p, a1, a1 + 1, a3 + 2, v, m);
    if UsedFrom(p, v, a1 + 1, m - 1) {
      m := PassCode(p, a1 + 1, code.yes, c1, k, v, m - 1);
      PassOne(p, a3, a3 + 1, v, m);
      PassOne(p, a3 + 1, a5 + 1, v, m - 1);
      PassOne(p, a5 + 1, a5 + 2, v, m - 2);
      m := m - 3;
    } else {
      PassOne(p, a3 + 2, a3 + 3, v, m - 1);
      m := PassCode(p, a3 + 3, code.no, After(code.yes, c1), k, v, m - 2);
      PassOne(p, a5, a5 + 1, v, m);
      PassOne(p, a5 + 1, a5 + 2, v, m - 1);
      m := m - 2;
    }
  }

  /** However often a path goes round a loop. */
  lemma PassLoop(p: Program, a: nat, a1: nat, a3: nat, a5: nat, code: Code, c: Counters, known: set<VReg>, v: VReg,
                 n: nat) returns (m: nat)
    requires code.Repeat? && RepeatAt(p, a, a1, a3, a5, code, c)
    requires Checked(code, known).Some? && Checked(code.entry, known).Some? && v !in Checked(code.entry, known).value
    requires UsedFrom(p, v, a1, n)
    ensures m <= n && v !in Checked(code, known).value && UsedFrom(p, v, a + |Text(code, c)|, m)
    decreases code, 0, n
  {
    hide UsedFrom, Succs, Emitted, After, Text, LabelIndex, ChooseAt, RepeatAt, Checked;
    RepeatFacts(p, a, a1, a3, a5, code, c);
    RepeatInstrs(p, a, a1, a3, a5, code, c);
    CheckedRepeat(code, known);
    PassOne(p, a1, a1 + 1, v, n);
    m := PassCode(p, a1 + 1, code.body, After(code.entry, c.(loops := c.loops + 2)), Checked(code.entry, known).value,
                  v, n - 1);
    PassBranch(p, a3, a3 + 1, a5 + 1, v, m);
    if UsedFrom(p, v, a5 + 1, m - 1) {
      PassOne(p, a5 + 1, a5 + 2, v, m - 1);
      m := m - 2;
    } else {
      m := PassUpdates(p, a3 + 1, code.updates, 0, v, m - 1);
      PassOne(p, a5, a1, v, m);
      m := PassLoop(p, a, a1, a3, a5, code, c, known, v, m - 1);
    }
  }

  lemma RepeatInstrs(p: Program, a: nat, a1: nat, a3: nat, a5: nat, code: Code, c: Counters)
    requires code.Repeat? && RepeatAt(p, a, a1, a3, a5, code, c)
    ensures a5 == a3 + 1 + |code.updates| && a1 < a3 && a5 + 1 < |p|
    ensures p[a1] == LabelAt(c.loops) && p[a3] == BranchToLabel(code.cond, c.loops + 1)
    ensures forall k :: 0 <= k < |code.updates| ==> p[a3 + 1 + k] == MovOf(code.updates[k])
    ensures p[a5] == JumpToLabel(c.loops) && p[a5 + 1] == LabelAt(c.loops + 1)
    ensures LabelIndex(p, c.loops) == Some(a1) && LabelIndex(p, c.loops + 1) == Some(a5 + 1)
  {
  }

  // ---- Execution ----

  lemma {:induction false} VRunAppend(p: Program, args: seq<Word>, s: VState, a: nat, s1: VState, b: nat)
    requires VRun(p, args, s, a) == Next(s1)
    ensures VRun(p, args, s, a + b) == VRun(p, args, s1, b)
    decreases a
  {
    hide VStep;
    if a > 0 {
      VRunAppend(p, args, VStep(p, args, s).state, a - 1, s1, b);
    }
  }

  /** The program goes from one place and environment to another. */
  ghost predicate Leads(p: Program, args: seq<Word>, a: nat, env: Env, b: nat, env': Env) {
    exists n: nat :: VRun(p, args, VState(a, env), n) == Next(VState(b, env'))
  }

  lemma LeadsOn(p: Program, args: seq<Word>, a: nat, e0: Env, b: nat, e1: Env, c: nat, e2: Env)
    requires Leads(p, args, a, e0, b, e1) && Leads(p, args, b, e1, c, e2)
    ensures Leads(p, args, a, e0, c, e2)
  {
    hide VStep, VRun;
    var n: nat :| VRun(p, args, VState(a, e0), n) == Next(VState(b, e1));
    var k: nat :| VRun(p, args, VState(b, e1), k) == Next(VState(c, e2));
    VRunAppend(p, args, VState(a, e0), n, VState(b, e1), k);
  }

  lemma Nowhere(p: Program, args: seq<Word>, a: nat, env: Env)
    ensures Leads(p, args, a, env, a, env)
  {
    assert VRun(p, args, VState(a, env), 0) == Next(VState(a, env));
  }

  lemma OneStep(p: Program, args: seq<Word>, a: nat, env: Env, b: nat, env': Env)
    requires VStep(p, args, VState(a, env)) == Next(VState(b, env'))
    ensures Leads(p, args, a, env, b, env')
  {
    hide VStep;
    assert VRun(p, args, VState(b, env'), 0) == Next(VState(b, env'));
    assert VRun(p, args, VState(a, env), 1) == Next(VState(b, env'));
  }

  lemma PlainStep(p: Program, args: seq<Word>, i: nat, env: Env)
    requires i < |p| && IsPlain(p[i]) && ValueOf(p[i], args, env).Some?
    ensures Leads(p, args, i, env, i + 1, env[p[i].defs[0] := ValueOf(p[i], args, env).value])
  {
    OneStep(p, args, i, env, i + 1, env[p[i].defs[0] := ValueOf(p[i], args, env).value]);
  }

  lemma {:induction false} BlockRuns(p: Program, args: seq<Word>, a: nat, instrs: seq<Instr>, env: Env, env': Env)
    requires Placed(p, a, instrs) && (forall i :: 0 <= i < |instrs| ==> IsPlain(instrs[i]))
    requires Execute(instrs, args, env) == Some(env')
    ensures Leads(p, args, a, env, a + |instrs|, env')
    decreases |instrs|
  {
    hide ValueOf, Leads;
    if instrs == [] {
      Nowhere(p, args, a, env);
    } else {
      assert p[a + 0] == instrs[0];
      PlainStep(p, args, a, env);
      PlacedParts(p, a, [instrs[0]], instrs[1..]) by {
        assert [instrs[0]] + instrs[1..] == instrs;
      }
      var e1 := env[instrs[0].defs[0] := ValueOf(instrs[0], args, env).value];
      BlockRuns(p, args, a + 1, instrs[1..], e1, env');
      LeadsOn(p, args, a, env, a + 1, e1, a + |instrs|, env');
    }
  }

  lemma {:induction false} UpdatesRun(p: Program, args: seq<Word>, a: nat, updates: seq<VMove>, env: Env, env': Env)
    requires a + |updates| <= |p| && forall k :: 0 <= k < |updates| ==> p[a + k] == MovOf(updates[k])
    requires MoveInTurn(updates, env) == Some(env')
    ensures Leads(p, args, a, env, a + |updates|, env')
    decreases |updates|
  {
    hide Leads;
    if updates == [] {
      Nowhere(p, args, a, env);
    } else {
      assert p[a + 0] == MovOf(updates[0]);
      var e1 := env[updates[0].dst := env[updates[0].src]];
      MoveStep(p, args, a, updates[0], env);
      forall k | 0 <= k < |updates[1..]| ensures p[a + 1 + k] == MovOf(updates[1..][k]) {
        assert p[a + (k + 1)] == MovOf(updates[k + 1]);
      }
      UpdatesRun(p, args, a + 1, updates[1..], e1, env');
      LeadsOn(p, args, a, env, a + 1, e1, a + |updates|, env');
    }
  }

  lemma MoveStep(p: Program, args: seq<Word>, i: nat, m: VMove, env: Env)
    requires i < |p| && p[i] == MovOf(m) && m.src in env
    ensures Leads(p, args, i, env, i + 1, env[m.dst := env[m.src]])
  {
    OneStep(p, args, i, env, i + 1, env[m.dst := env[m.src]]);
  }

  lemma LabelStep(p: Program, args: seq<Word>, i: nat, id: nat, env: Env)
    requires i < |p| && p[i] == LabelAt(id)
    ensures Leads(p, args, i, env, i + 1, env)
  {
    OneStep(p, args, i, env, i + 1, env);
  }

  lemma JumpStep(p: Program, args: seq<Word>, i: nat, id: nat, t: nat, env: Env)
    requires i < |p| && p[i] == JumpToLabel(id) && LabelIndex(p, id) == Some(t)
    ensures Leads(p, args, i, env, t, env)
  {
    hide LabelIndex;
    OneStep(p, args, i, env, t, env);
  }

  lemma BranchStep(p: Program, args: seq<Word>, i: nat, cond: VReg, id: nat, t: nat, env: Env)
    requires i < |p| && p[i] == BranchToLabel(cond, id) && LabelIndex(p, id) == Some(t) && cond in env
    ensures Leads(p, args, i, env, if env[cond] == 0 then t else i + 1, env)
  {
    hide LabelIndex;
    OneStep(p, args, i, env, if env[cond] == 0 then t else i + 1, env);
  }

  /** The emitted text does what the regions mean. */
  lemma {:induction false} CodeRuns(p: Program, args: seq<Word>, a: nat, code: Code, c: Counters,
                                    env: Env, env': Env, fuel: nat)
    requires Emitted(p, a, code, c) && Run(code, args, env, fuel) == Some(env')
    ensures Leads(p, args, a, env, a + |Text(code, c)|, env')
    decreases code, 1
  {
    hide Emitted, After, Placed, PlainBlocks, LabelIndex, Succs, Execute, Leads, RepeatAt, ChooseAt;
    match code
    case Block(instrs) =>
      EmittedFacts(p, a, code, c);
      BlockPlain(p, a, code, c);
      BlockRuns(p, args, a, instrs, env, env');
    case Chain(first, second) =>
      ChainLayout(p, a, code, c);
      var m, e := a + |Text(first, c)|, Run(first, args, env, fuel).value;
      CodeRuns(p, args, a, first, c, env, e, fuel);
      CodeRuns(p, args, m, second, After(first, c), e, env', fuel);
      LeadsOn(p, args, a, env, m, e, a + |Text(code, c)|, env');
    case Choose(test, cond, yes, yesValue, no, noValue, dst) =>
      var a1, a3, a5 := ChooseLayout(p, a, code, c);
      ChooseRuns(p, args, a, a1, a3, a5, code, c, env, env', fuel);
    case Repeat(entry, body, cond, updates) =>
      var a1, a3, a5 := RepeatLayout(p, a, code, c);
      RepeatFacts(p, a, a1, a3, a5, code, c);
      var e := Run(entry, args, env, fuel).value;
      CodeRuns(p, args, a, entry, c.(loops := c.loops + 2), env, e, fuel);
      LoopRuns(p, args, a, a1, a3, a5, code, c, e, env', fuel, fuel);
      LeadsOn(p, args, a, env, a1, e, a + |Text(code, c)|, env');
  }

  lemma ChooseRuns(p: Program, args: seq<Word>, a: nat, a1: nat, a3: nat, a5: nat, code: Code, c: Counters,
                   env: Env, env': Env, fuel: nat)
    requires code.Choose? && ChooseAt(p, a, a1, a3, a5, code, c) && Run(code, args, env, fuel) == Some(env')
    ensures Leads(p, args, a, env, a + |Text(code, c)|, env')
    decreases code, 0
  {
    hide Emitted, After, Text, LabelIndex, Succs, Leads, ChooseAt;
    ChooseFacts(p, a, a1, a3, a5, code, c);
    var c0 := c.(selects := c.selects + 2);
    var c1 := After(code.test, c0);
    var b := a5 + 2;
    var e := Run(code.test, args, env, fuel).value;
    CodeRuns(p, args, a, code.test, c0, env, e, fuel);
    BranchStep(p, args, a1, code.cond, c.selects, a3 + 2, e);
    LabelStep(p, args, a5 + 1, c.selects + 1, env');
    if e[code.cond] != 0 {
      var y := Run(code.yes, args, e, fuel).value;
      CodeRuns(p, args, a1 + 1, code.yes, c1, e, y, fuel);
      MoveStep(p, args, a3, VMove(code.dst, code.yesValue), y);
      JumpStep(p, args, a3 + 1, c.selects + 1, a5 + 1, env');
      LeadsOn(p, args, a, env, a1, e, a1 + 1, e);
      LeadsOn(p, args, a, env, a1 + 1, e, a3, y);
      LeadsOn(p, args, a, env, a3, y, a3 + 1, env');
      LeadsOn(p, args, a, env, a3 + 1, env', a5 + 1, env');
    } else {
      var n := Run(code.no, args, e, fuel).value;
      LabelStep(p, args, a3 + 2, c.selects, e);
      CodeRuns(p, args, a3 + 3, code.no, After(code.yes, c1), e, n, fuel);
      MoveStep(p, args, a5, VMove(code.dst, code.noValue), n);
      LeadsOn(p, args, a, env, a1, e, a3 + 2, e);
      LeadsOn(p, args, a, env, a3 + 2, e, a3 + 3, e);
      LeadsOn(p, args, a, env, a3 + 3, e, a5, n);
      LeadsOn(p, args, a, env, a5, n, a5 + 1, env');
    }
    LeadsOn(p, args, a, env, a5 + 1, env', b, env');
  }

  lemma LoopRuns(p: Program, args: seq<Word>, a: nat, a1: nat, a3: nat, a5: nat, code: Code, c: Counters,
                 env: Env, env': Env, fuel: nat, turns: nat)
    requires code.Repeat? && RepeatAt(p, a, a1, a3, a5, code, c)
    requires Turns(code.body, code.cond, code.updates, args, env, fuel, turns) == Some(env')
    ensures Leads(p, args, a1, env, a + |Text(code, c)|, env')
    decreases code, 0, turns
  {
    hide Emitted, After, Text, LabelIndex, Succs, Leads, RepeatAt, Run, MoveInTurn;
    RepeatFacts(p, a, a1, a3, a5, code, c);
    RepeatInstrs(p, a, a1, a3, a5, code, c);
    var b := a5 + 2;
    var e := Run(code.body, args, env, fuel).value;
    LabelStep(p, args, a1, c.loops, env);
    CodeRuns(p, args, a1 + 1, code.body, After(code.entry, c.(loops := c.loops + 2)), env, e, fuel);
    BranchStep(p, args, a3, code.cond, c.loops + 1, a5 + 1, e);
    LeadsOn(p, args, a1, env, a1 + 1, env, a3, e);
    if e[code.cond] == 0 {
      LabelStep(p, args, a5 + 1, c.loops + 1, e);
      LeadsOn(p, args, a1, env, a3, e, a5 + 1, e);
      LeadsOn(p, args, a1, env, a5 + 1, e, b, e);
    } else {
      var e1 := MoveInTurn(code.updates, e).value;
      UpdatesRun(p, args, a3 + 1, code.updates, e, e1);
      JumpStep(p, args, a5, c.loops, a1, e1);
      LoopRuns(p, args, a, a1, a3, a5, code, c, e1, env', fuel, turns - 1);
      LeadsOn(p, args, a1, env, a3, e, a3 + 1, e);
      LeadsOn(p, args, a1, env, a3 + 1, e, a5, e1);
      LeadsOn(p, args, a1, env, a5, e1, a1, e1);
      LeadsOn(p, args, a1, env, a1, e1, b, env');
    }
  }

  // ---- Whole functions ----

  /** Parameters, then regions, then the return of `result`. */
  datatype Function = Function(params: seq<Instr>, code: Code, result: VReg)

  const START_LABELS: Counters := Counters(0, SELECT_LABEL_BASE)

  function ReturnOf(v: VReg): Instr {
    Instr(OpRet, [], [v], None, General)
  }

  function Whole(f: Function): Program {
    f.params + Text(f.code, START_LABELS) + [ReturnOf(f.result)]
  }

  predicate IsParam(mi: Instr) {
    mi.op.OpParam? && |mi.defs| == 1 && mi.uses == []
  }

  /** What the parameters and the code before any `known` write. */
  function Written(params: seq<Instr>): set<VReg> {
    set i | 0 <= i < |params| && params[i].defs != [] :: params[i].defs[0]
  }

  ghost predicate Admissible(f: Function) {
    && (forall i :: 0 <= i < |f.params| ==> IsParam(f.params[i]))
    && PlainBlocks(f.code) && After(f.code, START_LABELS).loops <= SELECT_LABEL_BASE
    && Checked(f.code, Written(f.params)).Some? && f.result in Checked(f.code, Written(f.params)).value
  }

  ghost predicate Shaped(t: Program) {
    forall i :: 0 <= i < |t| ==> WellShaped(t[i]) && !t[i].op.OpParam? && !t[i].op.OpRet?
  }

  lemma ShapedJoin(s: Program, t: Program)
    requires Shaped(s) && Shaped(t)
    ensures Shaped(s + t)
  {
    hide WellShaped;
  }

  lemma PlainShaped(instrs: seq<Instr>)
    requires forall i :: 0 <= i < |instrs| ==> IsPlain(instrs[i])
    ensures Shaped(instrs)
  {
  }

  lemma FixedShaped(cond: VReg, dst: VReg, y: VReg, id: nat, id': nat, updates: seq<VMove>)
    ensures Shaped([BranchToLabel(cond, id)]) && Shaped([LabelAt(id)])
    ensures Shaped([MovOf(VMove(dst, y)), JumpToLabel(id'), LabelAt(id)])
    ensures Shaped([MovOf(VMove(dst, y)), LabelAt(id)])
    ensures Shaped(Movs(updates)) && Shaped([JumpToLabel(id), LabelAt(id')])
  {
  }

  lemma {:induction false} TextShaped(code: Code, c: Counters)
    requires PlainBlocks(code)
    ensures Shaped(Text(code, c))
    decreases code
  {
    hide Shaped, WellShaped, IsPlain;
    match code
    case Block(instrs) =>
      PlainShaped(instrs);
    case Chain(first, second) =>
      TextShaped(first, c);
      TextShaped(second, After(first, c));
      ShapedJoin(Text(first, c), Text(second, After(first, c)));
    case Choose(test, cond, yes, yesValue, no, noValue, dst) =>
      var c0 := c.(selects := c.selects + 2);
      var c1 := After(test, c0);
      TextShaped(test, c0);
      TextShaped(yes, c1);
      TextShaped(no, After(yes, c1));
      var t0, t2, t4 := Text(test, c0), Text(yes, c1), Text(no, After(yes, c1));
      var t1 := [BranchToLabel(cond, c.selects)];
      var t3 := [MovOf(VMove(dst, yesValue)), JumpToLabel(c.selects + 1), LabelAt(c.selects)];
      FixedShaped(cond, dst, yesValue, c.selects, c.selects + 1, []);
      FixedShaped(cond, dst, noValue, c.selects + 1, 0, []);
      ShapedJoin(t0, t1);
      ShapedJoin(t0 + t1, t2);
      ShapedJoin(t0 + t1 + t2, t3);
      ShapedJoin(t0 + t1 + t2 + t3, t4);
      ShapedJoin(t0 + t1 + t2 + t3 + t4, [MovOf(VMove(dst, noValue)), LabelAt(c.selects + 1)]);
    case Repeat(entry, body, cond, updates) =>
      var c0 := c.(loops := c.loops + 2);
      var c1 := After(entry, c0);
      TextShaped(entry, c0);
      TextShaped(body, c1);
      var t0, t2, t4 := Text(entry, c0), Text(body, c1), Movs(updates);
      var t1, t3 := [LabelAt(c.loops)], [BranchToLabel(cond, c.loops + 1)];
      FixedShaped(cond, 0, 0, c.loops, c.loops + 1, updates);
      FixedShaped(cond, 0, 0, c.loops + 1, 0, updates);
      ShapedJoin(t0, t1);
      ShapedJoin(t0 + t1, t2);
      ShapedJoin(t0 + t1 + t2, t3);
      ShapedJoin(t0 + t1 + t2 + t3, t4);
      ShapedJoin(t0 + t1 + t2 + t3 + t4, [JumpToLabel(c.loops), LabelAt(c.loops + 1)]);
  }

  lemma UniqueBetween(s: Program, t: Program, u: Program)
    requires UniqueLabels(t)
    requires forall i :: 0 <= i < |s| ==> !s[i].op.OpLabel?
    requires forall i :: 0 <= i < |u| ==> !u[i].op.OpLabel?
    ensures UniqueLabels(s + t + u)
  {
    var r := s + t + u;
    forall i, j | 0 <= i < j < |r| && r[i].op.OpLabel? && r[j].op.OpLabel? ensures r[i].imm != r[j].imm {
      assert |s| <= i < |s| + |t| && |s| <= j < |s| + |t|;
      assert r[i] == t[i - |s|] && r[j] == t[j - |s|];
    }
  }

  /** The three parts of a function's text. */
  lemma WholeLayout(f: Function)
    requires Admissible(f)
    ensures var p, k := Whole(f), |f.params|;
      var last := k + |Text(f.code, START_LABELS)|;
      && |p| == last + 1 && p[last] == ReturnOf(f.result)
      && Placed(p, 0, f.params) && Emitted(p, k, f.code, START_LABELS)
  {
    hide Text, Checked, After, Emitted, PlainBlocks, UniqueLabels;
    TextUnique(f.code, START_LABELS);
    UniqueBetween(f.params, Text(f.code, START_LABELS), [ReturnOf(f.result)]);
    var p := Whole(f);
    assert Placed(p, 0, p);
    PlacedParts(p, 0, f.params + Text(f.code, START_LABELS), [ReturnOf(f.result)]);
    PlacedParts(p, 0, f.params, Text(f.code, START_LABELS));
    EmittedPart(p, |f.params|, f.code, START_LABELS);
  }

  lemma WholeShape(f: Function)
    requires Admissible(f)
    ensures ParamsFirst(Whole(f), |f.params|)
    ensures forall i :: 0 <= i < |Whole(f)| ==> WellShaped(Whole(f)[i])
  {
    TextShaped(f.code, START_LABELS);
    hide Text, Checked, After, PlainBlocks;
    var p, t := Whole(f), Text(f.code, START_LABELS);
    forall i | 0 <= i < |p| ensures WellShaped(p[i]) && (p[i].op.OpParam? <==> i < |f.params|) {
      if i < |f.params| {
        assert p[i] == f.params[i];
      } else if i < |f.params| + |t| {
        assert p[i] == t[i - |f.params|];
      }
    }
  }

  lemma {:induction false} ParamsFlow(p: Program, n: nat)
    requires n <= |p| && forall i :: 0 <= i < n ==> IsParam(p[i])
    ensures Flows(p, 0, n) && AllReachable(p, 0, n)
  {
    hide SpanAt;
    if n > 0 {
      ParamsFlow(p, n - 1);
      OneFlows(p, n - 1);
      FlowsJoin(p, 0, n - 1, n);
    }
  }

  lemma WholeFlows(f: Function)
    requires Admissible(f)
    ensures var p := Whole(f); |p| > 0 && Flows(p, 0, |p| - 1) && AllReachable(p, 0, |p| - 1)
    ensures Succs(Whole(f), |Whole(f)| - 1) == []
  {
    hide *;
    var p, k := Whole(f), |f.params|;
    WholeLayout(f);
    WholeEnds(f);
    ParamsFlow(p, k);
    CodeFlows(p, k, f.code, START_LABELS);
    FlowsJoin(p, 0, k, |p| - 1);
    EndReachable(p, 0, k);
    ReachJoin(p, 0, k, |p| - 1);
  }

  lemma WholeEnds(f: Function)
    requires Admissible(f)
    ensures |Whole(f)| == |f.params| + |Text(f.code, START_LABELS)| + 1
    ensures forall i :: 0 <= i < |f.params| ==> IsParam(Whole(f)[i])
    ensures Succs(Whole(f), |Whole(f)| - 1) == []
  {
    hide Text;
    forall i | 0 <= i < |f.params| ensures IsParam(Whole(f)[i]) {
      assert Whole(f)[i] == f.params[i];
    }
  }

  lemma FlowsStructured(p: Program)
    requires |p| > 0 && Flows(p, 0, |p| - 1) && AllReachable(p, 0, |p| - 1) && Succs(p, |p| - 1) == []
    ensures Structured(p)
  {
    hide Succs, SpanAt, ForwardReachable;
  }

  lemma {:induction false} PassParams(p: Program, params: seq<Instr>, i: nat, v: VReg, n: nat) returns (m: nat)
    requires Placed(p, 0, params) && i <= |params| && (forall j :: 0 <= j < |params| ==> IsParam(params[j]))
    requires UsedFrom(p, v, i, n)
    ensures m <= n && UsedFrom(p, v, |params|, m)
    ensures forall j :: i <= j < |params| ==> v !in params[j].defs
    decreases |params| - i
  {
    hide UsedFrom;
    m := n;
    if i < |params| {
      assert p[0 + i] == params[i];
      PassOne(p, i, i + 1, v, n);
      m := PassParams(p, params, i + 1, v, n - 1);
    }
  }

  lemma NotReadAtEntry(f: Function, v: VReg, n: nat)
    requires Admissible(f)
    ensures !UsedFrom(Whole(f), v, 0, n)
  {
    hide UsedFrom, Emitted, Placed, Text, Checked, Whole, After, PlainBlocks;
    WholeLayout(f);
    var p := Whole(f);
    if UsedFrom(p, v, 0, n) {
      var m := PassParams(p, f.params, 0, v, n);
      m := PassCode(p, |f.params|, f.code, START_LABELS, Written(f.params), v, m);
      NothingAfterReturn(p, |p| - 1, f.result, v, m);
    }
  }

  lemma WholeDefined(f: Function)
    requires Admissible(f)
    ensures DefinedOnAllPaths(Whole(f))
  {
    hide UsedFrom, Admissible, Whole;
    forall v: VReg, n: nat ensures !UsedFrom(Whole(f), v, 0, n) {
      NotReadAtEntry(f, v, n);
    }
  }

  lemma NothingAfterReturn(p: Program, i: nat, result: VReg, v: VReg, n: nat)
    requires i < |p| && p[i] == ReturnOf(result) && v != result
    ensures !UsedFrom(p, v, i, n)
  {
    assert Succs(p, i) == [];
  }

  /** Emitted functions meet the demands of the byte-level theorem, whatever their nesting. */
  lemma FunctionExecutable(f: Function)
    requires Admissible(f)
    ensures Executable(Whole(f), |f.params|)
  {
    hide Admissible, Structured, DefinedOnAllPaths, ParamsFirst, WellShaped, Flows, AllReachable, Succs, Whole;
    WholeFlows(f);
    FlowsStructured(Whole(f));
    WholeDefined(f);
    WholeShape(f);
  }

  lemma {:induction false} ParamsRun(p: Program, args: seq<Word>, a: nat, params: seq<Instr>, env: Env, env': Env)
    requires Placed(p, a, params) && (forall j :: 0 <= j < |params| ==> IsParam(params[j]))
    requires Execute(params, args, env) == Some(env')
    ensures Leads(p, args, a, env, a + |params|, env')
    decreases |params|
  {
    hide Leads;
    if params == [] {
      Nowhere(p, args, a, env);
    } else {
      assert p[a + 0] == params[0];
      var e1 := env[params[0].defs[0] := ValueOf(params[0], args, env).value];
      OneStep(p, args, a, env, a + 1, e1);
      PlacedParts(p, a, [params[0]], params[1..]) by {
        assert [params[0]] + params[1..] == params;
      }
      ParamsRun(p, args, a + 1, params[1..], e1, env');
      LeadsOn(p, args, a, env, a + 1, e1, a + |params|, env');
    }
  }

  /** What a function returns: its result register after the parameters and the code. */
  function Meaning(f: Function, args: seq<Word>, fuel: nat): Option<Word> {
    match Execute(f.params, args, map[])
    case None => None
    case Some(e) =>
      match Run(f.code, args, e, fuel)
      case None => None
      case Some(e') => if f.result in e' then Some(e'[f.result]) else None
  }

  lemma WholeRuns(f: Function, args: seq<Word>, fuel: nat) returns (n: nat)
    requires Admissible(f) && Meaning(f, args, fuel).Some?
    ensures VRun(Whole(f), args, VState(0, map[]), n) == Returned(Meaning(f, args, fuel).value)
  {
    hide VStep, VRun, Emitted, Placed, Text, Checked, Run, Execute, After, PlainBlocks;
    WholeLayout(f);
    var p, k := Whole(f), |f.params|;
    var e := Execute(f.params, args, map[]).value;
    var e' := Run(f.code, args, e, fuel).value;
    ParamsRun(p, args, 0, f.params, map[], e);
    CodeRuns(p, args, k, f.code, START_LABELS, e, e', fuel);
    LeadsOn(p, args, 0, map[], k, e, |p| - 1, e');
    var m: nat :| VRun(p, args, VState(0, map[]), m) == Next(VState(|p| - 1, e'));
    ReturnStep(p, args, f.result, e');
    VRunAppend(p, args, VState(0, map[]), m, VState(|p| - 1, e'), 1);
    n := m + 1;
  }

  lemma ReturnStep(p: Program, args: seq<Word>, result: VReg, env: Env)
    requires |p| > 0 && p[|p| - 1] == ReturnOf(result) && result in env
    ensures VRun(p, args, VState(|p| - 1, env), 1) == Returned(env[result])
  {
  }

  /** Functions with any nest of loops and branches, at the level of bytes: under a spill-free allocation
      that overwrites no parameter the function reads, an encoded function that means a value returns it. */
  lemma StructuredFunctionReturns(f: Function, al: Allocation, args: seq<Word>, fuel: nat,
                                  m: Machine, base: seq<Word>, back: Word) returns (m': Machine)
    requires Admissible(f) && Meaning(f, args, fuel).Some?
    requires KeepsApart(Whole(f), al) && Assemble(Whole(f), al).Ok? && ParametersArrive(Whole(f), al, |f.params|)
    requires Entered(m, args, base, back)
    ensures Reaches(Assemble(Whole(f), al).value.bytes, m, m')
    ensures ReturnedTo(m', Meaning(f, args, fuel).value, m.core, base, back)
  {
    hide *;
    FunctionExecutable(f);
    var n := WholeRuns(f, args, fuel);
    m' := EncodedFunctionReturns(Whole(f), al, args, |f.params|, n, Meaning(f, args, fuel).value, m, base, back);
  }
}
