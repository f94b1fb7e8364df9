/** What an emitted loop region computes: its back-edge moves run one after the other, and its body runs once
    more than the loop turns. */
module LoopRegions {
  import opened Wrappers
  import opened Words
  import opened MachineIR
  import opened StructuredCode

  // ---- Moves in turn and moves together ----

  /** All moves at once: every source is read in `from`. */
  function MoveTogether(moves: seq<VMove>, from: Env, env: Env): Option<Env> {
    if moves == [] then Some(env)
    else if moves[0].src !in from then None
    else MoveTogether(moves[1..], from, env[moves[0].dst := from[moves[0].src]])
  }

  ghost predicate DistinctTargets(moves: seq<VMove>) {
    forall i, j :: 0 <= i < j < |moves| ==> moves[i].dst != moves[j].dst
  }

  ghost predicate SourcesIn(moves: seq<VMove>, env: Env) {
    forall j :: 0 <= j < |moves| ==> moves[j].src in env
  }

  /** No move reads what an earlier one has changed. */
  ghost predicate OrderSafe(moves: seq<VMove>) {
    forall i, j :: 0 <= i < j < |moves| && moves[j].src == moves[i].dst ==> moves[i].src == moves[i].dst
  }

  ghost predicate AgreeOnSources(moves: seq<VMove>, env: Env, from: Env) {
    forall j :: 0 <= j < |moves| ==>
      moves[j].src in env && moves[j].src in from && env[moves[j].src] == from[moves[j].src]
  }

  lemma {:induction false} InTurnIsTogether(moves: seq<VMove>, from: Env, env: Env)
    requires OrderSafe(moves) && AgreeOnSources(moves, env, from)
    ensures MoveInTurn(moves, env) == MoveTogether(moves, from, env)
  {
    if moves != [] {
      var rest := moves[1..];
      var env' := env[moves[0].dst := env[moves[0].src]];
      forall j | 0 <= j < |rest| ensures rest[j] == moves[j + 1] {
      }
      InTurnIsTogether(rest, from, env');
    }
  }

  /** The first move spoils a later one: registers that hold one except its target end up holding one. */
  lemma {:induction false} OnesStay(moves: seq<VMove>, env: Env)
    requires SourcesIn(moves, env) && forall r :: r in env ==> env[r] == 1
    ensures MoveInTurn(moves, env).Some?
    ensures forall r :: r in MoveInTurn(moves, env).value ==> MoveInTurn(moves, env).value[r] == 1
  {
    if moves != [] {
      var env' := env[moves[0].dst := env[moves[0].src]];
      forall j | 0 <= j < |moves[1..]| ensures moves[1..][j].src in env' {
        assert moves[1..][j] == moves[j + 1];
      }
      OnesStay(moves[1..], env');
    }
  }

  lemma {:induction false} TogetherAt(moves: seq<VMove>, from: Env, env: Env, k: nat)
    requires DistinctTargets(moves) && SourcesIn(moves, from) && k < |moves|
    ensures MoveTogether(moves, from, env).Some?
    ensures moves[k].dst in MoveTogether(moves, from, env).value
    ensures MoveTogether(moves, from, env).value[moves[k].dst] == from[moves[k].src]
  {
    var env' := env[moves[0].dst := from[moves[0].src]];
    forall j | 0 <= j < |moves[1..]| ensures moves[1..][j] == moves[j + 1] {
    }
    if k > 0 {
      TogetherAt(moves[1..], from, env', k - 1);
    } else {
      TogetherElsewhere(moves[1..], from, env', moves[0].dst);
    }
  }

  lemma {:induction false} TogetherElsewhere(moves: seq<VMove>, from: Env, env: Env, r: VReg)
    requires SourcesIn(moves, from) && forall j :: 0 <= j < |moves| ==> moves[j].dst != r
    ensures MoveTogether(moves, from, env).Some?
    ensures r in env <==> r in MoveTogether(moves, from, env).value
    ensures r in env ==> MoveTogether(moves, from, env).value[r] == env[r]
  {
    if moves != [] {
      forall j | 0 <= j < |moves[1..]| ensures moves[1..][j] == moves[j + 1] {
      }
      TogetherElsewhere(moves[1..], from, env[moves[0].dst := from[moves[0].src]], r);
    }
  }

  /** Running the moves in turn has the effect of running them together in every environment ... */
  ghost predicate Interchangeable(moves: seq<VMove>) {
    forall env: Env :: SourcesIn(moves, env) ==> MoveInTurn(moves, env) == MoveTogether(moves, env, env)
  }

  function AllOnes(regs: set<VReg>, zero: VReg): Env {
    map r | r in regs + {zero} :: if r == zero then 0 else 1
  }

  function Registers(moves: seq<VMove>): set<VReg> {
    (set j | 0 <= j < |moves| :: moves[j].src) + (set j | 0 <= j < |moves| :: moves[j].dst)
  }

  /** An environment, defined on `regs` too, in which the order of the moves shows at register `r`. */
  ghost predicate Shows(moves: seq<VMove>, regs: set<VReg>, env: Env, r: VReg) {
    && SourcesIn(moves, env) && regs <= env.Keys
    && MoveInTurn(moves, env).Some? && MoveTogether(moves, env, env).Some?
    && r in MoveInTurn(moves, env).value && r in MoveTogether(moves, env, env).value
    && MoveInTurn(moves, env).value[r] != MoveTogether(moves, env, env).value[r]
  }

  lemma SpoiledByFirst(moves: seq<VMove>, regs: set<VReg>, j: nat) returns (env: Env, r: VReg)
    requires DistinctTargets(moves) && 0 < j < |moves|
    requires moves[j].src == moves[0].dst != moves[0].src
    ensures Shows(moves, regs, env, r)
  {
    env, r := AllOnes(Registers(moves) + regs, moves[0].dst), moves[j].dst;
    var env' := env[moves[0].dst := env[moves[0].src]];
    assert forall k :: 0 <= k < |moves[1..]| ==> moves[1..][k] == moves[k + 1];
    OnesStay(moves[1..], env');
    TogetherAt(moves, env, env, j);
    InTurnWrites(moves, env, j);
  }

  lemma {:induction false} InTurnWrites(moves: seq<VMove>, env: Env, k: nat)
    requires SourcesIn(moves, env) && k < |moves|
    ensures MoveInTurn(moves, env).Some? && moves[k].dst in MoveInTurn(moves, env).value
    ensures env.Keys <= MoveInTurn(moves, env).value.Keys
  {
    var env' := env[moves[0].dst := env[moves[0].src]];
    assert forall j :: 0 <= j < |moves[1..]| ==> moves[1..][j] == moves[j + 1];
    if k > 0 {
      InTurnWrites(moves[1..], env', k - 1);
    } else if |moves| > 1 {
      InTurnWrites(moves[1..], env', 0);
    }
  }

  /** A register the moves neither read nor write makes no difference to them. */
  lemma {:induction false} Bystander(moves: seq<VMove>, from: Env, env: Env, x: VReg, w: Word)
    requires SourcesIn(moves, env) && SourcesIn(moves, from)
    requires forall j :: 0 <= j < |moves| ==> moves[j].src != x && moves[j].dst != x
    ensures MoveInTurn(moves, env).Some? && MoveTogether(moves, from, env).Some?
    ensures MoveInTurn(moves, env[x := w]) == Some(MoveInTurn(moves, env).value[x := w])
    ensures MoveTogether(moves, from, env[x := w]) == Some(MoveTogether(moves, from, env).value[x := w])
  {
    if moves != [] {
      var d := moves[0].dst;
      forall j | 0 <= j < |moves[1..]| ensures moves[1..][j] == moves[j + 1] {
      }
      assert env[x := w][d := env[moves[0].src]] == env[d := env[moves[0].src]][x := w];
      assert env[x := w][d := from[moves[0].src]] == env[d := from[moves[0].src]][x := w];
      Bystander(moves[1..], from, env[d := env[moves[0].src]], x, w);
      Bystander(moves[1..], from, env[d := from[moves[0].src]], x, w);
    }
  }

  lemma {:induction false} OrderShows(moves: seq<VMove>, regs: set<VReg>) returns (env: Env, r: VReg)
    requires DistinctTargets(moves) && !OrderSafe(moves)
    ensures Shows(moves, regs, env, r)
  {
    var i, j :| 0 <= i < j < |moves| && moves[j].src == moves[i].dst != moves[i].src;
    if k :| 0 < k < |moves| && moves[k].src == moves[0].dst != moves[0].src {
      env, r := SpoiledByFirst(moves, regs, k);
    } else {
      var rest, d, s := moves[1..], moves[0].dst, moves[0].src;
      assert forall k :: 0 <= k < |rest| ==> rest[k] == moves[k + 1];
      assert rest[j - 1].src == rest[i - 1].dst != rest[i - 1].src;
      env, r := OrderShows(rest, regs + {s, d});
      if s == d {
        assert env[d := env[s]] == env;
      } else {
        Bystander(rest, env, env, d, env[s]);
        Bystander(rest, env, env, d, env[d]);
        assert env[d := env[d]] == env;
      }
    }
  }

  /** Sequential back-edge moves are the parallel update exactly when no move reads what an earlier one has
      changed: a phi that becomes another phi of the same loop is safe only before that phi is updated. */
  lemma SequentialIsParallel(moves: seq<VMove>)
    requires DistinctTargets(moves)
    ensures Interchangeable(moves) <==> OrderSafe(moves)
  {
    if OrderSafe(moves) {
      forall env: Env | SourcesIn(moves, env) ensures MoveInTurn(moves, env) == MoveTogether(moves, env, env) {
        InTurnIsTogether(moves, env, env);
      }
    } else {
      var env, r := OrderShows(moves, {});
    }
  }

  // ---- Code depends on nothing but what it is known to read ----

  ghost predicate Agree(known: set<VReg>, a: Env, b: Env) {
    forall r :: r in known ==> r in a && r in b && a[r] == b[r]
  }

  /** Both runs fail, or both end in environments that agree on `known`. */
  ghost predicate SameOutcome(known: set<VReg>, a: Option<Env>, b: Option<Env>) {
    a.Some? == b.Some? && (a.Some? ==> Agree(known, a.value, b.value))
  }

  lemma {:induction false} BlockDepends(instrs: seq<Instr>, args: seq<Word>, known: set<VReg>, a: Env, b: Env)
    requires CheckBlock(instrs, known).Some? && Agree(known, a, b)
    ensures SameOutcome(CheckBlock(instrs, known).value, Execute(instrs, args, a), Execute(instrs, args, b))
  {
    hide EvalBin, EvalUn;
    if instrs != [] {
      var v := ValueOf(instrs[0], args, a);
      assert v == ValueOf(instrs[0], args, b);
      if v.Some? {
        var d := instrs[0].defs[0];
        BlockDepends(instrs[1..], args, known + {d}, a[d := v.value], b[d := v.value]);
      }
    }
  }

  lemma {:induction false} MovesDepend(moves: seq<VMove>, known: set<VReg>, a: Env, b: Env)
    requires Agree(known, a, b) && forall j :: 0 <= j < |moves| ==> moves[j].src in known && moves[j].dst in known
    ensures SameOutcome(known, MoveInTurn(moves, a), MoveInTurn(moves, b))
  {
    if moves != [] {
      assert forall j :: 0 <= j < |moves[1..]| ==> moves[1..][j] == moves[j + 1];
      MovesDepend(moves[1..], known, a[moves[0].dst := a[moves[0].src]], b[moves[0].dst := b[moves[0].src]]);
    }
  }

  /** Checked code gives the same result in environments that agree on what it may read. */
  lemma {:induction false} CodeDepends(code: Code, args: seq<Word>, known: set<VReg>, a: Env, b: Env, fuel: nat)
    requires Checked(code, known).Some? && Agree(known, a, b)
    ensures SameOutcome(Checked(code, known).value, Run(code, args, a, fuel), Run(code, args, b, fuel))
    decreases code, 1
  {
    match code
    case Block(instrs) =>
      BlockDepends(instrs, args, known, a, b);
    case Chain(first, second) =>
      CodeDepends(first, args, known, a, b, fuel);
      if Run(first, args, a, fuel).Some? {
        CodeDepends(second, args, Checked(first, known).value, Run(first, args, a, fuel).value,
          Run(first, args, b, fuel).value, fuel);
      }
    case Choose(test, cond, yes, yesValue, no, noValue, dst) =>
      ChooseDepends(code, args, known, a, b, fuel);
    case Repeat(entry, body, cond, updates) =>
      hide Agree;
      CodeDepends(entry, args, known, a, b, fuel);
      CheckedRepeat(code, known);
      if Run(entry, args, a, fuel).Some? {
        LoopDepends(code, args, known, Run(entry, args, a, fuel).value, Run(entry, args, b, fuel).value, fuel, fuel);
      }
  }

  lemma ChooseDepends(code: Code, args: seq<Word>, known: set<VReg>, a: Env, b: Env, fuel: nat)
    requires code.Choose? && Checked(code, known).Some? && Agree(known, a, b)
    ensures SameOutcome(Checked(code, known).value, Run(code, args, a, fuel), Run(code, args, b, fuel))
    decreases code, 0
  {
    CheckedChoose(code, known);
    CodeDepends(code.test, args, known, a, b, fuel);
    var ta, tb := Run(code.test, args, a, fuel), Run(code.test, args, b, fuel);
    if ta.Some? {
      var k := Checked(code.test, known).value;
      var arm := if ta.value[code.cond] != 0 then code.yes else code.no;
      hide Checked;
      CodeDepends(arm, args, k, ta.value, tb.value, fuel);
    }
  }

  lemma LoopDepends(code: Code, args: seq<Word>, known: set<VReg>, a: Env, b: Env, fuel: nat, turns: nat)
    requires code.Repeat? && Checked(code, known).Some? && Checked(code.entry, known).Some?
    requires Agree(Checked(code.entry, known).value, a, b)
    ensures SameOutcome(Checked(code, known).value,
      Turns(code.body, code.cond, code.updates, args, a, fuel, turns),
      Turns(code.body, code.cond, code.updates, args, b, fuel, turns))
    decreases code, 0, turns
  {
    CheckedRepeat(code, known);
    var k := Checked(code.entry, known).value;
    var after := Checked(code.body, k).value;
    hide Checked, Run;
    if turns > 0 {
      CodeDepends(code.body, args, k, a, b, fuel);
      var ea, eb := Run(code.body, args, a, fuel), Run(code.body, args, b, fuel);
      if ea.Some? && ea.value[code.cond] != 0 {
        MovesDepend(code.updates, after, ea.value, eb.value);
        if MoveInTurn(code.updates, ea.value).Some? {
          LoopDepends(code, args, known, MoveInTurn(code.updates, ea.value).value,
            MoveInTurn(code.updates, eb.value).value, fuel, turns - 1);
        }
      }
    }
  }

  // ---- What code leaves alone ----

  ghost predicate NotWritten(code: Code, r: VReg) {
    match code
    case Block(instrs) => forall i :: 0 <= i < |instrs| ==> r !in instrs[i].defs
    case Chain(first, second) => NotWritten(first, r) && NotWritten(second, r)
    case Choose(test, _, yes, _, no, _, dst) => NotWritten(test, r) && NotWritten(yes, r) && NotWritten(no, r)
      && dst != r
    case Repeat(entry, body, _, updates) =>
      NotWritten(entry, r) && NotWritten(body, r) && forall j :: 0 <= j < |updates| ==> updates[j].dst != r
  }

  ghost predicate Unchanged(r: VReg, env: Env, after: Option<Env>) {
    after.Some? ==> (r in env <==> r in after.value) && (r in env ==> after.value[r] == env[r])
  }

  lemma {:induction false} BlockFrame(instrs: seq<Instr>, args: seq<Word>, env: Env, r: VReg)
    requires forall i :: 0 <= i < |instrs| ==> r !in instrs[i].defs
    ensures Unchanged(r, env, Execute(instrs, args, env))
  {
    hide ValueOf;
    if instrs != [] {
      var v := ValueOf(instrs[0], args, env);
      if v.Some? && |instrs[0].defs| == 1 {
        assert instrs[0].defs[0] in instrs[0].defs;
        assert forall j :: 0 <= j < |instrs[1..]| ==> instrs[1..][j] == instrs[j + 1];
        BlockFrame(instrs[1..], args, env[instrs[0].defs[0] := v.value], r);
      }
    }
  }

  lemma {:induction false} MovesFrame(moves: seq<VMove>, env: Env, r: VReg)
    requires forall j :: 0 <= j < |moves| ==> moves[j].dst != r
    ensures Unchanged(r, env, MoveInTurn(moves, env))
  {
    if moves != [] && moves[0].src in env {
      assert forall j :: 0 <= j < |moves[1..]| ==> moves[1..][j] == moves[j + 1];
      MovesFrame(moves[1..], env[moves[0].dst := env[moves[0].src]], r);
    }
  }

  lemma {:induction false} CodeFrame(code: Code, args: seq<Word>, env: Env, fuel: nat, r: VReg)
    requires NotWritten(code, r)
    ensures Unchanged(r, env, Run(code, args, env, fuel))
    decreases code, 1
  {
    match code
    case Block(instrs) =>
      BlockFrame(instrs, args, env, r);
    case Chain(first, second) =>
      CodeFrame(first, args, env, fuel, r);
      if Run(first, args, env, fuel).Some? {
        CodeFrame(second, args, Run(first, args, env, fuel).value, fuel, r);
      }
    case Choose(test, cond, yes, yesValue, no, noValue, dst) =>
      CodeFrame(test, args, env, fuel, r);
      if Run(test, args, env, fuel).Some? {
        CodeFrame(yes, args, Run(test, args, env, fuel).value, fuel, r);
        CodeFrame(no, args, Run(test, args, env, fuel).value, fuel, r);
      }
    case Repeat(entry, body, cond, updates) =>
      CodeFrame(entry, args, env, fuel, r);
      if Run(entry, args, env, fuel).Some? {
        LoopFrame(body, cond, updates, args, Run(entry, args, env, fuel).value, fuel, fuel, r);
      }
  }

  lemma LoopFrame(body: Code, cond: VReg, updates: seq<VMove>, args: seq<Word>, env: Env, fuel: nat, turns: nat,
        r: VReg)
    requires NotWritten(body, r) && forall j :: 0 <= j < |updates| ==> updates[j].dst != r
    ensures Unchanged(r, env, Turns(body, cond, updates, args, env, fuel, turns))
    decreases body, 2, turns
  {
    hide NotWritten, Run;
    if turns > 0 {
      CodeFrame(body, args, env, fuel, r);
      var e := Run(body, args, env, fuel);
      if e.Some? {
        MovesFrame(updates, e.value, r);
        if MoveInTurn(updates, e.value).Some? {
          LoopFrame(body, cond, updates, args, MoveInTurn(updates, e.value).value, fuel, turns - 1, r);
        }
      }
    }
  }

  // ---- A loop region against the loop of the source ----

  /** The loop as the source means it: test first, then the body, then all phis change together. */
  function CheckFirst(test: Code, cond: VReg, body: Code, updates: seq<VMove>, args: seq<Word>, env: Env,
                      fuel: nat, turns: nat): Option<Env>
    decreases turns
  {
    if turns == 0 then None
    else match Run(test, args, env, fuel)
      case None => None
      case Some(t) =>
        if cond !in t then None
        else if t[cond] == 0 then Some(env)
        else match Run(body, args, env, fuel)
          case None => None
          case Some(e) =>
            match MoveTogether(updates, e, env)
            case None => None
            case Some(env') => CheckFirst(test, cond, body, updates, args, env', fuel, turns - 1)
  }

  /** A loop whose body and test read only `known` and what they compute, and leave `known` alone; its phis
      are known, and no update reads what an earlier one has changed. */
  ghost predicate PureLoop(test: Code, cond: VReg, body: Code, updates: seq<VMove>, known: set<VReg>) {
    && Checked(body, known).Some? && Checked(test, known).Some? && cond in Checked(test, known).value
    && (forall r :: r in known ==> NotWritten(body, r) && NotWritten(test, r))
    && (forall j :: 0 <= j < |updates| ==>
          updates[j].dst in known && updates[j].src in Checked(body, known).value && NotWritten(test, updates[j].src))
    && DistinctTargets(updates) && OrderSafe(updates)
  }

  /** One turn of the region and one of the source's loop, from environments that agree on `known`. */
  lemma SameBody(test: Code, cond: VReg, body: Code, updates: seq<VMove>, known: set<VReg>, args: seq<Word>,
                 a: Env, b: Env, fuel: nat)
    requires PureLoop(test, cond, body, updates, known) && Agree(known, a, b)
    ensures Run(Chain(body, test), args, a, fuel).Some?
      <==> Run(body, args, b, fuel).Some? && Run(test, args, b, fuel).Some?
    ensures Run(Chain(body, test), args, a, fuel).Some? ==>
      var e := Run(Chain(body, test), args, a, fuel).value;
      var eb := Run(body, args, b, fuel).value;
      var et := Run(test, args, b, fuel).value;
      && cond in e && cond in et && e[cond] == et[cond] && Agree(known, e, b)
      && forall j :: 0 <= j < |updates| ==>
           updates[j].src in e && updates[j].src in eb && e[updates[j].src] == eb[updates[j].src]
  {
    CodeDepends(body, args, known, a, b, fuel);
    var mid := Run(body, args, a, fuel);
    if mid.Some? {
      forall r | r in known ensures r in mid.value && mid.value[r] == b[r] {
        CodeFrame(body, args, a, fuel, r);
      }
      CodeDepends(test, args, known, mid.value, b, fuel);
      var e := Run(test, args, mid.value, fuel);
      if e.Some? {
        forall r | r in known ensures r in e.value && e.value[r] == b[r] {
          CodeFrame(test, args, mid.value, fuel, r);
        }
        forall j | 0 <= j < |updates|
          ensures updates[j].src in e.value && e.value[updates[j].src] == mid.value[updates[j].src]
        {
          CodeFrame(test, args, mid.value, fuel, updates[j].src);
        }
      }
    }
  }

  lemma {:induction false} TogetherValue(moves: seq<VMove>, from: Env, env: Env, r: VReg)
    requires DistinctTargets(moves) && SourcesIn(moves, from)
    ensures MoveTogether(moves, from, env).Some?
    ensures (forall j :: 0 <= j < |moves| ==> moves[j].dst != r) ==> Unchanged(r, env, MoveTogether(moves, from, env))
    ensures forall j :: 0 <= j < |moves| && moves[j].dst == r ==>
      r in MoveTogether(moves, from, env).value && MoveTogether(moves, from, env).value[r] == from[moves[j].src]
  {
    if j :| 0 <= j < |moves| && moves[j].dst == r {
      TogetherAt(moves, from, env, j);
    } else {
      TogetherElsewhere(moves, from, env, r);
    }
  }

  /** The sequential updates of the region and the parallel ones of the source keep the agreement. */
  lemma SameUpdates(updates: seq<VMove>, known: set<VReg>, e: Env, eb: Env, b: Env)
    requires DistinctTargets(updates) && OrderSafe(updates) && Agree(known, e, b)
    requires forall j :: 0 <= j < |updates| ==>
      updates[j].src in e && updates[j].src in eb && e[updates[j].src] == eb[updates[j].src]
    ensures MoveInTurn(updates, e).Some? && MoveTogether(updates, eb, b).Some?
    ensures Agree(known, MoveInTurn(updates, e).value, MoveTogether(updates, eb, b).value)
  {
    InTurnIsTogether(updates, e, e);
    TogetherValue(updates, eb, b, 0);
    TogetherValue(updates, e, e, 0);
    var x, y := MoveTogether(updates, e, e).value, MoveTogether(updates, eb, b).value;
    forall r | r in known ensures r in x && r in y && x[r] == y[r] {
      TogetherValue(updates, e, e, r);
      TogetherValue(updates, eb, b, r);
    }
  }

  /** The region ends exactly when the source's loop does and the body, run once more where the loop ends,
      does not trap; then its phis, and everything else the loop may read, are what the source's loop makes
      them. */
  lemma {:induction false} LateTestIsHarmless(test: Code, cond: VReg, body: Code, updates: seq<VMove>, known: set<VReg>,
                                              args: seq<Word>, a: Env, b: Env, fuel: nat, turns: nat)
    requires PureLoop(test, cond, body, updates, known) && Agree(known, a, b)
    ensures var region := Turns(Chain(body, test), cond, updates, args, a, fuel, turns);
      var source := CheckFirst(test, cond, body, updates, args, b, fuel, turns);
      && (region.Some? <==> source.Some? && Run(body, args, source.value, fuel).Some?)
      && (region.Some? ==> Agree(known, region.value, source.value))
    decreases turns
  {
    hide Run, PureLoop, Agree, MoveInTurn, MoveTogether;
    if turns > 0 {
      SameBody(test, cond, body, updates, known, args, a, b, fuel);
      TestKnown(test, cond, body, updates, known, args, a, b, fuel);
      var e := Run(Chain(body, test), args, a, fuel);
      if e.Some? && e.value[cond] != 0 {
        var eb := Run(body, args, b, fuel).value;
        PureUpdates(test, cond, body, updates, known);
        SameUpdates(updates, known, e.value, eb, b);
        LateTestIsHarmless(test, cond, body, updates, known, args, MoveInTurn(updates, e.value).value,
          MoveTogether(updates, eb, b).value, fuel, turns - 1);
      }
    }
  }

  lemma PureUpdates(test: Code, cond: VReg, body: Code, updates: seq<VMove>, known: set<VReg>)
    requires PureLoop(test, cond, body, updates, known)
    ensures DistinctTargets(updates) && OrderSafe(updates)
  {
  }

  lemma TestKnown(test: Code, cond: VReg, body: Code, updates: seq<VMove>, known: set<VReg>, args: seq<Word>,
                  a: Env, b: Env, fuel: nat)
    requires PureLoop(test, cond, body, updates, known) && Agree(known, a, b)
    ensures Run(test, args, b, fuel).Some? ==> cond in Run(test, args, b, fuel).value
  {
    CodeDepends(test, args, known, b, b, fuel);
  }

  // ---- An update that reads an earlier one ----

  /** `for i in 0..1 { previous = current; current = 7; }` with i in register 0, `current` in 1 and `previous` in 2;
      registers 3 and 4 hold the constants 1 and 7. */
  const SHIFTING_UPDATES: seq<VMove> := [VMove(0, 5), VMove(1, 4), VMove(2, 1)]

  function ShiftingBody(): Code {
    Block([Instr(OpBin(Add), [5], [0, 3], None, General)])
  }

  function ShiftingTest(): Code {
    Block([Instr(OpBin(CmpLt), [6], [0, 3], None, General)])
  }

  function ShiftingEnv(i: Word, current: Word, previous: Word): Env {
    map[0 := i, 1 := current, 2 := previous, 3 := 1, 4 := 7]
  }

  /** The loop of the source remembers the value before the last, 5; the emitted one has already replaced it by 7. */
  lemma PreviousIsLost(fuel: nat)
    ensures !OrderSafe(SHIFTING_UPDATES)
    ensures var source := CheckFirst(ShiftingTest(), 6, ShiftingBody(), SHIFTING_UPDATES, [], ShiftingEnv(0, 5, 9),
      fuel, 2);
      source.Some? && 2 in source.value && source.value[2] == 5
    ensures var emitted := Turns(Chain(ShiftingBody(), ShiftingTest()), 6, SHIFTING_UPDATES, [],
      ShiftingEnv(0, 5, 9), fuel, 2);
      emitted.Some? && 2 in emitted.value && emitted.value[2] == 7
  {
    var env := ShiftingEnv(0, 5, 9);
    var updates := SHIFTING_UPDATES;
    assert updates[2].src == updates[1].dst != updates[1].src;
    ShiftingRuns(env, fuel);
    var next := env[0 := 1][1 := 7][2 := 5];
    assert MoveTogether(updates, env[5 := 1], env) == Some(next) by {
      assert updates[1..][1..] == [updates[2]] && updates[1..][0] == updates[1];
      assert MoveTogether([updates[2]], env[5 := 1], env[0 := 1][1 := 7]) == Some(next);
    }
    ShiftingRuns(next, fuel);
    var turned, moved := env[5 := 1][6 := 1], env[5 := 1][6 := 1][0 := 1][1 := 7][2 := 7];
    assert MoveInTurn(updates, turned) == Some(moved) by {
      assert updates[1..][1..] == [updates[2]] && updates[1..][0] == updates[1];
      assert MoveInTurn([updates[2]], turned[0 := 1][1 := 7]) == Some(moved);
    }
    ShiftingRuns(moved, fuel);
  }

  lemma ShiftingRuns(env: Env, fuel: nat)
    requires 0 in env && 3 in env && env[3] == 1 && env[0] <= 1
    ensures Run(ShiftingBody(), [], env, fuel) == Some(env[5 := env[0] + 1])
    ensures Run(ShiftingTest(), [], env, fuel) == Some(env[6 := 1 - env[0]])
    ensures Run(Chain(ShiftingBody(), ShiftingTest()), [], env, fuel) == Some(env[5 := env[0] + 1][6 := 1 - env[0]])
  {
    var body, test, more := ShiftingBody().instrs, ShiftingTest().instrs, env[5 := env[0] + 1];
    assert body[1..] == [] && test[1..] == [];
    assert ValueOf(body[0], [], env) == Some(env[0] + 1);
    assert ValueOf(test[0], [], env) == Some(1 - env[0]) && ValueOf(test[0], [], more) == Some(1 - env[0]);
    assert Execute(body, [], env) == Execute(body[1..], [], more);
    assert Execute(test, [], env) == Execute(test[1..], [], env[6 := 1 - env[0]]);
    assert Execute(test, [], more) == Execute(test[1..], [], more[6 := 1 - env[0]]);
  }

  // ---- The extra turn of the body can trap ----

  /** `for i in 0..3 { s = 10 / (3 - i) }`, with i in register 0 and s in register 1; registers 2, 3 and 4
      hold the constants 3, 10 and 1. */
  function DividingBody(): Code {
    Block([
      Instr(OpBin(Sub), [5], [2, 0], None, General),
      Instr(OpBin(Div), [6], [3, 5], None, General),
      Instr(OpBin(Add), [7], [0, 4], None, General)])
  }

  function CountingTest(): Code {
    Block([Instr(OpBin(CmpLt), [8], [0, 2], None, General)])
  }

  const DIVIDING_UPDATES: seq<VMove> := [VMove(0, 7), VMove(1, 6)]

  function DividingEnv(i: Word, s: Word): Env {
    map[0 := i, 1 := s, 2 := 3, 3 := 10, 4 := 1]
  }

  /** A loop that turns zero times divides by zero once it is emitted: the source's loop ends at once. */
  lemma ZeroTripLoopTraps(s: Word, fuel: nat, turns: nat)
    requires turns > 0
    ensures CheckFirst(CountingTest(), 8, DividingBody(), DIVIDING_UPDATES, [], DividingEnv(3, s), fuel, turns)
         == Some(DividingEnv(3, s))
    ensures Turns(Chain(DividingBody(), CountingTest()), 8, DIVIDING_UPDATES, [], DividingEnv(3, s), fuel, turns)
      == None
  {
    var env := DividingEnv(3, s);
    var body, test := DividingBody().instrs, CountingTest().instrs;
    assert ValueOf(body[0], [], env) == Some(0);
    assert body[1..][0] == body[1] && ValueOf(body[1], [], env[5 := 0]) == None;
    assert Execute(body, [], env) == None;
    assert ValueOf(test[0], [], env) == Some(0);
    assert test[1..] == [];
    assert Execute(test, [], env) == Some(env[8 := 0]);
  }
}
