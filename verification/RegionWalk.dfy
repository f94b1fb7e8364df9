/** Finding the branch behind a merge: the walk up the control edges, and what it finds in nested branches. */
module RegionWalk {
  import opened Wrappers
  import opened Words
  import opened IR

  const MAX_DEPTH: nat := 64

  // ---- The walk ----

  /** The branch a projection comes from. */
  function BranchOf(g: seq<Node>, ctrl: NodeId): Option<NodeId>
    requires ctrl < |g|
  {
    if !g[ctrl].kind.Proj? || g[ctrl].inputs == [] then None
    else
      var base := g[ctrl].inputs[0];
      if base != INVALID && base < |g| && g[base].kind.If? then Some(base) else None
  }

  function Fuel(depth: nat): nat {
    if depth > MAX_DEPTH then 0 else MAX_DEPTH + 1 - depth
  }

  /** Every branch met on the way up, in the order of the walk, each once. */
  function CollectIfs(g: seq<Node>, ctrl: NodeId, out: seq<NodeId>, depth: nat): (r: seq<NodeId>)
    ensures out <= r
    decreases Fuel(depth), 0
  {
    if ctrl == INVALID || ctrl >= |g| || depth > MAX_DEPTH then out
    else if g[ctrl].kind.Proj? then
      (match BranchOf(g, ctrl)
       case None => out
       case Some(base) =>
         var more := if base in out then out else out + [base];
         if |g[base].inputs| >= IF_INPUTS then CollectIfs(g, g[base].inputs[0], more, depth + 1) else more)
    else if g[ctrl].kind.Region? then CollectPreds(g, g[ctrl].inputs, out, depth + 1)
    else out
  }

  function CollectPreds(g: seq<Node>, preds: seq<NodeId>, out: seq<NodeId>, depth: nat): (r: seq<NodeId>)
    ensures out <= r
    decreases Fuel(depth), 1 + |preds|
  {
    if preds == [] then out else CollectPreds(g, preds[1..], CollectIfs(g, preds[0], out, depth), depth)
  }

  method Collect(g: seq<Node>, ctrl: NodeId, start: seq<NodeId>, depth: nat) returns (out: seq<NodeId>)
    ensures out == CollectIfs(g, ctrl, start, depth)
    decreases Fuel(depth)
  {
    out := start;
    if ctrl == INVALID || ctrl >= |g| || depth > MAX_DEPTH { return; }
    if g[ctrl].kind.Proj? {
      var base := BranchOf(g, ctrl);
      if base.Some? {
        if base.value !in out { out := out + [base.value]; }
        if |g[base.value].inputs| >= IF_INPUTS {
          out := Collect(g, g[base.value].inputs[0], out, depth + 1);
        }
      }
      return;
    }
    if g[ctrl].kind.Region? {
      var preds := g[ctrl].inputs;
      var i := 0;
      while i < |preds|
        invariant i <= |preds|
        invariant CollectPreds(g, preds[i..], out, depth + 1) == CollectPreds(g, preds, start, depth + 1)
      {
        out := Collect(g, preds[i], out, depth + 1);
        i := i + 1;
      }
    }
  }

  /** The walks of a region's predecessors that found something. */
  function Chains(g: seq<Node>, preds: seq<NodeId>): seq<seq<NodeId>> {
    if preds == [] then []
    else
      var n := |preds| - 1;
      var ifs := CollectIfs(g, preds[n], [], 0);
      Chains(g, preds[..n]) + if preds[n] == INVALID || preds[n] >= |g| || ifs == [] then [] else [ifs]
  }

  predicate InAll(x: NodeId, chains: seq<seq<NodeId>>) {
    forall i :: 0 <= i < |chains| ==> x in chains[i]
  }

  function FirstShared(candidates: seq<NodeId>, others: seq<seq<NodeId>>): Option<NodeId> {
    if candidates == [] then None
    else if InAll(candidates[0], others) then Some(candidates[0])
    else FirstShared(candidates[1..], others)
  }

  function Governing(g: seq<Node>, region: NodeId): Option<NodeId> {
    if region == INVALID || region >= |g| then None
    else
      var chains := Chains(g, g[region].inputs);
      if chains == [] then None else FirstShared(chains[0], chains[1..])
  }

  method GoverningIf(g: seq<Node>, region: NodeId) returns (r: Option<NodeId>)
    ensures r == Governing(g, region)
  {
    if region == INVALID || region >= |g| { return None; }
    var preds := g[region].inputs;
    var perPred: seq<seq<NodeId>> := [];
    var p := 0;
    while p < |preds|
      invariant p <= |preds| && perPred == Chains(g, preds[..p])
    {
      assert preds[..p + 1][..p] == preds[..p];
      if preds[p] != INVALID && preds[p] < |g| {
        var ifs := Collect(g, preds[p], [], 0);
        if ifs != [] { perPred := perPred + [ifs]; }
      }
      p := p + 1;
    }
    assert preds[..p] == preds;
    if perPred == [] { return None; }
    var first := perPred[0];
    var c := 0;
    while c < |first|
      invariant c <= |first|
      invariant FirstShared(first[c..], perPred[1..]) == FirstShared(first, perPred[1..])
    {
      assert first[c..][1..] == first[c + 1..];
      var shared := true;
      var i := 1;
      while i < |perPred|
        invariant 1 <= i <= |perPred|
        invariant shared <==> forall j :: 1 <= j < i ==> first[c] in perPred[j]
      {
        if first[c] !in perPred[i] { shared := false; }
        i := i + 1;
      }
      assert shared <==> InAll(first[c], perPred[1..]);
      if shared { return Some(first[c]); }
      c := c + 1;
    }
    return None;
  }

  // ---- Which branches a walk meets ----

  /** The walk from `c` at this depth meets the branch `x`. */
  ghost predicate Meets(g: seq<Node>, c: NodeId, depth: nat, x: NodeId)
    decreases Fuel(depth), 0
  {
    && c != INVALID && c < |g| && depth <= MAX_DEPTH
    && if g[c].kind.Proj? then
         BranchOf(g, c).Some? && (var base := BranchOf(g, c).value;
           x == base || (|g[base].inputs| >= IF_INPUTS && Meets(g, g[base].inputs[0], depth + 1, x)))
       else g[c].kind.Region? && MeetsAny(g, g[c].inputs, depth + 1, x)
  }

  ghost predicate MeetsAny(g: seq<Node>, preds: seq<NodeId>, depth: nat, x: NodeId)
    decreases Fuel(depth), 1 + |preds|
  {
    preds != [] && (Meets(g, preds[0], depth, x) || MeetsAny(g, preds[1..], depth, x))
  }

  lemma {:induction false} CollectedAreMet(g: seq<Node>, c: NodeId, out: seq<NodeId>, depth: nat, x: NodeId)
    ensures x in CollectIfs(g, c, out, depth) <==> x in out || Meets(g, c, depth, x)
    decreases Fuel(depth), 0
  {
    if c != INVALID && c < |g| && depth <= MAX_DEPTH {
      if g[c].kind.Proj? {
        if BranchOf(g, c).Some? {
          var base := BranchOf(g, c).value;
          if |g[base].inputs| >= IF_INPUTS {
            CollectedAreMet(g, g[base].inputs[0], if base in out then out else out + [base], depth + 1, x);
          }
        }
      } else if g[c].kind.Region? {
        CollectedAreMetAny(g, g[c].inputs, out, depth + 1, x);
      }
    }
  }

  lemma {:induction false} CollectedAreMetAny(g: seq<Node>, preds: seq<NodeId>, out: seq<NodeId>, depth: nat, x: NodeId)
    ensures x in CollectPreds(g, preds, out, depth) <==> x in out || MeetsAny(g, preds, depth, x)
    decreases Fuel(depth), 1 + |preds|
  {
    if preds != [] {
      CollectedAreMet(g, preds[0], out, depth, x);
      CollectedAreMetAny(g, preds[1..], CollectIfs(g, preds[0], out, depth), depth, x);
    }
  }

  /** A walk that starts higher up meets no less. */
  lemma {:induction false} MeetsSooner(g: seq<Node>, c: NodeId, depth: nat, later: nat, x: NodeId)
    requires depth <= later && Meets(g, c, later, x)
    ensures Meets(g, c, depth, x)
    decreases Fuel(later), 0
  {
    if g[c].kind.Proj? {
      var base := BranchOf(g, c).value;
      if x != base { MeetsSooner(g, g[base].inputs[0], depth + 1, later + 1, x); }
    } else {
      MeetsAnySooner(g, g[c].inputs, depth + 1, later + 1, x);
    }
  }

  lemma {:induction false} MeetsAnySooner(g: seq<Node>, preds: seq<NodeId>, depth: nat, later: nat, x: NodeId)
    requires depth <= later && MeetsAny(g, preds, later, x)
    ensures MeetsAny(g, preds, depth, x)
    decreases Fuel(later), 1 + |preds|
  {
    if Meets(g, preds[0], later, x) {
      MeetsSooner(g, preds[0], depth, later, x);
    } else {
      MeetsAnySooner(g, preds[1..], depth, later, x);
    }
  }

  // ---- What is found, on any graph ----

  ghost predicate MeetsSome(g: seq<Node>, c: NodeId) {
    exists x: NodeId :: Meets(g, c, 0, x)
  }

  lemma Walked(g: seq<Node>, c: NodeId)
    ensures forall x: NodeId :: x in CollectIfs(g, c, [], 0) <==> Meets(g, c, 0, x)
    ensures CollectIfs(g, c, [], 0) != [] <==> MeetsSome(g, c)
    ensures MeetsSome(g, c) ==> c != INVALID && c < |g|
  {
    forall x: NodeId ensures x in CollectIfs(g, c, [], 0) <==> Meets(g, c, 0, x) { CollectedAreMet(g, c, [], 0, x); }
    if CollectIfs(g, c, [], 0) != [] { assert CollectIfs(g, c, [], 0)[0] in CollectIfs(g, c, [], 0); }
  }

  ghost predicate WalkOf(g: seq<Node>, preds: seq<NodeId>, chain: seq<NodeId>) {
    exists c: NodeId :: c in preds && MeetsSome(g, c) && chain == CollectIfs(g, c, [], 0)
  }

  /** The chains are the walks of the predecessors that meet something. */
  lemma {:induction false} ChainsAre(g: seq<Node>, preds: seq<NodeId>)
    ensures forall i :: 0 <= i < |Chains(g, preds)| ==> WalkOf(g, preds, Chains(g, preds)[i])
    ensures forall c: NodeId :: c in preds && MeetsSome(g, c) ==> CollectIfs(g, c, [], 0) in Chains(g, preds)
  {
    hide CollectIfs, MeetsSome;
    if preds != [] {
      var n := |preds| - 1;
      ChainsAre(g, preds[..n]);
      Walked(g, preds[n]);
      var front, all := Chains(g, preds[..n]), Chains(g, preds);
      forall i | 0 <= i < |all| ensures WalkOf(g, preds, all[i]) {
        if i < |front| {
          assert WalkOf(g, preds[..n], front[i]);
          var c: NodeId :| c in preds[..n] && MeetsSome(g, c) && front[i] == CollectIfs(g, c, [], 0);
          assert c in preds;
        } else {
          assert preds[n] in preds;
        }
      }
      forall c: NodeId | c in preds && MeetsSome(g, c) ensures CollectIfs(g, c, [], 0) in all {
        if c in preds[..n] {
          var i :| 0 <= i < |front| && front[i] == CollectIfs(g, c, [], 0);
          assert all[i] == front[i];
        } else {
          assert all[|all| - 1] == CollectIfs(g, c, [], 0);
        }
      }
    }
  }

  lemma {:induction false} FirstSharedFinds(candidates: seq<NodeId>, others: seq<seq<NodeId>>)
    ensures var r := FirstShared(candidates, others);
      && (r.Some? ==> r.value in candidates && InAll(r.value, others))
      && (r.None? ==> forall x :: x in candidates ==> !InAll(x, others))
  {
    if candidates != [] && !InAll(candidates[0], others) { FirstSharedFinds(candidates[1..], others); }
  }

  /** What governs a region is met from each predecessor from which anything is met, and from one at least; nothing
      governs it only when no branch is. */
  lemma GoverningIsShared(g: seq<Node>, region: NodeId)
    requires region != INVALID && region < |g|
    ensures var preds, r := g[region].inputs, Governing(g, region);
      && (r.Some? ==> SharedByAll(g, preds, r.value))
      && (r.None? ==> forall x: NodeId :: !SharedByAll(g, preds, x))
  {
    hide CollectIfs, Meets, MeetsSome, Chains, InAll;
    var preds := g[region].inputs;
    var chains := Chains(g, preds);
    ChainsAre(g, preds);
    forall x: NodeId ensures SharedByAll(g, preds, x) <==> chains != [] && InAll(x, chains) {
      SharedInChains(g, preds, x);
    }
    if chains != [] {
      FirstSharedFinds(chains[0], chains[1..]);
      forall x: NodeId ensures InAll(x, chains) <==> x in chains[0] && InAll(x, chains[1..]) { InAllCons(x, chains); }
    }
  }

  lemma InAllCons(x: NodeId, chains: seq<seq<NodeId>>)
    requires chains != []
    ensures InAll(x, chains) <==> x in chains[0] && InAll(x, chains[1..])
  {
    assert forall i :: 0 < i < |chains| ==> chains[1..][i - 1] == chains[i];
  }

  ghost predicate SharedByAll(g: seq<Node>, preds: seq<NodeId>, x: NodeId) {
    && (exists c: NodeId :: c in preds && Meets(g, c, 0, x))
    && forall c: NodeId :: c in preds && MeetsSome(g, c) ==> Meets(g, c, 0, x)
  }

  lemma SharedInChains(g: seq<Node>, preds: seq<NodeId>, x: NodeId)
    ensures SharedByAll(g, preds, x) <==> Chains(g, preds) != [] && InAll(x, Chains(g, preds))
  {
    hide CollectIfs, Meets, Chains;
    var chains := Chains(g, preds);
    ChainsAre(g, preds);
    forall c: NodeId ensures x in CollectIfs(g, c, [], 0) <==> Meets(g, c, 0, x) { Walked(g, c); }
    if SharedByAll(g, preds, x) {
      var c: NodeId :| c in preds && Meets(g, c, 0, x);
      assert MeetsSome(g, c) && CollectIfs(g, c, [], 0) in chains;
    }
    if chains != [] && InAll(x, chains) {
      assert WalkOf(g, preds, chains[0]);
      var c: NodeId :| c in preds && MeetsSome(g, c) && chains[0] == CollectIfs(g, c, [], 0);
      forall d: NodeId | d in preds && MeetsSome(g, d) ensures Meets(g, d, 0, x) {
        var i :| 0 <= i < |chains| && chains[i] == CollectIfs(g, d, [], 0);
      }
    }
  }

  /** The walk looks at the branch of a projection up to depth sixty-four. */
  lemma DepthLimit(g: seq<Node>, b: NodeId, p: NodeId, depth: nat)
    requires b < |g| <= INVALID && p < |g| && g[b].kind.If? && g[p].kind.Proj? && g[p].inputs == [b]
    ensures depth <= 64 ==> Meets(g, p, depth, b)
    ensures depth > 64 ==> forall x: NodeId :: !Meets(g, p, depth, x)
  {
  }

  // ---- Nested branches laid out in the graph ----

  /** A branch, what its two arms hold, where the second arm starts, and the region where they meet. */
  datatype Fork = Fork(branch: NodeId, yes: seq<Fork>, turn: NodeId, no: seq<Fork>, region: NodeId)

  function End(start: NodeId, forks: seq<Fork>): NodeId {
    if forks == [] then start else forks[|forks| - 1].region
  }

  /** One after the other, from the control node `start`, with all their nodes from `lo` to below `hi`. */
  ghost predicate Laid(g: seq<Node>, start: NodeId, lo: nat, forks: seq<Fork>, hi: nat)
    decreases forks
  {
    && start < lo <= hi <= |g|
    && (forks != [] ==>
         var n := |forks| - 1;
         Laid(g, start, lo, forks[..n], forks[n].branch) && LaidFork(g, End(start, forks[..n]), forks[n], hi))
  }

  ghost predicate LaidFork(g: seq<Node>, c: NodeId, f: Fork, hi: nat)
    decreases f
  {
    && Opens(g, c, f.branch) && f.region < hi <= |g|
    && Laid(g, f.branch + 1, f.branch + 3, f.yes, f.turn)
    && Laid(g, f.branch + 2, f.turn, f.no, f.region)
    && g[f.region].kind.Region? && g[f.region].inputs == [End(f.branch + 1, f.yes), End(f.branch + 2, f.no)]
  }

  /** A branch on `c` with its two projections behind it. */
  ghost predicate Opens(g: seq<Node>, c: NodeId, b: NodeId) {
    && b + 2 < |g| <= INVALID
    && g[b].kind.If? && |g[b].inputs| == IF_INPUTS && g[b].inputs[0] == c
    && g[b + 1].kind.Proj? && g[b + 1].inputs == [b]
    && g[b + 2].kind.Proj? && g[b + 2].inputs == [b]
  }

  function Less(a: nat, b: nat): nat {
    if a < b then a else b
  }

  /** How much deeper the walk is at the start of the branches than at their end. */
  function Hops(forks: seq<Fork>): nat
    decreases forks
  {
    if forks == [] then 0
    else
      var f := forks[|forks| - 1];
      Hops(forks[..|forks| - 1]) + 2 + Less(Hops(f.yes), Hops(f.no))
  }

  /** How deep the walk gets before it meets any branch at all. */
  function Nest(forks: seq<Fork>): nat
    decreases forks
  {
    if forks == [] then 0
    else
      var f := forks[|forks| - 1];
      1 + Less(Nest(f.yes), Nest(f.no))
  }

  lemma ProjectionMeets(g: seq<Node>, c: NodeId, b: NodeId, p: NodeId, depth: nat, x: NodeId)
    requires Opens(g, c, b) && (p == b + 1 || p == b + 2)
    ensures Meets(g, p, depth, x) <==> depth <= MAX_DEPTH && (x == b || Meets(g, c, depth + 1, x))
  {
  }

  /** What lies below a chain of branches is met from its end as from its start, only deeper down. */
  lemma {:induction false} ChainMeets(g: seq<Node>, start: NodeId, lo: nat, forks: seq<Fork>, hi: nat, depth: nat,
        x: NodeId)
    requires Laid(g, start, lo, forks, hi) && x < lo
    ensures Meets(g, End(start, forks), depth, x) <==> Meets(g, start, depth + Hops(forks), x)
    decreases forks
  {
    if forks != [] {
      var n := |forks| - 1;
      var f, front := forks[n], forks[..n];
      var c := End(start, front);
      assert f.branch >= lo;
      ForkMeets(g, c, f, hi, depth, x);
      ChainMeets(g, start, lo, front, f.branch, depth + 2 + Less(Hops(f.yes), Hops(f.no)), x);
    }
  }

  lemma {:induction false} ForkMeets(g: seq<Node>, c: NodeId, f: Fork, hi: nat, depth: nat, x: NodeId)
    requires LaidFork(g, c, f, hi) && x < f.branch
    ensures Meets(g, f.region, depth, x) <==> Meets(g, c, depth + 2 + Less(Hops(f.yes), Hops(f.no)), x)
    decreases f
  {
    var y, z := End(f.branch + 1, f.yes), End(f.branch + 2, f.no);
    var a, b := Hops(f.yes), Hops(f.no);
    ChainMeets(g, f.branch + 1, f.branch + 3, f.yes, f.turn, depth + 1, x);
    ChainMeets(g, f.branch + 2, f.turn, f.no, f.region, depth + 1, x);
    ProjectionMeets(g, c, f.branch, f.branch + 1, depth + 1 + a, x);
    ProjectionMeets(g, c, f.branch, f.branch + 2, depth + 1 + b, x);
    hide Laid, LaidFork;
    TwoPreds(g, y, z, depth + 1, x);
    assert Less(depth + 2 + a, depth + 2 + b) == depth + 2 + Less(a, b);
    EitherDepth(g, c, depth + 2 + a, depth + 2 + b, x);
  }

  lemma EitherDepth(g: seq<Node>, c: NodeId, p: nat, q: nat, x: NodeId)
    ensures Meets(g, c, p, x) || Meets(g, c, q, x) <==> Meets(g, c, Less(p, q), x)
  {
    hide Meets;
    if p <= q {
      if Meets(g, c, q, x) { MeetsSooner(g, c, p, q, x); }
    } else {
      if Meets(g, c, p, x) { MeetsSooner(g, c, q, p, x); }
    }
  }

  lemma TwoPreds(g: seq<Node>, y: NodeId, z: NodeId, depth: nat, x: NodeId)
    ensures MeetsAny(g, [y, z], depth, x) <==> Meets(g, y, depth, x) || Meets(g, z, depth, x)
  {
    assert [y, z][1..] == [z] && [z][1..] == [];
    assert MeetsAny(g, [z], depth, x) <==> Meets(g, z, depth, x);
  }

  // ---- The order of the walk ----

  /** Until `top` has been met, only branches from `lo` to below `hi` have. */
  ghost predicate InnerFirst(out: seq<NodeId>, top: NodeId, lo: nat, hi: nat) {
    forall i :: 0 <= i < |out| && top !in out[..i + 1] ==> lo <= out[i] < hi
  }

  /** From `c` too. */
  ghost predicate WalksInner(g: seq<Node>, c: NodeId, top: NodeId, lo: nat, hi: nat) {
    forall out: seq<NodeId>, depth: nat {:trigger CollectIfs(g, c, out, depth)} ::
      InnerFirst(out, top, lo, hi) ==> InnerFirst(CollectIfs(g, c, out, depth), top, lo, hi)
  }

  lemma InnerPush(out: seq<NodeId>, b: NodeId, top: NodeId, lo: nat, hi: nat)
    requires InnerFirst(out, top, lo, hi) && (b == top || lo <= b < hi)
    ensures InnerFirst(out + [b], top, lo, hi)
  {
    forall i | 0 <= i < |out + [b]| && top !in (out + [b])[..i + 1] ensures lo <= (out + [b])[i] < hi {
      if i < |out| {
        assert (out + [b])[..i + 1] == out[..i + 1];
      } else {
        assert (out + [b])[i] in (out + [b])[..i + 1];
      }
    }
  }

  /** After the top branch anything may follow. */
  lemma InnerAfter(out: seq<NodeId>, more: seq<NodeId>, top: NodeId, lo: nat, hi: nat)
    requires InnerFirst(out, top, lo, hi) && out <= more && top in out
    ensures InnerFirst(more, top, lo, hi)
  {
    var k :| 0 <= k < |out| && out[k] == top;
    forall i | 0 <= i < |more| ensures top !in more[..i + 1] ==> lo <= more[i] < hi {
      if i < |out| {
        assert more[..i + 1] == out[..i + 1];
      } else {
        assert more[..i + 1][k] == top;
      }
    }
  }

  lemma ProjectionCollects(g: seq<Node>, c: NodeId, b: NodeId, p: NodeId, out: seq<NodeId>, depth: nat)
    requires Opens(g, c, b) && (p == b + 1 || p == b + 2)
    ensures CollectIfs(g, p, out, depth)
      == if depth > MAX_DEPTH then out else CollectIfs(g, c, if b in out then out else out + [b], depth + 1)
  {
  }

  lemma ProjectionInner(g: seq<Node>, c: NodeId, b: NodeId, p: NodeId, top: NodeId, lo: nat, hi: nat)
    requires Opens(g, c, b) && (p == b + 1 || p == b + 2)
    requires b == top || (lo <= b < hi && WalksInner(g, c, top, lo, hi))
    ensures WalksInner(g, p, top, lo, hi)
  {
    forall out: seq<NodeId>, depth: nat | InnerFirst(out, top, lo, hi)
      ensures InnerFirst(CollectIfs(g, p, out, depth), top, lo, hi)
    {
      var more := if b in out then out else out + [b];
      ProjectionCollects(g, c, b, p, out, depth);
      hide InnerFirst, CollectIfs, Opens;
      if depth <= MAX_DEPTH {
        InnerPush(out, b, top, lo, hi);
        if b == top { InnerAfter(more, CollectIfs(g, c, more, depth + 1), top, lo, hi); }
      }
    }
  }

  lemma RegionInner(g: seq<Node>, region: NodeId, y: NodeId, z: NodeId, top: NodeId, lo: nat, hi: nat)
    requires region < |g| && g[region].kind.Region? && g[region].inputs == [y, z]
    requires WalksInner(g, y, top, lo, hi) && WalksInner(g, z, top, lo, hi)
    ensures WalksInner(g, region, top, lo, hi)
  {
    forall out: seq<NodeId>, depth: nat | InnerFirst(out, top, lo, hi)
      ensures InnerFirst(CollectIfs(g, region, out, depth), top, lo, hi)
    {
      if region != INVALID && depth <= MAX_DEPTH {
        var one := CollectIfs(g, y, out, depth + 1);
        assert [y, z][1..] == [z] && [z][1..] == [];
        assert CollectPreds(g, [z], one, depth + 1) == CollectIfs(g, z, one, depth + 1);
        assert CollectPreds(g, [y, z], out, depth + 1) == CollectIfs(g, z, one, depth + 1);
        assert CollectIfs(g, region, out, depth) == CollectPreds(g, [y, z], out, depth + 1);
      }
    }
  }

  lemma {:induction false} ChainInner(g: seq<Node>, start: NodeId, from: nat, forks: seq<Fork>, to: nat, top: NodeId,
        lo: nat, hi: nat)
    requires Laid(g, start, from, forks, to) && lo <= from && to <= hi && WalksInner(g, start, top, lo, hi)
    ensures WalksInner(g, End(start, forks), top, lo, hi)
    decreases forks
  {
    hide WalksInner, CollectIfs;
    if forks != [] {
      var n := |forks| - 1;
      var f, c := forks[n], End(start, forks[..n]);
      LaidBounds(g, start, from, forks, to);
      ChainInner(g, start, from, forks[..n], f.branch, top, lo, hi);
      ProjectionInner(g, c, f.branch, f.branch + 1, top, lo, hi);
      ProjectionInner(g, c, f.branch, f.branch + 2, top, lo, hi);
      ChainInner(g, f.branch + 1, f.branch + 3, f.yes, f.turn, top, lo, hi);
      ChainInner(g, f.branch + 2, f.turn, f.no, f.region, top, lo, hi);
      RegionInner(g, f.region, End(f.branch + 1, f.yes), End(f.branch + 2, f.no), top, lo, hi);
    }
  }

  lemma LaidBounds(g: seq<Node>, start: NodeId, from: nat, forks: seq<Fork>, to: nat)
    requires Laid(g, start, from, forks, to) && forks != []
    ensures var f := forks[|forks| - 1]; from <= f.branch && f.branch + 3 <= f.turn <= f.region < to
  {
    var f := forks[|forks| - 1];
    assert Laid(g, f.branch + 1, f.branch + 3, f.yes, f.turn) && Laid(g, f.branch + 2, f.turn, f.no, f.region);
  }

  // ---- What the merge finds ----

  /** Below its own branch the control edges only lead down. */
  ghost predicate Descending(g: seq<Node>, bound: nat) {
    forall n: NodeId :: n < bound && n < |g| ==> DescendingNode(g, n)
  }

  predicate DescendingNode(g: seq<Node>, n: NodeId)
    requires n < |g|
  {
    g[n].kind.Proj? || g[n].kind.If? || g[n].kind.Region? ==>
      forall i :: 0 <= i < |g[n].inputs| && (g[n].kind.If? ==> i == 0) ==>
        g[n].inputs[i] < n || g[n].inputs[i] == INVALID
  }

  lemma {:induction false} MeetsBelow(g: seq<Node>, bound: nat, c: NodeId, depth: nat, x: NodeId)
    requires Descending(g, bound) && c < bound && |g| <= INVALID && Meets(g, c, depth, x)
    ensures x < c
    decreases Fuel(depth), 0
  {
    assert DescendingNode(g, c);
    if g[c].kind.Proj? {
      var base := BranchOf(g, c).value;
      assert base < c && DescendingNode(g, base);
      if x != base { MeetsBelow(g, bound, g[base].inputs[0], depth + 1, x); }
    } else {
      MeetsAnyBelow(g, bound, g[c].inputs, depth + 1, x, c);
    }
  }

  lemma {:induction false} MeetsAnyBelow(g: seq<Node>, bound: nat, preds: seq<NodeId>, depth: nat, x: NodeId, c: NodeId)
    requires Descending(g, bound) && c < bound && |g| <= INVALID && MeetsAny(g, preds, depth, x)
    requires forall i :: 0 <= i < |preds| ==> preds[i] < c || preds[i] == INVALID
    ensures x < c
    decreases Fuel(depth), 1 + |preds|
  {
    if Meets(g, preds[0], depth, x) {
      MeetsBelow(g, bound, preds[0], depth, x);
    } else {
      MeetsAnyBelow(g, bound, preds[1..], depth, x, c);
    }
  }

  /** A chain that starts behind a branch and is not nested too deeply meets some branch. */
  lemma {:induction false} ChainMeetsSome(g: seq<Node>, c: NodeId, b: NodeId, start: NodeId, lo: nat,
        forks: seq<Fork>, hi: nat, depth: nat)
    returns (x: NodeId)
    requires Opens(g, c, b) && (start == b + 1 || start == b + 2)
    requires Laid(g, start, lo, forks, hi) && depth + Nest(forks) <= MAX_DEPTH
    ensures Meets(g, End(start, forks), depth, x)
    decreases forks
  {
    if forks == [] {
      x := b;
      ProjectionMeets(g, c, b, start, depth, x);
    } else {
      var n := |forks| - 1;
      var f, c' := forks[n], End(start, forks[..n]);
      var y, z := End(f.branch + 1, f.yes), End(f.branch + 2, f.no);
      if Nest(f.yes) <= Nest(f.no) {
        x := ChainMeetsSome(g, c', f.branch, f.branch + 1, f.branch + 3, f.yes, f.turn, depth + 1);
      } else {
        x := ChainMeetsSome(g, c', f.branch, f.branch + 2, f.turn, f.no, f.region, depth + 1);
      }
      TwoPreds(g, y, z, depth + 1, x);
    }
  }

  /** Arms that both end in merges nested `n` deep take nodes in the order of two to the `n`. */
  lemma {:induction false} NestTakesRoom(g: seq<Node>, start: NodeId, lo: nat, forks: seq<Fork>, hi: nat)
    requires Laid(g, start, lo, forks, hi)
    ensures lo <= hi && Pow2(Nest(forks)) <= 1 + hi - lo
    decreases forks
  {
    if forks != [] {
      var n := |forks| - 1;
      var f := forks[n];
      LaidBounds(g, start, lo, forks, hi);
      NestTakesRoom(g, f.branch + 1, f.branch + 3, f.yes, f.turn);
      NestTakesRoom(g, f.branch + 2, f.turn, f.no, f.region);
      Pow2Grows(Less(Nest(f.yes), Nest(f.no)), Nest(f.yes));
      Pow2Grows(Less(Nest(f.yes), Nest(f.no)), Nest(f.no));
    }
  }

  lemma {:induction false} Pow2Grows(a: nat, b: nat)
    requires a <= b
    ensures Pow2(a) <= Pow2(b)
  {
    if a < b { Pow2Grows(a, b - 1); }
  }

  /** So no graph with 32-bit node ids nests them beyond the reach of the walk. */
  lemma NestFits(g: seq<Node>, start: NodeId, lo: nat, forks: seq<Fork>, hi: nat)
    requires Laid(g, start, lo, forks, hi) && |g| <= INVALID
    ensures Nest(forks) <= MAX_DEPTH
  {
    NestTakesRoom(g, start, lo, forks, hi);
    if Nest(forks) > MAX_DEPTH {
      Pow2Grows(64, Nest(forks));
      Pow2Of64();
    }
  }

  lemma OneOther(x: NodeId, other: seq<NodeId>)
    ensures InAll(x, [other]) <==> x in other
  {
    assert [other][0] == other;
  }

  /** Whatever a candidate shares, the top comes no later. */
  ghost predicate TopFirst(candidates: seq<NodeId>, other: seq<NodeId>, top: NodeId) {
    forall i :: 0 <= i < |candidates| && candidates[i] in other ==> top in candidates[..i + 1]
  }

  lemma TopFirstRest(candidates: seq<NodeId>, other: seq<NodeId>, top: NodeId)
    requires candidates != [] && TopFirst(candidates, other, top) && candidates[0] != top
    ensures TopFirst(candidates[1..], other, top) && candidates[0] !in other
  {
    var rest := candidates[1..];
    assert candidates[..1] == [candidates[0]];
    assert top !in candidates[..1];
    forall i | 0 <= i < |rest| && rest[i] in other ensures top in rest[..i + 1] {
      assert candidates[i + 1] == rest[i];
      assert candidates[..i + 2] == [candidates[0]] + rest[..i + 1];
    }
  }

  lemma FirstSharedStep(candidates: seq<NodeId>, others: seq<seq<NodeId>>)
    requires candidates != []
    ensures FirstShared(candidates, others)
         == if InAll(candidates[0], others) then Some(candidates[0]) else FirstShared(candidates[1..], others)
  {
  }

  lemma {:induction false} FirstSharedIs(candidates: seq<NodeId>, other: seq<NodeId>, top: NodeId)
    requires top in candidates && top in other && TopFirst(candidates, other, top)
    ensures FirstShared(candidates, [other]) == Some(top)
  {
    hide InAll, TopFirst, FirstShared;
    var head, rest := candidates[0], candidates[1..];
    OneOther(head, other);
    FirstSharedStep(candidates, [other]);
    if head != top {
      TopFirstRest(candidates, other, top);
      assert top in rest by { assert candidates == [head] + rest; }
      FirstSharedIs(rest, other, top);
    }
  }

  lemma {:induction false} NothingShared(candidates: seq<NodeId>, other: seq<NodeId>)
    requires forall x :: x in candidates ==> x !in other
    ensures FirstShared(candidates, [other]) == None
  {
    hide InAll;
    if candidates != [] {
      OneOther(candidates[0], other);
      NothingShared(candidates[1..], other);
    }
  }

  lemma TwoChains(g: seq<Node>, y: NodeId, z: NodeId)
    requires y < |g| && z < |g| && |g| <= INVALID && CollectIfs(g, y, [], 0) != [] && CollectIfs(g, z, [], 0) != []
    ensures Chains(g, [y, z]) == [CollectIfs(g, y, [], 0), CollectIfs(g, z, [], 0)]
  {
    hide CollectIfs;
    assert [y, z][..1] == [y] && [y][..0] == [];
    assert Chains(g, [y]) == [CollectIfs(g, y, [], 0)];
  }

  /** What each arm of a branch meets on the way up. */
  lemma ArmMeets(g: seq<Node>, c: NodeId, b: NodeId, start: NodeId, lo: nat, forks: seq<Fork>, hi: nat, x: NodeId)
    requires Opens(g, c, b) && (start == b + 1 || start == b + 2) && c < b && Descending(g, b)
    requires Laid(g, start, lo, forks, hi) && x < lo
    ensures Meets(g, End(start, forks), 0, x) ==> x <= b
    ensures Meets(g, End(start, forks), 0, b) <==> Hops(forks) <= MAX_DEPTH
    ensures Meets(g, End(start, forks), 0, x) ==> Hops(forks) <= MAX_DEPTH
  {
    ChainMeets(g, start, lo, forks, hi, 0, x);
    ChainMeets(g, start, lo, forks, hi, 0, b);
    ProjectionMeets(g, c, b, start, Hops(forks), x);
    ProjectionMeets(g, c, b, start, Hops(forks), b);
    if Meets(g, c, Hops(forks) + 1, x) { MeetsBelow(g, b, c, Hops(forks) + 1, x); }
  }

  /** The merge of a branch finds exactly that branch when no arm is too long for the walk, and otherwise none at all:
      never an inner, an earlier or an enclosing one. */
  lemma MergeFinds(g: seq<Node>, c: NodeId, f: Fork, hi: nat)
    requires LaidFork(g, c, f, hi) && c < f.branch && Descending(g, f.branch)
    ensures Governing(g, f.region)
         == if Hops(f.yes) <= MAX_DEPTH && Hops(f.no) <= MAX_DEPTH then Some(f.branch) else None
  {
    var b, y, z := f.branch, End(f.branch + 1, f.yes), End(f.branch + 2, f.no);
    var ys, zs := CollectIfs(g, y, [], 0), CollectIfs(g, z, [], 0);
    LaidInner(g, c, f, hi);
    ArmsFound(g, c, f, hi);
    hide LaidFork, Laid, Descending, CollectIfs, Hops, Nest, Meets, InnerFirst;
    TwoChains(g, y, z);
    assert [ys, zs][1..] == [zs];
    if Hops(f.yes) <= MAX_DEPTH && Hops(f.no) <= MAX_DEPTH {
      forall i | 0 <= i < |ys| && ys[i] in zs ensures b in ys[..i + 1] {
        InnerShared(ys, b, b + 3, f.turn, i, zs);
      }
      FirstSharedIs(ys, zs, b);
    } else {
      NothingShared(ys, zs);
    }
  }

  lemma InnerShared(ys: seq<NodeId>, top: NodeId, lo: nat, hi: nat, i: nat, zs: seq<NodeId>)
    requires InnerFirst(ys, top, lo, hi) && i < |ys| && ys[i] in zs && forall x :: x in zs ==> !(lo <= x < hi)
    ensures top in ys[..i + 1]
  {
  }

  lemma LaidInner(g: seq<Node>, c: NodeId, f: Fork, hi: nat)
    requires LaidFork(g, c, f, hi)
    ensures InnerFirst(CollectIfs(g, End(f.branch + 1, f.yes), [], 0), f.branch, f.branch + 3, f.turn)
    ensures g[f.region].inputs == [End(f.branch + 1, f.yes), End(f.branch + 2, f.no)] && f.region < |g| <= INVALID
    ensures End(f.branch + 1, f.yes) < |g| && End(f.branch + 2, f.no) < |g|
  {
    hide LaidFork, Laid, Opens, InnerFirst, CollectIfs;
    var b := f.branch;
    ForkParts(g, c, f, hi);
    ArmInner(g, c, b, f.yes, f.turn);
    if f.yes != [] {
      LaidBounds(g, b + 1, b + 3, f.yes, f.turn);
      LaidRegion(g, b + 1, b + 3, f.yes, f.turn);
    }
    if f.no != [] { LaidRegion(g, b + 2, f.turn, f.no, f.region); }
  }

  lemma ForkParts(g: seq<Node>, c: NodeId, f: Fork, hi: nat)
    requires LaidFork(g, c, f, hi)
    ensures Opens(g, c, f.branch) && f.branch + 2 < |g| <= INVALID && f.region < |g|
    ensures Laid(g, f.branch + 1, f.branch + 3, f.yes, f.turn) && Laid(g, f.branch + 2, f.turn, f.no, f.region)
    ensures g[f.region].inputs == [End(f.branch + 1, f.yes), End(f.branch + 2, f.no)]
  {
  }

  lemma ArmInner(g: seq<Node>, c: NodeId, b: NodeId, yes: seq<Fork>, turn: NodeId)
    requires Opens(g, c, b) && Laid(g, b + 1, b + 3, yes, turn)
    ensures InnerFirst(CollectIfs(g, End(b + 1, yes), [], 0), b, b + 3, turn)
  {
    hide Laid, Opens, CollectIfs, End;
    assert InnerFirst([], b, b + 3, turn);
    ProjectionInner(g, c, b, b + 1, b, b + 3, turn);
    ChainInner(g, b + 1, b + 3, yes, turn, b, b + 3, turn);
  }

  lemma LaidRegion(g: seq<Node>, start: NodeId, from: nat, forks: seq<Fork>, to: nat)
    requires Laid(g, start, from, forks, to) && forks != []
    ensures forks[|forks| - 1].region < to <= |g|
  {
  }

  /** What the two walks find: nothing in common but the branch itself and what lies below it. */
  lemma ArmsFound(g: seq<Node>, c: NodeId, f: Fork, hi: nat)
    requires LaidFork(g, c, f, hi) && c < f.branch && Descending(g, f.branch)
    ensures var ys, zs := CollectIfs(g, End(f.branch + 1, f.yes), [], 0), CollectIfs(g, End(f.branch + 2, f.no), [], 0);
      && ys != [] && zs != []
      && (f.branch in ys <==> Hops(f.yes) <= MAX_DEPTH) && (f.branch in zs <==> Hops(f.no) <= MAX_DEPTH)
      && (forall x :: x in zs ==> !(f.branch + 3 <= x < f.turn))
      && (Hops(f.yes) > MAX_DEPTH || Hops(f.no) > MAX_DEPTH ==> forall x :: x in ys ==> x !in zs)
  {
    var b, y, z := f.branch, End(f.branch + 1, f.yes), End(f.branch + 2, f.no);
    NestFits(g, b + 1, b + 3, f.yes, f.turn);
    NestFits(g, b + 2, f.turn, f.no, f.region);
    var some := ChainMeetsSome(g, c, b, b + 1, b + 3, f.yes, f.turn, 0);
    var other := ChainMeetsSome(g, c, b, b + 2, f.turn, f.no, f.region, 0);
    CollectedAreMet(g, y, [], 0, some);
    CollectedAreMet(g, z, [], 0, other);
    ArmMeets(g, c, b, b + 1, b + 3, f.yes, f.turn, b);
    ArmMeets(g, c, b, b + 2, f.turn, f.no, f.region, b);
    CollectedAreMet(g, y, [], 0, b);
    CollectedAreMet(g, z, [], 0, b);
    hide CollectIfs, Meets, Laid, LaidFork, Hops, Nest, End;
    forall x: NodeId | x in CollectIfs(g, z, [], 0) ensures !(b + 3 <= x < f.turn) {
      CollectedAreMet(g, z, [], 0, x);
      if x < f.turn { ArmMeetsOf(g, c, f, hi, x); }
    }
    if Hops(f.yes) > MAX_DEPTH || Hops(f.no) > MAX_DEPTH {
      forall x: NodeId | x in CollectIfs(g, y, [], 0) ensures x !in CollectIfs(g, z, [], 0) {
        CollectedAreMet(g, y, [], 0, x);
        CollectedAreMet(g, z, [], 0, x);
        NotInBoth(g, c, f, hi, x);
      }
    }
  }

  lemma ArmMeetsOf(g: seq<Node>, c: NodeId, f: Fork, hi: nat, x: NodeId)
    requires LaidFork(g, c, f, hi) && c < f.branch && Descending(g, f.branch) && x < f.turn
    ensures Meets(g, End(f.branch + 2, f.no), 0, x) ==> x <= f.branch && Hops(f.no) <= MAX_DEPTH
    ensures x < f.branch + 3 ==> Meets(g, End(f.branch + 1, f.yes), 0, x) ==> x <= f.branch && Hops(f.yes) <= MAX_DEPTH
  {
    ArmMeets(g, c, f.branch, f.branch + 2, f.turn, f.no, f.region, x);
    if x < f.branch + 3 { ArmMeets(g, c, f.branch, f.branch + 1, f.branch + 3, f.yes, f.turn, x); }
  }

  /** A walk up the first arm meets only branches made before the second arm. */
  lemma {:induction false} ChainMeetsBelow(g: seq<Node>, start: NodeId, lo: nat, forks: seq<Fork>, hi: nat,
        depth: nat, x: NodeId)
    returns (d: nat)
    requires Laid(g, start, lo, forks, hi) && Meets(g, End(start, forks), depth, x)
    ensures x < hi || Meets(g, start, d, x)
    decreases forks
  {
    d := depth;
    if forks != [] && x >= hi {
      var n := |forks| - 1;
      var f, c := forks[n], End(start, forks[..n]);
      LaidBounds(g, start, lo, forks, hi);
      TwoPreds(g, End(f.branch + 1, f.yes), End(f.branch + 2, f.no), depth + 1, x);
      if Meets(g, End(f.branch + 1, f.yes), depth + 1, x) {
        d := ChainMeetsBelow(g, f.branch + 1, f.branch + 3, f.yes, f.turn, depth + 1, x);
        ProjectionMeets(g, c, f.branch, f.branch + 1, d, x);
      } else {
        d := ChainMeetsBelow(g, f.branch + 2, f.turn, f.no, f.region, depth + 1, x);
        ProjectionMeets(g, c, f.branch, f.branch + 2, d, x);
      }
      d := ChainMeetsBelow(g, start, lo, forks[..n], f.branch, d + 1, x);
    }
  }

  /** With one arm out of reach of the branch the two walks share nothing. */
  lemma NotInBoth(g: seq<Node>, c: NodeId, f: Fork, hi: nat, x: NodeId)
    requires LaidFork(g, c, f, hi) && c < f.branch && Descending(g, f.branch)
    requires Hops(f.yes) > MAX_DEPTH || Hops(f.no) > MAX_DEPTH
    requires Meets(g, End(f.branch + 1, f.yes), 0, x)
    ensures !Meets(g, End(f.branch + 2, f.no), 0, x)
  {
    var b := f.branch;
    assert x < f.turn by {
      var d := ChainMeetsBelow(g, b + 1, b + 3, f.yes, f.turn, 0, x);
      if x >= f.turn {
        ProjectionMeets(g, c, b, b + 1, d, x);
        MeetsBelow(g, b, c, d + 1, x);
      }
    }
    ArmMeetsOf(g, c, f, hi, x);
  }
}
