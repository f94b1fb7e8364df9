/** Global value numbering: pure nodes of one key are the first of them. */
module ValueNumbering {
  import opened Wrappers
  import opened Words
  import opened IR
  import opened Graph
  import opened Valuation
  import opened SwissTable

  /** The table never sees the inputs themselves, only a digest of them. */
  datatype Key = Key(kind: NodeKind, ty: nat, payload: Word, digest: Word)

  const FNV_BASIS: Word := 0xcbf29ce484222325
  const FNV_PRIME: Word := 0x100000001b3

  function Fnv(inputs: seq<NodeId>): Word {
    if inputs == [] then FNV_BASIS
    else Product(BitWord(BitXor, Fnv(inputs[..|inputs| - 1]), Wrap(inputs[|inputs| - 1])), FNV_PRIME)
  }

  function KeyOf(n: Node): Key {
    Key(n.kind, n.ty, n.payload, Fnv(n.DataIns()))
  }

  /** Live pure nodes except parameters. */
  predicate Candidate(n: Node) {
    !n.dead && n.IsPure() && !n.kind.Parameter?
  }

  /** Different inputs of one kind of node have different digests. */
  ghost predicate DigestsDiffer(nodes: seq<Node>) {
    forall a: NodeId, b: NodeId {:trigger Fnv(nodes[a].inputs), Fnv(nodes[b].inputs)} :: a < |nodes| && b < |nodes|
      && Candidate(nodes[a]) && Candidate(nodes[b]) && Fnv(nodes[a].inputs) == Fnv(nodes[b].inputs)
      ==> nodes[a].inputs == nodes[b].inputs
  }

  type Rewrites = seq<Option<NodeId>>

  /** The rewrite map after the first `n` nodes: a candidate maps to an earlier one with its key that maps nowhere
      itself, and maps nowhere when no earlier candidate has its key. */
  ghost predicate Numbered(nodes: seq<Node>, rw: Rewrites, n: nat) {
    && |rw| == |nodes| && n <= |nodes|
    && (forall id: NodeId :: id < |nodes| && rw[id].Some? ==> id < n && Leads(nodes, rw, rw[id].value, id))
    && forall id: NodeId, e: NodeId ::
         e < id < n && Candidate(nodes[id]) && Candidate(nodes[e]) && KeyOf(nodes[e]) == KeyOf(nodes[id])
         ==> rw[id].Some?
  }

  ghost predicate Leads(nodes: seq<Node>, rw: Rewrites, e: NodeId, id: NodeId)
    requires |rw| == |nodes| && id < |nodes|
  {
    e < id && Candidate(nodes[e]) && Candidate(nodes[id]) && KeyOf(nodes[e]) == KeyOf(nodes[id]) && rw[e].None?
  }

  function Target(rw: Rewrites, x: NodeId): NodeId {
    if x < |rw| && rw[x].Some? then rw[x].value else x
  }

  function Renamed(rw: Rewrites, inputs: seq<NodeId>): (r: seq<NodeId>)
    ensures |r| == |inputs|
    ensures forall i :: 0 <= i < |inputs| ==> r[i] == Target(rw, inputs[i])
  {
    seq(|inputs|, i requires 0 <= i < |inputs| => Target(rw, inputs[i]))
  }

  function NumberedNode(n: Node, rw: Rewrites, id: NodeId): Node {
    if n.dead then n
    else n.(inputs := Renamed(rw, n.inputs), dead := id < |rw| && rw[id].Some?)
  }

  /** The graph after the pass. */
  ghost predicate Rewritten(nodes: seq<Node>, rw: Rewrites, now: seq<Node>) {
    |now| == |nodes| && forall id: NodeId :: id < |nodes| ==> now[id] == NumberedNode(nodes[id], rw, id)
  }

  // ---- What the pass preserves ----

  /** Nodes of one key have one meaning. */
  lemma TwinMeaning(nodes: seq<Node>, e: NodeId, id: NodeId, w: World, v: Values, t: nat)
    requires e < |nodes| && id < |nodes| && Candidate(nodes[e]) && Candidate(nodes[id])
    requires KeyOf(nodes[e]) == KeyOf(nodes[id]) && DigestsDiffer(nodes)
    ensures nodes[e].inputs == nodes[id].inputs
    ensures Meaning(w, nodes[e], e, v, t) == Meaning(w, nodes[id], id, v, t)
  {
    hide Fnv, EvalBin, EvalUn, Args;
    assert Fnv(nodes[e].inputs) == Fnv(nodes[id].inputs);
  }

  lemma RewrittenIsRewired(nodes: seq<Node>, rw: Rewrites, now: seq<Node>)
    requires Rewritten(nodes, rw, now)
    ensures Rewired(nodes, now, x => Target(rw, x))
  {
  }

  /** No remaining node changes its value, provided no two input lists share a digest. */
  lemma NumberingEquivalent(nodes: seq<Node>, rw: Rewrites, now: seq<Node>, w: World)
    requires Numbered(nodes, rw, |nodes|) && Rewritten(nodes, rw, now) && DigestsDiffer(nodes)
    ensures Equivalent(nodes, now, w) && Later(nodes, now)
  {
    RewrittenIsRewired(nodes, rw, now);
    var to := x => Target(rw, x);
    forall v: Values | Satisfies(nodes, w, v) ensures Extends(nodes, now, w, v) {
      forall x: NodeId, t: nat ensures v(t, to(x)) == v(t, x) {
        if x < |rw| && rw[x].Some? { LeaderValue(nodes, rw, x, w, v, t); }
      }
      RewiredKeeps(nodes, now, to, w, v);
      assert Agree(v, v, now, |nodes|);
    }
    forall v: Values | Satisfies(now, w, v) ensures Restricts(nodes, now, w, v) {
      forall id: NodeId, t: nat | id < |nodes| && now[id].dead && !nodes[id].dead
        ensures v(t, to(id)) == Meaning(w, nodes[id], id, Back(v, to), t)
      {
        KilledValue(nodes, rw, now, to, id, w, v, t);
      }
      RewiredReflects(nodes, now, to, w, v);
    }
  }

  lemma LeaderValue(nodes: seq<Node>, rw: Rewrites, x: NodeId, w: World, v: Values, t: nat)
    requires Numbered(nodes, rw, |nodes|) && DigestsDiffer(nodes) && Satisfies(nodes, w, v) && x < |rw| && rw[x].Some?
    ensures v(t, rw[x].value) == v(t, x)
  {
    hide KeyOf, DigestsDiffer, Meaning;
    var e := rw[x].value;
    assert Leads(nodes, rw, e, x);
    TwinMeaning(nodes, e, x, w, v, t);
    assert v(t, x) == Meaning(w, nodes[x], x, v, t) && v(t, e) == Meaning(w, nodes[e], e, v, t);
  }

  lemma KilledValue(nodes: seq<Node>, rw: Rewrites, now: seq<Node>, to: NodeId -> NodeId, id: NodeId, w: World,
        v: Values, t: nat)
    requires Numbered(nodes, rw, |nodes|) && Rewritten(nodes, rw, now) && DigestsDiffer(nodes) && Satisfies(now, w, v)
    requires (forall x :: to(x) == Target(rw, x)) && Rewired(nodes, now, to)
    requires id < |nodes| && now[id].dead && !nodes[id].dead
    ensures v(t, to(id)) == Meaning(w, nodes[id], id, Back(v, to), t)
  {
    hide KeyOf, DigestsDiffer, Meaning;
    var e := rw[id].value;
    assert Leads(nodes, rw, e, id);
    var u := Back(v, to);
    TwinMeaning(nodes, e, id, w, u, t);
    assert RenamedNode(nodes[e], now[e], to);
    assert SameInputs(u, nodes[e].inputs, v, now[e].inputs);
    SameMeaning(w, nodes[e], now[e], e, u, v, t);
    assert v(t, e) == Meaning(w, now[e], e, v, t);
  }

  /** No edge is left to a node the pass kills: the rewrite map never points at one. */
  lemma NumberingAlive(nodes: seq<Node>, rw: Rewrites, now: seq<Node>)
    requires Numbered(nodes, rw, |nodes|) && Rewritten(nodes, rw, now) && InputsAlive(nodes) && |nodes| <= INVALID
    ensures InputsAlive(now)
  {
    forall id: NodeId | id < |now| && !now[id].dead ensures AliveIn(now, now[id].inputs) {
      assert AliveIn(nodes, nodes[id].inputs);
      forall i | 0 <= i < |now[id].inputs|
        ensures var x := now[id].inputs[i]; x == INVALID || (x < |now| && !now[x].dead)
      {
        var x := nodes[id].inputs[i];
        if x < |rw| && rw[x].Some? { assert Leads(nodes, rw, rw[x].value, x); }
      }
    }
  }

  // ---- Which nodes go, by their kinds ----

  /** Two live nodes that are the same but for their place. */
  predicate Twins(a: Node, b: Node) {
    && !a.dead && !b.dead && !HasEffects(a.kind) && !a.kind.Parameter?
    && a.kind == b.kind && a.ty == b.ty && a.payload == b.payload && a.inputs == b.inputs
  }

  lemma TwinsHaveOneKey(nodes: seq<Node>, e: NodeId, id: NodeId)
    requires e < |nodes| && id < |nodes| && DigestsDiffer(nodes)
    ensures Twins(nodes[e], nodes[id]) <==>
      Candidate(nodes[e]) && Candidate(nodes[id]) && KeyOf(nodes[e]) == KeyOf(nodes[id])
  {
    if Candidate(nodes[e]) && Candidate(nodes[id]) && KeyOf(nodes[e]) == KeyOf(nodes[id]) {
      assert Fnv(nodes[e].inputs) == Fnv(nodes[id].inputs);
    }
  }

  /** A live node goes exactly when an earlier one is the same. */
  lemma KilledExactly(nodes: seq<Node>, rw: Rewrites, now: seq<Node>, id: NodeId)
    requires Numbered(nodes, rw, |nodes|) && Rewritten(nodes, rw, now) && DigestsDiffer(nodes)
    requires id < |nodes| && !nodes[id].dead
    ensures now[id].dead <==> exists e: NodeId :: e < id && Twins(nodes[e], nodes[id])
  {
    hide DigestsDiffer, KeyOf, Twins, Candidate;
    if rw[id].Some? {
      assert Leads(nodes, rw, rw[id].value, id);
      TwinsHaveOneKey(nodes, rw[id].value, id);
    }
    if e: NodeId :| e < id && Twins(nodes[e], nodes[id]) {
      TwinsHaveOneKey(nodes, e, id);
    }
  }

  // ---- The pass ----

  /** What the table knows after `n` nodes: each key seen, at its first candidate. */
  ghost predicate Known(nodes: seq<Node>, rw: Rewrites, n: nat, m: map<Key, NodeId>) {
    && Numbered(nodes, rw, n)
    && (forall k :: k in m ==> m[k] < n && Candidate(nodes[m[k]]) && KeyOf(nodes[m[k]]) == k && rw[m[k]].None?)
    && forall id: NodeId :: id < n && Candidate(nodes[id]) ==> KeyOf(nodes[id]) in m
  }

  lemma KnownSkip(nodes: seq<Node>, rw: Rewrites, n: nat, m: map<Key, NodeId>)
    requires Known(nodes, rw, n, m) && n < |nodes| && !Candidate(nodes[n])
    ensures Known(nodes, rw, n + 1, m)
  {
    hide KeyOf;
  }

  lemma KnownFound(nodes: seq<Node>, rw: Rewrites, n: nat, m: map<Key, NodeId>)
    requires Known(nodes, rw, n, m) && n < |nodes| && Candidate(nodes[n]) && KeyOf(nodes[n]) in m
    ensures Known(nodes, rw[n := Some(m[KeyOf(nodes[n])])], n + 1, m)
  {
    hide KeyOf;
    var rw' := rw[n := Some(m[KeyOf(nodes[n])])];
    assert rw[n].None?;
    forall id: NodeId | id < |nodes| && rw'[id].Some? ensures id < n + 1 && Leads(nodes, rw', rw'[id].value, id) {
      if id != n { assert Leads(nodes, rw, rw[id].value, id); }
    }
  }

  lemma KnownNew(nodes: seq<Node>, rw: Rewrites, n: nat, m: map<Key, NodeId>)
    requires Known(nodes, rw, n, m) && n < |nodes| && Candidate(nodes[n]) && KeyOf(nodes[n]) !in m
    ensures Known(nodes, rw, n + 1, m[KeyOf(nodes[n]) := n])
  {
    hide KeyOf;
    assert rw[n].None?;
  }

  /** Fills the rewrite map with the help of the hash table. */
  method Number(nodes: seq<Node>, hash: Key -> Word) returns (rw: Rewrites, replaced: nat)
    ensures Numbered(nodes, rw, |nodes|)
    ensures replaced == 0 <==> forall id :: 0 <= id < |rw| ==> rw[id].None?
  {
    hide *;
    var table := new Table<Key, NodeId>(hash);
    table.Reserve(|nodes|);
    rw := seq(|nodes|, _ => None);
    replaced := 0;
    KnownNone(nodes, rw);
    var id := 0;
    while id < |nodes|
      invariant id <= |nodes| == |rw| && fresh(table) && fresh(table.ctrl) && fresh(table.slots)
      invariant table.Valid() && table.Clean() && Known(nodes, rw, id, table.Contents())
      invariant replaced == 0 <==> forall x :: 0 <= x < |rw| ==> rw[x].None?
    {
      if Candidate(nodes[id]) {
        var key := KeyOf(nodes[id]);
        var existing := table.Get(key);
        if existing.Some? {
          KnownFound(nodes, rw, id, table.Contents());
          rw := rw[id := existing];
          replaced := replaced + 1;
          assert rw[id].Some?;
        } else {
          KnownNew(nodes, rw, id, table.Contents());
          var _ := table.Emplace(key, id);
        }
      } else {
        KnownSkip(nodes, rw, id, table.Contents());
      }
      id := id + 1;
    }
    KnownIsNumbered(nodes, rw, table.Contents());
  }

  lemma KnownNone(nodes: seq<Node>, rw: Rewrites)
    requires |rw| == |nodes| && forall i :: 0 <= i < |rw| ==> rw[i].None?
    ensures Known(nodes, rw, 0, map[])
  {
  }

  lemma KnownIsNumbered(nodes: seq<Node>, rw: Rewrites, m: map<Key, NodeId>)
    requires Known(nodes, rw, |nodes|, m)
    ensures Numbered(nodes, rw, |nodes|)
  {
  }

  lemma RenamedOne(rw: Rewrites, ins: seq<NodeId>, i: nat)
    requires i < |ins|
    ensures var half := Renamed(rw, ins[..i]) + ins[i..];
      half[i] == ins[i] && half[i := Target(rw, ins[i])] == Renamed(rw, ins[..i + 1]) + ins[i + 1..]
    ensures Target(rw, ins[i]) == ins[i] ==>
      Renamed(rw, ins[..i]) + ins[i..] == Renamed(rw, ins[..i + 1]) + ins[i + 1..]
  {
    hide Target;
    assert Renamed(rw, ins[..i + 1]) == Renamed(rw, ins[..i]) + [Target(rw, ins[i])];
  }

  /** Rewires the inputs of one node, edge by edge. */
  method RenameInputs(g: SeaGraph, id: NodeId, rw: Rewrites)
    requires g.Valid() && id < |g.nodes| && |rw| <= INVALID
    modifies g
    ensures g.Valid() && g.nodes == WithInputs(old(g.nodes), id, Renamed(rw, old(g.nodes)[id].inputs))
  {
    hide Renamed;
    var i := 0;
    ghost var ins := g.nodes[id].inputs;
    assert Renamed(rw, ins[..0]) + ins[0..] == ins;
    assert g.nodes == WithInputs(g.nodes, id, ins);
    while i < |g.nodes[id].inputs|
      invariant g.Valid() && |g.nodes| == |old(g.nodes)| && i <= |ins|
      invariant g.nodes == WithInputs(old(g.nodes), id, Renamed(rw, ins[..i]) + ins[i..])
    {
      var x := g.nodes[id].inputs[i];
      RenamedOne(rw, ins, i);
      if x != INVALID && x < |rw| && rw[x].Some? {
        g.SetInput(id, i, rw[x].value);
      }
      i := i + 1;
    }
    assert ins[..i] == ins;
    assert Renamed(rw, ins[..i]) + ins[i..] == Renamed(rw, ins);
  }

  method Run(g: SeaGraph, hash: Key -> Word) returns (replaced: nat, ghost rw: Rewrites)
    requires g.Valid() && |g.nodes| <= INVALID
    modifies g
    ensures g.Valid() && Numbered(old(g.nodes), rw, |old(g.nodes)|)
    ensures if replaced == 0 then g.nodes == old(g.nodes) && forall id :: 0 <= id < |rw| ==> rw[id].None?
            else Rewritten(old(g.nodes), rw, g.nodes)
  {
    var map_: Rewrites;
    map_, replaced := Number(g.nodes, hash);
    rw := map_;
    if replaced == 0 { return; }
    hide Numbered;
    ghost var was := g.nodes;
    var id := 0;
    while id < |g.nodes|
      invariant g.Valid() && id <= |g.nodes| == |was|
      invariant forall x: NodeId :: x < |was| ==>
        g.nodes[x] == if x < id && !was[x].dead then was[x].(inputs := Renamed(map_, was[x].inputs)) else was[x]
    {
      if !g.nodes[id].dead { RenameInputs(g, id, map_); }
      id := id + 1;
    }
    id := 0;
    while id < |g.nodes|
      invariant g.Valid() && id <= |g.nodes| == |was|
      invariant forall x: NodeId :: x < |was| ==>
        g.nodes[x] == (if was[x].dead then was[x]
                       else was[x].(inputs := Renamed(map_, was[x].inputs), dead := x < id && map_[x].Some?))
    {
      if map_[id].Some? {
        RewrittenAlive(was, map_, id);
        g.MarkDead(id);
      }
      id := id + 1;
    }
  }

  lemma RewrittenAlive(nodes: seq<Node>, rw: Rewrites, id: NodeId)
    requires Numbered(nodes, rw, |nodes|) && id < |nodes| && rw[id].Some?
    ensures !nodes[id].dead
  {
    assert Leads(nodes, rw, rw[id].value, id);
  }
}
