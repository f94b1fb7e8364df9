/** Parameter and argument moves: an exhaustive search for an order in which no move destroys a source
    still to be read, with one source staged in RAX when there is none. */
module ParallelMove {
  import opened Wrappers
  import opened X86
  import opened Finite

  datatype Move = Move(src: Reg, dst: Reg)

  /** Emitting `earlier` first would destroy what `later` reads; a move onto itself reads nothing new. */
  predicate Clobbers(earlier: Move, later: Move) {
    earlier.dst == later.src && later.src != later.dst
  }

  predicate IsPermutation(order: seq<nat>, n: nat) {
    && |order| == n
    && (forall i :: 0 <= i < n ==> order[i] < n)
    && (forall i, j :: 0 <= i < j < n ==> order[i] != order[j])
  }

  predicate InBounds(moves: seq<Move>, order: seq<nat>) {
    forall i :: 0 <= i < |order| ==> order[i] < |moves|
  }

  predicate Safe(moves: seq<Move>, order: seq<nat>)
    requires InBounds(moves, order)
  {
    forall i, j :: 0 <= j < i < |order| ==> !Clobbers(moves[order[j]], moves[order[i]])
  }

  // ---- The orderings `std::next_permutation` steps through, from the identity on ----

  function Drop(pool: seq<nat>, k: nat): (r: seq<nat>)
    requires k < |pool|
    ensures |r| == |pool| - 1
  {
    pool[..k] + pool[k + 1..]
  }

  function Prepend(x: nat, tails: seq<seq<nat>>): (r: seq<seq<nat>>)
    ensures |r| == |tails|
    ensures forall i :: 0 <= i < |r| ==> r[i] == [x] + tails[i]
  {
    if tails == [] then [] else [[x] + tails[0]] + Prepend(x, tails[1..])
  }

  /** All orderings of `pool` that start with one of its elements from `k` on. */
  function OrderingsFrom(pool: seq<nat>, k: nat): seq<seq<nat>>
    requires k <= |pool|
    decreases |pool|, |pool| - k
  {
    if k == |pool| then []
    else Prepend(pool[k], Orderings(Drop(pool, k))) + OrderingsFrom(pool, k + 1)
  }

  function Orderings(pool: seq<nat>): seq<seq<nat>>
    decreases |pool|, |pool| + 1
  {
    if pool == [] then [[]] else OrderingsFrom(pool, 0)
  }

  function Identity(n: nat): (r: seq<nat>)
    ensures |r| == n
    ensures forall i :: 0 <= i < n ==> r[i] == i
  {
    if n == 0 then [] else Identity(n - 1) + [n - 1]
  }

  lemma {:induction false} OrderingsArePermutations(pool: seq<nat>, o: seq<nat>)
    requires o in Orderings(pool)
    ensures multiset(o) == multiset(pool)
    decreases |pool|, |pool| + 1
  {
    if pool != [] {
      OrderingsFromArePermutations(pool, 0, o);
    }
  }

  lemma {:induction false} OrderingsFromArePermutations(pool: seq<nat>, k: nat, o: seq<nat>)
    requires k <= |pool| && o in OrderingsFrom(pool, k)
    ensures multiset(o) == multiset(pool)
    decreases |pool|, |pool| - k
  {
    var mine := Prepend(pool[k], Orderings(Drop(pool, k)));
    if o in mine {
      var i :| 0 <= i < |mine| && mine[i] == o;
      OrderingsArePermutations(Drop(pool, k), o[1..]);
      assert o == [pool[k]] + o[1..];
      assert pool == pool[..k] + [pool[k]] + pool[k + 1..];
    } else {
      OrderingsFromArePermutations(pool, k + 1, o);
    }
  }

  lemma {:induction false} OrderingsComplete(pool: seq<nat>, o: seq<nat>)
    requires multiset(o) == multiset(pool)
    ensures o in Orderings(pool)
    decreases |pool|
  {
    if pool == [] {
      assert |multiset(o)| == 0;
      assert o == [];
    } else {
      assert |multiset(o)| == |pool|;
      assert o == [o[0]] + o[1..];
      assert o[0] in multiset(o);
      var k :| 0 <= k < |pool| && pool[k] == o[0];
      assert pool == pool[..k] + [pool[k]] + pool[k + 1..];
      assert multiset(Drop(pool, k)) == multiset(pool) - multiset{o[0]};
      OrderingsComplete(Drop(pool, k), o[1..]);
      var tails := Orderings(Drop(pool, k));
      var t :| 0 <= t < |tails| && tails[t] == o[1..];
      assert Prepend(pool[k], tails)[t] == o;
      OrderingsFromIncludes(pool, 0, k, o);
    }
  }

  lemma {:induction false} OrderingsFromIncludes(pool: seq<nat>, from: nat, k: nat, o: seq<nat>)
    requires from <= k < |pool|
    requires o in Prepend(pool[k], Orderings(Drop(pool, k)))
    ensures o in OrderingsFrom(pool, from)
    decreases k - from
  {
    if from < k {
      OrderingsFromIncludes(pool, from + 1, k, o);
    }
  }

  lemma {:induction false} DistinctCount(o: seq<nat>, x: nat)
    requires forall i, j :: 0 <= i < j < |o| ==> o[i] != o[j]
    ensures multiset(o)[x] == if x in o then 1 else 0
  {
    if o != [] {
      DistinctCount(o[1..], x);
      assert o == [o[0]] + o[1..];
    }
  }

  lemma IdentityOrderings(o: seq<nat>, n: nat)
    ensures o in Orderings(Identity(n)) <==> IsPermutation(o, n)
  {
    if o in Orderings(Identity(n)) {
      OrderingsArePermutations(Identity(n), o);
      PermutationOfMultiset(o, n);
    }
    if IsPermutation(o, n) {
      MultisetOfPermutation(o, n);
      OrderingsComplete(Identity(n), o);
    }
  }

  lemma PermutationOfMultiset(o: seq<nat>, n: nat)
    requires multiset(o) == multiset(Identity(n))
    ensures IsPermutation(o, n)
  {
    assert |multiset(o)| == |o| && |multiset(Identity(n))| == n;
    forall i | 0 <= i < |o| ensures o[i] < n {
      assert o[i] in multiset(Identity(n));
    }
    forall i, j | 0 <= i < j < |o| ensures o[i] != o[j] {
      if o[i] == o[j] {
        assert o == o[..i] + [o[i]] + o[i + 1..j] + [o[j]] + o[j + 1..];
        assert multiset(o)[o[i]] >= 2;
        DistinctCount(Identity(n), o[i]);
        assert false;
      }
    }
  }

  lemma MultisetOfPermutation(o: seq<nat>, n: nat)
    requires IsPermutation(o, n)
    ensures multiset(o) == multiset(Identity(n))
  {
    forall x: nat ensures multiset(o)[x] == multiset(Identity(n))[x] {
      DistinctCount(o, x);
      DistinctCount(Identity(n), x);
      if x < n { PermutationOnto(o, n, x); assert Identity(n)[x] == x; }
    }
  }

  lemma PermutationOnto(o: seq<nat>, n: nat, x: nat)
    requires IsPermutation(o, n) && x < n
    ensures x in o
  {
    if x !in o {
      var pool := Range(0, n) - {x};
      var _, _ := Pigeonhole(o, pool);
    }
  }

  // ---- The search ----

  function FirstSafe(moves: seq<Move>, orders: seq<seq<nat>>): (r: Option<seq<nat>>)
    requires forall o :: o in orders ==> InBounds(moves, o)
    ensures r.Some? ==> r.value in orders && Safe(moves, r.value)
    ensures r.None? ==> forall o :: o in orders ==> !Safe(moves, o)
  {
    if orders == [] then None
    else if Safe(moves, orders[0]) then Some(orders[0])
    else FirstSafe(moves, orders[1..])
  }

  lemma OrderingsInBounds(moves: seq<Move>)
    ensures forall o :: o in Orderings(Identity(|moves|)) ==> InBounds(moves, o)
  {
    forall o | o in Orderings(Identity(|moves|)) ensures InBounds(moves, o) {
      IdentityOrderings(o, |moves|);
    }
  }

  /** The order the search settles on: the first safe one. */
  function SafeOrder(moves: seq<Move>): (r: Option<seq<nat>>)
    ensures r.Some? ==> IsPermutation(r.value, |moves|) && InBounds(moves, r.value) && Safe(moves, r.value)
    ensures r.None? ==> forall o :: IsPermutation(o, |moves|) ==> InBounds(moves, o) && !Safe(moves, o)
  {
    OrderingsInBounds(moves);
    var r := FirstSafe(moves, Orderings(Identity(|moves|)));
    assert r.Some? ==> IsPermutation(r.value, |moves|) by {
      if r.Some? { IdentityOrderings(r.value, |moves|); }
    }
    assert r.None? ==> forall o :: IsPermutation(o, |moves|) ==> InBounds(moves, o) && !Safe(moves, o) by {
      forall o | IsPermutation(o, |moves|)
        ensures InBounds(moves, o) && (r.None? ==> !Safe(moves, o))
      {
        IdentityOrderings(o, |moves|);
      }
    }
    r
  }

  function MovesInOrder(moves: seq<Move>, order: seq<nat>): (r: seq<Ins>)
    requires InBounds(moves, order)
    ensures |r| == |order|
    ensures forall i :: 0 <= i < |r| ==> r[i] == MovRR(moves[order[i]].dst, moves[order[i]].src)
  {
    if order == [] then []
    else MovesInOrder(moves, order[..|order| - 1])
         + [MovRR(moves[order[|order| - 1]].dst, moves[order[|order| - 1]].src)]
  }

  function Staged(moves: seq<Move>): seq<Move>
    requires moves != []
  {
    moves[0 := Move(RAX, moves[0].dst)]
  }

  /** The instructions for a set of moves, or `None` when even staging leaves no safe order. */
  function Resolve(moves: seq<Move>): Option<seq<Ins>> {
    match SafeOrder(moves)
    case Some(order) => Some(MovesInOrder(moves, order))
    case None =>
      if moves == [] then None
      else
        match SafeOrder(Staged(moves))
        case Some(order) =>
          Some([MovRR(RAX, moves[0].src)] + MovesInOrder(Staged(moves), order))
        case None => None
  }

  method IsSafe(moves: seq<Move>, order: seq<nat>) returns (ok: bool)
    requires InBounds(moves, order)
    ensures ok == Safe(moves, order)
  {
    ok := true;
    var i := 0;
    while i < |order| && ok
      invariant 0 <= i <= |order|
      invariant ok ==> forall a, b :: 0 <= b < a < i ==> !Clobbers(moves[order[b]], moves[order[a]])
      invariant !ok ==> !Safe(moves, order)
    {
      for j := 0 to i
        invariant ok
        invariant forall b :: 0 <= b < j ==> !Clobbers(moves[order[b]], moves[order[i]])
      {
        if Clobbers(moves[order[j]], moves[order[i]]) {
          ok := false;
          break;
        }
      }
      i := i + 1;
    }
  }

  method ResolveMoves(moves0: seq<Move>) returns (code: Option<seq<Ins>>)
    ensures code == Resolve(moves0)
  {
    var moves := moves0;
    var staged := false;
    var prefix: seq<Ins> := [];
    while true
      invariant |moves| == |moves0|
      invariant !staged ==> moves == moves0 && prefix == []
      invariant staged ==> moves0 != [] && SafeOrder(moves0).None? && moves == Staged(moves0)
                           && prefix == [MovRR(RAX, moves0[0].src)]
      decreases if staged then 0 else 1
    {
      OrderingsInBounds(moves);
      var orders := Orderings(Identity(|moves|));
      for k := 0 to |orders|
        invariant FirstSafe(moves, orders) == FirstSafe(moves, orders[k..])
      {
        assert orders[k] in orders;
        var ok := IsSafe(moves, orders[k]);
        if ok {
          assert SafeOrder(moves) == Some(orders[k]);
          assert [] + MovesInOrder(moves, orders[k]) == MovesInOrder(moves, orders[k]);
          return Some(prefix + MovesInOrder(moves, orders[k]));
        }
      }
      if staged || moves == [] {
        return None;
      }
      prefix := [MovRR(RAX, moves[0].src)];
      moves := moves[0 := Move(RAX, moves[0].dst)];
      staged := true;
    }
  }

  // ---- When the search succeeds ----

  /** `b` has to be emitted before `a`: a step of the move graph. */
  ghost predicate MustPrecede(moves: seq<Move>, b: nat, a: nat)
    requires a < |moves| && b < |moves|
  {
    Clobbers(moves[a], moves[b])
  }

  ghost predicate Chain(moves: seq<Move>, c: seq<nat>) {
    InBounds(moves, c) && forall k :: 1 <= k < |c| ==> MustPrecede(moves, c[k - 1], c[k])
  }

  /** A closed chain of moves, each overwriting the source of the one before. */
  ghost predicate Cycle(moves: seq<Move>, c: seq<nat>) {
    |c| >= 2 && Chain(moves, c) && MustPrecede(moves, c[|c| - 1], c[0])
  }

  lemma {:induction false} LatestInChain(order: seq<nat>, c: seq<nat>, n: nat) returns (k: nat)
    requires 0 < n <= |c| && forall i :: 0 <= i < |c| ==> c[i] in order
    ensures k < n
    ensures forall i :: 0 <= i < n ==> Place(order, c[i]) <= Place(order, c[k])
  {
    k := 0;
    if n > 1 {
      k := LatestInChain(order, c, n - 1);
      if Place(order, c[n - 1]) > Place(order, c[k]) { k := n - 1; }
    }
  }

  ghost function Place(order: seq<nat>, x: nat): (i: nat)
    requires x in order
    ensures i < |order| && order[i] == x
  {
    if order[0] == x then 0 else 1 + Place(order[1..], x)
  }

  lemma CycleHasNoOrder(moves: seq<Move>, c: seq<nat>, order: seq<nat>)
    requires Cycle(moves, c) && IsPermutation(order, |moves|) && InBounds(moves, order)
    ensures !Safe(moves, order)
  {
    forall i | 0 <= i < |c| ensures c[i] in order {
      PermutationOnto(order, |moves|, c[i]);
    }
    var k := LatestInChain(order, c, |c|);
    var next := if k == |c| - 1 then 0 else k + 1;
    assert k < |c| - 1 ==> MustPrecede(moves, c[(k + 1) - 1], c[k + 1]);
    assert MustPrecede(moves, c[k], c[next]);
    assert c[next] != c[k];
    assert Place(order, c[next]) < Place(order, c[k]);
  }

  ghost predicate Indices(moves: seq<Move>, pool: set<nat>) {
    forall x :: x in pool ==> x < |moves|
  }

  /** Some move of the pool has to be emitted before `m`. */
  ghost predicate Preceded(moves: seq<Move>, pool: set<nat>, m: nat)
    requires Indices(moves, pool) && m < |moves|
  {
    exists b :: b in pool && MustPrecede(moves, b, m)
  }

  lemma Predecessor(moves: seq<Move>, pool: set<nat>, m: nat) returns (b: nat)
    requires Indices(moves, pool) && m in pool && Preceded(moves, pool, m)
    ensures b in pool && MustPrecede(moves, b, m)
  {
    b :| b in pool && MustPrecede(moves, b, m);
  }

  /** A chain of `n` further moves, each of which has to come before the next. */
  lemma {:induction false} WalkBack(moves: seq<Move>, pool: set<nat>, n: nat) returns (w: seq<nat>)
    requires Indices(moves, pool) && pool != {}
    requires forall m {:trigger Preceded(moves, pool, m)} :: m in pool ==> Preceded(moves, pool, m)
    ensures |w| == n + 1 && Chain(moves, w)
    ensures forall k :: 0 <= k < |w| ==> w[k] in pool
  {
    if n == 0 {
      var a :| a in pool;
      w := [a];
    } else {
      var v := WalkBack(moves, pool, n - 1);
      assert Preceded(moves, pool, v[0]);
      var b := Predecessor(moves, pool, v[0]);
      w := [b] + v;
      ChainGrows(moves, b, v);
    }
  }

  lemma ChainGrows(moves: seq<Move>, b: nat, v: seq<nat>)
    requires v != [] && Chain(moves, v) && b < |moves| && MustPrecede(moves, b, v[0])
    ensures Chain(moves, [b] + v)
  {
    var w := [b] + v;
    forall k | 1 <= k < |w| ensures MustPrecede(moves, w[k - 1], w[k]) {
      if k > 1 { assert MustPrecede(moves, v[k - 2], v[k - 1]); }
    }
  }

  lemma RepeatIsCycle(moves: seq<Move>, w: seq<nat>, i: nat, j: nat)
    requires Chain(moves, w) && i < j < |w| && w[i] == w[j]
    ensures Cycle(moves, w[i..j])
  {
    var c := w[i..j];
    assert MustPrecede(moves, w[j - 1], w[j]);
    forall k | 1 <= k < |c| ensures MustPrecede(moves, c[k - 1], c[k]) {
      assert c[k] == w[i + k] && c[k - 1] == w[i + k - 1];
    }
  }

  lemma UnprecededExists(moves: seq<Move>, pool: set<nat>) returns (m: nat)
    requires Indices(moves, pool) && pool != {}
    requires forall c :: !Cycle(moves, c)
    ensures m in pool && !Preceded(moves, pool, m)
  {
    if forall m {:trigger Preceded(moves, pool, m)} :: m in pool ==> Preceded(moves, pool, m) {
      var w := WalkBack(moves, pool, |pool|);
      var i, j := Pigeonhole(w, pool);
      RepeatIsCycle(moves, w, i, j);
      assert false;
    }
    m :| m in pool && !Preceded(moves, pool, m);
  }

  lemma {:induction false} OrderExists(moves: seq<Move>, pool: set<nat>) returns (o: seq<nat>)
    requires Indices(moves, pool) && forall c :: !Cycle(moves, c)
    ensures Members(o) == pool && Distinct(o) && |o| == |pool|
    ensures InBounds(moves, o) && Safe(moves, o)
    decreases |pool|
  {
    if pool == {} {
      o := [];
    } else {
      var m := UnprecededExists(moves, pool);
      var rest := OrderExists(moves, pool - {m});
      o := [m] + rest;
      UnprecededFirst(moves, pool, m, rest);
    }
  }

  lemma UnprecededFirst(moves: seq<Move>, pool: set<nat>, m: nat, rest: seq<nat>)
    requires Indices(moves, pool) && m in pool && !Preceded(moves, pool, m)
    requires Members(rest) == pool - {m} && Distinct(rest) && InBounds(moves, rest) && Safe(moves, rest)
    ensures var o := [m] + rest;
      Members(o) == pool && Distinct(o) && InBounds(moves, o) && Safe(moves, o)
  {
    var o := [m] + rest;
    assert Members(o) == Members(rest) + {m};
    forall i | 0 <= i < |rest| ensures rest[i] in pool && rest[i] != m && !MustPrecede(moves, rest[i], m) {
      assert rest[i] in Members(rest);
    }
    forall i, j | 0 <= j < i < |o| ensures !Clobbers(moves[o[j]], moves[o[i]]) {
      assert o[i] == rest[i - 1];
      if j > 0 { assert o[j] == rest[j - 1]; }
    }
  }

  /** The unstaged search finds an order exactly when the move graph has no cycle. */
  lemma SafeOrderExactly(moves: seq<Move>)
    ensures SafeOrder(moves).Some? <==> !exists c :: Cycle(moves, c)
  {
    if c :| Cycle(moves, c) {
      if SafeOrder(moves).Some? {
        CycleHasNoOrder(moves, c, SafeOrder(moves).value);
      }
    } else {
      var o := OrderExists(moves, Range(0, |moves|));
      forall i | 0 <= i < |o| ensures o[i] < |moves| {
        assert o[i] in Members(o);
      }
      assert IsPermutation(o, |moves|);
    }
  }

  /** Staging the first move resolves exactly the move sets all of whose cycles pass through it. */
  lemma ResolveExactly(moves: seq<Move>)
    requires AvoidsScratch(moves)
    ensures Resolve(moves).Some? <==> forall c :: Cycle(moves, c) ==> 0 in c
  {
    SafeOrderExactly(moves);
    if moves != [] {
      SafeOrderExactly(Staged(moves));
      forall c ensures Cycle(Staged(moves), c) <==> Cycle(moves, c) && 0 !in c {
        StagedCycles(moves, c);
      }
    }
  }

  lemma StagedCycles(moves: seq<Move>, c: seq<nat>)
    requires moves != [] && AvoidsScratch(moves)
    ensures Cycle(Staged(moves), c) <==> Cycle(moves, c) && 0 !in c
  {
    var staged := Staged(moves);
    if Cycle(staged, c) {
      forall k | 0 <= k < |c| ensures c[k] != 0 {
        assert k < |c| - 1 ==> MustPrecede(staged, c[(k + 1) - 1], c[k + 1]);
      }
      assert forall k :: 0 <= k < |c| ==> staged[c[k]] == moves[c[k]];
    } else if Cycle(moves, c) && 0 !in c {
      assert forall k :: 0 <= k < |c| ==> staged[c[k]] == moves[c[k]];
      assert Cycle(staged, c);
    }
  }

  // ---- The search settles on the least safe order ----

  /** `a` comes before `b` in the order of `std::next_permutation`. */
  ghost predicate Earlier(a: seq<nat>, b: seq<nat>) {
    exists k :: 0 <= k < |a| && k < |b| && a[..k] == b[..k] && a[k] < b[k]
  }

  ghost predicate Sorted(orders: seq<seq<nat>>) {
    forall i, j :: 0 <= i < j < |orders| ==> Earlier(orders[i], orders[j])
  }

  ghost predicate Ascending(pool: seq<nat>) {
    forall i, j :: 0 <= i < j < |pool| ==> pool[i] < pool[j]
  }

  lemma SamePrefix(a: seq<nat>, b: seq<nat>, n: nat, k: nat)
    requires k < n <= |a| && n <= |b| && a[..n] == b[..n]
    ensures a[k] == b[k]
  {
    assert a[..n][k] == b[..n][k];
  }

  lemma EarlierOneWay(a: seq<nat>, b: seq<nat>)
    requires Earlier(a, b)
    ensures a != b && !Earlier(b, a)
  {
    var k :| 0 <= k < |a| && k < |b| && a[..k] == b[..k] && a[k] < b[k];
    forall n | 0 <= n < |b| && n < |a| && b[..n] == a[..n] ensures b[n] >= a[n] {
      if n < k { SamePrefix(a, b, k, n); } else if k < n { SamePrefix(b, a, n, k); }
    }
  }

  lemma EarlierPrepend(x: nat, a: seq<nat>, b: seq<nat>)
    requires Earlier(a, b)
    ensures Earlier([x] + a, [x] + b)
  {
    var k :| 0 <= k < |a| && k < |b| && a[..k] == b[..k] && a[k] < b[k];
    var u, v := [x] + a, [x] + b;
    assert u[..k + 1] == [x] + a[..k] && v[..k + 1] == [x] + b[..k];
    assert u[k + 1] < v[k + 1];
  }

  lemma {:induction false} OrderingsSorted(pool: seq<nat>)
    requires Ascending(pool)
    ensures Sorted(Orderings(pool))
    decreases |pool|, |pool| + 1
  {
    if pool != [] {
      OrderingsFromSorted(pool, 0);
    }
  }

  lemma {:induction false} OrderingsFromSorted(pool: seq<nat>, k: nat)
    requires Ascending(pool) && k <= |pool|
    ensures Sorted(OrderingsFrom(pool, k))
    ensures forall o :: o in OrderingsFrom(pool, k) ==> o != [] && o[0] in pool[k..]
    decreases |pool|, |pool| - k
  {
    if k < |pool| {
      var tails := Orderings(Drop(pool, k));
      var mine := Prepend(pool[k], tails);
      var rest := OrderingsFrom(pool, k + 1);
      OrderingsSorted(Drop(pool, k));
      OrderingsFromSorted(pool, k + 1);
      forall i, j | 0 <= i < j < |mine| ensures Earlier(mine[i], mine[j]) {
        EarlierPrepend(pool[k], tails[i], tails[j]);
      }
      forall i, j | 0 <= i < |mine| && 0 <= j < |rest| ensures Earlier(mine[i], rest[j]) {
        assert rest[j] in rest && rest[j][0] in pool[k + 1..];
        assert mine[i][..0] == rest[j][..0] && mine[i][0] < rest[j][0];
      }
      var all := mine + rest;
      forall o | o in all ensures o != [] && o[0] in pool[k..] {
        if o in rest {
          var a :| 0 <= a < |pool[k + 1..]| && pool[k + 1..][a] == o[0];
          assert pool[k..][a + 1] == o[0];
        } else {
          assert pool[k..][0] == pool[k];
        }
      }
    }
  }

  lemma {:induction false} FirstSafeIsLeast(moves: seq<Move>, orders: seq<seq<nat>>, o: seq<nat>)
    requires (forall q :: q in orders ==> InBounds(moves, q)) && Sorted(orders) && o in orders && Safe(moves, o)
    ensures FirstSafe(moves, orders).Some?
    ensures FirstSafe(moves, orders).value == o || Earlier(FirstSafe(moves, orders).value, o)
  {
    if !Safe(moves, orders[0]) {
      assert o in orders[1..];
      FirstSafeIsLeast(moves, orders[1..], o);
    }
  }

  lemma SafeOrderIsLeast(moves: seq<Move>, o: seq<nat>)
    requires IsPermutation(o, |moves|) && InBounds(moves, o) && Safe(moves, o)
    ensures SafeOrder(moves).Some? && !Earlier(o, SafeOrder(moves).value)
  {
    var orders := Orderings(Identity(|moves|));
    OrderingsInBounds(moves);
    IdentityOrderings(o, |moves|);
    OrderingsSorted(Identity(|moves|));
    FirstSafeIsLeast(moves, orders, o);
    var first := FirstSafe(moves, orders).value;
    if Earlier(first, o) { EarlierOneWay(first, o); } else if Earlier(o, first) { EarlierOneWay(o, first); }
  }

  /** The element at `j` taken out and put in again at `i`. */
  function Advanced(o: seq<nat>, i: nat, j: nat): (r: seq<nat>)
    requires i < j < |o|
    ensures |r| == |o|
    ensures forall t :: 0 <= t < |r| ==> r[t] == if t < i || t > j then o[t] else if t == i then o[j] else o[t - 1]
  {
    o[..i] + [o[j]] + o[i..j] + o[j + 1..]
  }

  /** Moving the later of two moves into one register directly before the earlier keeps an order safe. */
  lemma AdvancedSafe(moves: seq<Move>, o: seq<nat>, i: nat, j: nat)
    requires IsPermutation(o, |moves|) && InBounds(moves, o) && Safe(moves, o)
    requires i < j < |o| && moves[o[i]].dst == moves[o[j]].dst
    ensures var r := Advanced(o, i, j); IsPermutation(r, |moves|) && InBounds(moves, r) && Safe(moves, r)
  {
    var r := Advanced(o, i, j);
    forall a, b | 0 <= b < a < |r| ensures !Clobbers(moves[r[b]], moves[r[a]]) {
      if b == i && i + 1 < a <= j { assert !Clobbers(moves[o[i]], moves[o[a - 1]]); }
    }
    assert multiset(r) == multiset(o) by {
      assert o == o[..i] + o[i..j] + [o[j]] + o[j + 1..];
    }
    MultisetOfPermutation(o, |moves|);
    PermutationOfMultiset(r, |moves|);
  }

  lemma AdvancedEarlier(o: seq<nat>, i: nat, j: nat)
    requires i < j < |o| && o[j] < o[i]
    ensures Earlier(Advanced(o, i, j), o)
  {
    assert Advanced(o, i, j)[..i] == o[..i];
  }

  /** The chosen order emits the moves into one register in list order. */
  lemma SafeOrderKeepsList(moves: seq<Move>, i: nat, j: nat)
    requires SafeOrder(moves).Some? && i < j < |moves|
    requires var o := SafeOrder(moves).value; moves[o[i]].dst == moves[o[j]].dst
    ensures SafeOrder(moves).value[i] < SafeOrder(moves).value[j]
  {
    var o := SafeOrder(moves).value;
    if o[j] < o[i] {
      AdvancedSafe(moves, o, i, j);
      AdvancedEarlier(o, i, j);
      SafeOrderIsLeast(moves, Advanced(o, i, j));
    }
  }

  // ---- What the moves achieve ----

  predicate AvoidsScratch(moves: seq<Move>) {
    forall i :: 0 <= i < |moves| ==>
      moves[i].src != RAX && moves[i].dst != RAX && moves[i].src != RSP && moves[i].dst != RSP
  }

  predicate AvoidsStack(moves: seq<Move>) {
    forall i :: 0 <= i < |moves| ==> moves[i].src != RSP && moves[i].dst != RSP
  }

  /** `m` gives `r` a value; a move onto itself does not. */
  predicate Writes(m: Move, r: Reg) {
    m.dst == r && m.src != m.dst
  }

  /** The register whose old value the first `n` moves of an order bring to `r`: the source of the last of them that
      writes it, and `r` itself when none does. */
  function OriginAlong(moves: seq<Move>, order: seq<nat>, n: nat, r: Reg): Reg
    requires InBounds(moves, order) && n <= |order|
  {
    if n == 0 then r
    else if Writes(moves[order[n - 1]], r) then moves[order[n - 1]].src
    else OriginAlong(moves, order, n - 1, r)
  }

  /** The same in list order. */
  function Origin(moves: seq<Move>, n: nat, r: Reg): Reg
    requires n <= |moves|
  {
    if n == 0 then r else if Writes(moves[n - 1], r) then moves[n - 1].src else Origin(moves, n - 1, r)
  }

  lemma {:induction false} OriginOfLast(moves: seq<Move>, n: nat, r: Reg, i: nat)
    requires i < n <= |moves| && Writes(moves[i], r) && forall j :: i < j < n ==> !Writes(moves[j], r)
    ensures Origin(moves, n, r) == moves[i].src
  {
    if i < n - 1 { OriginOfLast(moves, n - 1, r, i); }
  }

  lemma {:induction false} OriginOfNone(moves: seq<Move>, n: nat, r: Reg)
    requires n <= |moves| && forall j :: 0 <= j < n ==> !Writes(moves[j], r)
    ensures Origin(moves, n, r) == r
  {
    if n > 0 { OriginOfNone(moves, n - 1, r); }
  }

  lemma {:induction false} AlongOfNone(moves: seq<Move>, order: seq<nat>, n: nat, r: Reg)
    requires InBounds(moves, order) && n <= |order| && forall j :: 0 <= j < n ==> !Writes(moves[order[j]], r)
    ensures OriginAlong(moves, order, n, r) == r
  {
    if n > 0 { AlongOfNone(moves, order, n - 1, r); }
  }

  /** The last write along an order. */
  lemma {:induction false} AlongLast(moves: seq<Move>, order: seq<nat>, n: nat, r: Reg) returns (k: nat)
    requires InBounds(moves, order) && n <= |order| && exists j :: 0 <= j < n && Writes(moves[order[j]], r)
    ensures k < n && Writes(moves[order[k]], r) && OriginAlong(moves, order, n, r) == moves[order[k]].src
    ensures forall j :: k < j < n ==> !Writes(moves[order[j]], r)
  {
    if Writes(moves[order[n - 1]], r) { k := n - 1; } else { k := AlongLast(moves, order, n - 1, r); }
  }

  /** Moves into one register stand in list order. */
  ghost predicate InListOrder(moves: seq<Move>, order: seq<nat>)
    requires InBounds(moves, order)
  {
    forall i, j :: 0 <= i < j < |order| && moves[order[i]].dst == moves[order[j]].dst ==> order[i] < order[j]
  }

  lemma ListOrderAt(moves: seq<Move>, order: seq<nat>, a: nat, k: nat)
    requires InBounds(moves, order) && InListOrder(moves, order)
    requires a < |order| && k < |order| && moves[order[a]].dst == moves[order[k]].dst
    ensures a < k <==> order[a] < order[k]
  {
  }

  /** An order that keeps the list order of moves into one register brings every register the same. */
  lemma AlongIsOrigin(moves: seq<Move>, order: seq<nat>, r: Reg)
    requires IsPermutation(order, |moves|) && InBounds(moves, order) && InListOrder(moves, order)
    ensures OriginAlong(moves, order, |order|, r) == Origin(moves, |moves|, r)
  {
    if exists j :: 0 <= j < |order| && Writes(moves[order[j]], r) {
      var k := AlongLast(moves, order, |order|, r);
      forall j | order[k] < j < |moves| ensures !Writes(moves[j], r) {
        PermutationOnto(order, |moves|, j);
        var a :| 0 <= a < |order| && order[a] == j;
        if moves[j].dst == r { ListOrderAt(moves, order, a, k); }
      }
      OriginOfLast(moves, |moves|, r, order[k]);
    } else {
      AlongOfNone(moves, order, |order|, r);
      forall j | 0 <= j < |moves| ensures !Writes(moves[j], r) {
        PermutationOnto(order, |moves|, j);
      }
      OriginOfNone(moves, |moves|, r);
    }
  }

  /** The registers after the first `n` moves of an order. */
  ghost function MovedInOrder(moves: seq<Move>, order: seq<nat>, n: nat, regs: RegFile): RegFile
    requires InBounds(moves, order) && n <= |order|
  {
    if n == 0 then regs
    else
      var before := MovedInOrder(moves, order, n - 1, regs);
      var m := moves[order[n - 1]];
      before[m.dst := before[m.src]]
  }

  lemma {:induction false} ExecMovesInOrder(moves: seq<Move>, order: seq<nat>, n: nat, c: Core)
    requires InBounds(moves, order) && n <= |order| && AvoidsStack(moves)
    ensures InBounds(moves, order[..n])
    ensures ExecSeq(MovesInOrder(moves, order[..n]), c) == Some(c.(regs := MovedInOrder(moves, order, n, c.regs)))
  {
    if n > 0 {
      ExecMovesInOrder(moves, order, n - 1, c);
      assert order[..n][..n - 1] == order[..n - 1];
      var m := moves[order[n - 1]];
      ExecSeqAppend(MovesInOrder(moves, order[..n - 1]), [MovRR(m.dst, m.src)], c);
      assert [MovRR(m.dst, m.src)][1..] == [];
    }
  }

  /** In a safe order every move reads the old value of its source, or copies a register onto itself. */
  lemma {:induction false} SafeMoves(moves: seq<Move>, order: seq<nat>, n: nat, regs: RegFile, r: Reg)
    requires InBounds(moves, order) && Safe(moves, order) && n <= |order|
    ensures MovedInOrder(moves, order, n, regs)[r] == regs[OriginAlong(moves, order, n, r)]
  {
    if n > 0 {
      SafeMoves(moves, order, n - 1, regs, r);
      var m := moves[order[n - 1]];
      SafeMoves(moves, order, n - 1, regs, m.src);
      if Writes(m, r) {
        forall j | 0 <= j < n - 1 ensures !Writes(moves[order[j]], m.src) {
          assert !Clobbers(moves[order[j]], m);
        }
        AlongOfNone(moves, order, n - 1, m.src);
      }
    }
  }

  lemma SafeOrderCarries(moves: seq<Move>, c: Core, r: Reg)
    requires SafeOrder(moves).Some? && AvoidsStack(moves)
    ensures var o := ExecSeq(MovesInOrder(moves, SafeOrder(moves).value), c);
      && o.Some? && o.value.stack == c.stack && o.value.flags == c.flags
      && o.value.regs[r] == c.regs[Origin(moves, |moves|, r)]
  {
    var order := SafeOrder(moves).value;
    ExecMovesInOrder(moves, order, |order|, c);
    assert order[..|order|] == order;
    SafeMoves(moves, order, |order|, c.regs, r);
    forall i, j | 0 <= i < j < |order| && moves[order[i]].dst == moves[order[j]].dst ensures order[i] < order[j] {
      SafeOrderKeepsList(moves, i, j);
    }
    AlongIsOrigin(moves, order, r);
  }

  // ---- The same when the first source is staged ----

  /** A move that had to be staged is not one of a register onto itself. */
  lemma StagedMoves(moves: seq<Move>)
    requires AvoidsScratch(moves) && moves != [] && SafeOrder(moves).None? && SafeOrder(Staged(moves)).Some?
    ensures moves[0].src != moves[0].dst
  {
    SafeOrderExactly(moves);
    SafeOrderExactly(Staged(moves));
    var c :| Cycle(moves, c);
    StagedCycles(moves, c);
    var k :| 0 <= k < |c| && c[k] == 0;
    assert k < |c| - 1 ==> MustPrecede(moves, c[(k + 1) - 1], c[k + 1]);
  }

  lemma {:induction false} StagedOrigin(moves: seq<Move>, n: nat, regs: RegFile, r: Reg)
    requires moves != [] && n <= |moves| && AvoidsScratch(moves) && moves[0].src != moves[0].dst && r != RAX
    ensures regs[RAX := regs[moves[0].src]][Origin(Staged(moves), n, r)] == regs[Origin(moves, n, r)]
  {
    if n > 0 { StagedOrigin(moves, n - 1, regs, r); }
  }

  lemma StagedCarries(moves: seq<Move>, c: Core, r: Reg)
    requires moves != [] && AvoidsScratch(moves) && r != RAX
    requires SafeOrder(moves).None? && SafeOrder(Staged(moves)).Some?
    ensures var code := MovesInOrder(Staged(moves), SafeOrder(Staged(moves)).value);
      var o := ExecSeq([MovRR(RAX, moves[0].src)] + code, c);
      && o.Some? && o.value.stack == c.stack && o.value.flags == c.flags
      && o.value.regs[r] == c.regs[Origin(moves, |moves|, r)]
  {
    hide SafeOrder, Safe;
    var first := MovRR(RAX, moves[0].src);
    var c1 := Put(c, RAX, c.regs[moves[0].src]);
    var rest := MovesInOrder(Staged(moves), SafeOrder(Staged(moves)).value);
    StagedMoves(moves);
    SafeOrderCarries(Staged(moves), c1, r);
    StagedOrigin(moves, |moves|, c.regs, r);
    ExecCons(first, rest, c);
  }

  /** What a resolved set of moves, staged or not, leaves in every register: the old value of the source of the last
      move in the list that writes the register, and its own old value when none does. */
  lemma ResolvedCarries(moves: seq<Move>, c: Core, r: Reg)
    requires Resolve(moves).Some? && AvoidsScratch(moves) && r != RAX
    ensures var o := ExecSeq(Resolve(moves).value, c);
      && o.Some? && o.value.stack == c.stack && o.value.flags == c.flags
      && o.value.regs[r] == c.regs[Origin(moves, |moves|, r)]
  {
    hide ExecSeq, Origin;
    match SafeOrder(moves)
    case Some(order) => SafeOrderCarries(moves, c, r);
    case None => StagedCarries(moves, c, r);
  }

  // ---- When that is what the moves ask for ----

  /** No later move has the same destination. */
  predicate IsLast(moves: seq<Move>, i: nat)
    requires i < |moves|
  {
    forall j :: i < j < |moves| ==> moves[j].dst != moves[i].dst
  }

  predicate IsTarget(moves: seq<Move>, r: Reg) {
    exists i :: 0 <= i < |moves| && moves[i].dst == r
  }

  /** Every destination holds what the last move into it read from, before any move; nothing else has changed. */
  ghost predicate LastArrive(moves: seq<Move>, before: RegFile, after: RegFile) {
    && (forall i :: 0 <= i < |moves| && IsLast(moves, i) ==> after[moves[i].dst] == before[moves[i].src])
    && (forall r: Reg :: !IsTarget(moves, r) && r != RAX ==> after[r] == before[r])
  }

  /** The last move into a register keeps its value, but an earlier one has put another there: the safety check lets a
      move of a register onto itself stand anywhere. */
  predicate Overwritten(moves: seq<Move>, i: nat)
    requires i < |moves|
  {
    IsLast(moves, i) && moves[i].src == moves[i].dst && exists j :: 0 <= j < i && Writes(moves[j], moves[i].dst)
  }

  predicate NoneOverwritten(moves: seq<Move>) {
    forall i :: 0 <= i < |moves| ==> !Overwritten(moves, i)
  }

  lemma {:induction false} OriginWritten(moves: seq<Move>, n: nat, r: Reg)
    requires n <= |moves| && exists j :: 0 <= j < n && Writes(moves[j], r)
    ensures Origin(moves, n, r) != r
  {
    if !Writes(moves[n - 1], r) { OriginWritten(moves, n - 1, r); }
  }

  /** A destination gets the source of its last move exactly when that move is not overwritten. */
  lemma OriginOfDestination(moves: seq<Move>, i: nat)
    requires i < |moves| && IsLast(moves, i)
    ensures Origin(moves, |moves|, moves[i].dst) == moves[i].src <==> !Overwritten(moves, i)
  {
    var r := moves[i].dst;
    if Writes(moves[i], r) {
      OriginOfLast(moves, |moves|, r, i);
    } else if Overwritten(moves, i) {
      OriginWritten(moves, |moves|, r);
    } else {
      forall j | 0 <= j < |moves| ensures !Writes(moves[j], r) {
      }
      OriginOfNone(moves, |moves|, r);
    }
  }

  ghost predicate ArrivesFrom(moves: seq<Move>, c: Core)
    requires Resolve(moves).Some?
  {
    var o := ExecSeq(Resolve(moves).value, c);
    o.Some? && o.value.stack == c.stack && o.value.flags == c.flags && LastArrive(moves, c.regs, o.value.regs)
  }

  /** A resolved set of moves gives every destination the source of its last move, from every state, exactly when none
      is overwritten. Where destinations are distinct none is. */
  lemma ResolvedExactly(moves: seq<Move>)
    requires Resolve(moves).Some? && AvoidsScratch(moves)
    ensures NoneOverwritten(moves) <==> forall c: Core :: ArrivesFrom(moves, c)
  {
    hide Resolve, ExecSeq;
    if NoneOverwritten(moves) {
      forall c: Core ensures ArrivesFrom(moves, c) {
        NoneArriveWrong(moves, c);
      }
    } else {
      var i :| 0 <= i < |moves| && Overwritten(moves, i);
      var c := OverwrittenShows(moves, i);
    }
  }

  lemma NoneArriveWrong(moves: seq<Move>, c: Core)
    requires Resolve(moves).Some? && AvoidsScratch(moves) && NoneOverwritten(moves)
    ensures ArrivesFrom(moves, c)
  {
    hide Resolve, ExecSeq, Overwritten;
    var after := ExecSeq(Resolve(moves).value, c);
    ResolvedCarries(moves, c, RCX);
    forall i | 0 <= i < |moves| && IsLast(moves, i) ensures after.value.regs[moves[i].dst] == c.regs[moves[i].src] {
      ResolvedCarries(moves, c, moves[i].dst);
      OriginOfDestination(moves, i);
    }
    forall r: Reg | !IsTarget(moves, r) && r != RAX ensures after.value.regs[r] == c.regs[r] {
      ResolvedCarries(moves, c, r);
      OriginOfNone(moves, |moves|, r);
    }
  }

  /** A state that shows it: the register to be kept holds one, all others zero. */
  lemma OverwrittenShows(moves: seq<Move>, i: nat) returns (c: Core)
    requires Resolve(moves).Some? && AvoidsScratch(moves) && i < |moves| && Overwritten(moves, i)
    ensures !ArrivesFrom(moves, c)
  {
    hide Resolve, ExecSeq;
    var zeros: RegFile := seq(16, _ => 0);
    var regs: RegFile := zeros[moves[i].dst := 1];
    c := Core(regs, None, []);
    ResolvedCarries(moves, c, moves[i].dst);
    OriginOfDestination(moves, i);
  }
}
