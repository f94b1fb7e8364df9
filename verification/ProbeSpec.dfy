/** The layout of the open-addressing hash table: control bytes, slots, and what keeps every key findable. */
module ProbeSpec {
  import opened BitLaws
  import opened Finite
  import opened Words

  type Ctrl = x: nat | x < 256

  const EMPTY: Ctrl := 0x80
  const DELETED: Ctrl := 0xFE

  datatype Slot<K, V> = Slot(key: K, val: V)

  /** The top bit says that a control byte holds no key. */
  predicate Live(c: Ctrl) {
    c < 0x80
  }

  function CtrlFor(h: Word): (c: Ctrl)
    ensures Live(c) && c != 0
  {
    if h % 128 == 0 then 1 else h % 128
  }

  function Home(h: Word, cap: nat): (r: nat)
    requires cap > 0
    ensures r < cap
  {
    h % cap
  }

  function Next(pos: nat, cap: nat): (r: nat)
    requires pos < cap
    ensures r < cap
    ensures r == if pos + 1 == cap then 0 else pos + 1
  {
    (pos + 1) % cap
  }

  /** The position after `n` probes. */
  function Probe(home: nat, n: nat, cap: nat): (r: nat)
    requires home < cap && n < cap
    ensures r < cap
  {
    if home + n < cap then home + n else home + n - cap
  }

  /** How many probes lead from the home of a key to a position. */
  function Gap(home: nat, pos: nat, cap: nat): (r: nat)
    requires home < cap && pos < cap
    ensures r < cap && Probe(home, r, cap) == pos
  {
    if pos >= home then pos - home else pos + cap - home
  }

  lemma NextProbe(home: nat, n: nat, cap: nat)
    requires home < cap && n < cap
    ensures n + 1 < cap ==> Next(Probe(home, n, cap), cap) == Probe(home, n + 1, cap)
  {
  }

  lemma FirstProbe(home: nat, cap: nat)
    requires home < cap
    ensures Probe(home, 0, cap) == home
  {
  }

  lemma DeletedIsFree()
    ensures !Live(DELETED) && !Live(EMPTY)
  {
  }

  lemma GapOfProbe(home: nat, n: nat, cap: nat)
    requires home < cap && n < cap
    ensures Gap(home, Probe(home, n, cap), cap) == n
  {
  }

  /** Masking with `cap - 1`, as the probing loops do, is the remainder by a power of two. */
  lemma {:induction false} MaskIsRemainder(h: nat, cap: nat, bits: nat)
    requires IsPowerOfTwo(cap) && cap <= Pow2(bits)
    ensures Bits(BitAnd, h, cap - 1, bits) == h % cap
  {
    if cap == 1 {
      AndZero(h, bits);
    } else {
      MaskIsRemainder(h / 2, cap / 2, bits - 1);
      assert (cap - 1) / 2 == cap / 2 - 1 && (cap - 1) % 2 == 1;
      HalveRemainder(h, cap / 2);
    }
  }

  /** A search starts at the low bits of the hash, and its tag is the seven lowest bits, with one in place of none. */
  lemma LowBits(h: Word, cap: nat)
    requires IsPowerOfTwo(cap) && cap <= Pow2(64)
    ensures Home(h, cap) == Bits(BitAnd, h, cap - 1, 64)
    ensures var b := Bits(BitAnd, h, 0x7F, 64); CtrlFor(h) == if b == 0 then 1 else b
  {
    MaskIsRemainder(h, cap, 64);
    assert IsPowerOfTwo(128) by {
      assert IsPowerOfTwo(8) by { assert IsPowerOfTwo(4); }
      DoublePower(8);
      DoublePower(16);
      DoublePower(32);
      DoublePower(64);
    }
    MaskIsRemainder(h, 128, 64);
  }

  lemma HalveRemainder(h: nat, m: nat)
    requires m > 0
    ensures h % (2 * m) == h % 2 + 2 * (h / 2 % m)
  {
    var q, r := h / 2 / m, h / 2 % m;
    assert h / 2 == q * m + r;
    assert h == (2 * m) * q + (2 * r + h % 2) by { assert 2 * (q * m) == (2 * m) * q; }
    RemainderUnique(h, 2 * m, q, 2 * r + h % 2);
  }

  lemma RemainderUnique(x: nat, m: nat, q: nat, r: nat)
    requires r < m && x == m * q + r
    ensures x % m == r
  {
    var d := x / m - q;
    assert x == m * (x / m) + x % m;
    assert m * d == m * (x / m) - m * q;
    assert m * d == r - x % m;
  }

  // ---- The table invariant ----

  /** No probe from `home` to `pos` crosses an `EMPTY` byte. */
  ghost predicate Reachable(ctrl: seq<Ctrl>, home: nat, pos: nat)
    requires home < |ctrl| && pos < |ctrl|
  {
    forall n {:trigger Probe(home, n, |ctrl|)} :: 0 <= n < Gap(home, pos, |ctrl|) ==>
      ctrl[Probe(home, n, |ctrl|)] != EMPTY
  }

  ghost predicate Housed<K, V>(ctrl: seq<Ctrl>, slots: seq<Slot<K, V>>, pos: nat, k: K, hash: K -> Word)
    requires |slots| == |ctrl|
  {
    && pos < |ctrl|
    && slots[pos].key == k
    && ctrl[pos] == CtrlFor(hash(k))
    && Reachable(ctrl, Home(hash(k), |ctrl|), pos)
  }

  /** The live slots hold exactly the keys of `place`, each once and each reachable from its home. */
  ghost predicate Holds<K(!new), V>(ctrl: seq<Ctrl>, slots: seq<Slot<K, V>>, place: map<K, nat>, hash: K -> Word) {
    && |slots| == |ctrl|
    && (forall i :: 0 <= i < |ctrl| ==> Live(ctrl[i]) || ctrl[i] == EMPTY || ctrl[i] == DELETED)
    && (forall i :: 0 <= i < |ctrl| && Live(ctrl[i]) ==> slots[i].key in place && place[slots[i].key] == i)
    && (forall k :: k in place ==> Housed(ctrl, slots, place[k], k, hash))
  }

  ghost function Entries<K(!new), V>(slots: seq<Slot<K, V>>, place: map<K, nat>): (m: map<K, V>)
    requires forall k :: k in place ==> place[k] < |slots|
    ensures m.Keys == place.Keys
  {
    map k | k in place :: slots[place[k]].val
  }

  /** The first `n` probes met neither the key nor an `EMPTY` byte. */
  ghost predicate Passed<K, V>(ctrl: seq<Ctrl>, slots: seq<Slot<K, V>>, home: nat, k: K, n: nat)
    requires |slots| == |ctrl| && home < |ctrl| && n <= |ctrl|
  {
    forall j {:trigger Probe(home, j, |ctrl|)} :: 0 <= j < n ==>
      var p := Probe(home, j, |ctrl|); ctrl[p] != EMPTY && !(Live(ctrl[p]) && slots[p].key == k)
  }

  /** A key that is present lies beyond the probes already passed, and before the next `EMPTY` byte. */
  lemma PresentAhead<K(!new), V>(ctrl: seq<Ctrl>, slots: seq<Slot<K, V>>, place: map<K, nat>, hash: K -> Word, k: K,
        n: nat)
    requires Holds(ctrl, slots, place, hash) && |ctrl| > 0 && n <= |ctrl|
    requires k in place && Passed(ctrl, slots, Home(hash(k), |ctrl|), k, n)
    ensures n < |ctrl| && ctrl[Probe(Home(hash(k), |ctrl|), n, |ctrl|)] != EMPTY
  {
    var home := Home(hash(k), |ctrl|);
    var pos := place[k];
    assert Housed(ctrl, slots, pos, k, hash);
    var g := Gap(home, pos, |ctrl|);
    assert Probe(home, g, |ctrl|) == pos;
    assert g >= n;
    if g > n {
      assert ctrl[Probe(home, n, |ctrl|)] != EMPTY;
    }
  }

  /** One more probe that neither ends the search nor meets the key. */
  lemma PassOne<K(!new), V>(ctrl: seq<Ctrl>, slots: seq<Slot<K, V>>, place: map<K, nat>, hash: K -> Word, k: K, n: nat)
    requires Holds(ctrl, slots, place, hash) && n < |ctrl|
    requires Passed(ctrl, slots, Home(hash(k), |ctrl|), k, n)
    requires var p := Probe(Home(hash(k), |ctrl|), n, |ctrl|);
      ctrl[p] != EMPTY && !(ctrl[p] == CtrlFor(hash(k)) && slots[p].key == k)
    ensures Passed(ctrl, slots, Home(hash(k), |ctrl|), k, n + 1)
  {
    hide CtrlFor, Reachable;
    if k in place {
      assert Housed(ctrl, slots, place[k], k, hash);
    }
  }

  /** A match of control byte and key is the place of the key. */
  lemma MatchIsPlace<K(!new), V>(ctrl: seq<Ctrl>, slots: seq<Slot<K, V>>, place: map<K, nat>, hash: K -> Word, k: K,
        p: nat)
    requires Holds(ctrl, slots, place, hash) && p < |ctrl| && ctrl[p] == CtrlFor(hash(k)) && slots[p].key == k
    ensures k in place && place[k] == p
  {
  }

  /** The first `n` probes all met keys. */
  ghost predicate AllLive(ctrl: seq<Ctrl>, home: nat, n: nat)
    requires home < |ctrl| && n <= |ctrl|
  {
    forall j {:trigger Probe(home, j, |ctrl|)} :: 0 <= j < n ==> Live(ctrl[Probe(home, j, |ctrl|)])
  }

  lemma FreeAfterLive(ctrl: seq<Ctrl>, home: nat, n: nat)
    requires home < |ctrl| && n < |ctrl| && AllLive(ctrl, home, n)
    ensures !Live(ctrl[Probe(home, n, |ctrl|)]) ==> FirstFree(ctrl, home, Probe(home, n, |ctrl|))
    ensures Live(ctrl[Probe(home, n, |ctrl|)]) ==> AllLive(ctrl, home, n + 1)
  {
    GapOfProbe(home, n, |ctrl|);
  }

  lemma PassedNone<K, V>(ctrl: seq<Ctrl>, slots: seq<Slot<K, V>>, home: nat, k: K)
    requires |slots| == |ctrl| && home < |ctrl|
    ensures Passed(ctrl, slots, home, k, 0) && AllLive(ctrl, home, 0)
  {
  }

  lemma OtherwiseLive<K(!new), V>(ctrl: seq<Ctrl>, slots: seq<Slot<K, V>>, place: map<K, nat>, hash: K -> Word, p: nat)
    requires Holds(ctrl, slots, place, hash) && p < |ctrl| && ctrl[p] != EMPTY && ctrl[p] != DELETED
    ensures Live(ctrl[p])
  {
  }

  ghost predicate AnyEmpty(ctrl: seq<Ctrl>) {
    exists i :: 0 <= i < |ctrl| && ctrl[i] == EMPTY
  }

  /** The first position on the probe path that holds no key: where a new key goes. */
  ghost predicate FirstFree(ctrl: seq<Ctrl>, home: nat, pos: nat) {
    && home < |ctrl| && pos < |ctrl|
    && !Live(ctrl[pos])
    && forall n {:trigger Probe(home, n, |ctrl|)} :: 0 <= n < Gap(home, pos, |ctrl|) ==>
         Live(ctrl[Probe(home, n, |ctrl|)])
  }

  lemma FirstFreeIsUnique(ctrl: seq<Ctrl>, home: nat, a: nat, b: nat)
    requires FirstFree(ctrl, home, a) && FirstFree(ctrl, home, b)
    ensures a == b
  {
    var ga, gb := Gap(home, a, |ctrl|), Gap(home, b, |ctrl|);
    assert Probe(home, ga, |ctrl|) == a && Probe(home, gb, |ctrl|) == b;
    assert !(ga < gb) && !(gb < ga);
  }

  /** All probes passed: the whole table was looked at. */
  lemma PassedAll<K, V>(ctrl: seq<Ctrl>, slots: seq<Slot<K, V>>, home: nat, k: K)
    requires |slots| == |ctrl| && home < |ctrl| && Passed(ctrl, slots, home, k, |ctrl|)
    ensures !AnyEmpty(ctrl)
  {
    forall i | 0 <= i < |ctrl| ensures ctrl[i] != EMPTY {
      assert Probe(home, Gap(home, i, |ctrl|), |ctrl|) == i;
    }
  }

  lemma AllInside<K(!new), V>(ctrl: seq<Ctrl>, slots: seq<Slot<K, V>>, place: map<K, nat>, hash: K -> Word)
    requires Holds(ctrl, slots, place, hash)
    ensures forall k :: k in place ==> place[k] < |slots| == |ctrl|
  {
    forall k | k in place ensures place[k] < |slots| {
      assert Housed(ctrl, slots, place[k], k, hash);
    }
  }

  // ---- What each change of the table does ----

  lemma PlaceKeeps<K(!new), V>(ctrl: seq<Ctrl>, slots: seq<Slot<K, V>>, place: map<K, nat>, hash: K -> Word, k: K,
        v: V, pos: nat)
    requires Holds(ctrl, slots, place, hash) && |ctrl| > 0
    requires k !in place && FirstFree(ctrl, Home(hash(k), |ctrl|), pos)
    ensures Holds(ctrl[pos := CtrlFor(hash(k))], slots[pos := Slot(k, v)], place[k := pos], hash)
    ensures Entries(slots[pos := Slot(k, v)], place[k := pos]) == Entries(slots, place)[k := v]
  {
    hide CtrlFor, Home, Probe, Gap;
    var ctrl', slots', place' := ctrl[pos := CtrlFor(hash(k))], slots[pos := Slot(k, v)], place[k := pos];
    forall x | x in place' ensures Housed(ctrl', slots', place'[x], x, hash) {
      if x != k {
        assert Housed(ctrl, slots, place[x], x, hash);
        assert place[x] != pos;
      }
    }
    assert Entries(slots', place') == Entries(slots, place)[k := v];
  }

  lemma UpdateKeeps<K(!new), V>(ctrl: seq<Ctrl>, slots: seq<Slot<K, V>>, place: map<K, nat>, hash: K -> Word, k: K,
        v: V)
    requires Holds(ctrl, slots, place, hash) && k in place
    ensures Housed(ctrl, slots, place[k], k, hash)
    ensures var slots' := slots[place[k] := Slot(k, v)];
      Holds(ctrl, slots', place, hash) && Entries(slots', place) == Entries(slots, place)[k := v]
  {
    hide CtrlFor, Home, Probe, Gap, Reachable;
    assert Housed(ctrl, slots, place[k], k, hash);
    var slots' := slots[place[k] := Slot(k, v)];
    forall x | x in place ensures Housed(ctrl, slots', place[x], x, hash) {
      assert Housed(ctrl, slots, place[x], x, hash);
    }
    assert Entries(slots', place) == Entries(slots, place)[k := v];
  }

  lemma EraseKeeps<K(!new), V>(ctrl: seq<Ctrl>, slots: seq<Slot<K, V>>, place: map<K, nat>, hash: K -> Word, k: K)
    requires Holds(ctrl, slots, place, hash) && k in place
    ensures Housed(ctrl, slots, place[k], k, hash)
    ensures Holds(ctrl[place[k] := DELETED], slots, place - {k}, hash)
    ensures Entries(slots, place - {k}) == Entries(slots, place) - {k}
  {
    hide CtrlFor, Home, Probe, Gap;
    assert Housed(ctrl, slots, place[k], k, hash);
    var ctrl', place' := ctrl[place[k] := DELETED], place - {k};
    forall x | x in place' ensures Housed(ctrl', slots, place'[x], x, hash) {
      assert Housed(ctrl, slots, place[x], x, hash);
      assert Housed(ctrl, slots, place[k], k, hash);
    }
    assert Entries(slots, place') == Entries(slots, place) - {k};
  }

  // ---- Counting ----

  function Count(ctrl: seq<Ctrl>, live: bool): (n: nat)
    ensures n <= |ctrl|
  {
    if ctrl == [] then 0
    else
      var c := ctrl[|ctrl| - 1];
      Count(ctrl[..|ctrl| - 1], live) + if (if live then Live(c) else c == DELETED) then 1 else 0
  }

  ghost function LiveKeys<K, V>(ctrl: seq<Ctrl>, slots: seq<Slot<K, V>>): set<K>
    requires |slots| >= |ctrl|
  {
    if ctrl == [] then {}
    else
      var n := |ctrl| - 1;
      LiveKeys(ctrl[..n], slots) + if Live(ctrl[n]) then {slots[n].key} else {}
  }

  lemma {:induction false} LiveKeysAre<K(!new), V>(ctrl: seq<Ctrl>, slots: seq<Slot<K, V>>, place: map<K, nat>,
        hash: K -> Word, n: nat)
    requires Holds(ctrl, slots, place, hash) && n <= |ctrl|
    ensures forall k :: k in LiveKeys(ctrl[..n], slots) <==> k in place && place[k] < n
    ensures |LiveKeys(ctrl[..n], slots)| == Count(ctrl[..n], true)
  {
    if n > 0 {
      hide Holds, Count, LiveKeys;
      LiveKeysAre(ctrl, slots, place, hash, n - 1);
      LiveKeysStep(ctrl, slots, n);
      PlacedAt(ctrl, slots, place, hash, n - 1);
    }
  }

  lemma LiveKeysStep<K, V>(ctrl: seq<Ctrl>, slots: seq<Slot<K, V>>, n: nat)
    requires 0 < n <= |ctrl| <= |slots|
    ensures LiveKeys(ctrl[..n], slots)
         == LiveKeys(ctrl[..n - 1], slots) + if Live(ctrl[n - 1]) then {slots[n - 1].key} else {}
    ensures Count(ctrl[..n], true) == Count(ctrl[..n - 1], true) + if Live(ctrl[n - 1]) then 1 else 0
  {
    assert ctrl[..n][..n - 1] == ctrl[..n - 1];
  }

  /** The only key placed at a position is the one of its live slot. */
  lemma PlacedAt<K(!new), V>(ctrl: seq<Ctrl>, slots: seq<Slot<K, V>>, place: map<K, nat>, hash: K -> Word, i: nat)
    requires Holds(ctrl, slots, place, hash) && i < |ctrl|
    ensures forall k :: k in place && place[k] == i <==> Live(ctrl[i]) && k == slots[i].key
  {
    hide Reachable, Home;
    forall k | k in place ensures Live(ctrl[place[k]]) && slots[place[k]].key == k {
      assert Housed(ctrl, slots, place[k], k, hash);
    }
  }

  /** The table holds as many keys as it has live bytes. */
  lemma KeysAreLiveBytes<K(!new), V>(ctrl: seq<Ctrl>, slots: seq<Slot<K, V>>, place: map<K, nat>, hash: K -> Word)
    requires Holds(ctrl, slots, place, hash)
    ensures |place| == Count(ctrl, true) <= |ctrl|
  {
    hide Count, Live, Reachable, CtrlFor, Home;
    LiveKeysAre(ctrl, slots, place, hash, |ctrl|);
    assert ctrl[..|ctrl|] == ctrl;
    forall k | k in place ensures place[k] < |ctrl| {
      assert Housed(ctrl, slots, place[k], k, hash);
    }
    assert LiveKeys(ctrl, slots) == place.Keys;
    assert |place| == |place.Keys|;
  }

  /** Without an `EMPTY` byte every byte is a key or a tombstone. */
  lemma {:induction false} NoEmptyCount(ctrl: seq<Ctrl>)
    requires forall i :: 0 <= i < |ctrl| ==> Live(ctrl[i]) || ctrl[i] == DELETED
    ensures Count(ctrl, true) + Count(ctrl, false) == |ctrl|
  {
    if ctrl != [] { NoEmptyCount(ctrl[..|ctrl| - 1]); }
  }

  lemma {:induction false} NoTombstonesCount(ctrl: seq<Ctrl>)
    requires DELETED !in ctrl
    ensures Count(ctrl, false) == 0
  {
    if ctrl != [] { NoTombstonesCount(ctrl[..|ctrl| - 1]); }
  }

  // ---- The load rule ----

  const FIRST_CAPACITY: nat := 16

  /** Before an insertion the table grows when the new key would reach seven eighths of it. */
  predicate MustGrow(size: nat, cap: nat) {
    (size + 1) * 8 >= cap * 7
  }

  function Grown(cap: nat): nat {
    if cap == 0 then FIRST_CAPACITY else cap * 2
  }

  /** A table grows to the least larger power of two, from sixteen on. */
  lemma GrownIsLeast(cap: nat, q: nat)
    requires cap == 0 || (IsPowerOfTwo(cap) && cap >= 16)
    requires IsPowerOfTwo(q) && q > cap && q >= 16
    ensures cap < Grown(cap) <= q && Grown(cap) >= 16 && IsPowerOfTwo(Grown(cap))
  {
    GrownIsPower(cap);
    if cap > 0 { NoPowerBetween(cap, q); }
  }

  lemma GrownIsPower(cap: nat)
    requires cap == 0 || (IsPowerOfTwo(cap) && cap >= FIRST_CAPACITY)
    ensures IsPowerOfTwo(Grown(cap)) && Grown(cap) >= FIRST_CAPACITY && Grown(cap) > cap
  {
    assert IsPowerOfTwo(16) by { assert IsPowerOfTwo(8) by { assert IsPowerOfTwo(4); } }
  }

  lemma NotDeleted(h: Word)
    ensures CtrlFor(h) != DELETED && CtrlFor(h) != EMPTY
  {
  }

  /** A table that passes the load rule and still lacks an `EMPTY` byte has more than one tombstone in eight bytes. */
  lemma StuckNeedsTombstones<K(!new), V>(ctrl: seq<Ctrl>, slots: seq<Slot<K, V>>, place: map<K, nat>, hash: K -> Word)
    requires Holds(ctrl, slots, place, hash) && !MustGrow(|place|, |ctrl|) && !AnyEmpty(ctrl)
    ensures 8 * Count(ctrl, false) > |ctrl| + 8
  {
    hide Count, Live;
    KeysAreLiveBytes(ctrl, slots, place, hash);
    NoEmptyCount(ctrl);
  }

  /** Without tombstones a table that is not full has an `EMPTY` byte. */
  lemma NotFullHasEmpty<K(!new), V>(ctrl: seq<Ctrl>, slots: seq<Slot<K, V>>, place: map<K, nat>, hash: K -> Word)
    requires Holds(ctrl, slots, place, hash) && DELETED !in ctrl && |place| < |ctrl|
    ensures AnyEmpty(ctrl)
  {
    hide Count, Live;
    KeysAreLiveBytes(ctrl, slots, place, hash);
    NoTombstonesCount(ctrl);
    if !AnyEmpty(ctrl) { NoEmptyCount(ctrl); }
  }

  function Ceil(n: nat): (r: nat)
    ensures r * 7 >= n * 8 && r * 7 < n * 8 + 7
  {
    (n * 8 + 6) / 7
  }

  /** `bit_ceil`: the least power of two that is at least `n`, searched upwards from `p`. */
  function BitCeil(n: nat, p: nat): (r: nat)
    requires p > 0 && IsPowerOfTwo(p)
    ensures IsPowerOfTwo(r) && r >= n && r >= p
    decreases if n > p then n - p else 0
  {
    if p >= n then p else BitCeil(n, p * 2)
  }

  lemma {:induction false} BitCeilIsLeast(n: nat, p: nat, q: nat)
    requires p > 0 && IsPowerOfTwo(p) && IsPowerOfTwo(q) && q >= n && q >= p
    ensures BitCeil(n, p) <= q
    decreases if n > p then n - p else 0
  {
    if p < n {
      NoPowerBetween(p, q);
      DoublePower(p);
      hide IsPowerOfTwo;
      BitCeilIsLeast(n, p * 2, q);
    }
  }

  lemma DoublePower(p: nat)
    requires IsPowerOfTwo(p)
    ensures IsPowerOfTwo(p * 2)
  {
    assert p * 2 % 2 == 0 && p * 2 / 2 == p;
  }

  lemma {:induction false} NoPowerBetween(p: nat, q: nat)
    requires IsPowerOfTwo(p) && IsPowerOfTwo(q) && q > p
    ensures q >= 2 * p
  {
    if p > 1 { NoPowerBetween(p / 2, q / 2); }
  }

  function ReserveCapacity(n: nat): (r: nat)
    ensures IsPowerOfTwo(r) && r >= FIRST_CAPACITY && r > 0
  {
    var c := BitCeil(Ceil(n), 1);
    assert IsPowerOfTwo(16) by { assert IsPowerOfTwo(8) by { assert IsPowerOfTwo(4); } }
    if c < FIRST_CAPACITY then FIRST_CAPACITY else c
  }

  /** What is reserved for `n` keys is the least power of two, from sixteen on, of which they fill seven eighths. */
  lemma ReserveIsLeast(n: nat, q: nat)
    requires IsPowerOfTwo(q) && q >= 16
    ensures IsPowerOfTwo(ReserveCapacity(n)) && ReserveCapacity(n) >= 16 && 7 * ReserveCapacity(n) >= 8 * n
    ensures 7 * q >= 8 * n ==> ReserveCapacity(n) <= q
  {
    ReserveFits(n);
    if 7 * q >= 8 * n {
      assert q >= Ceil(n);
      BitCeilIsLeast(Ceil(n), 1, q);
    }
  }

  /** Room reserved for `n` keys takes all `n` without growing unless `n` is exactly seven eighths of it. */
  lemma ReservedRoom(n: nat)
    requires n > 0
    ensures (forall size: nat :: size < n ==> !MustGrow(size, ReserveCapacity(n))) <==> 8 * n != 7 * ReserveCapacity(n)
  {
    hide ReserveCapacity, BitCeil;
    var cap := ReserveCapacity(n);
    assert 7 * cap >= 8 * n by { ReserveFits(n); }
    if 8 * n == 7 * cap {
      assert MustGrow(n - 1, cap);
    }
  }

  lemma ReserveFits(n: nat)
    ensures 7 * ReserveCapacity(n) >= 8 * n
  {
  }

  /** Fourteen keys asked for, and the fourteenth makes the table grow. */
  lemma ReservedFourteenGrows()
    ensures ReserveCapacity(14) == 16 && MustGrow(13, ReserveCapacity(14))
  {
    assert Ceil(14) == 16;
    assert BitCeil(16, 1) == BitCeil(16, 2) == BitCeil(16, 4) == BitCeil(16, 8) == BitCeil(16, 16) by {
      assert IsPowerOfTwo(2) && IsPowerOfTwo(4) && IsPowerOfTwo(8);
      assert IsPowerOfTwo(16);
    }
  }

  // ---- Rehashing ----

  lemma EmptyHolds<K(!new), V>(ctrl: seq<Ctrl>, slots: seq<Slot<K, V>>, hash: K -> Word)
    requires |slots| == |ctrl| && forall i :: 0 <= i < |ctrl| ==> ctrl[i] == EMPTY
    ensures Holds(ctrl, slots, map[], hash) && DELETED !in ctrl
  {
  }

  /** The new table holds the entries of the first `n` old slots, and no others. */
  ghost predicate Moved<K(!new), V>(c: seq<Ctrl>, s: seq<Slot<K, V>>, was: map<K, nat>,
      slots: seq<Slot<K, V>>, place: map<K, nat>, n: nat)
  {
    forall k ::
      && (k in place <==> k in was && was[k] < n)
      && (k in place ==> was[k] < |s| && place[k] < |slots| && slots[place[k]] == s[was[k]])
  }

  lemma MovedNone<K(!new), V>(c: seq<Ctrl>, s: seq<Slot<K, V>>, was: map<K, nat>, slots: seq<Slot<K, V>>)
    ensures Moved(c, s, was, slots, map[], 0)
  {
  }

  lemma PosIsFree<K(!new), V>(ctrl: seq<Ctrl>, slots: seq<Slot<K, V>>, place: map<K, nat>, hash: K -> Word, k: K,
        pos: nat)
    requires Holds(ctrl, slots, place, hash) && |ctrl| > 0 && FirstFree(ctrl, Home(hash(k), |ctrl|), pos)
    ensures forall x :: x in place ==> place[x] != pos
  {
    forall x | x in place ensures place[x] != pos {
      assert Housed(ctrl, slots, place[x], x, hash);
    }
  }

  lemma MovedIsFewer<K(!new), V>(c: seq<Ctrl>, s: seq<Slot<K, V>>, was: map<K, nat>,
      slots: seq<Slot<K, V>>, place: map<K, nat>, hash: K -> Word, i: nat)
    requires Holds(c, s, was, hash) && Moved(c, s, was, slots, place, i) && i < |c| && Live(c[i])
    ensures s[i].key in was && s[i].key !in place && |place| < |was|
  {
    hide Housed;
    assert place.Keys <= was.Keys - {s[i].key};
    SubsetSize(place.Keys, was.Keys - {s[i].key});
    assert |place| == |place.Keys| && |was| == |was.Keys|;
  }

  lemma MovedOne<K(!new), V>(c: seq<Ctrl>, s: seq<Slot<K, V>>, was: map<K, nat>,
      slots: seq<Slot<K, V>>, place: map<K, nat>, hash: K -> Word, i: nat, pos: nat)
    requires Holds(c, s, was, hash) && Moved(c, s, was, slots, place, i) && i < |c| && Live(c[i])
    requires pos < |slots| && forall k :: k in place ==> place[k] != pos
    ensures Moved(c, s, was, slots[pos := s[i]], place[s[i].key := pos], i + 1)
  {
    PlacedAt(c, s, was, hash, i);
    hide Holds, Live;
  }

  lemma MovedSkip<K(!new), V>(c: seq<Ctrl>, s: seq<Slot<K, V>>, was: map<K, nat>,
      slots: seq<Slot<K, V>>, place: map<K, nat>, hash: K -> Word, i: nat)
    requires Holds(c, s, was, hash) && Moved(c, s, was, slots, place, i) && i < |c| && !Live(c[i])
    ensures Moved(c, s, was, slots, place, i + 1)
  {
    PlacedAt(c, s, was, hash, i);
    hide Holds, Live;
  }

  lemma MovedAll<K(!new), V>(c: seq<Ctrl>, s: seq<Slot<K, V>>, was: map<K, nat>,
      slots: seq<Slot<K, V>>, place: map<K, nat>, hash: K -> Word)
    requires Holds(c, s, was, hash) && Moved(c, s, was, slots, place, |c|)
    ensures forall k :: k in was ==> was[k] < |s|
    ensures forall k :: k in place ==> place[k] < |slots|
    ensures Entries(slots, place) == Entries(s, was)
  {
    forall k | k in was ensures was[k] < |s| {
      assert Housed(c, s, was[k], k, hash);
    }
    hide Holds;
    assert place.Keys == was.Keys;
  }
}
