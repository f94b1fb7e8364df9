/** The open-addressing hash table that lowering and value numbering rely on, as a finite map. */
module SwissTable {
  import opened Wrappers
  import opened Words
  import opened ProbeSpec

  /** Where an insertion ended: at the key, at a new place for it, or at the unreachable end of the probe loop. */
  datatype Spot = Existing(pos: nat) | Fresh(pos: nat) | Unreachable

  class Table<K(==, !new, 0), V(0)> {
    const hash: K -> Word
    var ctrl: array<Ctrl>
    var slots: array<Slot<K, V>>
    var size: nat
    /** Where each key is. */
    ghost var place: map<K, nat>

    ghost predicate Valid()
      reads this, ctrl, slots
    {
      && Holds(ctrl[..], slots[..], place, hash)
      && size == |place|
      && (ctrl.Length == 0 || (IsPowerOfTwo(ctrl.Length) && ctrl.Length >= FIRST_CAPACITY))
    }

    /** The map the table stands for. */
    ghost function Contents(): (m: map<K, V>)
      requires Valid()
      reads this, ctrl, slots
      ensures m.Keys == place.Keys
    {
      assert forall k :: k in place ==> Housed(ctrl[..], slots[..], place[k], k, hash);
      Entries(slots[..], place)
    }

    /** No key was erased since the buffers were last allocated or cleared. */
    ghost predicate Clean()
      reads this, ctrl
    {
      DELETED !in ctrl[..]
    }

    constructor (hash: K -> Word)
      ensures this.hash == hash && Valid() && Contents() == map[] && Clean()
      ensures fresh(ctrl) && fresh(slots) && ctrl.Length == 0
    {
      this.hash := hash;
      ctrl := new Ctrl[0];
      slots := new Slot<K, V>[0];
      size := 0;
      place := map[];
    }

    /** The position of the key, if it is in the table. */
    method Find(k: K) returns (r: Option<nat>)
      requires Valid()
      ensures r == if k in Contents() then Some(place[k]) else None
      ensures r.Some? ==> r.value < ctrl.Length && Slot(k, Contents()[k]) == slots[r.value]
    {
      if ctrl.Length == 0 {
        ghost var _ := NothingPlaced();
        return None;
      }
      ghost var home := Home(hash(k), ctrl.Length);
      var pos := Home(hash(k), ctrl.Length);
      var probes := 0;
      while probes < ctrl.Length
        invariant probes <= ctrl.Length && pos < ctrl.Length
        invariant probes < ctrl.Length ==> pos == Probe(home, probes, ctrl.Length)
        invariant Passed(ctrl[..], slots[..], home, k, probes)
      {
        if k in place { PresentAhead(ctrl[..], slots[..], place, hash, k, probes); }
        if ctrl[pos] == EMPTY { return None; }
        if ctrl[pos] == CtrlFor(hash(k)) && slots[pos].key == k {
          MatchIsPlace(ctrl[..], slots[..], place, hash, k, pos);
          return Some(pos);
        }
        PassOne(ctrl[..], slots[..], place, hash, k, probes);
        pos := Next(pos, ctrl.Length);
        probes := probes + 1;
      }
      if k in place { PresentAhead(ctrl[..], slots[..], place, hash, k, probes); }
      return None;
    }

    ghost function NothingPlaced(): (r: bool)
      requires Valid() && ctrl.Length == 0
      reads this, ctrl, slots
      ensures place == map[]
    {
      assert forall k :: k in place ==> Housed(ctrl[..], slots[..], place[k], k, hash);
      true
    }

    method Get(k: K) returns (r: Option<V>)
      requires Valid()
      ensures r == if k in Contents() then Some(Contents()[k]) else None
    {
      var i := Find(k);
      r := if i.Some? then Some(slots[i.value].val) else None;
    }

    method Erase(k: K)
      requires Valid()
      modifies this, ctrl
      ensures Valid() && ctrl == old(ctrl) && slots == old(slots)
      ensures Contents() == old(Contents()) - {k}
      ensures ctrl[..] == if k in old(place) then old(ctrl[..])[old(place[k]) := DELETED] else old(ctrl[..])
    {
      hide Holds, IsPowerOfTwo, Entries;
      TableFacts();
      var i := Find(k);
      if i.None? {
        assert Contents() == old(Contents()) - {k};
        return;
      }
      EraseKeeps(ctrl[..], slots[..], place, hash, k);
      AllInside(ctrl[..], slots[..], place, hash);
      ctrl[i.value] := DELETED;
      size := size - 1;
      place := place - {k};
      assert ctrl[..] == old(ctrl[..])[i.value := DELETED];
      assert |place| == |old(place)| - 1 by {
        assert place.Keys == old(place).Keys - {k};
        assert |place| == |place.Keys| && |old(place)| == |old(place).Keys|;
      }
    }

    method Clear()
      requires Valid()
      modifies this, ctrl
      ensures Valid() && Contents() == map[] && Clean() && ctrl == old(ctrl) && slots == old(slots)
    {
      if ctrl.Length == 0 {
        ghost var _ := NothingPlaced();
        assert Clean() && Contents() == map[];
        return;
      }
      FillEmpty(ctrl);
      size := 0;
      place := map[];
    }

    static method FillEmpty(a: array<Ctrl>)
      modifies a
      ensures forall i :: 0 <= i < a.Length ==> a[i] == EMPTY
    {
      var i := 0;
      while i < a.Length
        invariant i <= a.Length
        invariant forall j :: 0 <= j < i ==> a[j] == EMPTY
      {
        a[i] := EMPTY;
        i := i + 1;
      }
    }

    /** Finds the key, or claims the first free place of its probe path by writing its control byte there. */
    method FindOrInsert(k: K) returns (r: Spot)
      requires ctrl.Length > 0 && slots.Length == ctrl.Length && Holds(ctrl[..], slots[..], place, hash)
      modifies ctrl
      ensures k in place ==> r == Existing(place[k]) && ctrl[..] == old(ctrl[..])
      ensures k !in place && AnyEmpty(old(ctrl[..])) ==>
        && r.Fresh? && r.pos < ctrl.Length && FirstFree(old(ctrl[..]), Home(hash(k), ctrl.Length), r.pos)
        && ctrl[..] == old(ctrl[..])[r.pos := CtrlFor(hash(k))]
      ensures k !in place && !AnyEmpty(old(ctrl[..])) ==> r.Unreachable? && ctrl[..] == old(ctrl[..])
    {
      hide Holds, Passed, FirstFree, AllLive, Home, CtrlFor, Probe, Next, Live;
      ghost var home := Home(hash(k), ctrl.Length);
      var pos := Home(hash(k), ctrl.Length);
      var firstDeleted: Option<nat> := None;
      var probes := 0;
      PassedNone(ctrl[..], slots[..], home, k);
      FirstProbe(home, ctrl.Length);
      while probes < ctrl.Length
        invariant probes <= ctrl.Length && pos < ctrl.Length
        invariant probes < ctrl.Length ==> pos == Probe(home, probes, ctrl.Length)
        invariant ctrl[..] == old(ctrl[..]) && slots.Length == ctrl.Length
        invariant Passed(ctrl[..], slots[..], home, k, probes)
        invariant firstDeleted.None? ==> AllLive(ctrl[..], home, probes)
        invariant firstDeleted.Some? ==>
          firstDeleted.value < ctrl.Length && FirstFree(ctrl[..], home, firstDeleted.value)
      {
        if k in place { PresentAhead(ctrl[..], slots[..], place, hash, k, probes); }
        if firstDeleted.None? { FreeAfterLive(ctrl[..], home, probes); }
        DeletedIsFree();
        if ctrl[pos] == EMPTY {
          assert AnyEmpty(ctrl[..]);
          var target := if firstDeleted.Some? then firstDeleted.value else pos;
          ctrl[target] := CtrlFor(hash(k));
          assert ctrl[..] == old(ctrl[..])[target := CtrlFor(hash(k))];
          return Fresh(target);
        }
        NotDeleted(hash(k));
        if ctrl[pos] == DELETED {
          if firstDeleted.None? {
            firstDeleted := Some(pos);
          }
        } else if ctrl[pos] == CtrlFor(hash(k)) && slots[pos].key == k {
          MatchIsPlace(ctrl[..], slots[..], place, hash, k, pos);
          return Existing(pos);
        } else {
          OtherwiseLive(ctrl[..], slots[..], place, hash, pos);
        }
        PassOne(ctrl[..], slots[..], place, hash, k, probes);
        NextProbe(home, probes, ctrl.Length);
        pos := Next(pos, ctrl.Length);
        probes := probes + 1;
      }
      if k in place { PresentAhead(ctrl[..], slots[..], place, hash, k, probes); }
      PassedAll(ctrl[..], slots[..], home, k);
      return Unreachable;
    }

    /** Writes key and value into the place that `FindOrInsert` claimed in the bytes `c`. */
    method FillSlot(k: K, v: V, pos: nat, ghost c: seq<Ctrl>)
      requires 0 < ctrl.Length == slots.Length == |c| && Holds(c, slots[..], place, hash) && k !in place
      requires pos < |c| && FirstFree(c, Home(hash(k), |c|), pos) && ctrl[..] == c[pos := CtrlFor(hash(k))]
      requires size == |place|
      modifies this`size, this`place, slots
      ensures Holds(ctrl[..], slots[..], place, hash) && size == |place|
      ensures slots[..] == old(slots[..])[pos := Slot(k, v)] && place == old(place)[k := pos]
      ensures (forall x :: x in place ==> place[x] < slots.Length) && (forall x :: x in old(place) ==>
        old(place)[x] < slots.Length)
      ensures Entries(slots[..], place) == Entries(old(slots[..]), old(place))[k := v]
      ensures DELETED !in c ==> DELETED !in ctrl[..]
    {
      hide FirstFree, CtrlFor, Home, Live, Entries, Reachable;
      PlaceKeeps(c, slots[..], place, hash, k, v, pos);
      AllInside(c, slots[..], place, hash);
      NotDeleted(hash(k));
      slots[pos] := Slot(k, v);
      size := size + 1;
      place := place[k := pos];
      assert slots[..] == old(slots[..])[pos := Slot(k, v)];
      assert Holds(ctrl[..], slots[..], place, hash);
      hide Holds;
    }

    /** Fresh buffers of the new capacity, with every live entry put in again. */
    method Rehash(newCap: nat)
      requires Valid() && newCap > size && IsPowerOfTwo(newCap) && newCap >= FIRST_CAPACITY
      modifies this
      ensures Valid() && Contents() == old(Contents()) && Clean()
      ensures ctrl.Length == newCap && fresh(ctrl) && fresh(slots)
    {
      TableFacts();
      hide Holds, Housed, CtrlFor, Home, FirstFree, AnyEmpty, Live, IsPowerOfTwo, Entries, Moved;
      var oldCtrl, oldSlots := ctrl, slots;
      ghost var was, c, s := place, ctrl[..], slots[..];
      assert Contents() == Entries(s, was);
      ctrl := new Ctrl[newCap](_ => EMPTY);
      slots := new Slot<K, V>[newCap];
      size := 0;
      place := map[];
      EmptyHolds<K, V>(ctrl[..], slots[..], hash);
      Refill(oldCtrl, oldSlots, was);
      AllInside(c, s, was, hash);
    }

    /** Puts every live entry of the old buffers into the empty new ones. */
    method Refill(oldCtrl: array<Ctrl>, oldSlots: array<Slot<K, V>>, ghost was: map<K, nat>)
      requires ctrl.Length == slots.Length > |was| && oldCtrl != ctrl && oldSlots != slots
      requires Holds(oldCtrl[..], oldSlots[..], was, hash) && oldCtrl.Length == oldSlots.Length
      requires Holds(ctrl[..], slots[..], place, hash) && place == map[] && size == 0 && DELETED !in ctrl[..]
      modifies this`size, this`place, ctrl, slots
      ensures Holds(ctrl[..], slots[..], place, hash) && size == |place| && DELETED !in ctrl[..]
      ensures (forall k :: k in was ==> was[k] < oldSlots.Length)
        && (forall k :: k in place ==> place[k] < slots.Length)
      ensures Entries(slots[..], place) == Entries(oldSlots[..], was)
    {
      hide Holds, CtrlFor, Home, FirstFree, AnyEmpty, Live, Entries, Moved, Reachable, Housed;
      ghost var c, s := oldCtrl[..], oldSlots[..];
      MovedNone(c, s, was, slots[..]);
      var i := 0;
      while i < oldCtrl.Length
        invariant i <= oldCtrl.Length && oldCtrl[..] == c && oldSlots[..] == s
        invariant Holds(ctrl[..], slots[..], place, hash) && DELETED !in ctrl[..] && size == |place|
        invariant Moved(c, s, was, slots[..], place, i)
      {
        var entry := oldSlots[i];
        assert oldCtrl[i] == c[i] && entry == s[i];
        if Live(oldCtrl[i]) {
          MovedIsFewer(c, s, was, slots[..], place, hash, i);
          NotFullHasEmpty(ctrl[..], slots[..], place, hash);
          ghost var ctrl0, slots0, place0 := ctrl[..], slots[..], place;
          var spot := FindOrInsert(entry.key);
          PosIsFree(ctrl0, slots0, place0, hash, entry.key, spot.pos);
          FillSlot(entry.key, entry.val, spot.pos, ctrl0);
          MovedOne(c, s, was, slots0, place0, hash, i, spot.pos);
          assert Slot(entry.key, entry.val) == s[i];
        } else {
          MovedSkip(c, s, was, slots[..], place, hash, i);
        }
        i := i + 1;
      }
      MovedAll(c, s, was, slots[..], place, hash);
    }

    method Reserve(n: nat)
      requires Valid()
      modifies this
      ensures Valid() && Contents() == old(Contents())
      ensures ReserveCapacity(n) > old(ctrl).Length ==>
        ctrl.Length == ReserveCapacity(n) && Clean() && fresh(ctrl) && fresh(slots)
      ensures ReserveCapacity(n) <= old(ctrl).Length ==>
        ctrl == old(ctrl) && slots == old(slots) && place == old(place)
    {
      var newCap := ReserveCapacity(n);
      KeysAreLiveBytes(ctrl[..], slots[..], place, hash);
      if newCap > ctrl.Length { Rehash(newCap); }
    }

    /** Inserts or overwrites. The probe loop runs off its end exactly when the load rule lets the table be,
        the key is new, and tombstones have used up every `EMPTY` byte. */
    method Emplace(k: K, v: V) returns (r: Spot)
      requires Valid()
      modifies this, ctrl, slots
      ensures Valid()
      ensures r.Unreachable? <==>
        k !in old(Contents()) && !MustGrow(old(size), old(ctrl).Length) && !AnyEmpty(old(ctrl[..]))
      ensures Contents() == if r.Unreachable? then old(Contents()) else old(Contents())[k := v]
      ensures r.Fresh? ==> k !in old(Contents())
      ensures r.Existing? ==> k in old(Contents())
      ensures !r.Unreachable? ==> r.pos < slots.Length && slots[r.pos] == Slot(k, v)
      ensures old(Clean()) ==> Clean() && !r.Unreachable?
      ensures MustGrow(old(size), old(ctrl).Length) ==>
        ctrl.Length == Grown(old(ctrl).Length) && fresh(ctrl) && fresh(slots)
      ensures !MustGrow(old(size), old(ctrl).Length) ==> ctrl == old(ctrl) && slots == old(slots)
      ensures r.Fresh? && !MustGrow(old(size), old(ctrl).Length) ==>
        && FirstFree(old(ctrl[..]), Home(hash(k), old(ctrl).Length), r.pos)
        && ctrl[..] == old(ctrl[..])[r.pos := CtrlFor(hash(k))]
        && place == old(place)[k := r.pos]
    {
      hide Holds, Housed, CtrlFor, Home, FirstFree, Live, AnyEmpty;
      TableFacts();
      if MustGrow(size, ctrl.Length) {
        GrownIsPower(ctrl.Length);
        Rehash(Grown(ctrl.Length));
        TableFacts();
      }
      ghost var c, s, p := ctrl[..], slots[..], place;
      if DELETED !in c { NotFullHasEmpty(c, s, p, hash); }
      r := FindOrInsert(k);
      if r.Fresh? {
        FillSlot(k, v, r.pos, c);
      } else if r.Existing? {
        UpdateKeeps(c, s, p, hash, k, v);
        PlaceIsInside(k);
        slots[r.pos] := slots[r.pos].(val := v);
        assert slots[..] == s[r.pos := Slot(k, v)];
      }
    }

    lemma TableFacts()
      requires Valid()
      ensures size == |place| == |Contents()| <= ctrl.Length == slots.Length
      ensures !MustGrow(size, ctrl.Length) ==> size < ctrl.Length
      ensures Contents() == Entries(slots[..], place) && Contents().Keys == place.Keys
    {
      KeysAreLiveBytes(ctrl[..], slots[..], place, hash);
    }

    lemma PlaceIsInside(k: K)
      requires Holds(ctrl[..], slots[..], place, hash) && k in place
      ensures place[k] < slots.Length && slots[place[k]].key == k
    {
      assert Housed(ctrl[..], slots[..], place[k], k, hash);
    }
  }

  lemma EmptyBytes<K(!new), V>(ctrl: seq<Ctrl>, slots: seq<Slot<K, V>>, hash: K -> Word)
    requires Holds(ctrl, slots, map[], hash) && DELETED !in ctrl
    ensures forall i :: 0 <= i < |ctrl| ==> ctrl[i] == EMPTY
  {
  }

  lemma HomeOfSmall(k: nat, ctrl: seq<Ctrl>, pos: nat)
    requires k < |ctrl| == 16 && ctrl[k] == EMPTY
    requires FirstFree(ctrl, Home(Wrap(k), 16), pos)
    ensures pos == k
  {
    assert FirstFree(ctrl, k, k);
    FirstFreeIsUnique(ctrl, k, k, pos);
  }

  /** A key that comes and goes leaves a tombstone at its home. */
  method InsertAndErase(t: Table<nat, nat>, k: nat)
    requires t.Valid() && t.Contents() == map[] && t.ctrl.Length == 16 && k < 16
    requires t.ctrl[k] == EMPTY && t.hash(k) == Wrap(k)
    modifies t, t.ctrl, t.slots
    ensures t.Valid() && t.Contents() == map[] && t.ctrl == old(t.ctrl) && t.slots == old(t.slots)
    ensures t.ctrl[..] == old(t.ctrl[..])[k := DELETED]
  {
    hide Holds, Entries, Home, FirstFree, CtrlFor, IsPowerOfTwo;
    t.TableFacts();
    ghost var c := t.ctrl[..];
    assert AnyEmpty(c) by { assert c[k] == EMPTY; }
    var r := t.Emplace(k, 0);
    HomeOfSmall(k, c, r.pos);
    t.Erase(k);
  }

  /** Sixteen insertions, each undone at once, and the seventeenth runs off the end of the probe loop of an empty
      table. */
  method ExhaustEmptyTable() returns (t: Table<nat, nat>, last: Spot)
    ensures fresh(t) && t.Valid() && t.Contents() == map[] && last.Unreachable?
  {
    t := new Table<nat, nat>((k: nat) => Wrap(k));
    ReservedFourteenGrows();
    t.Reserve(14);
    EmptyBytes(t.ctrl[..], t.slots[..], t.hash);
    var i := 0;
    while i < 16
      invariant i <= 16 && fresh(t) && fresh(t.ctrl) && fresh(t.slots)
      invariant t.Valid() && t.Contents() == map[] && t.ctrl.Length == 16
      invariant forall k: nat :: t.hash(k) == Wrap(k)
      invariant forall j :: 0 <= j < i ==> t.ctrl[j] == DELETED
      invariant forall j :: i <= j < 16 ==> t.ctrl[j] == EMPTY
    {
      InsertAndErase(t, i);
      i := i + 1;
    }
    t.TableFacts();
    assert !AnyEmpty(t.ctrl[..]);
    last := t.Emplace(0, 0);
  }
}
