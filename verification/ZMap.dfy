/** The associative arrays of wak: open addressing with perturbed probing, tombstones and doubling. */
module ZMap {
  import opened Probing

  /** A string is a sequence of char values. */
  type Key = seq<int>

  /** A deleted slot has lost its key. */
  datatype KeyRef = NoKey | HasKey(key: Key)

  datatype Slot<V> = Slot(hash: nat, key: KeyRef, val: V)

  const INIT_SIZE := 8
  const DELETED := -1

  /** The value of the string hash, in unsigned 32-bit arithmetic. */
  function HashOf(key: Key): (h: nat)
    ensures h < HASH_LIMIT
  {
    if |key| == 0 then 5381 else (HashOf(key[..|key| - 1]) * 33 + key[|key| - 1]) % HASH_LIMIT
  }

  method ZstringHash(s: Key) returns (h: nat)
    ensures h == HashOf(s)
  {
    h := 5381;
    var p := 0;
    while p < |s|
      invariant p <= |s| && h == HashOf(s[..p])
    {
      assert s[..p + 1][..p] == s[..p];
      h := (h * 32 + h + s[p]) % HASH_LIMIT;
      p := p + 1;
    }
    assert s[..p] == s;
  }

  // ---------------------------------------------------------------- the abstract value

  /** The finite map a slot list stands for. */
  function ModelOf<V>(slots: seq<Slot<V>>): map<Key, V> {
    if |slots| == 0 then map[]
    else
      var s := slots[|slots| - 1];
      var m := ModelOf(slots[..|slots| - 1]);
      if s.key.HasKey? then m[s.key.key := s.val] else m
  }

  ghost predicate DistinctKeys<V>(slots: seq<Slot<V>>) {
    forall i, j :: 0 <= i < j < |slots| && slots[i].key.HasKey? ==> slots[j].key != slots[i].key
  }

  function DeletedSlots<V>(slots: seq<Slot<V>>): nat {
    if |slots| == 0 then 0
    else DeletedSlots(slots[..|slots| - 1]) + if slots[|slots| - 1].key.NoKey? then 1 else 0
  }

  /** The map holds exactly the keys of the slots, with the values of the slots. */
  lemma {:induction false} ModelLookup<V>(slots: seq<Slot<V>>)
    requires DistinctKeys(slots)
    ensures forall i :: 0 <= i < |slots| && slots[i].key.HasKey? ==>
              slots[i].key.key in ModelOf(slots) && ModelOf(slots)[slots[i].key.key] == slots[i].val
    ensures forall k :: k in ModelOf(slots) ==> exists i :: 0 <= i < |slots| && slots[i].key == HasKey(k)
  {
    if |slots| > 0 {
      var init := slots[..|slots| - 1];
      ModelLookup(init);
      forall k | k in ModelOf(slots) ensures exists i :: 0 <= i < |slots| && slots[i].key == HasKey(k) {
        if k in ModelOf(init) {
          var i :| 0 <= i < |init| && init[i].key == HasKey(k);
          assert slots[i].key == HasKey(k);
        } else {
          assert slots[|slots| - 1].key == HasKey(k);
        }
      }
      forall i | 0 <= i < |slots| && slots[i].key.HasKey?
        ensures slots[i].key.key in ModelOf(slots) && ModelOf(slots)[slots[i].key.key] == slots[i].val
      {
        if i < |init| {
          assert init[i] == slots[i];
        }
      }
    }
  }

  /** count - deleted is the number of live keys. */
  lemma {:induction false} ModelSize<V>(slots: seq<Slot<V>>)
    requires DistinctKeys(slots)
    ensures |ModelOf(slots)| == |slots| - DeletedSlots(slots)
  {
    if |slots| > 0 {
      var init := slots[..|slots| - 1];
      ModelSize(init);
      ModelLookup(init);
      var s := slots[|slots| - 1];
      if s.key.HasKey? {
        assert s.key.key !in ModelOf(init);
      }
    }
  }

  lemma ModelAppend<V>(slots: seq<Slot<V>>, s: Slot<V>)
    requires s.key.HasKey?
    ensures ModelOf(slots + [s]) == ModelOf(slots)[s.key.key := s.val]
    ensures DeletedSlots(slots + [s]) == DeletedSlots(slots)
  {
    assert (slots + [s])[..|slots|] == slots;
  }

  lemma {:induction false} ModelUpdate<V>(slots: seq<Slot<V>>, i: nat, v: V)
    requires i < |slots| && slots[i].key.HasKey? && DistinctKeys(slots)
    ensures ModelOf(slots[i := slots[i].(val := v)]) == ModelOf(slots)[slots[i].key.key := v]
    ensures DeletedSlots(slots[i := slots[i].(val := v)]) == DeletedSlots(slots)
  {
    var n := |slots| - 1;
    var slots' := slots[i := slots[i].(val := v)];
    if i < n {
      ModelUpdate(slots[..n], i, v);
      assert slots'[..n] == slots[..n][i := slots[..n][i].(val := v)];
      assert slots'[n] == slots[n] && slots[n].key != slots[i].key;
    } else {
      assert slots'[..n] == slots[..n];
    }
  }

  lemma {:induction false} ModelRemove<V>(slots: seq<Slot<V>>, i: nat)
    requires i < |slots| && slots[i].key.HasKey? && DistinctKeys(slots)
    ensures ModelOf(slots[i := slots[i].(key := NoKey)]) == ModelOf(slots) - {slots[i].key.key}
    ensures DeletedSlots(slots[i := slots[i].(key := NoKey)]) == DeletedSlots(slots) + 1
  {
    var n := |slots| - 1;
    var slots' := slots[i := slots[i].(key := NoKey)];
    if i < n {
      ModelRemove(slots[..n], i);
      assert slots'[..n] == slots[..n][i := slots[..n][i].(key := NoKey)];
      assert slots'[n] == slots[n] && slots[n].key != slots[i].key;
    } else {
      assert slots'[..n] == slots[..n];
      ModelLookup(slots[..n]);
      assert slots[i].key.key !in ModelOf(slots[..n]);
    }
  }

  // ---------------------------------------------------------------- the table

  function Occupied(h: seq<int>): (n: nat)
    ensures n <= |h|
  {
    if |h| == 0 then 0 else Occupied(h[..|h| - 1]) + if h[|h| - 1] != 0 then 1 else 0
  }

  lemma {:induction false} OccupiedUpdate(h: seq<int>, p: nat, v: int)
    requires p < |h| && v != 0
    ensures Occupied(h[p := v]) == Occupied(h) + if h[p] == 0 then 1 else 0
  {
    var n := |h| - 1;
    if p < n {
      OccupiedUpdate(h[..n], p, v);
      assert h[p := v][..n] == h[..n][p := v];
    } else {
      assert h[p := v][..n] == h[..n];
    }
  }

  lemma {:induction false} FreeSlot(h: seq<int>) returns (p: nat)
    requires Occupied(h) < |h|
    ensures p < |h| && h[p] == 0
  {
    var n := |h| - 1;
    if h[n] == 0 {
      p := n;
    } else {
      p := FreeSlot(h[..n]);
    }
  }

  lemma {:induction false} OccupiedNone(h: seq<int>)
    requires forall p :: 0 <= p < |h| ==> h[p] == 0
    ensures Occupied(h) == 0
  {
    if |h| > 0 {
      OccupiedNone(h[..|h| - 1]);
    }
  }

  /** The first t probes hit no empty entry. */
  ghost predicate Busy(h: seq<int>, hash: nat, t: nat)
    requires |h| > 0
  {
    forall u: nat :: u < t ==> h[At(hash, |h|, u).pos] != 0
  }

  /** Probing for the hash comes upon the entry n before any empty entry. */
  ghost predicate Placed(h: seq<int>, hash: nat, n: int)
    requires |h| > 0
  {
    exists t: nat :: h[At(hash, |h|, t).pos] == n && Busy(h, hash, t)
  }

  ghost predicate Entries<V>(h: seq<int>, slots: seq<Slot<V>>) {
    && (forall p :: 0 <= p < |h| ==> DELETED <= h[p] <= |slots|)
    && Unrepeated(h)
    && (forall p :: 0 <= p < |h| && h[p] > 0 ==> slots[h[p] - 1].key.HasKey?)
  }

  ghost predicate Found<V>(h: seq<int>, slots: seq<Slot<V>>, i: int)
    requires |h| > 0 && 0 <= i < |slots|
  {
    slots[i].key.HasKey? ==> slots[i].hash == HashOf(slots[i].key.key) && Placed(h, slots[i].hash, i + 1)
  }

  ghost predicate Table<V>(h: seq<int>, slots: seq<Slot<V>>) {
    && |h| > 0 && IsPow2(|h|)
    && Entries(h, slots) && DistinctKeys(slots)
    && (forall i :: 0 <= i < |slots| ==> Found(h, slots, i))
  }

  /** Filling an entry never hides another one. */
  lemma PlacedKept(h: seq<int>, p: nat, v: int, hash: nat, n: int)
    requires p < |h| && v != 0 && Placed(h, hash, n) && n != h[p]
    ensures Placed(h[p := v], hash, n)
  {
    var t: nat :| h[At(hash, |h|, t).pos] == n && Busy(h, hash, t);
    var h' := h[p := v];
    assert h'[At(hash, |h'|, t).pos] == n;
    assert Busy(h', hash, t) by {
      forall u: nat | u < t ensures h'[At(hash, |h'|, u).pos] != 0 {
        assert h[At(hash, |h|, u).pos] != 0;
      }
    }
  }

  lemma PlacedNew(h: seq<int>, p: nat, v: int, hash: nat, t: nat)
    requires p < |h| && v != 0 && At(hash, |h|, t).pos == p && Busy(h, hash, t)
    ensures Placed(h[p := v], hash, v)
  {
    var h' := h[p := v];
    assert h'[At(hash, |h'|, t).pos] == v;
    assert Busy(h', hash, t) by {
      forall u: nat | u < t ensures h'[At(hash, |h'|, u).pos] != 0 {
        assert h[At(hash, |h|, u).pos] != 0;
      }
    }
  }

  /** A key that is in no slot gets the next slot, and entry p leads to it. */
  ghost predicate Inserts<V>(h: seq<int>, slots: seq<Slot<V>>, key: Key, p: nat, t: nat) {
    && Table(h, slots) && p < |h| && h[p] <= 0
    && (forall i :: 0 <= i < |slots| ==> slots[i].key != HasKey(key))
    && At(HashOf(key), |h|, t).pos == p && Busy(h, HashOf(key), t)
  }

  lemma InsertFound<V>(h: seq<int>, slots: seq<Slot<V>>, key: Key, v: V, p: nat, t: nat, i: nat)
    requires Inserts(h, slots, key, p, t) && i <= |slots|
    ensures Found(h[p := |slots| + 1], slots + [Slot(HashOf(key), HasKey(key), v)], i)
  {
    hide Entries, DistinctKeys, IsPow2, Placed, Busy, HashOf;
    var slots' := slots + [Slot(HashOf(key), HasKey(key), v)];
    if i < |slots| {
      assert Found(h, slots, i) && slots'[i] == slots[i];
      if slots[i].key.HasKey? {
        PlacedKept(h, p, |slots| + 1, slots[i].hash, i + 1);
      }
    } else {
      PlacedNew(h, p, |slots| + 1, HashOf(key), t);
    }
  }

  lemma InsertEntries<V>(h: seq<int>, slots: seq<Slot<V>>, key: Key, v: V, p: nat, t: nat)
    requires Inserts(h, slots, key, p, t)
    ensures
      var slots' := slots + [Slot(HashOf(key), HasKey(key), v)];
      Entries(h[p := |slots| + 1], slots') && DistinctKeys(slots')
  {
    hide IsPow2, Found, Busy, HashOf, At;
    var h' := h[p := |slots| + 1];
    var slots' := slots + [Slot(HashOf(key), HasKey(key), v)];
    forall q | 0 <= q < |h'| && h'[q] > 0 ensures slots'[h'[q] - 1].key.HasKey? {
      if q != p {
        assert slots'[h[q] - 1] == slots[h[q] - 1];
      }
    }
  }

  lemma InsertKeeps<V>(h: seq<int>, slots: seq<Slot<V>>, key: Key, v: V, p: nat, t: nat)
    requires Inserts(h, slots, key, p, t)
    ensures Table(h[p := |slots| + 1], slots + [Slot(HashOf(key), HasKey(key), v)])
  {
    hide Found, Entries, DistinctKeys, Busy, HashOf, At;
    var h', slots' := h[p := |slots| + 1], slots + [Slot(HashOf(key), HasKey(key), v)];
    InsertEntries(h, slots, key, v, p, t);
    forall i | 0 <= i < |slots'| ensures Found(h', slots', i) {
      InsertFound(h, slots, key, v, p, t, i);
    }
  }

  lemma DeleteKeeps<V>(h: seq<int>, slots: seq<Slot<V>>, p: nat)
    requires Table(h, slots) && p < |h| && h[p] > 0
    ensures Table(h[p := DELETED], slots[h[p] - 1 := slots[h[p] - 1].(key := NoKey)])
  {
    var n := h[p] - 1;
    var h' := h[p := DELETED];
    var slots' := slots[n := slots[n].(key := NoKey)];
    forall i | 0 <= i < |slots'| ensures Found(h', slots', i) {
      assert Found(h, slots, i);
      if i != n && slots[i].key.HasKey? {
        PlacedKept(h, p, DELETED, slots[i].hash, i + 1);
      }
    }
    assert Entries(h', slots') by {
      forall q | 0 <= q < |h'| && h'[q] > 0 ensures slots'[h'[q] - 1].key.HasKey? {
        if q < p {
          assert h[p] != h[q];
        } else {
          assert h[q] != h[p];
        }
      }
    }
  }

  lemma UpdateKeeps<V>(h: seq<int>, slots: seq<Slot<V>>, i: nat, v: V)
    requires Table(h, slots) && i < |slots|
    ensures Table(h, slots[i := slots[i].(val := v)])
  {
    var slots' := slots[i := slots[i].(val := v)];
    forall j | 0 <= j < |slots'| ensures Found(h, slots', j) {
      assert Found(h, slots, j);
    }
  }

  // ---------------------------------------------------------------- rehashing

  /** The new table after the first i entries of the old one have been moved. */
  ghost predicate Rehashed<V>(h: seq<int>, i: int, slots: seq<Slot<V>>, h2: seq<int>) {
    && 0 <= i <= |h| && |h2| > 0
    && Occupied(h2) <= Occupied(h[..i])
    && OnlyFrom(h, i, h2) && Unrepeated(h2)
    && (forall j :: 0 <= j < i ==> Moved(h[j], slots, h2))
  }

  ghost predicate Moved<V>(n: int, slots: seq<Slot<V>>, h2: seq<int>)
    requires |h2| > 0
  {
    0 < n <= |slots| ==> Placed(h2, slots[n - 1].hash, n)
  }

  lemma MovedKept<V>(n: int, slots: seq<Slot<V>>, h2: seq<int>, p: nat, v: int)
    requires p < |h2| && h2[p] == 0 && v != 0 && Moved(n, slots, h2)
    ensures Moved(n, slots, h2[p := v])
  {
    if 0 < n <= |slots| {
      PlacedKept(h2, p, v, slots[n - 1].hash, n);
    }
  }

  ghost predicate OnlyFrom(h: seq<int>, i: int, h2: seq<int>)
    requires 0 <= i <= |h|
  {
    forall p :: 0 <= p < |h2| && h2[p] != 0 ==> h2[p] > 0 && exists j :: 0 <= j < i && h[j] == h2[p]
  }

  ghost predicate Unrepeated(h: seq<int>) {
    forall p, q :: 0 <= p < q < |h| && h[p] > 0 ==> h[q] != h[p]
  }

  lemma OccupiedNext(h: seq<int>, i: int)
    requires 0 <= i < |h|
    ensures Occupied(h[..i + 1]) == Occupied(h[..i]) + if h[i] != 0 then 1 else 0
  {
    assert h[..i + 1][..i] == h[..i];
  }

  lemma MoveEntry(h: seq<int>, i: int, h2: seq<int>, p: nat)
    requires Unrepeated(h) && 0 <= i < |h| && 0 < h[i] && OnlyFrom(h, i, h2) && Unrepeated(h2)
    requires p < |h2| && h2[p] == 0
    ensures OnlyFrom(h, i + 1, h2[p := h[i]]) && Unrepeated(h2[p := h[i]])
  {
    var h3 := h2[p := h[i]];
    forall q | 0 <= q < |h3| && h3[q] != 0
      ensures h3[q] > 0 && (exists j :: 0 <= j < i + 1 && h[j] == h3[q]) && (q != p ==> h3[q] != h[i])
    {
      if q == p {
        assert h[i] == h3[q];
      } else {
        var j :| 0 <= j < i && h[j] == h2[q];
        assert h[j] == h3[q];
      }
    }
  }

  lemma RehashMove<V>(h: seq<int>, i: int, slots: seq<Slot<V>>, h2: seq<int>, p: nat, t: nat)
    requires Entries(h, slots) && Rehashed(h, i, slots, h2) && i < |h| && 0 < h[i] <= |slots|
    requires p < |h2| && h2[p] == 0
    requires At(slots[h[i] - 1].hash, |h2|, t).pos == p && Busy(h2, slots[h[i] - 1].hash, t)
    ensures Rehashed(h, i + 1, slots, h2[p := h[i]])
  {
    OccupiedNext(h, i);
    MoveEntry(h, i, h2, p);
    hide Busy, At, Occupied, OnlyFrom, Unrepeated, Placed, Entries;
    OccupiedUpdate(h2, p, h[i]);
    PlacedNew(h2, p, h[i], slots[h[i] - 1].hash, t);
    assert Moved(h[i], slots, h2[p := h[i]]);
    hide Moved;
    forall j | 0 <= j < i ensures Moved(h[j], slots, h2[p := h[i]]) {
      MovedKept(h[j], slots, h2, p, h[i]);
    }
  }

  lemma RehashSkip<V>(h: seq<int>, i: int, slots: seq<Slot<V>>, h2: seq<int>)
    requires Rehashed(h, i, slots, h2) && i < |h| && h[i] <= 0
    ensures Rehashed(h, i + 1, slots, h2)
  {
    OccupiedNext(h, i);
  }

  /** Every live slot found in the old table is found in the new one. */
  lemma RehashDone<V>(h: seq<int>, slots: seq<Slot<V>>, h2: seq<int>)
    requires Table(h, slots) && Rehashed(h, |h|, slots, h2) && IsPow2(|h2|)
    ensures Table(h2, slots)
  {
    forall i | 0 <= i < |slots| ensures Found(h2, slots, i) {
      assert Found(h, slots, i);
      if slots[i].key.HasKey? {
        var t: nat :| h[At(slots[i].hash, |h|, t).pos] == i + 1 && Busy(h, slots[i].hash, t);
        assert Moved(h[At(slots[i].hash, |h|, t).pos], slots, h2);
      }
    }
    RehashEntries(h, slots, h2);
  }

  lemma RehashEntries<V>(h: seq<int>, slots: seq<Slot<V>>, h2: seq<int>)
    requires Entries(h, slots) && OnlyFrom(h, |h|, h2) && Unrepeated(h2)
    ensures Entries(h2, slots)
  {
  }

  // ---------------------------------------------------------------- searching

  /** t probes for the key have met neither an empty entry nor the key. */
  ghost predicate Probed<V>(h: seq<int>, slots: seq<Slot<V>>, key: Key, t: nat)
    requires |h| > 0
  {
    && Busy(h, HashOf(key), t)
    && (forall u: nat :: u < t ==> Misses(h, slots, key, u))
  }

  ghost predicate Misses<V>(h: seq<int>, slots: seq<Slot<V>>, key: Key, u: nat)
    requires |h| > 0
  {
    var n := h[At(HashOf(key), |h|, u).pos];
    0 < n <= |slots| ==> slots[n - 1].key != HasKey(key)
  }

  lemma ProbedBefore<V>(h: seq<int>, slots: seq<Slot<V>>, key: Key, t: nat, u: nat)
    requires |h| > 0 && Probed(h, slots, key, t) && h[At(HashOf(key), |h|, u).pos] == 0
    ensures t <= u
  {
  }

  lemma ProbedBusy<V>(h: seq<int>, slots: seq<Slot<V>>, key: Key, t: nat, u: nat)
    requires |h| > 0 && Probed(h, slots, key, t) && u <= t
    ensures Busy(h, HashOf(key), u)
  {
  }

  /** The hash comparison in the probe loop never rejects the right slot. */
  lemma HashFilter<V>(h: seq<int>, slots: seq<Slot<V>>, key: Key, p: nat)
    requires Table(h, slots) && p < |h| && h[p] > 0
    ensures h[p] <= |slots| && (slots[h[p] - 1].key == HasKey(key) ==> slots[h[p] - 1].hash == HashOf(key))
  {
    assert Found(h, slots, h[p] - 1);
  }

  /** A probe sequence that ends at an empty entry without meeting the key proves the key absent. */
  lemma AbsentKey<V>(h: seq<int>, slots: seq<Slot<V>>, key: Key, t: nat)
    requires Table(h, slots) && Probed(h, slots, key, t)
    requires h[At(HashOf(key), |h|, t).pos] == 0
    ensures key !in ModelOf(slots)
    ensures forall i :: 0 <= i < |slots| ==> slots[i].key != HasKey(key)
  {
    forall i | 0 <= i < |slots| && Found(h, slots, i) ensures slots[i].key != HasKey(key) {
      AbsentSlot(h, slots, key, t, i);
    }
    ModelLookup(slots);
  }

  lemma AbsentSlot<V>(h: seq<int>, slots: seq<Slot<V>>, key: Key, t: nat, i: int)
    requires |h| > 0 && Probed(h, slots, key, t) && h[At(HashOf(key), |h|, t).pos] == 0
    requires 0 <= i < |slots| && Found(h, slots, i)
    ensures slots[i].key != HasKey(key)
  {
    if slots[i].key.HasKey? && slots[i].key.key == key {
      var u: nat :| h[At(HashOf(key), |h|, u).pos] == i + 1 && Busy(h, HashOf(key), u);
      if u < t {
        assert Misses(h, slots, key, u);
      }
    }
  }

  // ---------------------------------------------------------------- the object

  class Map<V> {
    var hash: array<int>
    var limit: int
    var count: int
    var deleted: int
    var slots: seq<Slot<V>>

    ghost predicate Valid()
      reads this, hash
    {
      && hash.Length >= INIT_SIZE
      && Table(hash[..], slots)
      && limit == hash.Length * 8 / 10
      && count == |slots| && deleted == DeletedSlots(slots)
      && Occupied(hash[..]) <= count <= limit
    }

    ghost function Model(): map<Key, V>
      reads this
    {
      ModelOf(slots)
    }

    constructor ()
      ensures Valid() && fresh(hash) && Model() == map[]
    {
      hash := new int[INIT_SIZE](_ => 0);
      limit := INIT_SIZE * 8 / 10;
      count := 0;
      deleted := 0;
      slots := [];
      new;
      OccupiedNone(hash[..]);
      assert IsPow2(INIT_SIZE) by {
        assert INIT_SIZE == Pow2(3);
      }
    }

    /** The number of live keys. */
    lemma LiveCount()
      requires Valid()
      ensures |Model()| == count - deleted
    {
      ModelSize(slots);
    }

    /** The slot of a key, or none; and the entry that leads to it, or where it may be entered. */
    method FindMapslot(key: Key) returns (x: int, h: nat, probe: nat, ghost t: nat)
      requires Valid()
      ensures h == HashOf(key) && probe < hash.Length
      ensures -1 <= x < |slots|
      ensures x >= 0 ==> slots[x].key == HasKey(key) && hash[probe] == x + 1
      ensures x < 0 ==> key !in Model() && (forall i :: 0 <= i < |slots| ==> slots[i].key != HasKey(key))
      ensures x < 0 ==> hash[probe] <= 0 && At(h, hash.Length, t).pos == probe && Busy(hash[..], h, t)
    {
      hide Table, Probed, Misses, Busy, At, HashOf, Occupied, ModelOf;
      ghost var hs := hash[..];
      var size := hash.Length;
      TableParts(hs, slots);
      h := ZstringHash(key);
      var perturb: nat := h;
      probe := h % size;
      t := 0;
      var firstDeleted := -1;
      ghost var td := 0;
      ghost var free := FreeSlot(hs);
      ghost var last := ProbesEverySlot(h, size, free);
      FirstProbe(hs, slots, key);
      while hash[probe] != 0
        invariant At(h, size, t) == Probe(probe, perturb) && probe < size
        invariant Probed(hs, slots, key, t)
        invariant -1 <= firstDeleted < size
        invariant firstDeleted >= 0 ==> hs[firstDeleted] == DELETED && td <= t && At(h, size, td).pos == firstDeleted
        decreases last - t
      {
        ProbedBefore(hs, slots, key, t, last);
        var n := hash[probe];
        if n > 0 {
          x := n - 1;
          HashFilter(hs, slots, key, probe);
          if h == slots[x].hash && slots[x].key == HasKey(key) {
            return;
          }
        } else if firstDeleted < 0 {
          firstDeleted := probe;
          td := t;
        }
        NextProbe(hs, slots, key, t);
        perturb := perturb / PSHIFT_DIV;
        probe := (probe * 5 + 1 + perturb) % size;
        t := t + 1;
        ProbedBefore(hs, slots, key, t, last);
      }
      AbsentKey(hs, slots, key, t);
      if firstDeleted >= 0 {
        ProbedBusy(hs, slots, key, t, td);
        probe := firstDeleted;
        t := td;
      } else {
        ProbedBusy(hs, slots, key, t, t);
      }
      x := -1;
    }

    /** The first empty entry in the probe sequence of a hash. */
    static method FreeEntry(h2: array<int>, h: nat, ghost last: nat) returns (p: nat, ghost t: nat)
      requires h2.Length > 0 && h2[At(h, h2.Length, last).pos] == 0
      ensures p < h2.Length && h2[p] == 0 && At(h, h2.Length, t).pos == p && Busy(h2[..], h, t)
    {
      hide Busy, At;
      var perturb: nat := h;
      p := h % h2.Length;
      t := 0;
      FirstBusy(h2[..], h);
      while h2[p] != 0
        invariant p < h2.Length && At(h, h2.Length, t) == Probe(p, perturb) && Busy(h2[..], h, t)
        decreases last - t
      {
        BusyBefore(h2[..], h, t, last);
        NextBusy(h2[..], h, t);
        perturb := perturb / PSHIFT_DIV;
        p := (p * 5 + 1 + perturb) % h2.Length;
        t := t + 1;
        BusyBefore(h2[..], h, t, last);
      }
    }

    /** Doubles the table and enters the live slots again; the tombstones disappear. */
    method Rehash()
      requires Valid()
      modifies this`hash, this`limit
      ensures Valid() && fresh(hash) && hash.Length == 2 * old(hash.Length) && count < limit
      ensures slots == old(slots) && count == old(count) && deleted == old(deleted)
    {
      hide Table, Rehashed, Entries, Busy, At, Occupied, DistinctKeys, DeletedSlots;
      ghost var hs := hash[..];
      var size := hash.Length;
      TableParts(hs, slots);
      var h2 := new int[2 * size](_ => 0);
      RehashInit(hs, slots, h2[..]);
      var i := 0;
      while i < size
        invariant 0 <= i <= size && hash[..] == hs && fresh(h2) && h2.Length == 2 * size
        invariant Rehashed(hs, i, slots, h2[..])
      {
        var n := hash[i];
        if n > 0 {
          ghost var hs2 := h2[..];
          ghost var last := RehashSpace(hs, i, slots, hs2);
          var p;
          ghost var t;
          p, t := FreeEntry(h2, slots[n - 1].hash, last);
          RehashMove(hs, i, slots, hs2, p, t);
          h2[p] := n;
          assert h2[..] == hs2[p := n];
        } else {
          RehashSkip(hs, i, slots, h2[..]);
        }
        i := i + 1;
      }
      RehashEnd(hs, slots, h2[..], count);
      hash := h2;
      limit := 2 * size * 8 / 10;
    }

    /** The slot of a key, which is entered with the given value if it is absent. */
    method FindOrInsertKey(key: Key, uninit: V) returns (n: int)
      requires Valid()
      modifies this, hash
      ensures Valid() && (hash == old(hash) || fresh(hash))
      ensures 0 <= n < |slots| && slots[n].key == HasKey(key)
      ensures key in old(Model()) ==> Model() == old(Model())
      ensures key !in old(Model()) ==> Model() == old(Model())[key := uninit]
    {
      var x, h, probe;
      ghost var t;
      x, h, probe, t := FindMapslot(key);
      if x >= 0 {
        ModelLookup(slots);
        return x;
      }
      if count == limit {
        Rehash();
        x, h, probe, t := FindMapslot(key);
        assert x < 0 by {
          ModelLookup(slots);
        }
      }
      n := |slots|;
      Insert(key, uninit, h, probe, t);
    }

    /** Enters an absent key at a free or deleted entry of its probe sequence. */
    method Insert(key: Key, uninit: V, h: nat, probe: nat, ghost t: nat)
      requires Valid() && count < limit && h == HashOf(key) && probe < hash.Length && hash[probe] <= 0
      requires forall i :: 0 <= i < |slots| ==> slots[i].key != HasKey(key)
      requires At(h, hash.Length, t).pos == probe && Busy(hash[..], h, t)
      modifies this`slots, this`count, hash
      ensures Valid() && slots == old(slots) + [Slot(h, HasKey(key), uninit)]
      ensures Model() == old(Model())[key := uninit]
    {
      hide Table, Busy, At, HashOf;
      ghost var hs := hash[..];
      InsertKeeps(hs, slots, key, uninit, probe, t);
      OccupiedUpdate(hs, probe, |slots| + 1);
      ModelAppend(slots, Slot(h, HasKey(key), uninit));
      var n := |slots|;
      slots := slots + [Slot(h, HasKey(key), uninit)];
      count := count + 1;
      hash[probe] := n + 1;
      assert hash[..] == hs[probe := n + 1];
    }

    /** The slot of a key, or -1. */
    method Find(key: Key) returns (x: int)
      requires Valid()
      ensures -1 <= x < |slots| && (x >= 0 <==> key in Model())
      ensures x >= 0 ==> slots[x].key == HasKey(key) && slots[x].val == Model()[key]
    {
      var h, probe;
      ghost var t;
      x, h, probe, t := FindMapslot(key);
      ModelLookup(slots);
    }

    /** Assignment through a slot that a search has returned. */
    method SetVal(i: int, v: V)
      requires Valid() && 0 <= i < |slots| && slots[i].key.HasKey?
      modifies this`slots
      ensures Valid() && Model() == old(Model())[old(slots)[i].key.key := v]
    {
      hide Table;
      DistinctOf(hash[..], slots);
      ModelUpdate(slots, i, v);
      UpdateKeeps(hash[..], slots, i, v);
      slots := slots[i := slots[i].(val := v)];
    }

    method Delete(key: Key)
      requires Valid()
      modifies this`slots, this`deleted, hash
      ensures Valid() && Model() == old(Model()) - {key}
    {
      var x, h, probe;
      ghost var t;
      x, h, probe, t := FindMapslot(key);
      if x < 0 {
        return;
      }
      Remove(probe, key);
    }

    method Remove(probe: nat, ghost key: Key)
      requires Valid() && probe < hash.Length && hash[probe] > 0 && hash[probe] <= |slots|
      requires slots[hash[probe] - 1].key == HasKey(key)
      modifies this`slots, this`deleted, hash
      ensures Valid() && Model() == old(Model()) - {key}
    {
      hide Table;
      ghost var hs := hash[..];
      DistinctOf(hs, slots);
      var n := hash[probe] - 1;
      DeleteKeeps(hs, slots, probe);
      ModelRemove(slots, n);
      OccupiedUpdate(hs, probe, DELETED);
      slots := slots[n := slots[n].(key := NoKey)];
      hash[probe] := DELETED;
      deleted := deleted + 1;
      assert hash[..] == hs[probe := DELETED];
    }
  }

  lemma DistinctOf<V>(h: seq<int>, slots: seq<Slot<V>>)
    requires Table(h, slots)
    ensures DistinctKeys(slots)
  {
  }

  lemma RehashInit<V>(h: seq<int>, slots: seq<Slot<V>>, h2: seq<int>)
    requires Table(h, slots) && |h2| == 2 * |h| && forall p :: 0 <= p < |h2| ==> h2[p] == 0
    ensures Rehashed(h, 0, slots, h2)
  {
    OccupiedNone(h2);
  }

  /** There is an empty entry left, and the probes for any hash come upon it. */
  lemma RehashSpace<V>(h: seq<int>, i: int, slots: seq<Slot<V>>, h2: seq<int>) returns (last: nat)
    requires Table(h, slots) && Rehashed(h, i, slots, h2) && |h2| == 2 * |h| && i < |h| && h[i] > 0
    ensures Entries(h, slots) && h[i] <= |slots| && h2[At(slots[h[i] - 1].hash, |h2|, last).pos] == 0
  {
    var hash := slots[h[i] - 1].hash;
    assert Found(h, slots, h[i] - 1);
    assert IsPow2(|h2|) by {
      DoublePow2(|h|);
    }
    var free := FreeSlot(h2);
    last := ProbesEverySlot(hash, |h2|, free);
  }

  lemma DoublePow2(n: nat)
    requires IsPow2(n)
    ensures IsPow2(2 * n)
  {
    var k: nat :| n == Pow2(k);
    assert 2 * n == Pow2(k + 1);
  }

  lemma RehashEnd<V>(h: seq<int>, slots: seq<Slot<V>>, h2: seq<int>, count: int)
    requires Table(h, slots) && Rehashed(h, |h|, slots, h2) && |h2| == 2 * |h|
    requires Occupied(h) <= count
    ensures Table(h2, slots) && Occupied(h2) <= count
  {
    assert h[..|h|] == h;
    DoublePow2(|h|);
    RehashDone(h, slots, h2);
  }

  lemma FirstBusy(h: seq<int>, hash: nat)
    requires |h| > 0
    ensures At(hash, |h|, 0) == Probe(hash % |h|, hash) && Busy(h, hash, 0)
  {
  }

  lemma NextBusy(h: seq<int>, hash: nat, t: nat)
    requires |h| > 0 && Busy(h, hash, t) && h[At(hash, |h|, t).pos] != 0
    ensures Busy(h, hash, t + 1) && At(hash, |h|, t + 1) == Next(At(hash, |h|, t), |h|)
  {
  }

  lemma BusyBefore(h: seq<int>, hash: nat, t: nat, u: nat)
    requires |h| > 0 && Busy(h, hash, t) && h[At(hash, |h|, u).pos] == 0
    ensures t <= u
  {
  }


  lemma TableParts<V>(h: seq<int>, slots: seq<Slot<V>>)
    requires Table(h, slots)
    ensures |h| > 0 && IsPow2(|h|) && forall p :: 0 <= p < |h| ==> DELETED <= h[p] <= |slots|
  {
  }

  lemma FirstProbe<V>(h: seq<int>, slots: seq<Slot<V>>, key: Key)
    requires |h| > 0
    ensures At(HashOf(key), |h|, 0) == Probe(HashOf(key) % |h|, HashOf(key)) && Probed(h, slots, key, 0)
  {
  }

  /** One more probe that meets neither an empty entry nor the key. */
  lemma NextProbe<V>(h: seq<int>, slots: seq<Slot<V>>, key: Key, t: nat)
    requires |h| > 0 && Probed(h, slots, key, t)
    requires
      var n := h[At(HashOf(key), |h|, t).pos];
      n != 0 && (0 < n <= |slots| ==> slots[n - 1].key != HasKey(key))
    ensures Probed(h, slots, key, t + 1)
    ensures At(HashOf(key), |h|, t + 1) == Next(At(HashOf(key), |h|, t), |h|)
  {
  }
}
