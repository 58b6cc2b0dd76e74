/**
 The open-addressing map, c_hashmap/hashmap.c: a key lies within eight slots of its home. A full
 chain doubles the table and puts every key again, and such a put may double the table once more.
 */
module ProbingMap {
  import opened Bytes

  type Hash = Text -> nat

  datatype Slot<V> = Empty | Used(key: Text, value: V)

  datatype Table<V> = Table(slots: seq<Slot<V>>, size: int)

  const INITIAL_SIZE := 256
  const MAX_CHAIN_LENGTH := 8

  // ---- Probing ----

  function Position(hash: Hash, k: Text, n: nat, d: nat): (i: nat)
    requires n > 0
    ensures i < n
  {
    (hash(k) + d) % n
  }

  /** hashmap_hash: the first slot of the chain from `d` on that is empty or has the key. */
  function Fit<V>(hash: Hash, s: seq<Slot<V>>, k: Text, d: nat): (r: Option<nat>)
    requires s != [] && d <= MAX_CHAIN_LENGTH
    ensures r.Some? ==> r.value < |s| && (s[r.value].Empty? || s[r.value].key == k)
    decreases MAX_CHAIN_LENGTH - d
  {
    if d == MAX_CHAIN_LENGTH then None
    else
      var i := Position(hash, k, |s|, d);
      if s[i].Empty? || s[i].key == k then Some(i) else Fit(hash, s, k, d + 1)
  }

  /** The first slot of the chain from `d` on that has the key. */
  function Seek<V>(hash: Hash, s: seq<Slot<V>>, k: Text, d: nat): (r: Option<nat>)
    requires s != [] && d <= MAX_CHAIN_LENGTH
    ensures r.Some? ==> r.value < |s| && s[r.value].Used? && s[r.value].key == k
    decreases MAX_CHAIN_LENGTH - d
  {
    if d == MAX_CHAIN_LENGTH then None
    else
      var i := Position(hash, k, |s|, d);
      if s[i].Used? && s[i].key == k then Some(i) else Seek(hash, s, k, d + 1)
  }

  /** The slot that a put takes; none if half of the table is in use. */
  function Place<V>(hash: Hash, t: Table<V>, k: Text): (r: Option<nat>)
    requires t.slots != []
    ensures r.Some? ==> r.value < |t.slots| && (t.slots[r.value].Empty? || t.slots[r.value].key == k)
  {
    if t.size >= |t.slots| / 2 then None else Fit(hash, t.slots, k, 0)
  }

  // ---- Operations on tables ----

  function Get<V>(hash: Hash, t: Table<V>, k: Text): Option<V>
    requires t.slots != []
  {
    match Seek(hash, t.slots, k, 0)
    case Some(i) => Some(t.slots[i].value)
    case None => None
  }

  function Remove<V>(hash: Hash, t: Table<V>, k: Text): (r: Table<V>)
    requires t.slots != []
    ensures |r.slots| == |t.slots|
  {
    match Seek(hash, t.slots, k, 0)
    case Some(i) => Table(t.slots[i := Empty], t.size - 1)
    case None => t
  }

  function EmptyTable<V>(n: nat): Table<V> {
    Table(seq(n, i => Empty), 0)
  }

  /** Whether an operation worked; MAP_OMEM is the failure. */
  datatype Outcome<V> = Outcome(ok: bool, table: Table<V>)

  function Room(limit: nat, n: nat): nat {
    if n < limit then limit - n else 0
  }

  /** hashmap_put, where the allocator gives tables of up to `limit` slots. */
  function Put<V>(hash: Hash, t: Table<V>, k: Text, v: V, limit: nat): (o: Outcome<V>)
    requires t.slots != []
    ensures |o.table.slots| >= |t.slots|
    decreases Room(limit, |t.slots|), 1
  {
    var place := Place(hash, t, k);
    if place.Some? then
      Outcome(true, Table(t.slots[place.value := Used(k, v)], t.size + 1))
    else
      var r := Rehash(hash, t, limit);
      if !r.ok then r else Put(hash, r.table, k, v, limit)
  }

  /** hashmap_rehash */
  function Rehash<V>(hash: Hash, t: Table<V>, limit: nat): (o: Outcome<V>)
    requires t.slots != []
    ensures |o.table.slots| >= |t.slots|
    ensures o.ok ==> 2 * |t.slots| <= |o.table.slots| && 2 * |t.slots| <= limit
    decreases Room(limit, |t.slots|), 0
  {
    if 2 * |t.slots| > limit then Outcome(false, t)
    else PutAll(hash, t.slots, EmptyTable(2 * |t.slots|), limit)
  }

  /** Putting the keys of some slots, one after the other. */
  function PutAll<V>(hash: Hash, s: seq<Slot<V>>, t: Table<V>, limit: nat): (o: Outcome<V>)
    requires t.slots != []
    ensures |o.table.slots| >= |t.slots|
    decreases Room(limit, |t.slots|), |s| + 2
  {
    if s == [] then Outcome(true, t)
    else if s[0].Empty? then PutAll(hash, s[1..], t, limit)
    else
      var r := Put(hash, t, s[0].key, s[0].value, limit);
      if !r.ok then r else PutAll(hash, s[1..], r.table, limit)
  }

  // ---- The map that a table stands for ----

  ghost predicate NoKeyTwice<V>(s: seq<Slot<V>>) {
    forall i, j :: 0 <= i < j < |s| && s[i].Used? && s[j].Used? ==> s[i].key != s[j].key
  }

  ghost predicate Agrees<V>(s: seq<Slot<V>>, m: map<Text, V>) {
    && (forall i :: 0 <= i < |s| && s[i].Used? ==> s[i].key in m && m[s[i].key] == s[i].value)
    && (forall k :: k in m ==> exists i :: 0 <= i < |s| && s[i].Used? && s[i].key == k)
  }

  ghost predicate InChain<V>(hash: Hash, s: seq<Slot<V>>, i: nat)
    requires i < |s|
  {
    s[i].Used? ==> exists d :: 0 <= d < MAX_CHAIN_LENGTH && Position(hash, s[i].key, |s|, d) == i
  }

  ghost predicate Chained<V>(hash: Hash, s: seq<Slot<V>>) {
    forall i :: 0 <= i < |s| ==> InChain(hash, s, i)
  }

  /** Every key is once in the table, within eight slots of its home, and the size is their number. */
  ghost predicate Sound<V>(hash: Hash, t: Table<V>, m: map<Text, V>) {
    && t.slots != []
    && NoKeyTwice(t.slots)
    && Agrees(t.slots, m)
    && Chained(hash, t.slots)
    && t.size == |m|
  }

  lemma EmptyIsSound<V>(hash: Hash, n: nat)
    requires n > 0
    ensures Sound(hash, EmptyTable<V>(n), map[])
  {
  }

  // ---- Probing finds what there is ----

  lemma {:induction false} FitIsInChain<V>(hash: Hash, s: seq<Slot<V>>, k: Text, d: nat)
    requires s != [] && d <= MAX_CHAIN_LENGTH && Fit(hash, s, k, d).Some?
    ensures exists e :: d <= e < MAX_CHAIN_LENGTH && Position(hash, k, |s|, e) == Fit(hash, s, k, d).value
    decreases MAX_CHAIN_LENGTH - d
  {
    var i := Position(hash, k, |s|, d);
    if !(s[i].Empty? || s[i].key == k) {
      FitIsInChain(hash, s, k, d + 1);
    }
  }

  lemma {:induction false} SeekFinds<V>(hash: Hash, s: seq<Slot<V>>, k: Text, d: nat, e: nat)
    requires s != [] && NoKeyTwice(s) && d <= e < MAX_CHAIN_LENGTH
    requires var i := Position(hash, k, |s|, e); s[i].Used? && s[i].key == k
    ensures Seek(hash, s, k, d) == Some(Position(hash, k, |s|, e))
    decreases e - d
  {
    var i := Position(hash, k, |s|, d);
    if s[i].Used? && s[i].key == k {
      var j := Position(hash, k, |s|, e);
      assert i == j by {
        if i < j {
          assert false;
        } else if j < i {
          assert false;
        }
      }
    } else {
      SeekFinds(hash, s, k, d + 1, e);
    }
  }

  /** The one slot of a key that the table has. */
  lemma SlotOf<V>(hash: Hash, t: Table<V>, m: map<Text, V>, k: Text) returns (i: nat)
    requires Sound(hash, t, m) && k in m
    ensures i < |t.slots| && t.slots[i] == Used(k, m[k]) && Seek(hash, t.slots, k, 0) == Some(i)
  {
    i :| 0 <= i < |t.slots| && t.slots[i].Used? && t.slots[i].key == k;
    assert InChain(hash, t.slots, i);
    var e :| 0 <= e < MAX_CHAIN_LENGTH && Position(hash, k, |t.slots|, e) == i;
    SeekFinds(hash, t.slots, k, 0, e);
  }

  /** hashmap_get is the lookup of the map. */
  lemma GetIsLookup<V>(hash: Hash, t: Table<V>, m: map<Text, V>, k: Text)
    requires Sound(hash, t, m)
    ensures Get(hash, t, k) == if k in m then Some(m[k]) else None
  {
    if k in m {
      var i := SlotOf(hash, t, m, k);
    }
  }

  /** hashmap_remove takes the key out of the map and nothing else. */
  lemma RemoveKeeps<V>(hash: Hash, t: Table<V>, m: map<Text, V>, k: Text)
    requires Sound(hash, t, m)
    ensures Sound(hash, Remove(hash, t, k), m - {k})
    ensures Remove(hash, t, k) != t <==> k in m
  {
    GetIsLookup(hash, t, m, k);
    hide Position, NoKeyTwice, Agrees, Chained, Seek;
    if k in m {
      var i := SlotOf(hash, t, m, k);
      Dropped(t.slots, m, i);
      assert m.Keys == (m - {k}).Keys + {k};
      ChainsStay(hash, t.slots, i, Empty);
    } else {
      assert m - {k} == m;
    }
  }

  lemma ChainsStay<V>(hash: Hash, s: seq<Slot<V>>, i: nat, c: Slot<V>)
    requires i < |s| && Chained(hash, s)
    requires c.Used? ==> exists d :: 0 <= d < MAX_CHAIN_LENGTH && Position(hash, c.key, |s|, d) == i
    ensures Chained(hash, s[i := c])
  {
    hide Position;
    var t := s[i := c];
    forall j | 0 <= j < |t| ensures InChain(hash, t, j) {
      assert InChain(hash, s, j);
    }
  }

  lemma Dropped<V>(s: seq<Slot<V>>, m: map<Text, V>, i: nat)
    requires NoKeyTwice(s) && Agrees(s, m) && i < |s| && s[i].Used?
    ensures NoKeyTwice(s[i := Empty]) && Agrees(s[i := Empty], m - {s[i].key})
  {
    var n, t := m - {s[i].key}, s[i := Empty];
    forall k | k in n ensures exists j :: 0 <= j < |t| && t[j].Used? && t[j].key == k {
      var j :| 0 <= j < |s| && s[j].Used? && s[j].key == k;
      assert t[j].key == k;
    }
  }

  // ---- Puts ----

  /** A key goes into an empty slot of its chain. */
  lemma PlacedNew<V>(hash: Hash, t: Table<V>, m: map<Text, V>, k: Text, v: V)
    requires Sound(hash, t, m) && k !in m && Place(hash, t, k).Some?
    ensures Sound(hash, Table(t.slots[Place(hash, t, k).value := Used(k, v)], t.size + 1), m[k := v])
  {
    var i := Place(hash, t, k).value;
    FitIsInChain(hash, t.slots, k, 0);
    hide Position, Fit, NoKeyTwice, Agrees, Chained;
    assert t.slots[i].Empty? by {
      AbsentKey(t.slots, m, k);
    }
    assert m[k := v].Keys == m.Keys + {k};
    ChainsStay(hash, t.slots, i, Used(k, v));
    Added(t.slots, m, i, k, v);
  }

  lemma AbsentKey<V>(s: seq<Slot<V>>, m: map<Text, V>, k: Text)
    requires Agrees(s, m) && k !in m
    ensures forall i :: 0 <= i < |s| && s[i].Used? ==> s[i].key != k
  {
  }

  lemma Added<V>(s: seq<Slot<V>>, m: map<Text, V>, i: nat, k: Text, v: V)
    requires NoKeyTwice(s) && Agrees(s, m) && i < |s| && s[i].Empty? && k !in m
    ensures NoKeyTwice(s[i := Used(k, v)]) && Agrees(s[i := Used(k, v)], m[k := v])
  {
    var t, n := s[i := Used(k, v)], m[k := v];
    forall x | x in n ensures exists j :: 0 <= j < |t| && t[j].Used? && t[j].key == x {
      if x == k {
        assert t[i].key == x;
      } else {
        var j :| 0 <= j < |s| && s[j].Used? && s[j].key == x;
        assert t[j].key == x;
      }
    }
  }

  ghost predicate Submap<V>(m: map<Text, V>, n: map<Text, V>) {
    forall k :: k in m ==> k in n && n[k] == m[k]
  }

  /**
   A put of a new key adds it to the map. One that runs out of memory leaves a table that is sound
   still; it may have lost keys if the memory ran out while they were put again.
   */
  lemma {:induction false} PutNewKey<V>(hash: Hash, t: Table<V>, m: map<Text, V>, k: Text, v: V, limit: nat) returns (n: map<Text, V>)
    requires t.slots != [] && Sound(hash, t, m) && k !in m
    ensures Sound(hash, Put(hash, t, k, v, limit).table, n)
    ensures Put(hash, t, k, v, limit).ok ==> n == m[k := v]
    ensures Submap(n, m[k := v])
    decreases Room(limit, |t.slots|), 1
  {
    hide Sound, Place;
    if Place(hash, t, k).Some? {
      PlacedNew(hash, t, m, k, v);
      n := m[k := v];
    } else {
      n := RehashKeeps(hash, t, m, limit);
      var r := Rehash(hash, t, limit);
      if r.ok {
        n := PutNewKey(hash, r.table, m, k, v, limit);
      }
    }
  }

  /** A rehash that works changes nothing in the map, even if it sets off another one. */
  lemma {:induction false} RehashKeeps<V>(hash: Hash, t: Table<V>, m: map<Text, V>, limit: nat) returns (n: map<Text, V>)
    requires Sound(hash, t, m)
    ensures Sound(hash, Rehash(hash, t, limit).table, n) && Submap(n, m)
    ensures Rehash(hash, t, limit).ok ==> n == m
    decreases Room(limit, |t.slots|), 0
  {
    n := m;
    if 2 * |t.slots| <= limit {
      EmptyIsSound<V>(hash, 2 * |t.slots|);
      n := PutAllAdds(hash, t.slots, m, EmptyTable(2 * |t.slots|), map[], limit);
      assert map[] + m == m;
    }
  }

  /** Putting the keys of some slots adds their map to that of the table. */
  lemma {:induction false} PutAllAdds<V>(hash: Hash, s: seq<Slot<V>>, ms: map<Text, V>, t: Table<V>, m: map<Text, V>, limit: nat) returns (n: map<Text, V>)
    requires t.slots != [] && Sound(hash, t, m) && NoKeyTwice(s) && Agrees(s, ms) && m.Keys !! ms.Keys
    ensures Sound(hash, PutAll(hash, s, t, limit).table, n) && Submap(n, m + ms)
    ensures PutAll(hash, s, t, limit).ok ==> n == m + ms
    decreases Room(limit, |t.slots|), |s| + 2
  {
    hide Sound, Put, NoKeyTwice, Agrees;
    if s == [] {
      n := m;
      assert m + ms == m by {
        NoSlots(s, ms);
      }
    } else if s[0].Empty? {
      TailAgrees(s, ms);
      n := PutAllAdds(hash, s[1..], ms, t, m, limit);
    } else {
      TailAgrees(s, ms);
      var k, v := s[0].key, s[0].value;
      assert m[k := v] + (ms - {k}) == m + ms;
      n := PutNewKey(hash, t, m, k, v, limit);
      var r := Put(hash, t, k, v, limit);
      if r.ok {
        n := PutAllAdds(hash, s[1..], ms - {k}, r.table, n, limit);
      }
    }
  }

  lemma NoSlots<V>(s: seq<Slot<V>>, m: map<Text, V>)
    requires s == [] && Agrees(s, m)
    ensures m == map[]
  {
    assert forall k :: k !in m;
  }

  lemma TailAgrees<V>(s: seq<Slot<V>>, m: map<Text, V>)
    requires s != [] && NoKeyTwice(s) && Agrees(s, m)
    ensures NoKeyTwice(s[1..])
    ensures s[0].Empty? ==> Agrees(s[1..], m)
    ensures s[0].Used? ==> s[0].key in m && m[s[0].key] == s[0].value && Agrees(s[1..], m - {s[0].key})
  {
    var n := if s[0].Used? then m - {s[0].key} else m;
    forall k | k in n ensures exists i :: 0 <= i < |s[1..]| && s[1..][i].Used? && s[1..][i].key == k {
      var i :| 0 <= i < |s| && s[i].Used? && s[i].key == k;
      assert i > 0 && s[1..][i - 1].key == k;
    }
  }

  // ---- Puts of keys that are there ----

  lemma {:induction false} SeekWhatWasPut<V>(hash: Hash, s: seq<Slot<V>>, k: Text, v: V, d: nat)
    requires s != [] && d <= MAX_CHAIN_LENGTH && Fit(hash, s, k, d).Some?
    ensures Seek(hash, s[Fit(hash, s, k, d).value := Used(k, v)], k, d) == Fit(hash, s, k, d)
    decreases MAX_CHAIN_LENGTH - d
  {
    hide Position;
    var i := Position(hash, k, |s|, d);
    if !(s[i].Empty? || s[i].key == k) {
      SeekWhatWasPut(hash, s, k, v, d + 1);
    }
  }

  lemma {:induction false} SeekOther<V>(hash: Hash, s: seq<Slot<V>>, i: nat, k: Text, v: V, x: Text, d: nat)
    requires i < |s| && d <= MAX_CHAIN_LENGTH && (s[i].Empty? || s[i].key == k) && x != k
    ensures Seek(hash, s[i := Used(k, v)], x, d) == Seek(hash, s, x, d)
    decreases MAX_CHAIN_LENGTH - d
  {
    hide Position;
    if d < MAX_CHAIN_LENGTH {
      SeekOther(hash, s, i, k, v, x, d + 1);
    }
  }

  /** A put is seen by the gets that follow, new key or not. */
  lemma {:induction false} GetAfterPut<V>(hash: Hash, t: Table<V>, m: map<Text, V>, k: Text, v: V, limit: nat, x: Text)
    requires t.slots != [] && Sound(hash, t, m) && Put(hash, t, k, v, limit).ok
    ensures Get(hash, Put(hash, t, k, v, limit).table, x) == if x == k then Some(v) else if x in m then Some(m[x]) else None
    decreases Room(limit, |t.slots|)
  {
    hide Sound, Fit, Seek;
    if Place(hash, t, k).Some? {
      var i := Place(hash, t, k).value;
      if x == k {
        SeekWhatWasPut(hash, t.slots, k, v, 0);
      } else {
        SeekOther(hash, t.slots, i, k, v, x, 0);
        GetIsLookup(hash, t, m, x);
      }
    } else {
      var n := RehashKeeps(hash, t, m, limit);
      GetAfterPut(hash, Rehash(hash, t, limit).table, m, k, v, limit, x);
    }
  }

  /** A put of a key that is there makes the size one too many, so only puts of new keys keep a table sound. */
  lemma {:induction false} SoundAfterPutIffNew<V>(hash: Hash, t: Table<V>, m: map<Text, V>, k: Text, v: V, limit: nat)
    requires t.slots != [] && Sound(hash, t, m) && Put(hash, t, k, v, limit).ok
    ensures (exists n :: Sound(hash, Put(hash, t, k, v, limit).table, n)) <==> k !in m
    decreases Room(limit, |t.slots|)
  {
    hide Sound, Place;
    if k !in m {
      var n := PutNewKey(hash, t, m, k, v, limit);
    } else if Place(hash, t, k).Some? {
      forall n: map<Text, V> ensures !Sound(hash, Put(hash, t, k, v, limit).table, n) {
        PlacedAgain(hash, t, m, Place(hash, t, k).value, k, v, n);
      }
    } else {
      var n := RehashKeeps(hash, t, m, limit);
      SoundAfterPutIffNew(hash, Rehash(hash, t, limit).table, m, k, v, limit);
    }
  }

  lemma PlacedAgain<V>(hash: Hash, t: Table<V>, m: map<Text, V>, i: nat, k: Text, v: V, n: map<Text, V>)
    requires Sound(hash, t, m) && k in m && i < |t.slots| && (t.slots[i].Empty? || t.slots[i].key == k)
    ensures !Sound(hash, Table(t.slots[i := Used(k, v)], t.size + 1), n)
  {
    hide Chained, NoKeyTwice;
    var s := t.slots[i := Used(k, v)];
    if Agrees(s, n) {
      assert n.Keys == m.Keys by {
        SameKeys(t.slots, m, i, k, v, n);
      }
      assert |n.Keys| == |n| && |m.Keys| == |m|;
    }
  }

  lemma SameKeys<V>(s: seq<Slot<V>>, m: map<Text, V>, i: nat, k: Text, v: V, n: map<Text, V>)
    requires Agrees(s, m) && k in m && i < |s| && (s[i].Empty? || s[i].key == k) && Agrees(s[i := Used(k, v)], n)
    ensures forall x :: x in m <==> x in n
  {
    var t := s[i := Used(k, v)];
    forall x ensures x in m <==> x in n {
      if x in m {
        var j :| 0 <= j < |s| && s[j].Used? && s[j].key == x;
        assert t[j].Used? && (j == i ==> x == k) && t[i].key == k;
        assert t[j].key == x;
      }
      if x in n {
        var j :| 0 <= j < |t| && t[j].Used? && t[j].key == x;
        assert j != i ==> s[j] == t[j];
      }
    }
  }

  // ---- No gaps after a rehash ----

  /** No empty slot comes before a key in its chain. Removals make such gaps. */
  ghost predicate Packed<V>(hash: Hash, s: seq<Slot<V>>) {
    s != [] && forall k :: Seek(hash, s, k, 0).Some? ==> Fit(hash, s, k, 0) == Seek(hash, s, k, 0)
  }

  lemma {:induction false} FitWhatWasPut<V>(hash: Hash, s: seq<Slot<V>>, k: Text, v: V, d: nat)
    requires s != [] && d <= MAX_CHAIN_LENGTH && Fit(hash, s, k, d).Some?
    ensures Fit(hash, s[Fit(hash, s, k, d).value := Used(k, v)], k, d) == Fit(hash, s, k, d)
    decreases MAX_CHAIN_LENGTH - d
  {
    hide Position;
    var i := Position(hash, k, |s|, d);
    if !(s[i].Empty? || s[i].key == k) {
      FitWhatWasPut(hash, s, k, v, d + 1);
    }
  }

  lemma {:induction false} FitOther<V>(hash: Hash, s: seq<Slot<V>>, i: nat, k: Text, v: V, x: Text, d: nat)
    requires i < |s| && d <= MAX_CHAIN_LENGTH && s[i].Empty?
    requires Fit(hash, s, x, d).Some? && Fit(hash, s, x, d).value != i
    ensures Fit(hash, s[i := Used(k, v)], x, d) == Fit(hash, s, x, d)
    decreases MAX_CHAIN_LENGTH - d
  {
    hide Position;
    var p := Position(hash, x, |s|, d);
    if !(s[p].Empty? || s[p].key == x) {
      FitOther(hash, s, i, k, v, x, d + 1);
    }
  }

  lemma PlacedPacked<V>(hash: Hash, s: seq<Slot<V>>, k: Text, v: V)
    requires Packed(hash, s) && Fit(hash, s, k, 0).Some? && s[Fit(hash, s, k, 0).value].Empty?
    ensures Packed(hash, s[Fit(hash, s, k, 0).value := Used(k, v)])
  {
    hide Fit, Seek;
    var i := Fit(hash, s, k, 0).value;
    var u := s[i := Used(k, v)];
    forall x | Seek(hash, u, x, 0).Some? ensures Fit(hash, u, x, 0) == Seek(hash, u, x, 0) {
      if x == k {
        SeekWhatWasPut(hash, s, k, v, 0);
        FitWhatWasPut(hash, s, k, v, 0);
      } else {
        SeekOther(hash, s, i, k, v, x, 0);
        FitOther(hash, s, i, k, v, x, 0);
      }
    }
  }

  lemma EmptyIsPacked<V>(hash: Hash, n: nat)
    requires n > 0
    ensures Packed(hash, EmptyTable<V>(n).slots)
  {
  }

  lemma {:induction false} PutPacks<V>(hash: Hash, t: Table<V>, m: map<Text, V>, k: Text, v: V, limit: nat)
    requires t.slots != [] && Sound(hash, t, m) && k !in m && Packed(hash, t.slots)
    ensures Put(hash, t, k, v, limit).ok ==> Packed(hash, Put(hash, t, k, v, limit).table.slots)
    decreases Room(limit, |t.slots|), 1
  {
    hide Sound, Packed, Fit;
    if Place(hash, t, k).Some? {
      NewIsEmpty(hash, t, m, k);
      PlacedPacked(hash, t.slots, k, v);
    } else {
      var n := RehashKeeps(hash, t, m, limit);
      RehashPacks(hash, t, m, limit);
      var r := Rehash(hash, t, limit);
      if r.ok {
        PutPacks(hash, r.table, m, k, v, limit);
      }
    }
  }

  lemma NewIsEmpty<V>(hash: Hash, t: Table<V>, m: map<Text, V>, k: Text)
    requires t.slots != [] && Sound(hash, t, m) && k !in m && Place(hash, t, k).Some?
    ensures t.slots[Place(hash, t, k).value].Empty?
  {
    AbsentKey(t.slots, m, k);
  }

  lemma {:induction false} RehashPacks<V>(hash: Hash, t: Table<V>, m: map<Text, V>, limit: nat)
    requires t.slots != [] && Sound(hash, t, m)
    ensures Rehash(hash, t, limit).ok ==> Packed(hash, Rehash(hash, t, limit).table.slots)
    decreases Room(limit, |t.slots|), 0
  {
    if 2 * |t.slots| <= limit {
      EmptyIsSound<V>(hash, 2 * |t.slots|);
      EmptyIsPacked<V>(hash, 2 * |t.slots|);
      hide Packed;
      PutAllPacks(hash, t.slots, m, EmptyTable(2 * |t.slots|), map[], limit);
    }
  }

  lemma {:induction false} PutAllPacks<V>(hash: Hash, s: seq<Slot<V>>, ms: map<Text, V>, t: Table<V>, m: map<Text, V>, limit: nat)
    requires t.slots != [] && Sound(hash, t, m) && NoKeyTwice(s) && Agrees(s, ms) && m.Keys !! ms.Keys && Packed(hash, t.slots)
    ensures PutAll(hash, s, t, limit).ok ==> Packed(hash, PutAll(hash, s, t, limit).table.slots)
    decreases Room(limit, |t.slots|), |s| + 2
  {
    hide Sound, Put, NoKeyTwice, Agrees, Packed;
    if s != [] {
      TailAgrees(s, ms);
      if s[0].Empty? {
        PutAllPacks(hash, s[1..], ms, t, m, limit);
      } else {
        var k, v := s[0].key, s[0].value;
        var n := PutNewKey(hash, t, m, k, v, limit);
        PutPacks(hash, t, m, k, v, limit);
        var r := Put(hash, t, k, v, limit);
        if r.ok {
          PutAllPacks(hash, s[1..], ms - {k}, r.table, n, limit);
        }
      }
    }
  }

  /**
   Putting a key that is there and removing it again takes the key away if and only if the put set off a
   rehash, which leaves no gaps, or no empty slot comes before the key in its chain; otherwise the value
   it had before is back.
   */
  lemma {:induction false} RemoveAfterPutAgain<V>(hash: Hash, t: Table<V>, m: map<Text, V>, k: Text, v: V, limit: nat)
    requires t.slots != [] && Sound(hash, t, m) && k in m && Put(hash, t, k, v, limit).ok
    ensures var u := Remove(hash, Put(hash, t, k, v, limit).table, k);
      Get(hash, u, k) ==
        if Place(hash, t, k).None? || Place(hash, t, k) == Seek(hash, t.slots, k, 0) then None else Some(m[k])
    decreases Room(limit, |t.slots|)
  {
    hide Sound, Get, Remove, Place, Packed, Seek;
    if Place(hash, t, k).Some? {
      RemoveAfterPlace(hash, t, m, k, v, limit);
    } else {
      var n := RehashKeeps(hash, t, m, limit);
      RehashPacks(hash, t, m, limit);
      var r := Rehash(hash, t, limit).table;
      RemoveAfterPutAgain(hash, r, m, k, v, limit);
      PackedPlace(hash, r, m, k);
    }
  }

  lemma PackedPlace<V>(hash: Hash, t: Table<V>, m: map<Text, V>, k: Text)
    requires t.slots != [] && Sound(hash, t, m) && k in m && Packed(hash, t.slots)
    ensures Place(hash, t, k).Some? ==> Place(hash, t, k) == Seek(hash, t.slots, k, 0)
  {
    var i := SlotOf(hash, t, m, k);
    hide Fit, Seek;
  }

  lemma RemoveAfterPlace<V>(hash: Hash, t: Table<V>, m: map<Text, V>, k: Text, v: V, limit: nat)
    requires t.slots != [] && Sound(hash, t, m) && k in m && Place(hash, t, k).Some?
    ensures var u := Remove(hash, Put(hash, t, k, v, limit).table, k);
      Get(hash, u, k) == if Place(hash, t, k) == Seek(hash, t.slots, k, 0) then None else Some(m[k])
  {
    var i := Place(hash, t, k).value;
    var j := SlotOf(hash, t, m, k);
    SeekWhatWasPut(hash, t.slots, k, v, 0);
    var s := t.slots[i := Used(k, v)];
    var u := s[i := Empty];
    assert u == t.slots[i := Empty];
    assert t.slots[i].Empty? || i == j by {
      assert i < j ==> t.slots[i].Empty?;
      assert j < i ==> t.slots[i].Empty?;
    }
    if i == j {
      SeekGone(hash, u, k, 0);
    } else {
      assert u == t.slots;
    }
  }

  lemma {:induction false} SeekGone<V>(hash: Hash, s: seq<Slot<V>>, k: Text, d: nat)
    requires s != [] && d <= MAX_CHAIN_LENGTH && forall i :: 0 <= i < |s| && s[i].Used? ==> s[i].key != k
    ensures Seek(hash, s, k, d) == None
    decreases MAX_CHAIN_LENGTH - d
  {
    if d < MAX_CHAIN_LENGTH {
      SeekGone(hash, s, k, d + 1);
    }
  }

  // ---- When a put works ----

  /** Whether slot `d` of a key's eight is empty or holds the key. */
  predicate FreeFor<V>(hash: Hash, s: seq<Slot<V>>, k: Text, d: nat)
    requires s != []
  {
    var c := s[(hash(k) + d) % |s|];
    c.Empty? || c.key == k
  }

  /** The table is less than half full with one pair more, and one of the key's eight slots is to be had. */
  ghost predicate HasRoom<V>(hash: Hash, t: Table<V>, k: Text)
    requires t.slots != []
  {
    2 * (t.size + 1) <= |t.slots| && exists d :: 0 <= d < 8 && FreeFor(hash, t.slots, k, d)
  }

  /** Of the slots from number `d` on, number `e` is the first to be had. */
  predicate FirstFree<V>(hash: Hash, s: seq<Slot<V>>, k: Text, d: nat, e: nat)
    requires s != []
  {
    FreeFor(hash, s, k, e) && forall c :: d <= c < e ==> !FreeFor(hash, s, k, c)
  }

  lemma {:induction false} FitIsFirst<V>(hash: Hash, s: seq<Slot<V>>, k: Text, d: nat) returns (e: nat)
    requires s != [] && d <= 8
    ensures Fit(hash, s, k, d).None? ==> forall c :: d <= c < 8 ==> !FreeFor(hash, s, k, c)
    ensures Fit(hash, s, k, d).Some? ==> d <= e < 8 && FirstFree(hash, s, k, d, e) && Fit(hash, s, k, d).value == (hash(k) + e) % |s|
    decreases 8 - d
  {
    hide FreeFor;
    e := d;
    if d < 8 {
      FitStep(hash, s, k, d);
      if !FreeFor(hash, s, k, d) {
        e := FitIsFirst(hash, s, k, d + 1);
      }
    }
  }

  lemma FitStep<V>(hash: Hash, s: seq<Slot<V>>, k: Text, d: nat)
    requires s != [] && d < 8
    ensures Fit(hash, s, k, d) == if FreeFor(hash, s, k, d) then Some((hash(k) + d) % |s|) else Fit(hash, s, k, d + 1)
  {
  }

  /**
   A put works in place, whatever the allocator has left, if and only if there is room: then the first slot
   of the eight that is to be had gets the pair and no other changes.
   */
  lemma PutInPlaceIff<V>(hash: Hash, t: Table<V>, k: Text, v: V, limit: nat)
    requires t.slots != []
    ensures var o := Put(hash, t, k, v, limit);
      HasRoom(hash, t, k) <==> o.ok && |o.table.slots| == |t.slots|
    ensures HasRoom(hash, t, k) ==>
      (exists d :: 0 <= d < 8 && FirstFree(hash, t.slots, k, 0, d) &&
        Put(hash, t, k, v, limit) == Outcome(true, Table(t.slots[(hash(k) + d) % |t.slots| := Used(k, v)], t.size + 1)))
  {
    hide FreeFor, Fit, Rehash;
    var e := FitIsFirst(hash, t.slots, k, 0);
    if HasRoom(hash, t, k) {
      var d :| 0 <= d < 8 && FreeFor(hash, t.slots, k, d);
      assert Fit(hash, t.slots, k, 0).Some?;
    }
  }

  /** No table is larger than the allocator allows, and a put fails only because a larger one was needed. */
  lemma {:induction false} PutWithin<V>(hash: Hash, t: Table<V>, k: Text, v: V, limit: nat)
    requires t.slots != []
    ensures var o := Put(hash, t, k, v, limit);
      && (|o.table.slots| == |t.slots| || |o.table.slots| <= limit)
      && (!o.ok ==> 2 * |o.table.slots| > limit)
    decreases Room(limit, |t.slots|), 1
  {
    hide Place;
    if Place(hash, t, k).None? {
      RehashWithin(hash, t, limit);
      var r := Rehash(hash, t, limit);
      if r.ok {
        PutWithin(hash, r.table, k, v, limit);
      }
    }
  }

  lemma {:induction false} RehashWithin<V>(hash: Hash, t: Table<V>, limit: nat)
    requires t.slots != []
    ensures var o := Rehash(hash, t, limit);
      && (o.table == t || |o.table.slots| <= limit)
      && (!o.ok ==> 2 * |o.table.slots| > limit)
    decreases Room(limit, |t.slots|), 0
  {
    if 2 * |t.slots| <= limit {
      PutAllWithin(hash, t.slots, EmptyTable(2 * |t.slots|), limit);
    }
  }

  lemma {:induction false} PutAllWithin<V>(hash: Hash, s: seq<Slot<V>>, t: Table<V>, limit: nat)
    requires t.slots != []
    ensures var o := PutAll(hash, s, t, limit);
      && (|o.table.slots| == |t.slots| || |o.table.slots| <= limit)
      && (!o.ok ==> 2 * |o.table.slots| > limit)
    decreases Room(limit, |t.slots|), |s| + 2
  {
    hide Put;
    if s != [] {
      if s[0].Empty? {
        PutAllWithin(hash, s[1..], t, limit);
      } else {
        PutWithin(hash, t, s[0].key, s[0].value, limit);
        var r := Put(hash, t, s[0].key, s[0].value, limit);
        if r.ok {
          PutAllWithin(hash, s[1..], r.table, limit);
        }
      }
    }
  }

  /** Without room the table has doubled at least before the pair is put, or the put fails. */
  lemma PutDoubles<V>(hash: Hash, t: Table<V>, k: Text, v: V, limit: nat)
    requires t.slots != [] && !HasRoom(hash, t, k)
    ensures var o := Put(hash, t, k, v, limit);
      if o.ok then 2 * |t.slots| <= |o.table.slots| <= limit
      else 2 * |t.slots| > limit ==> o.table == t
  {
    hide FreeFor, Fit;
    var e := FitIsFirst(hash, t.slots, k, 0);
    PutWithin(hash, t, k, v, limit);
  }

  /** The first put into a new map works, whatever its hash function and its allocator. */
  lemma FirstPutWorks<V>(hash: Hash, k: Text, v: V, limit: nat)
    ensures Put(hash, EmptyTable<V>(256), k, v, limit).ok
  {
    PutInPlaceIff(hash, EmptyTable<V>(256), k, v, limit);
    assert FreeFor(hash, EmptyTable<V>(256).slots, k, 0);
  }
}
