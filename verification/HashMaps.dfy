/** The map object of c_hashmap/hashmap.c: every method does what the function of tables with its name says. */
module HashMaps {
  import opened Arithmetic
  import opened Bytes
  import opened ProbingMap

  lemma NextPosition(hash: Hash, k: Text, n: nat, d: nat)
    requires n > 0
    ensures (Position(hash, k, n, d) + 1) % n == Position(hash, k, n, d + 1)
  {
    AddMod(hash(k) + d, n);
  }

  class HashMap<V> {
    const hash: Hash
    /** The most slots a table can get. */
    const limit: nat
    var data: array<Slot<V>>
    var size: int

    ghost function Now(): Table<V>
      reads this, data
    {
      Table(data[..], size)
    }

    /** hashmap_new */
    constructor (hash: Hash, limit: nat)
      ensures Now() == EmptyTable(INITIAL_SIZE) && fresh(data) && this.hash == hash && this.limit == limit
    {
      this.hash, this.limit := hash, limit;
      data := new Slot<V>[INITIAL_SIZE](_ => Empty);
      size := 0;
    }

    /** hashmap_hash: no slot is MAP_FULL. */
    method FindPlace(key: Text) returns (place: Option<nat>)
      requires data.Length > 0
      ensures place == Place(hash, Now(), key)
    {
      if size >= data.Length / 2 {
        return None;
      }
      var curr := hash(key) % data.Length;
      for i := 0 to MAX_CHAIN_LENGTH
        invariant curr == Position(hash, key, data.Length, i)
        invariant Place(hash, Now(), key) == Fit(hash, data[..], key, i)
      {
        if data[curr].Empty? || data[curr].key == key {
          return Some(curr);
        }
        NextPosition(hash, key, data.Length, i);
        curr := (curr + 1) % data.Length;
      }
      place := None;
    }

    /** hashmap_put */
    method Put(key: Text, value: V) returns (ok: bool)
      requires data.Length > 0
      modifies this, data
      ensures data == old(data) || fresh(data)
      ensures Outcome(ok, Now()) == ProbingMap.Put(hash, old(Now()), key, value, limit)
      decreases Room(limit, data.Length), 1
    {
      var index := FindPlace(key);
      while index == None
        invariant data.Length > 0 && (data == old(data) || fresh(data))
        invariant index == Place(hash, Now(), key)
        invariant Room(limit, data.Length) <= old(Room(limit, data.Length))
        invariant ProbingMap.Put(hash, Now(), key, value, limit) == ProbingMap.Put(hash, old(Now()), key, value, limit)
        decreases Room(limit, data.Length)
      {
        ok := Rehash();
        if !ok {
          return;
        }
        index := FindPlace(key);
      }
      data[index.value] := Used(key, value);
      size := size + 1;
      ok := true;
    }

    /** hashmap_rehash: doubles the table. The puts may double it again. */
    method Rehash() returns (ok: bool)
      requires data.Length > 0
      modifies this, data
      ensures data == old(data) || fresh(data)
      ensures Outcome(ok, Now()) == ProbingMap.Rehash(hash, old(Now()), limit)
      decreases Room(limit, data.Length), 0
    {
      if 2 * data.Length > limit {
        return false;
      }
      var curr, old_size := data, data.Length;
      ghost var slots := curr[..];
      data := new Slot<V>[2 * old_size](_ => Empty);
      size := 0;
      assert slots[0..] == slots;
      assert Now() == EmptyTable(2 * old_size);
      for i := 0 to old_size
        invariant fresh(data) && data != curr && curr[..] == slots && data.Length >= 2 * old_size
        invariant PutAll(hash, slots[i..], Now(), limit) == ProbingMap.Rehash(hash, old(Now()), limit)
      {
        assert slots[i..][0] == curr[i] && slots[i..][1..] == slots[i + 1..];
        if curr[i].Used? {
          ok := Put(curr[i].key, curr[i].value);
          if !ok {
            return;
          }
        }
      }
      ok := true;
    }

    /** hashmap_get */
    method Get(key: Text) returns (r: Option<V>)
      requires data.Length > 0
      ensures r == ProbingMap.Get(hash, Now(), key)
    {
      var at := Find(key);
      r := if at.Some? then Some(data[at.value].value) else None;
    }

    /** The loop that hashmap_get and hashmap_remove share. */
    method Find(key: Text) returns (at: Option<nat>)
      requires data.Length > 0
      ensures at == Seek(hash, data[..], key, 0)
    {
      var curr := hash(key) % data.Length;
      for i := 0 to MAX_CHAIN_LENGTH
        invariant curr == Position(hash, key, data.Length, i)
        invariant Seek(hash, data[..], key, 0) == Seek(hash, data[..], key, i)
      {
        if data[curr].Used? && data[curr].key == key {
          return Some(curr);
        }
        NextPosition(hash, key, data.Length, i);
        curr := (curr + 1) % data.Length;
      }
      at := None;
    }

    /** hashmap_remove */
    method Remove(key: Text) returns (ok: bool)
      requires data.Length > 0
      modifies this, data
      ensures data == old(data) && ok == Seek(hash, old(data[..]), key, 0).Some?
      ensures Now() == ProbingMap.Remove(hash, old(Now()), key)
    {
      var at := Find(key);
      if at.Some? {
        data[at.value] := Empty;
        size := size - 1;
      }
      ok := at.Some?;
    }
  }
}
