/**
 Insertion-ordered maps from keys to values: what a jansson object is to its callers.
 Setting an existing key keeps its place, a new key goes to the end.
 */
module Assoc {
  import opened Bytes

  datatype Pair<+V> = Pair(key: Text, value: V)

  /** The position of a key, or the length if there is none. */
  function Find<V>(s: seq<Pair<V>>, key: Text): (i: nat)
    ensures i <= |s|
    ensures i < |s| ==> s[i].key == key
    ensures forall k :: 0 <= k < i ==> s[k].key != key
  {
    if s == [] || s[0].key == key then 0 else 1 + Find(s[1..], key)
  }

  function Get<V>(s: seq<Pair<V>>, key: Text): Option<V> {
    var i := Find(s, key);
    if i < |s| then Some(s[i].value) else None
  }

  function Put<V>(s: seq<Pair<V>>, key: Text, value: V): seq<Pair<V>> {
    var i := Find(s, key);
    if i < |s| then s[i := Pair(key, value)] else s + [Pair(key, value)]
  }

  function Remove<V>(s: seq<Pair<V>>, key: Text): seq<Pair<V>> {
    var i := Find(s, key);
    if i < |s| then s[..i] + s[i + 1..] else s
  }

  ghost predicate Unique<V>(s: seq<Pair<V>>) {
    forall i, j :: 0 <= i < j < |s| ==> s[i].key != s[j].key
  }

  /** A position with a key is the one the key finds, if keys are unique. */
  lemma FindAt<V>(s: seq<Pair<V>>, i: nat)
    requires Unique(s) && i < |s|
    ensures Find(s, s[i].key) == i
  {
  }

  /** Setting a key changes the value of that key and of no other. */
  lemma GetAfterPut<V>(s: seq<Pair<V>>, key: Text, value: V, x: Text)
    ensures Get(Put(s, key, value), x) == if x == key then Some(value) else Get(s, x)
  {
    var t := Put(s, key, value);
    var i, j := Find(s, x), Find(t, x);
    assert forall k :: 0 <= k < |s| ==> t[k].key == s[k].key;
    if x == key || i < |s| {
      assert t[i].key == x;
    }
  }

  lemma RemoveAt<V>(s: seq<Pair<V>>, key: Text)
    ensures var at, t := Find(s, key), Remove(s, key);
      if at == |s| then t == s
      else |t| == |s| - 1 && forall k :: 0 <= k < |t| ==> t[k] == s[if k < at then k else k + 1]
  {
  }

  /** Deleting a key removes that key and no other. */
  lemma GetAfterRemove<V>(s: seq<Pair<V>>, key: Text, x: Text)
    requires Unique(s)
    ensures Unique(Remove(s, key))
    ensures Get(Remove(s, key), x) == if x == key then None else Get(s, x)
  {
    RemoveAt(s, key);
    hide Remove;
    var at, t := Find(s, key), Remove(s, key);
    if at < |s| {
      var i, j := Find(s, x), Find(t, x);
      if j < |t| {
        FindAt(s, if j < at then j else j + 1);
      } else if i < |s| {
        assert i < at ==> t[i].key == x;
        assert i > at ==> t[i - 1].key == x;
      }
    }
  }
}
