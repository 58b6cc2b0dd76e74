/**
 The hash table of jansson/hashtable.c: all pairs are on one circular list, each bucket is a
 segment of it, and a second list keeps insertion order. To its callers it is an
 insertion-ordered map, whatever the hash function.
 */
module Hashtable {
  import opened Bytes
  import Assoc
  import opened IntrusiveList
  import opened Segments

  const INITIAL_ORDER := 3

  /** Which of its two lists a node of a pair is for. */
  ghost const LIST: nat := 0
  ghost const ORDERED: nat := 1

  /** hashsize */
  function Pow2(n: nat): (p: nat)
    ensures p >= 1
  {
    if n == 0 then 1 else 2 * Pow2(n - 1)
  }

  /** struct hashtable_pair */
  class Entry<V> {
    const hash: nat
    const key: Text
    var value: V
    const list: ListNode<Entry<V>>
    const ordered: ListNode<Entry<V>>

    constructor (key: Text, hash: nat, value: V)
      ensures this.key == key && this.hash == hash && this.value == value
      ensures fresh(list) && fresh(ordered) && WellMade(this)
    {
      this.key, this.hash, this.value := key, hash, value;
      list := new ListNode(LIST);
      ordered := new ListNode(ORDERED);
      new;
      list.item := Some(this);
      ordered.item := Some(this);
    }
  }

  /** container_of finds the pair of each of its nodes. */
  ghost predicate WellMade<V>(e: Entry<V>)
    reads e.list, e.ordered
  {
    e.list.item == Some(e) && e.ordered.item == Some(e) && e.list.use == LIST && e.ordered.use == ORDERED
  }

  ghost function ListNodes<V>(es: seq<Entry<V>>): (ns: seq<ListNode<Entry<V>>>)
    ensures |ns| == |es| && forall i :: 0 <= i < |es| ==> ns[i] == es[i].list
  {
    seq(|es|, i requires 0 <= i < |es| => es[i].list)
  }

  ghost function OrderedNodes<V>(es: seq<Entry<V>>): (ns: seq<ListNode<Entry<V>>>)
    ensures |ns| == |es| && forall i :: 0 <= i < |es| ==> ns[i] == es[i].ordered
  {
    seq(|es|, i requires 0 <= i < |es| => es[i].ordered)
  }

  /** The bucket number of each pair. */
  ghost function Ids<V>(es: seq<Entry<V>>, m: nat): (ids: seq<nat>)
    requires m > 0
    ensures |ids| == |es| && forall i :: 0 <= i < |es| ==> ids[i] == es[i].hash % m
  {
    seq(|es|, i requires 0 <= i < |es| => es[i].hash % m)
  }

  ghost function PairsOf<V>(es: seq<Entry<V>>): (s: seq<Assoc.Pair<V>>)
    reads es
    ensures |s| == |es| && forall i :: 0 <= i < |s| ==> s[i] == Assoc.Pair(es[i].key, es[i].value)
  {
    seq(|es|, i requires 0 <= i < |es| reads es => Assoc.Pair(es[i].key, es[i].value))
  }

  lemma NodesAfterInsert<V>(es: seq<Entry<V>>, k: nat, e: Entry<V>, m: nat)
    requires k <= |es| && m > 0
    ensures ListNodes(Insert(es, k, e)) == Insert(ListNodes(es), k, e.list)
    ensures OrderedNodes(Insert(es, k, e)) == Insert(OrderedNodes(es), k, e.ordered)
    ensures Ids(Insert(es, k, e), m) == Insert<nat>(Ids(es, m), k, e.hash % m)
  {
  }

  lemma NodesAfterDelete<V>(es: seq<Entry<V>>, k: nat, m: nat)
    requires k < |es| && m > 0
    ensures ListNodes(Delete(es, k)) == Delete(ListNodes(es), k)
    ensures OrderedNodes(Delete(es, k)) == Delete(OrderedNodes(es), k)
    ensures Ids(Delete(es, k), m) == Delete<nat>(Ids(es, m), k)
  {
  }

  lemma GroupedAfterDelete<V>(es: seq<Entry<V>>, k: nat, m: nat)
    requires k < |es| && m > 0 && Grouped(Ids(es, m))
    ensures ListNodes(Delete(es, k)) == Delete(ListNodes(es), k) && Grouped(Ids(Delete(es, k), m))
  {
    hide *;
    NodesAfterDelete(es, k, m);
    DeleteSegment(ListNodes(es), Ids(es, m), k, 0);
  }

  /** Both lists hold the same pairs, each once and no two with one key. */
  ghost predicate Agree<V>(chain: seq<Entry<V>>, entries: seq<Entry<V>>) {
    && |chain| == |entries|
    && (forall e :: e in chain ==> e in entries)
    && (forall e :: e in entries ==> e in chain)
    && (forall i, j :: 0 <= i < j < |chain| ==> chain[i] != chain[j])
    && (forall i, j :: 0 <= i < j < |entries| ==> entries[i].key != entries[j].key)
  }

  lemma AgreeDelete<V>(chain: seq<Entry<V>>, k: nat, entries: seq<Entry<V>>, p: nat)
    requires Agree(chain, entries) && k < |chain| && p < |entries| && chain[k] == entries[p]
    ensures Agree(Delete(chain, k), Delete(entries, p))
  {
    var chain', entries' := Delete(chain, k), Delete(entries, p);
    hide Delete;
    DeleteAt(chain, k);
    DeleteAt(entries, p);
    forall e | e in chain' ensures e in entries' {
      assert e in chain;
      var j :| 0 <= j < |entries| && entries[j] == e;
      assert entries'[if j < p then j else j - 1] == e;
    }
    forall e | e in entries' ensures e in chain' {
      assert e in entries;
      var j :| 0 <= j < |chain| && chain[j] == e;
      assert chain'[if j < k then j else j - 1] == e;
    }
  }

  lemma AgreeInsert<V>(chain: seq<Entry<V>>, k: nat, entries: seq<Entry<V>>, e: Entry<V>)
    requires Agree(chain, entries) && k <= |chain| && e !in chain
    requires forall i :: 0 <= i < |entries| ==> entries[i].key != e.key
    ensures Agree(Insert(chain, k, e), entries + [e])
  {
    var chain', entries' := Insert(chain, k, e), entries + [e];
    InsertAt(chain, k, e);
    forall x | x in entries' ensures x in chain' {
      if x != e {
        var j :| 0 <= j < |chain| && chain[j] == x;
        assert chain'[if j < k then j else j + 1] == x;
      }
    }
  }

  /** The pairs and their nodes. */
  ghost function Cells<V>(chain: seq<Entry<V>>, entries: seq<Entry<V>>): (cells: set<object>)
    ensures forall e :: e in entries ==> e in cells
    ensures forall n :: n in ListNodes(chain) ==> n in cells
    ensures forall n :: n in OrderedNodes(entries) ==> n in cells
  {
    (set e | e in entries) + (set n | n in ListNodes(chain)) + (set n | n in OrderedNodes(entries))
  }

  lemma CellsAfterDelete<V>(chain: seq<Entry<V>>, k: nat, entries: seq<Entry<V>>, p: nat)
    requires k < |chain| && p < |entries|
    ensures Cells(Delete(chain, k), Delete(entries, p)) <= Cells(chain, entries)
  {
    Kept(chain, k);
    Kept(entries, p);
  }

  lemma CellsAfterInsert<V>(chain: seq<Entry<V>>, k: nat, entries: seq<Entry<V>>, e: Entry<V>)
    requires k <= |chain|
    ensures Cells(Insert(chain, k, e), entries + [e]) <= Cells(chain, entries) + {e, e.list, e.ordered}
  {
    Added(chain, k, e);
    NodesAfterAppend(entries, e);
  }

  lemma Kept<V>(es: seq<Entry<V>>, k: nat)
    requires k < |es|
    ensures |Delete(es, k)| == |es| - 1
    ensures forall e :: e in Delete(es, k) ==> e in es
    ensures forall n :: n in ListNodes(Delete(es, k)) ==> n in ListNodes(es)
    ensures forall n :: n in OrderedNodes(Delete(es, k)) ==> n in OrderedNodes(es)
  {
    NodesAfterDelete(es, k, 1);
  }

  lemma PairsAfterDelete<V>(es: seq<Entry<V>>, p: nat, key: Text)
    requires p < |es| && Assoc.Find(PairsOf(es), key) == p
    ensures PairsOf(Delete(es, p)) == Assoc.Remove(PairsOf(es), key)
  {
    DeleteAt(es, p);
    hide Delete, Assoc.Find;
    Assoc.RemoveAt(PairsOf(es), key);
  }

  /** struct hashtable_bucket */
  datatype Bucket<V> = Bucket(first: ListNode<Entry<V>>, last: ListNode<Entry<V>>)

  /** A bucket is the ends of its segment; both are the head of the list if the segment is empty. */
  ghost function BucketOf<V>(head: ListNode<Entry<V>>, s: Segment<ListNode<Entry<V>>>): Bucket<V> {
    if s.Empty? then Bucket(head, head) else Bucket(s.first, s.last)
  }

  /** Every bucket of a chain. */
  ghost function BucketSeq<V>(head: ListNode<Entry<V>>, chain: seq<Entry<V>>, m: nat): (bs: seq<Bucket<V>>)
    requires m > 0
    ensures |bs| == m && forall b :: 0 <= b < m ==> bs[b] == BucketOf(head, SegmentOf(ListNodes(chain), Ids(chain, m), b))
  {
    seq(m, b requires 0 <= b < m => BucketOf(head, SegmentOf(ListNodes(chain), Ids(chain, m), b)))
  }

  /** The list holds the chain, and each bucket is exactly the segment of the pairs with its number. */
  ghost predicate Bucketed<V>(head: ListNode<Entry<V>>, chain: seq<Entry<V>>, buckets: array<Bucket<V>>)
    reads head, ListNodes(chain), buckets
  {
    && buckets.Length > 0 && Ring(head, ListNodes(chain))
    && Grouped(Ids(chain, buckets.Length)) && buckets[..] == BucketSeq(head, chain, buckets.Length)
  }

  /** The test of bucket_is_empty tells whether there is a pair in the bucket. */
  lemma BucketEnds<V>(head: ListNode<Entry<V>>, chain: seq<Entry<V>>, m: nat, b: nat)
    requires b < m && Distinct(head, ListNodes(chain))
    ensures var ids, n, bucket := Ids(chain, m), ListNodes(chain), BucketSeq(head, chain, m)[b];
      if bucket.first == head && bucket.first == bucket.last then First(ids, b) == |ids| && b !in ids
      else First(ids, b) < End(ids, b) <= |ids| && bucket == Bucket(n[First(ids, b)], n[End(ids, b) - 1])
  {
    hide First, End, SegmentOf, Ids, ListNodes;
    Ends(ListNodes(chain), Ids(chain, m), b);
  }

  lemma EmptyBuckets<V>(head: ListNode<Entry<V>>, m: nat)
    requires m > 0
    ensures ListNodes<V>([]) == [] && Grouped(Ids<V>([], m))
    ensures forall b :: 0 <= b < m ==> BucketSeq(head, [], m)[b] == Bucket(head, head)
  {
    hide SegmentOf;
    forall b | 0 <= b < m {
      Ends(ListNodes<V>([]), Ids<V>([], m), b);
    }
  }

  lemma BucketsAfterInsert<V>(head: ListNode<Entry<V>>, chain: seq<Entry<V>>, e: Entry<V>, m: nat)
    requires m > 0 && Grouped(Ids(chain, m))
    ensures var b, bs := e.hash % m, BucketSeq(head, chain, m);
      var k := First(Ids(chain, m), b);
      var now := BucketSeq(head, Insert(chain, k, e), m);
      && (k == |chain| ==> now == bs[b := Bucket(e.list, e.list)])
      && (k < |chain| ==> now == bs[b := bs[b].(first := e.list)])
  {
    hide First, End, Insert, Grouped, SegmentOf, Ids, ListNodes, BucketSeq;
    var b, ids, nodes := e.hash % m, Ids(chain, m), ListNodes(chain);
    NodesAfterInsert(chain, First(ids, b), e, m);
    forall c | 0 <= c < m {
      InsertSegment(nodes, ids, e.list, b, c);
    }
  }

  lemma BucketsAfterDelete<V>(head: ListNode<Entry<V>>, chain: seq<Entry<V>>, k: nat, m: nat)
    requires m > 0 && Grouped(Ids(chain, m)) && Distinct(head, ListNodes(chain)) && k < |chain|
    ensures var b, bs, node := chain[k].hash % m, BucketSeq(head, chain, m), chain[k].list;
      var now := BucketSeq(head, Delete(chain, k), m);
      && (node == bs[b].first && node == bs[b].last ==> now == bs[b := Bucket(head, head)])
      && (node == bs[b].first && node != bs[b].last ==> k + 1 < |chain| && now == bs[b := bs[b].(first := chain[k + 1].list)])
      && (node != bs[b].first && node == bs[b].last ==> k > 0 && now == bs[b := bs[b].(last := chain[k - 1].list)])
      && (node != bs[b].first && node != bs[b].last ==> now == bs)
  {
    hide First, End, Delete, Grouped, SegmentOf, BucketSeq;
    var b, ids, nodes := chain[k].hash % m, Ids(chain, m), ListNodes(chain);
    NodesAfterDelete(chain, k, m);
    forall c | 0 <= c < m {
      DeleteSegment(nodes, ids, k, c);
    }
    assert nodes[k] == nodes[First(ids, b)] <==> k == First(ids, b);
    assert nodes[k] == nodes[End(ids, b) - 1] <==> k == End(ids, b) - 1;
  }

  /** struct hashtable. The hash function is any function: the seed is random. */
  class Hashtable<V(==)> {
    const hashOf: Text -> nat
    var size: nat
    var buckets: array<Bucket<V>>
    var order: nat
    const head: ListNode<Entry<V>>
    const orderedHead: ListNode<Entry<V>>
    /** The pairs in the order of the list, and in insertion order. */
    ghost var chain: seq<Entry<V>>
    ghost var entries: seq<Entry<V>>
    /** The references that json_decref has dropped. */
    ghost var released: multiset<V>

    ghost predicate Chained()
      reads this, head, ListNodes(chain), buckets
    {
      buckets.Length == Pow2(order) && Bucketed(head, chain, buckets)
    }

    ghost predicate Made(e: Entry<V>)
      reads e.list, e.ordered
    {
      WellMade(e) && e.hash == hashOf(e.key)
    }

    ghost predicate Valid()
      reads this, Footprint()
    {
      && Chained() && Ring(orderedHead, OrderedNodes(entries))
      && head.use == LIST && orderedHead.use == ORDERED
      && Agree(chain, entries) && size == |entries| <= buckets.Length
      && forall e :: e in entries ==> Made(e)
    }

    ghost function Footprint(): set<object>
      reads this
    {
      {this, head, orderedHead, buckets} + Cells(chain, entries)
    }

    /** The map that the table is: its pairs in insertion order. */
    ghost function Contents(): (s: seq<Assoc.Pair<V>>)
      reads this, entries
    {
      PairsOf(entries)
    }

    /** hashtable_init */
    constructor (hashOf: Text -> nat)
      ensures Valid() && Contents() == [] && released == multiset{} && this.hashOf == hashOf
      ensures fresh(Footprint())
    {
      this.hashOf := hashOf;
      size, order := 0, INITIAL_ORDER;
      chain, entries, released := [], [], multiset{};
      var h := new ListNode<Entry<V>>(LIST);
      var o := new ListNode<Entry<V>>(ORDERED);
      head, orderedHead := h, o;
      buckets := new Bucket<V>[Pow2(INITIAL_ORDER)](_ => Bucket(h, h));
      new;
      hide Pow2, SegmentOf, BucketSeq;
      EmptyBuckets(head, buckets.Length);
    }

    /** bucket_is_empty */
    predicate BucketIsEmpty(bucket: Bucket<V>) {
      bucket.first == head && bucket.first == bucket.last
    }

    /** insert_to_bucket, when the nodes of the list are among `pool`. */
    method InsertToBucket(b: nat, e: Entry<V>, ghost pool: seq<ListNode<Entry<V>>>)
      requires Chained() && b < buckets.Length && e.hash % buckets.Length == b
      requires e.list != head && e.list !in ListNodes(chain) && e.list in pool
      requires forall n :: n in ListNodes(chain) ==> n in pool
      modifies this`chain, buckets, head`next, head`prev, pool`next, pool`prev
      ensures Chained() && chain == Insert(old(chain), First(Ids(old(chain), buckets.Length), b), e)
      ensures forall n :: n in pool && n != e.list && n != head && n !in old(ListNodes(chain)) ==> n.next == old(n.next)
    {
      hide First, End, Insert, Grouped, Ring, SegmentOf, Ids, ListNodes, At, Pow2, BucketSeq;
      ghost var m, nodes := buckets.Length, ListNodes(chain);
      ghost var k := First(Ids(chain, m), b);
      Neighbours(head, nodes, k);
      BucketEnds(head, chain, m, b);
      NodesAfterInsert(chain, k, e, m);
      InsertGrouped(Ids(chain, m), b);
      BucketsAfterInsert(head, chain, e, m);
      AtIs(head, nodes, k);
      assert buckets[b] == BucketSeq(head, chain, m)[b];
      if BucketIsEmpty(buckets[b]) {
        InsertBefore(head, e.list, head, nodes, k);
        buckets[b] := Bucket(e.list, e.list);
      } else {
        InsertBefore(buckets[b].first, e.list, head, nodes, k);
        buckets[b] := buckets[b].(first := e.list);
      }
      chain := Insert(chain, k, e);
    }

    /** What the loop of hashtable_find_pair sees at position `i` of the bucket of `b`. */
    lemma Visit(b: nat, i: nat)
      requires Chained() && b < buckets.Length
      requires First(Ids(chain, buckets.Length), b) <= i < End(Ids(chain, buckets.Length), b)
      requires WellMade(chain[i])
      ensures chain[i].list.item == Some(chain[i])
      ensures chain[i].list == buckets[b].last <==> i + 1 == End(Ids(chain, buckets.Length), b)
      ensures i + 1 < |chain| ==> chain[i].list.next == chain[i + 1].list
    {
      hide First, End, SegmentOf, BucketSeq, Ids, Linked, Grouped;
      ghost var nodes, last := ListNodes(chain), End(Ids(chain, buckets.Length), b) - 1;
      NextNode(head, nodes, i);
      BucketEnds(head, chain, buckets.Length, b);
      assert buckets[b] == BucketSeq(head, chain, buckets.Length)[b];
      assert nodes[i] == nodes[last] <==> i == last;
    }

    /** Where the loop of hashtable_find_pair starts. */
    lemma Enter(b: nat)
      requires Chained() && b < buckets.Length
      ensures var ids := Ids(chain, buckets.Length);
        if BucketIsEmpty(buckets[b]) then b !in ids
        else First(ids, b) < End(ids, b) <= |chain| && buckets[b].first == chain[First(ids, b)].list
    {
      hide First, End, SegmentOf, BucketSeq, Ids, Linked, Distinct, Grouped;
      StartOf(head, ListNodes(chain));
      BucketEnds(head, chain, buckets.Length, b);
      assert buckets[b] == BucketSeq(head, chain, buckets.Length)[b];
    }

    /** hashtable_find_pair: the pair with a key and its hash, or null. */
    method FindPair(b: nat, key: Text, hash: nat) returns (pair: Entry?<V>)
      requires Chained() && b < buckets.Length && hash % buckets.Length == b
      requires forall e :: e in chain ==> WellMade(e)
      ensures pair == null ==> forall e :: e in chain && e.hash == hash ==> e.key != key
      ensures pair != null ==> pair in chain && pair.hash == hash && pair.key == key
    {
      hide First, End, Pow2, BucketSeq, Grouped, Linked, Distinct, SegmentOf;
      ghost var ids := Ids(chain, buckets.Length);
      Enter(b);
      if BucketIsEmpty(buckets[b]) {
        assert forall k :: 0 <= k < |chain| ==> ids[k] != b;
        return null;
      }
      var list := buckets[b].first;
      ghost var i := First(ids, b);
      while true
        invariant First(ids, b) <= i < End(ids, b) && list == chain[i].list
        invariant forall k :: First(ids, b) <= k < i && chain[k].hash == hash ==> chain[k].key != key
        decreases End(ids, b) - i
      {
        assert chain[i] in chain;
        Visit(b, i);
        pair := list.item.value;
        if pair.hash == hash && pair.key == key {
          return pair;
        }
        if list == buckets[b].last {
          break;
        }
        list := list.next;
        i := i + 1;
      }
      assert forall k :: 0 <= k < |chain| && chain[k].hash == hash ==> ids[k] == b;
      return null;
    }

    /** The part of hashtable_do_del that takes a pair out of its bucket. */
    method ShrinkBucket(b: nat, pair: Entry<V>, ghost k: nat)
      requires Chained() && b < buckets.Length && k < |chain| && chain[k] == pair && pair.hash % buckets.Length == b
      modifies buckets
      ensures buckets[..] == BucketSeq(head, Delete(chain, k), buckets.Length)
    {
      hide First, End, Delete, Grouped, Ring, SegmentOf, Pow2, At, Distinct, BucketSeq, Ids, ListNodes;
      ghost var m, nodes := buckets.Length, ListNodes(chain);
      NextNode(head, nodes, k);
      BucketsAfterDelete(head, chain, k, m);
      var bucket := buckets[b];
      assert bucket == BucketSeq(head, chain, m)[b];
      if pair.list == bucket.first && pair.list == bucket.last {
        buckets[b] := Bucket(head, head);
      } else if pair.list == bucket.first {
        buckets[b] := bucket.(first := pair.list.next);
      } else if pair.list == bucket.last {
        buckets[b] := bucket.(last := pair.list.prev);
      }
    }

    /** The part of hashtable_do_del that takes a pair out of its bucket and off the list. */
    method Unchain(b: nat, pair: Entry<V>, ghost k: nat)
      requires Chained() && b < buckets.Length && k < |chain| && chain[k] == pair && pair.hash % buckets.Length == b
      modifies this`chain, buckets, head`next, head`prev, ListNodes(chain)`next, ListNodes(chain)`prev
      ensures Chained() && chain == Delete(old(chain), k)
    {
      hide First, End, Delete, Grouped, SegmentOf, Pow2, Linked, Distinct, BucketSeq, Ids, ListNodes;
      ghost var m, nodes := buckets.Length, ListNodes(chain);
      GroupedAfterDelete(chain, k, m);
      ShrinkBucket(b, pair, k);
      TakeFrom(head, pair.list, nodes, k);
      chain := Delete(chain, k);
    }

    // ---- The operations ----

    /** The pair of a key is the one the map finds. */
    lemma FindEntry(p: nat)
      requires Valid() && p < |entries|
      ensures Assoc.Unique(Contents()) && Assoc.Find(Contents(), entries[p].key) == p
    {
      hide Chained, Footprint;
      assert Assoc.Unique(Contents());
      Assoc.FindAt(Contents(), p);
    }

    /** A key of no pair of its bucket is not in the map. */
    lemma NoEntry(key: Text)
      requires Valid() && forall e :: e in chain && e.hash == hashOf(key) ==> e.key != key
      ensures Assoc.Find(Contents(), key) == size
    {
      hide Chained, Footprint, Ring;
      assert forall i :: 0 <= i < |entries| ==> entries[i] in chain && Made(entries[i]);
    }

    /** The lookup at the head of set, get, del and iter_at. */
    method Lookup(key: Text) returns (pair: Entry?<V>, index: nat)
      requires Valid()
      ensures index < buckets.Length && hashOf(key) % buckets.Length == index
      ensures pair == null ==> Assoc.Find(Contents(), key) == size
      ensures pair != null ==> Assoc.Find(Contents(), key) < size && pair == entries[Assoc.Find(Contents(), key)]
      ensures pair != null ==> pair in chain && pair.key == key && pair.hash == hashOf(key)
    {
      hide Contents, Assoc.Find;
      var hash := hashOf(key);
      index := hash % Pow2(order);
      pair := FindPair(index, key, hash);
      if pair == null {
        NoEntry(key);
      } else {
        ghost var p :| 0 <= p < |entries| && entries[p] == pair;
        FindEntry(p);
      }
    }

    /** hashtable_get */
    method Get(key: Text) returns (value: Option<V>)
      requires Valid()
      ensures value == Assoc.Get(Contents(), key)
    {
      hide Chained, Assoc.Find, Ring;
      var pair, _ := Lookup(key);
      value := if pair == null then None else Some(pair.value);
    }

    /** The part of hashtable_do_del that takes a pair off the insertion order. */
    method Unorder(pair: Entry<V>, ghost p: nat)
      requires Ring(orderedHead, OrderedNodes(entries)) && p < |entries| && pair == entries[p]
      modifies this`entries, orderedHead`next, orderedHead`prev, OrderedNodes(entries)`next, OrderedNodes(entries)`prev
      ensures Ring(orderedHead, OrderedNodes(entries)) && entries == Delete(old(entries), p)
    {
      hide Distinct, Delete, At;
      NodesAfterDelete(entries, p, 1);
      TakeFrom(orderedHead, pair.ordered, OrderedNodes(entries), p);
      entries := Delete(entries, p);
    }

    lemma ListsApart()
      requires Valid()
      ensures Disjoint(head, ListNodes(chain), orderedHead, OrderedNodes(entries))
    {
      hide Ring, Bucketed;
      assert forall i :: 0 <= i < |chain| ==> Made(chain[i]);
      assert forall i :: 0 <= i < |entries| ==> Made(entries[i]);
    }

    /** The part of hashtable_do_del that takes a pair off both lists. */
    method TakeOff(b: nat, pair: Entry<V>, ghost k: nat, ghost p: nat)
      requires Chained() && b < buckets.Length && k < |chain| && chain[k] == pair && pair.hash % buckets.Length == b
      requires Ring(orderedHead, OrderedNodes(entries)) && p < |entries| && pair == entries[p]
      requires Disjoint(head, ListNodes(chain), orderedHead, OrderedNodes(entries))
      modifies this`chain, buckets, head`next, head`prev, ListNodes(chain)`next, ListNodes(chain)`prev
      modifies this`entries, orderedHead`next, orderedHead`prev, OrderedNodes(entries)`next, OrderedNodes(entries)`prev
      ensures Chained() && chain == Delete(old(chain), k)
      ensures Ring(orderedHead, OrderedNodes(entries)) && entries == Delete(old(entries), p)
    {
      hide Linked, Distinct, Delete, At, Pow2, BucketSeq, Grouped, Ids, ListNodes, OrderedNodes;
      ghost var others := OrderedNodes(entries);
      Kept(chain, k);
      Unchain(b, pair, k);
      assert forall n :: n in others ==> n.next == old(n.next);
      assert forall n :: n in others ==> n.prev == old(n.prev);
      ghost var nodes := ListNodes(chain);
      label between:
      Unorder(pair, p);
      assert forall n :: n in nodes ==> n.next == old@between(n.next);
      assert forall n :: n in nodes ==> n.prev == old@between(n.prev);
    }

    /** The part of hashtable_do_del behind the lookup. */
    method DelPair(b: nat, pair: Entry<V>, ghost p: nat)
      requires Valid() && b < buckets.Length && pair.hash % buckets.Length == b
      requires p < |entries| && pair == entries[p]
      modifies Footprint()
      ensures Valid() && Footprint() <= old(Footprint())
      ensures entries == Delete(old(entries), p) && Contents() == old(PairsOf(Delete(entries, p)))
      ensures released == old(released) + multiset{old(pair.value)}
    {
      hide Linked, Distinct, Delete, First, End, Grouped, SegmentOf, Ids, At, Pow2, BucketSeq, ListNodes, OrderedNodes, Agree, Cells;
      ghost var k := InChain(p);
      ListsApart();
      AgreeDelete(chain, k, entries, p);
      Kept(entries, p);
      CellsAfterDelete(chain, k, entries, p);
      ghost var pairs := PairsOf(Delete(entries, p));
      TakeOff(b, pair, k, p);
      assert PairsOf(entries) == pairs;
      released := released + multiset{pair.value};
      size := size - 1;
      assert Ring(orderedHead, OrderedNodes(entries));
      assert forall e :: e in entries ==> Made(e);
    }

    lemma InChain(p: nat) returns (k: nat)
      requires Valid() && p < |entries|
      ensures k < |chain| && chain[k] == entries[p]
    {
      hide Bucketed, Ring;
      assert entries[p] in chain;
      k :| 0 <= k < |chain| && chain[k] == entries[p];
    }

    /** hashtable_del, hashtable_do_del */
    method Del(key: Text) returns (ok: bool)
      requires Valid()
      modifies Footprint()
      ensures Valid() && Footprint() <= old(Footprint())
      ensures Contents() == Assoc.Remove(old(Contents()), key)
      ensures ok == Assoc.Get(old(Contents()), key).Some?
      ensures released == old(released) + if ok then multiset{Assoc.Get(old(Contents()), key).value} else multiset{}
    {
      hide Assoc.Find, Assoc.Remove, Delete, Chained, Ring, Agree;
      var pair, index := Lookup(key);
      ghost var p := Assoc.Find(Contents(), key);
      if pair == null {
        Assoc.RemoveAt(Contents(), key);
        return false;
      }
      PairsAfterDelete(entries, p, key);
      DelPair(index, pair, p);
      ok := true;
    }

    /** A pair whose nodes are on no list yet. */
    ghost predicate Loose(e: Entry<V>)
      reads this, e.list, e.ordered
    {
      && Made(e) && e !in entries && e !in chain
      && e.list != head && e.list !in ListNodes(chain) && e.list !in OrderedNodes(entries)
      && e.ordered != orderedHead && e.ordered !in ListNodes(chain) && e.ordered !in OrderedNodes(entries)
    }

    /** The part of hashtable_set that puts a new pair on both lists. */
    method PutOn(b: nat, pair: Entry<V>, ghost pool: seq<ListNode<Entry<V>>>)
      requires Chained() && b < buckets.Length && pair.hash % buckets.Length == b
      requires Ring(orderedHead, OrderedNodes(entries)) && Loose(pair)
      requires Disjoint(head, ListNodes(chain), orderedHead, OrderedNodes(entries))
      requires head.use == LIST && orderedHead.use == ORDERED
      requires pool == ListNodes(chain) + [pair.list]
      modifies this`chain, buckets, head`next, head`prev, pool`next, pool`prev
      modifies this`entries, orderedHead`next, orderedHead`prev, OrderedNodes(entries)`next, OrderedNodes(entries)`prev
      modifies pair.ordered`next, pair.ordered`prev
      ensures Chained() && chain == Insert(old(chain), First(Ids(old(chain), buckets.Length), b), pair)
      ensures Ring(orderedHead, OrderedNodes(entries)) && entries == old(entries) + [pair]
    {
      hide Linked, Distinct, First, Insert, At, Pow2, BucketSeq, Grouped, Ids, ListNodes, OrderedNodes;
      ghost var others := OrderedNodes(entries);
      Added(chain, First(Ids(chain, buckets.Length), b), pair);
      InsertToBucket(b, pair, pool);
      assert forall n :: n in others ==> n.next == old(n.next);
      assert forall n :: n in others ==> n.prev == old(n.prev);
      ghost var nodes := ListNodes(chain);
      label between:
      Append(pair);
      assert forall n :: n in nodes ==> n.next == old@between(n.next);
      assert forall n :: n in nodes ==> n.prev == old@between(n.prev);
    }

    /** The part of hashtable_set that puts a new pair at the end of the insertion order. */
    method Append(pair: Entry<V>)
      requires Ring(orderedHead, OrderedNodes(entries))
      requires pair.ordered != orderedHead && pair.ordered !in OrderedNodes(entries)
      modifies this`entries, orderedHead`next, orderedHead`prev, OrderedNodes(entries)`next, OrderedNodes(entries)`prev
      modifies pair.ordered`next, pair.ordered`prev
      ensures Ring(orderedHead, OrderedNodes(entries)) && entries == old(entries) + [pair]
    {
      hide Distinct, Insert, At;
      ghost var nodes := OrderedNodes(entries);
      Neighbours(orderedHead, nodes, |nodes|);
      AtIs(orderedHead, nodes, |nodes|);
      NodesAfterAppend(entries, pair);
      InsertBefore(orderedHead, pair.ordered, orderedHead, nodes, |nodes|);
      entries := entries + [pair];
    }

    /** The part of hashtable_set for a new key. */
    method AddPair(b: nat, pair: Entry<V>)
      requires Valid() && b < buckets.Length && pair.hash % buckets.Length == b && size < buckets.Length
      requires Loose(pair) && forall i :: 0 <= i < |entries| ==> entries[i].key != pair.key
      modifies Footprint(), pair.list`next, pair.list`prev, pair.ordered`next, pair.ordered`prev
      ensures Valid() && Footprint() <= old(Footprint()) + {pair, pair.list, pair.ordered}
      ensures entries == old(entries) + [pair] && Contents() == old(PairsOf(entries + [pair]))
      ensures released == old(released)
    {
      hide Linked, Distinct, Insert, First, End, Grouped, SegmentOf, Ids, At, Pow2, BucketSeq, ListNodes, OrderedNodes, Agree, Cells;
      ghost var k := First(Ids(chain, buckets.Length), b);
      ListsApart();
      AgreeInsert(chain, k, entries, pair);
      Added(chain, k, pair);
      CellsAfterInsert(chain, k, entries, pair);
      ghost var pairs := PairsOf(entries + [pair]);
      PutOn(b, pair, ListNodes(chain) + [pair.list]);
      assert PairsOf(entries) == pairs;
      size := size + 1;
      assert Ring(orderedHead, OrderedNodes(entries));
      assert forall e :: e in entries ==> Made(e);
    }

    // ---- Rehash ----

    /** The position `i` of the old list is next, and the links from there on are still the old ones. */
    ghost predicate Pending(list: ListNode<Entry<V>>, was: seq<Entry<V>>, i: nat)
      requires i <= |was|
      reads ListNodes(was)
    {
      && list == At(head, ListNodes(was), i + 1)
      && forall j :: i <= j < |was| ==> was[j].list.next == At(head, ListNodes(was), j + 2)
    }

    lemma AllPending(was: seq<Entry<V>>)
      requires Ring(head, ListNodes(was))
      ensures Pending(head.next, was, 0) && head !in ListNodes(was) && Agree<V>([], was[..0])
    {
      assert Linked(At(head, ListNodes(was), 0), At(head, ListNodes(was), 1));
      forall j | 0 <= j < |was| ensures was[j].list.next == At(head, ListNodes(was), j + 2) {
        assert Linked(At(head, ListNodes(was), j + 1), At(head, ListNodes(was), j + 2));
      }
    }

    /** One turn of the loop of hashtable_do_rehash. */
    method Move(list: ListNode<Entry<V>>, ghost was: seq<Entry<V>>, ghost i: nat) returns (next: ListNode<Entry<V>>)
      requires Chained() && i < |was| && Agree(chain, was[..i]) && Agree(was, was) && WellMade(was[i])
      requires Distinct(head, ListNodes(was)) && Pending(list, was, i)
      modifies this`chain, buckets, head`next, head`prev, ListNodes(was)`next, ListNodes(was)`prev
      ensures Chained() && Agree(chain, was[..i + 1]) && Pending(next, was, i + 1)
    {
      hide First, End, Insert, Grouped, SegmentOf, Pow2, Linked, Distinct, BucketSeq, Ids, ListNodes, Agree;
      assert list == was[i].list;
      next := list.next;
      var pair := list.item.value;
      AgreeMore(chain, was, i, First(Ids(chain, buckets.Length), pair.hash % buckets.Length));
      ghost var nodes := ListNodes(was);
      MovedApart(head, chain, was, i);
      assert pair == was[i];
      InsertToBucket(pair.hash % buckets.Length, pair, nodes);
      assert forall j :: i < j < |was| ==> nodes[j].next == old(nodes[j].next);
    }

    /** The loop of hashtable_do_rehash, which relinks the list while it walks it. */
    method Relink(ghost was: seq<Entry<V>>)
      requires buckets.Length == Pow2(order) && forall b :: 0 <= b < buckets.Length ==> buckets[b] == Bucket(head, head)
      requires Ring(head, ListNodes(was)) && Agree(was, was) && forall e :: e in was ==> WellMade(e)
      modifies this`chain, buckets, head`next, head`prev, ListNodes(was)`next, ListNodes(was)`prev
      ensures Chained() && Agree(chain, was)
    {
      hide First, End, Insert, Grouped, SegmentOf, Pow2, Linked, BucketSeq, Ids, Agree, ListNodes;
      ghost var i := 0;
      AllPending(was);
      EmptyBuckets(head, buckets.Length);
      var list := head.next;
      Init(head);
      chain := [];
      while list != head
        invariant i <= |was| && Chained() && Agree(chain, was[..i]) && Pending(list, was, i)
        invariant forall e :: e in was ==> WellMade(e)
        decreases |was| - i
      {
        list := Move(list, was, i);
        i := i + 1;
      }
      assert was[..i] == was;
    }

    /** The part of hashtable_do_rehash that makes new buckets and fills them. */
    method Regrow(ghost was: seq<Entry<V>>, ghost others: seq<ListNode<Entry<V>>>)
      requires Ring(head, ListNodes(was)) && Agree(was, was) && forall e :: e in was ==> WellMade(e)
      requires Ring(orderedHead, others) && Disjoint(head, ListNodes(was), orderedHead, others)
      modifies this`buckets, this`order, this`chain, head`next, head`prev, ListNodes(was)`next, ListNodes(was)`prev
      ensures Chained() && Agree(chain, was) && fresh(buckets) && order == old(order) + 1
      ensures Ring(orderedHead, others)
    {
      hide First, Linked, Distinct, Ids, Agree, ListNodes, BucketSeq, Grouped;
      var sentinel := head;
      buckets := new Bucket<V>[Pow2(order + 1)](_ => Bucket(sentinel, sentinel));
      order := order + 1;
      Relink(was);
      assert forall n :: n in others ==> n.next == old(n.next);
      assert forall n :: n in others ==> n.prev == old(n.prev);
    }

    /** hashtable_do_rehash */
    method Rehash()
      requires Valid()
      modifies Footprint()
      ensures Valid() && fresh(buckets) && Footprint() <= old(Footprint()) + {buckets}
      ensures order == old(order) + 1 && buckets.Length == 2 * old(buckets.Length)
      ensures entries == old(entries) && size == old(size) && Contents() == old(Contents()) && released == old(released)
    {
      hide First, Linked, Distinct, Ids, Agree, ListNodes, BucketSeq, Grouped, OrderedNodes, Cells;
      ghost var was := chain;
      AgreeSelf(chain, entries);
      ListsApart();
      InEntries();
      ghost var pairs := PairsOf(entries);
      Regrow(was, OrderedNodes(entries));
      AgreeTrans(chain, was, entries);
      assert forall e :: e in entries ==> Made(e);
      assert PairsOf(entries) == pairs;
    }

    lemma InEntries()
      requires Valid()
      ensures Ring(head, ListNodes(chain)) && forall e :: e in chain ==> Made(e)
    {
      hide Linked, Distinct, BucketSeq, Grouped;
    }

    // ---- Set, clear and iteration ----

    /** Giving a pair a new value, in hashtable_set and hashtable_iter_set. */
    method Replace(pair: Entry<V>, value: V, ghost p: nat)
      requires Valid() && p < |entries| && entries[p] == pair
      modifies this`released, pair`value
      ensures Valid() && Footprint() == old(Footprint())
      ensures Contents() == old(Contents())[p := Assoc.Pair(pair.key, value)]
      ensures released == old(released) + multiset{old(pair.value)}
    {
      hide Linked, Distinct, BucketSeq, Cells, Grouped, ListNodes, OrderedNodes, Ids;
      released := released + multiset{pair.value};
      pair.value := value;
    }

    /** hashtable_set */
    method Set(key: Text, value: V)
      requires Valid()
      modifies Footprint()
      ensures Valid() && fresh(Footprint() - old(Footprint()))
      ensures Contents() == Assoc.Put(old(Contents()), key, value)
      ensures released == old(released) + Previous(old(Contents()), key)
    {
      hide Assoc.Find, Assoc.Put, Linked, Distinct, BucketSeq, Cells, Agree;
      if size >= Pow2(order) {
        Rehash();
      }
      ghost var added := SetInPlace(key, value);
    }

    /** A new pair of hashtable_set. */
    method AddNew(b: nat, key: Text, value: V) returns (pair: Entry<V>, ghost added: set<object>)
      requires Valid() && b < buckets.Length && hashOf(key) % buckets.Length == b && size < buckets.Length
      requires forall i :: 0 <= i < |entries| ==> entries[i].key != key
      modifies Footprint()
      ensures Valid() && fresh(added) && Footprint() <= old(Footprint()) + added
      ensures Contents() == old(Contents()) + [Assoc.Pair(key, value)] && released == old(released)
    {
      hide Chained, Ring, Agree, Ids;
      pair := new Entry(key, hashOf(key), value);
      ghost var pairs := PairsOf(entries);
      assert PairsOf(entries + [pair]) == pairs + [Assoc.Pair(key, value)];
      AddPair(b, pair);
      added := {pair, pair.list, pair.ordered};
    }

    /** The part of hashtable_set behind the check of the load. */
    method SetInPlace(key: Text, value: V) returns (ghost added: set<object>)
      requires Valid() && size < buckets.Length
      modifies Footprint()
      ensures Valid() && fresh(added) && Footprint() <= old(Footprint()) + added
      ensures Contents() == Assoc.Put(old(Contents()), key, value)
      ensures released == old(released) + Previous(old(Contents()), key)
    {
      hide Assoc.Find, Chained, Ring, Agree, Ids, ListNodes, OrderedNodes;
      var pair, index := Lookup(key);
      if pair != null {
        Replace(pair, value, Assoc.Find(Contents(), key));
        added := {};
      } else {
        pair, added := AddNew(index, key, value);
      }
    }

    /** The loop of hashtable_do_clear: the values it meets. */
    method WalkValues() returns (ghost dropped: multiset<V>)
      requires Valid()
      ensures dropped == ValuesOf(entries)
    {
      hide BucketSeq, Grouped, Cells, Agree, Linked, Distinct, SegmentOf, Ids, ValuesOf;
      dropped := multiset{};
      ghost var nodes := ListNodes(chain);
      ghost var i := 0;
      InEntries();
      StartOf(head, nodes);
      AtHead(head, nodes, 0);
      var list := head.next;
      ValuesUpTo(chain, 0);
      while list != head
        invariant i <= |chain| && list == At(head, nodes, i + 1) && dropped == ValuesOf(chain[..i])
        invariant list == head <==> i == |chain|
        decreases |chain| - i
      {
        assert chain[i] in chain;
        var pair := list.item.value;
        NextNode(head, nodes, i);
        AtHead(head, nodes, i + 1);
        list := list.next;
        dropped := dropped + multiset{pair.value};
        ValuesUpTo(chain, i);
        i := i + 1;
      }
      ValuesUpTo(chain, i);
      SameValues(chain, entries);
    }

    /** hashtable_do_clear: every value loses one reference. */
    method DoClear()
      requires Valid()
      modifies this`released
      ensures Valid() && Footprint() == old(Footprint())
      ensures released == old(released) + ValuesOf(entries)
    {
      hide Linked, Distinct, BucketSeq, Grouped, Cells, Ids, ListNodes, OrderedNodes, ValuesOf;
      ghost var dropped := WalkValues();
      released := released + dropped;
    }

    /** The part of hashtable_clear behind the release of the pairs. */
    method Reset()
      requires Valid()
      modifies this`size, this`chain, this`entries, buckets
      modifies head`next, head`prev, orderedHead`next, orderedHead`prev
      ensures Valid() && entries == [] && chain == []
    {
      hide SegmentOf, BucketSeq, Grouped, Agree, Ids, ListNodes, OrderedNodes;
      assert buckets.Length > 0;
      EmptyBuckets(head, buckets.Length);
      for i := 0 to buckets.Length
        modifies buckets
        invariant forall b :: 0 <= b < i ==> buckets[b] == Bucket(head, head)
      {
        buckets[i] := Bucket(head, head);
      }
      Init(head);
      Init(orderedHead);
      size := 0;
      chain, entries := [], [];
      AgreeNone<V>();
    }

    /** hashtable_clear */
    method Clear()
      requires Valid()
      modifies Footprint()
      ensures Valid() && Footprint() <= old(Footprint()) && Contents() == []
      ensures released == old(released) + old(ValuesOf(entries))
    {
      hide Ring, Bucketed;
      DoClear();
      Reset();
    }

    /** hashtable_iter_next, from behind the first `i` pairs; the head of the order stands for no pair. */
    method IterNext(iter: ListNode<Entry<V>>, ghost i: nat) returns (next: ListNode?<Entry<V>>)
      requires Valid() && i <= size && iter == At(orderedHead, OrderedNodes(entries), i)
      ensures next == null <==> i == size
      ensures next != null ==> next == At(orderedHead, OrderedNodes(entries), i + 1) && next.item == Some(entries[i])
    {
      hide Bucketed;
      Neighbours(orderedHead, OrderedNodes(entries), i);
      if iter.next == orderedHead {
        return null;
      }
      assert Made(entries[i]);
      return iter.next;
    }

    /** The loop of json_object_foreach: iteration meets every pair once, in insertion order. */
    method ForEach() returns (pairs: seq<Assoc.Pair<V>>)
      requires Valid()
      ensures pairs == Contents()
    {
      pairs := [];
      var iter := IterNext(orderedHead, 0);
      while iter != null
        invariant |pairs| <= size && pairs == Contents()[..|pairs|]
        invariant iter == null ==> |pairs| == size
        invariant iter != null ==> |pairs| < size && iter == At(orderedHead, OrderedNodes(entries), |pairs| + 1)
        invariant iter != null ==> iter.item == Some(entries[|pairs|])
        decreases size - |pairs|
      {
        pairs := pairs + [Assoc.Pair(iter.item.value.key, iter.item.value.value)];
        iter := IterNext(iter, |pairs|);
      }
    }
  }

  /** The reference that setting a key drops. */
  ghost function Previous<V>(s: seq<Assoc.Pair<V>>, key: Text): multiset<V> {
    match Assoc.Get(s, key)
    case None => multiset{}
    case Some(v) => multiset{v}
  }

  /** The values of some pairs, with multiplicity. */
  ghost function ValuesOf<V>(es: seq<Entry<V>>): multiset<V>
    reads es
  {
    if es == [] then multiset{} else ValuesOf(es[..|es| - 1]) + multiset{es[|es| - 1].value}
  }

  lemma ValuesUpTo<V>(es: seq<Entry<V>>, i: nat)
    requires i <= |es|
    ensures i == 0 ==> ValuesOf(es[..i]) == multiset{}
    ensures i < |es| ==> ValuesOf(es[..i + 1]) == ValuesOf(es[..i]) + multiset{es[i].value}
    ensures i == |es| ==> ValuesOf(es[..i]) == ValuesOf(es)
  {
    if i < |es| {
      assert es[..i + 1][..i] == es[..i];
    } else {
      assert es[..i] == es;
    }
  }

  lemma {:induction false} ValuesWithout<V>(es: seq<Entry<V>>, k: nat)
    requires k < |es|
    ensures ValuesOf(es) == ValuesOf(Delete(es, k)) + multiset{es[k].value}
  {
    if k == |es| - 1 {
      assert Delete(es, k) == es[..k];
    } else {
      var init := es[..|es| - 1];
      ValuesWithout(init, k);
      assert Delete(es, k)[..|es| - 2] == Delete(init, k);
    }
  }

  /** The order does not matter to the values. */
  lemma {:induction false} SameValues<V>(chain: seq<Entry<V>>, entries: seq<Entry<V>>)
    requires Agree(chain, entries)
    ensures ValuesOf(chain) == ValuesOf(entries)
    decreases |chain|
  {
    if chain != [] {
      var k := |chain| - 1;
      assert chain[k] in entries;
      var p :| 0 <= p < |entries| && entries[p] == chain[k];
      ValuesWithout(chain, k);
      ValuesWithout(entries, p);
      AgreeDelete(chain, k, entries, p);
      SameValues(Delete(chain, k), Delete(entries, p));
    }
  }

  lemma AgreeNone<V>()
    ensures Agree<V>([], [])
  {
  }

  lemma AgreeSelf<V>(chain: seq<Entry<V>>, entries: seq<Entry<V>>)
    requires Agree(chain, entries)
    ensures Agree(chain, chain)
  {
    forall i, j | 0 <= i < j < |chain| ensures chain[i].key != chain[j].key {
      assert chain[i] in entries && chain[j] in entries;
    }
  }

  lemma AgreeTrans<V>(chain: seq<Entry<V>>, was: seq<Entry<V>>, entries: seq<Entry<V>>)
    requires Agree(chain, was) && Agree(was, entries)
    ensures Agree(chain, entries) && Cells(chain, entries) <= Cells(was, entries)
  {
    assert forall e :: e in chain ==> e in was;
    forall n | n in ListNodes(chain) ensures n in ListNodes(was) {
      var i :| 0 <= i < |chain| && ListNodes(chain)[i] == n;
      assert chain[i] in was;
      var j :| 0 <= j < |was| && was[j] == chain[i];
      assert ListNodes(was)[j] == n;
    }
  }

  /** The nodes still to be moved are none of the nodes already moved. */
  lemma MovedApart<V>(head: ListNode<Entry<V>>, chain: seq<Entry<V>>, was: seq<Entry<V>>, i: nat)
    requires i < |was| && Agree(chain, was[..i]) && Agree(was, was) && Distinct(head, ListNodes(was))
    ensures forall j :: i <= j < |was| ==> was[j].list != head && was[j].list !in ListNodes(chain)
    ensures forall j :: i < j < |was| ==> was[j].list != was[i].list
    ensures was[i].list in ListNodes(was)
    ensures forall n :: n in ListNodes(chain) ==> n in ListNodes(was)
  {
    var nodes := ListNodes(was);
    assert forall k :: 0 <= k < |chain| ==> chain[k] in was[..i];
    forall k, j | 0 <= k < |chain| && i <= j < |was| ensures chain[k].list != nodes[j] {
      var l :| 0 <= l < i && was[l] == chain[k];
      assert nodes[l] != nodes[j];
    }
    forall n | n in ListNodes(chain) ensures n in nodes {
      var k :| 0 <= k < |chain| && ListNodes(chain)[k] == n;
      var l :| 0 <= l < i && was[l] == chain[k];
      assert nodes[l] == n;
    }
    assert nodes[i] in nodes && forall j :: i < j < |was| ==> nodes[j] != nodes[i];
  }

  lemma AgreeMore<V>(chain: seq<Entry<V>>, was: seq<Entry<V>>, i: nat, k: nat)
    requires i < |was| && Agree(chain, was[..i]) && Agree(was, was) && k <= |chain|
    ensures Agree(Insert(chain, k, was[i]), was[..i + 1])
    ensures was[i] !in chain && forall x :: x in chain ==> x in was[..i]
  {
    assert was[..i + 1] == was[..i] + [was[i]];
    AgreeInsert(chain, k, was[..i], was[i]);
  }

  lemma NodesAfterAppend<V>(es: seq<Entry<V>>, e: Entry<V>)
    ensures OrderedNodes(es + [e]) == OrderedNodes(es) + [e.ordered]
    ensures Insert(OrderedNodes(es), |es|, e.ordered) == OrderedNodes(es) + [e.ordered]
  {
  }

  lemma Added<V>(es: seq<Entry<V>>, k: nat, e: Entry<V>)
    requires k <= |es|
    ensures |Insert(es, k, e)| == |es| + 1
    ensures forall x :: x in Insert(es, k, e) ==> x in es || x == e
    ensures forall n :: n in ListNodes(Insert(es, k, e)) ==> n in ListNodes(es) || n == e.list
  {
    NodesAfterInsert(es, k, e, 1);
  }
}
