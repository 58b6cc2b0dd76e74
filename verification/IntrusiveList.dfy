/**
 The circular doubly linked lists that the server and jansson thread through their own records:
 list/gnu_list.h and the list helpers at the top of jansson/hashtable.c. A list is a head and the
 nodes between it and itself; an empty list is a head linked to itself.
 */
module IntrusiveList {
  import opened Bytes

  /** struct list_head, embedded in the record `item`; the head of a list is in no record. */
  class ListNode<T> {
    var next: ListNode<T>
    var prev: ListNode<T>
    var item: Option<T>
    /** Tells apart the nodes of the lists that one record is on. */
    ghost const use: nat

    /** INIT_LIST_HEAD and list_init */
    constructor (ghost use: nat)
      ensures next == this && prev == this && item == None && this.use == use
    {
      next, prev, item := this, this, None;
      this.use := use;
    }
  }

  /** The i-th node from the head on, which is at both ends. */
  ghost function At<T>(head: ListNode<T>, nodes: seq<ListNode<T>>, i: nat): ListNode<T> {
    if 1 <= i <= |nodes| then nodes[i - 1] else head
  }

  ghost predicate Linked<T>(a: ListNode<T>, b: ListNode<T>)
    reads a, b
  {
    a.next == b && b.prev == a
  }

  ghost predicate Distinct<T>(head: ListNode<T>, nodes: seq<ListNode<T>>) {
    && (forall i :: 0 <= i < |nodes| ==> nodes[i] != head)
    && (forall i, j :: 0 <= i < j < |nodes| ==> nodes[i] != nodes[j])
  }

  /** The list of `head` holds exactly `nodes`, in order, forwards and backwards. */
  ghost predicate Ring<T>(head: ListNode<T>, nodes: seq<ListNode<T>>)
    reads head, nodes
  {
    && Distinct(head, nodes)
    && forall i :: 0 <= i <= |nodes| ==> Linked(At(head, nodes, i), At(head, nodes, i + 1))
  }

  function Insert<T>(s: seq<T>, k: nat, x: T): seq<T>
    requires k <= |s|
  {
    s[..k] + [x] + s[k..]
  }

  function Delete<T>(s: seq<T>, k: nat): seq<T>
    requires k < |s|
  {
    s[..k] + s[k + 1..]
  }

  lemma InsertAt<T>(s: seq<T>, k: nat, x: T)
    requires k <= |s|
    ensures |Insert(s, k, x)| == |s| + 1
    ensures Insert(s, k, x)[k] == x
    ensures forall i :: 0 <= i < k ==> Insert(s, k, x)[i] == s[i]
    ensures forall i :: k < i <= |s| ==> Insert(s, k, x)[i] == s[i - 1]
  {
  }

  lemma DeleteAt<T>(s: seq<T>, k: nat)
    requires k < |s|
    ensures |Delete(s, k)| == |s| - 1
    ensures forall i :: 0 <= i < k ==> Delete(s, k)[i] == s[i]
    ensures forall i :: k <= i < |s| - 1 ==> Delete(s, k)[i] == s[i + 1]
  {
  }

  lemma PlaceAfterInsert<T>(head: ListNode<T>, nodes: seq<ListNode<T>>, k: nat, node: ListNode<T>)
    requires Distinct(head, nodes) && k <= |nodes| && node != head && node !in nodes
    ensures Distinct(head, Insert(nodes, k, node))
    ensures forall i :: 0 <= i <= k ==> At(head, Insert(nodes, k, node), i) == At(head, nodes, i)
    ensures At(head, Insert(nodes, k, node), k + 1) == node
    ensures forall i :: k + 2 <= i <= |nodes| + 2 ==> At(head, Insert(nodes, k, node), i) == At(head, nodes, i - 1)
  {
    InsertAt(nodes, k, node);
  }

  lemma PlaceAfterDelete<T>(head: ListNode<T>, nodes: seq<ListNode<T>>, k: nat)
    requires Distinct(head, nodes) && k < |nodes|
    ensures Distinct(head, Delete(nodes, k))
    ensures forall i :: 0 <= i <= k ==> At(head, Delete(nodes, k), i) == At(head, nodes, i)
    ensures forall i :: k + 1 <= i <= |nodes| ==> At(head, Delete(nodes, k), i) == At(head, nodes, i + 1)
  {
    DeleteAt(nodes, k);
  }

  lemma Neighbours<T>(head: ListNode<T>, nodes: seq<ListNode<T>>, i: nat)
    requires Ring(head, nodes) && i <= |nodes|
    ensures Distinct(head, nodes) && Linked(At(head, nodes, i), At(head, nodes, i + 1))
    ensures At(head, nodes, i) == head || At(head, nodes, i) in nodes
    ensures At(head, nodes, i + 1) == head || At(head, nodes, i + 1) in nodes
  {
    assert Linked(At(head, nodes, i), At(head, nodes, i + 1));
  }

  lemma AtHead<T>(head: ListNode<T>, nodes: seq<ListNode<T>>, i: nat)
    requires Distinct(head, nodes) && i <= |nodes|
    ensures At(head, nodes, i + 1) == head <==> i == |nodes|
    ensures i < |nodes| ==> At(head, nodes, i + 1) == nodes[i]
  {
  }

  lemma StartOf<T>(head: ListNode<T>, nodes: seq<ListNode<T>>)
    requires Ring(head, nodes)
    ensures Distinct(head, nodes) && head.next == At(head, nodes, 1)
  {
    Neighbours(head, nodes, 0);
  }

  lemma NextNode<T>(head: ListNode<T>, nodes: seq<ListNode<T>>, i: nat)
    requires Ring(head, nodes) && i < |nodes|
    ensures Distinct(head, nodes)
    ensures nodes[i].next == (if i + 1 < |nodes| then nodes[i + 1] else head)
    ensures nodes[i].prev == (if i > 0 then nodes[i - 1] else head)
  {
    Neighbours(head, nodes, i + 1);
    Neighbours(head, nodes, i);
  }

  lemma AtIs<T>(head: ListNode<T>, nodes: seq<ListNode<T>>, k: nat)
    requires k <= |nodes|
    ensures At(head, nodes, k + 1) == if k < |nodes| then nodes[k] else head
  {
  }

  /** Two rings with no node in common. */
  ghost predicate Disjoint<T>(head: ListNode<T>, nodes: seq<ListNode<T>>, head': ListNode<T>, nodes': seq<ListNode<T>>) {
    && head != head' && head !in nodes' && head' !in nodes
    && forall n :: n in nodes' ==> n !in nodes
  }

  /** Only at its head does a ring meet itself. */
  lemma Apart<T>(head: ListNode<T>, nodes: seq<ListNode<T>>, i: nat, j: nat)
    requires Distinct(head, nodes) && i <= |nodes| + 1 && j <= |nodes| + 1 && i != j
    ensures At(head, nodes, i) != At(head, nodes, j) || {i, j} == {0, |nodes| + 1}
  {
  }

  /** INIT_LIST_HEAD on a head that is already in use. */
  method Init<T>(head: ListNode<T>)
    modifies head`next, head`prev
    ensures Ring(head, [])
  {
    head.next, head.prev := head, head;
  }

  /** list_add_tail and list_insert: links `node` in front of `list`, which is behind the first `k` nodes of the ring. */
  method InsertBefore<T>(list: ListNode<T>, node: ListNode<T>, ghost head: ListNode<T>, ghost nodes: seq<ListNode<T>>, ghost k: nat)
    requires Ring(head, nodes) && k <= |nodes| && list == At(head, nodes, k + 1)
    requires node != head && node !in nodes
    modifies node`next, node`prev, list`prev, list.prev`next
    ensures Ring(head, Insert(nodes, k, node))
  {
    PlaceAfterInsert(head, nodes, k, node);
    hide Insert, Distinct;
    assert Linked(At(head, nodes, k), At(head, nodes, k + 1));
    ghost var now := Insert(nodes, k, node);
    forall i | 0 <= i <= |nodes| + 1 ensures At(head, nodes, i) != node {}
    node.next := list;
    node.prev := list.prev;
    list.prev.next := node;
    list.prev := node;
    forall i | 0 <= i <= |now| ensures Linked(At(head, now, i), At(head, now, i + 1)) {
      if i < k || i > k + 1 {
        var j := if i < k then i else i - 1;
        assert old(Linked(At(head, nodes, j), At(head, nodes, j + 1)));
        Apart(head, nodes, j, k);
        Apart(head, nodes, j + 1, k + 1);
        assert At(head, now, i) == At(head, nodes, j) && At(head, now, i + 1) == At(head, nodes, j + 1);
      }
    }
  }

  /** list_del and list_remove: unlinks the node behind the first `k` of the ring. */
  method Unlink<T>(node: ListNode<T>, ghost head: ListNode<T>, ghost nodes: seq<ListNode<T>>, ghost k: nat)
    requires Ring(head, nodes) && k < |nodes| && node == nodes[k]
    modifies node.prev`next, node.next`prev
    ensures Ring(head, Delete(nodes, k))
  {
    PlaceAfterDelete(head, nodes, k);
    hide Delete, Distinct;
    assert Linked(At(head, nodes, k), At(head, nodes, k + 1));
    assert Linked(At(head, nodes, k + 1), At(head, nodes, k + 2));
    ghost var now := Delete(nodes, k);
    node.prev.next := node.next;
    node.next.prev := node.prev;
    forall i | 0 <= i <= |now| ensures Linked(At(head, now, i), At(head, now, i + 1)) {
      if i != k {
        var j := if i < k then i else i + 1;
        assert old(Linked(At(head, nodes, j), At(head, nodes, j + 1)));
        Apart(head, nodes, j, k);
        Apart(head, nodes, j + 1, k + 2);
        assert At(head, now, i) == At(head, nodes, j) && At(head, now, i + 1) == At(head, nodes, j + 1);
      }
    }
  }

  /** list_remove, with the nodes it may write to as the nodes of the ring. */
  method TakeFrom<T>(head: ListNode<T>, node: ListNode<T>, ghost nodes: seq<ListNode<T>>, ghost k: nat)
    requires Ring(head, nodes) && k < |nodes| && nodes[k] == node
    modifies head`next, head`prev, nodes`next, nodes`prev
    ensures Ring(head, Delete(nodes, k))
  {
    hide Delete, Distinct;
    Neighbours(head, nodes, k);
    Neighbours(head, nodes, k + 1);
    Unlink(node, head, nodes, k);
  }
}
