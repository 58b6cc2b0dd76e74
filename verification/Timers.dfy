/**
 The server's timers, timer.c: records threaded on one circular list that is kept sorted by
 timeout. The time is a parameter wherever the code asks for it.
 */
module Timers {
  import opened Bytes
  import opened IntrusiveList

  /** struct cbtimer, embedded in the record `owner` */
  class Timer<T> {
    const list: ListNode<Timer<T>>
    var timeout: int
    var delaySec: int
    var owner: Option<T>

    constructor ()
      ensures fresh(list) && list.item == Some(this) && owner == None
    {
      timeout, delaySec, owner := 0, 0, None;
      list := new ListNode(0);
      new;
      list.item := Some(this);
    }
  }

  ghost function Nodes<T>(ts: seq<Timer<T>>): (ns: seq<ListNode<Timer<T>>>)
    ensures |ns| == |ts| && forall i :: 0 <= i < |ts| ==> ns[i] == ts[i].list
  {
    seq(|ts|, i requires 0 <= i < |ts| => ts[i].list)
  }

  ghost predicate Sorted<T>(ts: seq<Timer<T>>)
    reads ts
  {
    forall i, j :: 0 <= i < j < |ts| ==> ts[i].timeout <= ts[j].timeout
  }

  /** container_of finds the timer of each node. */
  ghost predicate Threaded<T>(ts: seq<Timer<T>>)
    reads Nodes(ts)
  {
    forall i :: 0 <= i < |ts| ==> ts[i].list.item == Some(ts[i])
  }

  /** Where a timeout belongs: in front of the first that is not smaller. */
  ghost predicate Place<T>(ts: seq<Timer<T>>, timeout: int, k: nat)
    reads ts
  {
    && k <= |ts|
    && (forall i :: 0 <= i < k ==> ts[i].timeout < timeout)
    && (k < |ts| ==> timeout <= ts[k].timeout)
  }

  lemma NodesOf<T>(ts: seq<Timer<T>>, k: nat, t: Timer<T>)
    requires k <= |ts|
    ensures Nodes(Insert(ts, k, t)) == Insert(Nodes(ts), k, t.list)
    ensures k < |ts| ==> Nodes(Delete(ts, k)) == Delete(Nodes(ts), k)
    ensures forall n :: n in Nodes(Insert(ts, k, t)) ==> n in Nodes(ts) || n == t.list
  {
    InsertAt(Nodes(ts), k, t.list);
  }

  lemma ThreadedInsert<T>(ts: seq<Timer<T>>, k: nat, t: Timer<T>)
    requires Threaded(ts) && k <= |ts| && t.list.item == Some(t)
    ensures Threaded(Insert(ts, k, t)) && (k < |ts| ==> Threaded(Delete(ts, k)))
    ensures forall x :: x in Insert(ts, k, t) ==> x in ts || x == t
    ensures k < |ts| ==> forall x :: x in Delete(ts, k) ==> x in ts
  {
    InsertAt(ts, k, t);
    if k < |ts| {
      DeleteAt(ts, k);
    }
  }

  /** Of timers with one timeout the last to be put in is the first to fire. */
  lemma LastInFirstOut<T>(ts: seq<Timer<T>>, k: nat, t: Timer<T>, i: nat)
    requires Sorted(ts) && Place(ts, t.timeout, k) && i < |ts|
    ensures var now := Insert(ts, k, t);
      && now[k] == t
      && (ts[i].timeout < t.timeout <==> i < k && now[i] == ts[i])
      && (t.timeout <= ts[i].timeout <==> k <= i && now[i + 1] == ts[i])
  {
    InsertAt(ts, k, t);
  }

  lemma SortedInsert<T>(ts: seq<Timer<T>>, k: nat, t: Timer<T>)
    requires Sorted(ts) && Place(ts, t.timeout, k)
    ensures Sorted(Insert(ts, k, t))
  {
    InsertAt(ts, k, t);
    var now := Insert(ts, k, t);
    hide Insert;
    forall i, j | 0 <= i < j < |now| ensures now[i].timeout <= now[j].timeout {
      if i == k {
        assert k < |ts| ==> ts[k].timeout <= ts[j - 1].timeout;
      } else if j == k {
        assert ts[i].timeout < t.timeout;
      }
    }
  }

  lemma SortedDelete<T>(ts: seq<Timer<T>>, k: nat)
    requires Sorted(ts) && k < |ts|
    ensures Sorted(Delete(ts, k))
  {
    DeleteAt(ts, k);
  }

  /** The part of struct server that keeps timers. */
  class TimerList<T> {
    const head: ListNode<Timer<T>>
    /** The timers on the list, in order. */
    ghost var timers: seq<Timer<T>>
    /** The head and the nodes of all timers that were ever on the list. */
    ghost var pool: set<ListNode<Timer<T>>>

    ghost predicate Valid()
      reads this, head, timers, Nodes(timers)
    {
      && Ring(head, Nodes(timers)) && Sorted(timers) && Threaded(timers)
      && head in pool && forall n :: n in Nodes(timers) ==> n in pool
    }

    /** init_timer */
    constructor ()
      ensures Valid() && timers == [] && fresh(pool)
    {
      head := new ListNode(0);
      timers := [];
      new;
      pool := {head};
    }

    /** The loop of __insert_to_timer_list: the node that the timer belongs in front of. */
    method FindPlace(timeout: int) returns (pos: ListNode<Timer<T>>, ghost k: nat)
      requires Valid()
      ensures Place(timers, timeout, k) && pos == At(head, Nodes(timers), k + 1)
      ensures forall i :: 0 <= i < |timers| ==> (i < k <==> timers[i].timeout < timeout)
    {
      hide Distinct;
      ghost var nodes := Nodes(timers);
      StartOf(head, nodes);
      AtHead(head, nodes, 0);
      pos, k := head.next, 0;
      while pos != head
        invariant k <= |timers| && pos == At(head, nodes, k + 1) && (pos == head <==> k == |timers|)
        invariant forall i :: 0 <= i < k ==> timers[i].timeout < timeout
        decreases |timers| - k
      {
        var tmp := pos.item.value;
        if timeout <= tmp.timeout {
          break;
        }
        Neighbours(head, nodes, k + 1);
        AtHead(head, nodes, k + 1);
        pos := pos.next;
        k := k + 1;
      }
    }

    /** The list_add_tail of __insert_to_timer_list. */
    method Link(pos: ListNode<Timer<T>>, timer: Timer<T>, ghost k: nat)
      requires Valid() && timer.list !in Nodes(timers) && timer.list != head && timer.list.item == Some(timer)
      requires Place(timers, timer.timeout, k) && pos == At(head, Nodes(timers), k + 1)
      modifies this`timers, this`pool, pool`next, pool`prev, timer.list`next, timer.list`prev
      ensures Valid() && timers == Insert(old(timers), k, timer) && pool == old(pool) + {timer.list}
    {
      hide Distinct, Linked, At, Insert, Delete;
      NodesOf(timers, k, timer);
      SortedInsert(timers, k, timer);
      ThreadedInsert(timers, k, timer);
      ghost var now := Insert(timers, k, timer);
      Neighbours(head, Nodes(timers), k);
      InsertBefore(pos, timer.list, head, Nodes(timers), k);
      assert forall x :: x in now ==> x.timeout == old(x.timeout) && x.list.item == old(x.list.item);
      timers := now;
      pool := pool + {timer.list};
    }

    /** __insert_to_timer_list */
    method InsertTimer(timer: Timer<T>) returns (ghost k: nat)
      requires Valid() && timer.list !in Nodes(timers) && timer.list != head && timer.list.item == Some(timer)
      modifies this`timers, this`pool, pool`next, pool`prev, timer.list`next, timer.list`prev
      ensures Valid() && Place(old(timers), timer.timeout, k) && timers == Insert(old(timers), k, timer)
      ensures pool == old(pool) + {timer.list}
    {
      hide Distinct, Linked, At, Insert;
      var pos;
      pos, k := FindPlace(timer.timeout);
      Link(pos, timer, k);
    }

    /** del_timer, of the timer at position `k` */
    method DelTimer(timer: Timer<T>, ghost k: nat)
      requires Valid() && k < |timers| && timers[k] == timer
      modifies this`timers, pool`next, pool`prev
      ensures Valid() && timers == Delete(old(timers), k)
    {
      hide Distinct, Linked, At, Insert, Delete;
      NodesOf(timers, k, timer);
      SortedDelete(timers, k);
      ThreadedInsert(timers, k, timer);
      ghost var now := Delete(timers, k);
      Neighbours(head, Nodes(timers), k);
      Neighbours(head, Nodes(timers), k + 1);
      AtIs(head, Nodes(timers), k);
      Unlink(timer.list, head, Nodes(timers), k);
      assert forall x :: x in now ==> x.timeout == old(x.timeout) && x.list.item == old(x.list.item);
      timers := now;
    }

    /** add_timer, of a timer that is on no list */
    method AddTimer(timer: Timer<T>, now: int, delaySec: int) returns (ghost k: nat)
      requires Valid() && timer !in timers && timer.list !in Nodes(timers) && timer.list != head && timer.list.item == Some(timer)
      modifies this`timers, this`pool, pool`next, pool`prev
      modifies timer.list`next, timer.list`prev, timer`timeout, timer`delaySec
      ensures Valid() && timer.timeout == now + delaySec && timer.delaySec == delaySec
      ensures old(Place(timers, now + delaySec, k)) && timers == Insert(old(timers), k, timer)
      ensures pool == old(pool) + {timer.list}
    {
      hide Distinct, Linked, At, Insert;
      timer.delaySec := delaySec;
      timer.timeout := now + delaySec;
      Init(timer.list);
      k := InsertTimer(timer);
    }

    /** del_timer and __insert_to_timer_list with a new timeout: the timer moves to where the timeout belongs. */
    method Requeue(timer: Timer<T>, timeout: int, ghost at: nat) returns (ghost k: nat)
      requires Valid() && at < |timers| && timers[at] == timer
      modifies this`timers, this`pool, pool`next, pool`prev, timer`timeout
      ensures Valid() && timer.timeout == timeout && Place(Delete(old(timers), at), timeout, k)
      ensures k < |old(timers)| && timers == Insert(Delete(old(timers), at), k, timer) && pool == old(pool)
    {
      hide Linked, At, Insert, Delete;
      NotAnother(timers, at);
      DelTimer(timer, at);
      timer.timeout := timeout;
      k := InsertTimer(timer);
    }

    /** Once deleted, a timer is not on the list any more. */
    lemma NotAnother(was: seq<Timer<T>>, at: nat)
      requires at < |was| && Ring(head, Nodes(was))
      ensures |Delete(was, at)| == |was| - 1
      ensures was[at] !in Delete(was, at) && was[at].list !in Nodes(Delete(was, at)) && was[at].list != head
      ensures forall n :: n in Nodes(Delete(was, at)) ==> n in Nodes(was)
      ensures was[at].list in Nodes(was)
    {
      DeleteAt(was, at);
      hide Delete;
      var nodes := Nodes(was);
      assert nodes[at] == was[at].list;
      var less := Delete(was, at);
      assert nodes[at] in nodes;
      forall i | 0 <= i < |less| ensures Nodes(less)[i] in nodes && Nodes(less)[i] != nodes[at] {
        assert Nodes(less)[i] == nodes[if i < at then i else i + 1];
      }
    }

    /** kick_timer */
    method KickTimer(timer: Timer<T>, now: int, ghost at: nat) returns (ghost k: nat)
      requires Valid() && at < |timers| && timers[at] == timer
      modifies this`timers, this`pool, pool`next, pool`prev, timer`timeout
      ensures Valid() && timer.timeout == now + timer.delaySec && Place(Delete(old(timers), at), timer.timeout, k)
      ensures k < |old(timers)| && timers == Insert(Delete(old(timers), at), k, timer) && pool == old(pool)
    {
      hide Linked, Distinct, At, Insert, Delete;
      k := Requeue(timer, now + timer.delaySec, at);
    }

    /** mod_timer */
    method ModTimer(timer: Timer<T>, now: int, delaySec: int, ghost at: nat) returns (ghost k: nat)
      requires Valid() && at < |timers| && timers[at] == timer
      modifies this`timers, this`pool, pool`next, pool`prev, timer`timeout, timer`delaySec
      ensures Valid() && timer.delaySec == delaySec && timer.timeout == now + delaySec
      ensures Place(Delete(old(timers), at), now + delaySec, k)
      ensures k < |old(timers)| && timers == Insert(Delete(old(timers), at), k, timer) && pool == old(pool)
    {
      hide Linked, Distinct, At, Insert, Delete;
      timer.delaySec := delaySec;
      k := Requeue(timer, now + delaySec, at);
    }

    /** Deletes the first timer, and gives the one that is first then. */
    method DelFirst(timer: Timer<T>, ghost was: seq<Timer<T>>, ghost n: nat)
      requires Valid() && n < |was| && timers == was[n..] && was[n] == timer
      modifies this`timers, pool`next, pool`prev
      ensures Valid() && timers == was[n + 1..] && head.next == old(timer.list.next)
    {
      hide Linked, At, Delete, Threaded, Sorted;
      FirstDeleted(was, n);
      FirstNode(timers);
      DelTimer(timer, 0);
      FirstNode(timers);
    }

    /**
     handle_timer_list, with handlers that leave the list alone: they are called for exactly the
     timers whose time has come, in the order of their timeouts, and the rest stays.
     */
    method HandleTimerList(now: int) returns (fired: seq<Timer<T>>)
      requires Valid()
      modifies this`timers, pool`next, pool`prev
      ensures Valid() && fired + timers == old(timers)
      ensures forall t :: t in fired ==> t.timeout <= now
      ensures forall t :: t in timers ==> now < t.timeout
    {
      hide Valid, Ring, Linked, At, Distinct, Threaded, Sorted, Nodes;
      ghost var was := timers;
      fired := [];
      FirstTimer();
      var pos := head.next;
      var next := pos.next;
      while pos != head
        invariant Valid() && |fired| <= |was| && fired == was[..|fired|] && timers == was[|fired|..]
        invariant pos == head.next && next == pos.next && (pos == head <==> timers == [])
        invariant forall i :: 0 <= i < |fired| ==> fired[i].timeout <= now
        decreases |timers|
      {
        FirstTimer();
        var tmp := pos.item.value;
        if now < tmp.timeout {
          break;
        }
        DelFirst(tmp, was, |fired|);
        fired := fired + [tmp];
        FirstTimer();
        pos := next;
        next := pos.next;
      }
      if timers != [] {
        FirstTimer();
        AllLater(timers, now);
      }
    }

    /** Where the list begins. */
    lemma FirstTimer()
      requires Valid()
      ensures timers == [] <==> head.next == head
      ensures timers != [] ==> head.next == timers[0].list && head.next.item == Some(timers[0]) && Sorted(timers)
    {
      hide Ring, Linked, At, Distinct, Threaded, Sorted, Nodes;
      FirstNode(timers);
    }

    lemma FirstNode(ts: seq<Timer<T>>)
      requires Ring(head, Nodes(ts)) && Threaded(ts)
      ensures ts == [] <==> head.next == head
      ensures ts != [] ==> head.next == ts[0].list && head.next.item == Some(ts[0])
      ensures |ts| > 1 ==> ts[0].list.next == ts[1].list
      ensures |ts| == 1 ==> ts[0].list.next == head
    {
      StartOf(head, Nodes(ts));
      if ts != [] {
        NextNode(head, Nodes(ts), 0);
      }
    }

    lemma AllLater(ts: seq<Timer<T>>, now: int)
      requires Sorted(ts) && ts != [] && now < ts[0].timeout
      ensures forall t :: t in ts ==> now < t.timeout
    {
    }

    lemma FirstDeleted(was: seq<Timer<T>>, n: nat)
      requires n < |was|
      ensures Delete(was[n..], 0) == was[n + 1..] && was[..n + 1] == was[..n] + [was[n]] && was[n..][0] == was[n]
      ensures forall x :: x in Nodes(was[n + 1..]) ==> x in Nodes(was[n..])
    {
      var a, b := was[n..], was[n + 1..];
      forall i | 0 <= i < |b| ensures Nodes(b)[i] in Nodes(a) {
        assert Nodes(b)[i] == Nodes(a)[i + 1];
      }
    }
  }
}
