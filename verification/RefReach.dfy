/**
 What reference counting frees, on every graph of values: exactly those that no path of slots leads to
 any more, neither from the references that callers own nor from a cycle. Cycles are what it leaks.
 */
module RefReach {
  import opened Refcounts

  /** A path that starts on a cycle: its first value comes again. */
  ghost predicate FromCycle(h: seq<Cell>, p: seq<Ref>, r: Ref) {
    Path(h, p) && p[0] in p[1..] && p[|p| - 1] == r
  }

  ghost predicate Acyclic(h: seq<Cell>) {
    forall p, r :: !FromCycle(h, p, r)
  }

  /** No deletion is going on. */
  ghost predicate Settled(h: seq<Cell>) {
    forall r :: 0 <= r < |h| && h[r].Cell? ==> Live(h[r])
  }

  ghost predicate Mortal(h: seq<Cell>, r: Ref) {
    Known(h, r) && h[r].count != IMMORTAL
  }

  // ---- Finding the owner ----

  ghost predicate NoneTwice(p: seq<Ref>) {
    forall i, j :: 0 <= i < j < |p| ==> p[i] != p[j]
  }

  /** Different cells of a memory are no more than its cells. */
  lemma {:induction false} PathsAreShort(p: seq<Ref>, n: nat)
    requires NoneTwice(p) && forall i :: 0 <= i < |p| ==> p[i] < n
    ensures |p| <= n
  {
    if p != [] {
      assert p[0] < n;
      var m := n - 1;
      if m in p {
        var i :| 0 <= i < |p| && p[i] == m;
        PathsAreShort(p[..i] + p[i + 1..], m);
      } else {
        PathsAreShort(p, m);
      }
    }
  }

  /** Going up from holder to holder ends at an owned value or comes round. */
  lemma {:induction false} Climb(h: seq<Cell>, owned: multiset<Ref>, p: seq<Ref>, r: Ref) returns (q: seq<Ref>)
    requires Balanced(h, owned) && Path(h, p) && NoneTwice(p) && p[|p| - 1] == r && Mortal(h, p[0])
    ensures Leads(h, owned, q, r) || FromCycle(h, q, r)
    decreases |h| - |p|
  {
    hide Balanced, NoneTwice, Path;
    PathIsShort(h, p);
    if p[0] in owned {
      return p;
    }
    var a := HeldSomewhere(h, owned, p[0]);
    q := [a] + p;
    Lengthen(h, a, p);
    if a !in p {
      PathIsShort(h, q);
      q := Climb(h, owned, q, r);
    }
  }

  lemma PathIsShort(h: seq<Cell>, p: seq<Ref>)
    requires Path(h, p) && NoneTwice(p)
    ensures 0 < |p| <= |h|
  {
    PathsAreShort(p, |h|);
  }

  /** A path goes on at its front to a holder of its first value. */
  lemma Lengthen(h: seq<Cell>, a: Ref, p: seq<Ref>)
    requires Path(h, p) && Known(h, a) && p[0] in Children(h[a].node)
    ensures Path(h, [a] + p) && ([a] + p)[0] == a && ([a] + p)[1..] == p
    ensures NoneTwice(p) && a !in p ==> NoneTwice([a] + p)
  {
    var q := [a] + p;
    assert forall i :: 0 < i < |q| ==> q[i] == p[i - 1];
  }

  lemma HeldSomewhere(h: seq<Cell>, owned: multiset<Ref>, r: Ref) returns (p: Ref)
    requires Balanced(h, owned) && Mortal(h, r) && r !in owned
    ensures Mortal(h, p) && r in Children(h[p].node)
  {
    hide Slots;
    p := HolderOf(h, r);
  }

  /** A value that is kept can be reached by its owners, or hangs from a cycle. */
  lemma KeptForAReason(h: seq<Cell>, owned: multiset<Ref>, r: Ref)
    requires Balanced(h, owned) && Mortal(h, r)
    ensures Reachable(h, owned, r) || HangsFromCycle(h, r)
  {
    var p := Climb(h, owned, [r], r);
  }

  ghost predicate HangsFromCycle(h: seq<Cell>, r: Ref) {
    exists p :: FromCycle(h, p, r)
  }

  /** The values in memory are the ones that callers can get to and the ones that hang from cycles. */
  lemma KeptIffReachable(h: seq<Cell>, owned: multiset<Ref>, r: Ref)
    requires Balanced(h, owned) && Settled(h)
    requires r < |h| && (h[r].Cell? ==> h[r].count != IMMORTAL)
    ensures h[r].Cell? <==> Reachable(h, owned, r) || HangsFromCycle(h, r)
  {
    if h[r].Cell? {
      KeptForAReason(h, owned, r);
    }
  }

  // ---- Letting go ----

  lemma SettledStays(h: seq<Cell>, k: seq<Cell>)
    requires Settled(h) && Shrinks(h, k)
    ensures Settled(k)
  {
  }

  lemma PathWasThere(h: seq<Cell>, k: seq<Cell>, p: seq<Ref>)
    requires Shrinks(h, k) && Path(k, p)
    ensures Path(h, p)
  {
  }

  /** Letting references go makes no cycle. */
  lemma AcyclicStays(h: seq<Cell>, k: seq<Cell>)
    requires Shrinks(h, k) && Acyclic(h)
    ensures Acyclic(k)
  {
    forall p, r ensures !FromCycle(k, p, r) {
      if FromCycle(k, p, r) {
        PathWasThere(h, k, p);
        assert FromCycle(h, p, r);
      }
    }
  }

  /** What can still be reached, by the paths there were before, is kept, cycles or not. */
  lemma ReachableIsKept(h: seq<Cell>, k: seq<Cell>, owned: multiset<Ref>, r: Ref)
    requires Shrinks(h, k) && Balanced(k, owned) && Reachable(h, owned, r)
    ensures Known(k, r) && k[r].node == h[r].node && Reachable(k, owned, r)
  {
    var p :| Leads(h, owned, p, r);
    PathStays(h, k, owned, p);
    assert Leads(k, owned, p, r);
  }

  /** The values of a path from a cycle are together. */
  lemma CycleTogether(h: seq<Cell>, p: seq<Ref>, r: Ref)
    requires FromCycle(h, p, r)
    ensures Together(h, set x | x in p)
  {
    var xs := set x | x in p;
    var j :| 1 <= j < |p| && p[j] == p[0];
    forall x | x in xs ensures Known(h, x) && HeldWithin(h, xs, x) {
      var i :| 0 <= i < |p| && p[i] == x;
      var y := if i == 0 then p[j - 1] else p[i - 1];
      assert y in xs && Known(h, y) && x in Children(h[y].node);
    }
  }

  /** What hangs from a cycle is kept for ever. */
  lemma CycleIsKept(h: seq<Cell>, k: seq<Cell>, r: Ref)
    requires Releases(h, k) && HangsFromCycle(h, r)
    ensures Known(k, r) && HangsFromCycle(k, r)
  {
    hide Shrinks, Together;
    var p :| FromCycle(h, p, r);
    CycleTogether(h, p, r);
    KeptPath(h, k, p);
    assert FromCycle(k, p, r);
  }

  lemma KeptPath(h: seq<Cell>, k: seq<Cell>, p: seq<Ref>)
    requires Shrinks(h, k) && Path(h, p) && Together(k, set x | x in p)
    ensures Path(k, p)
  {
    var xs := set x | x in p;
    forall i | 0 <= i < |p| ensures Known(k, p[i]) {
      assert p[i] in xs;
    }
  }

  /**
   What letting go frees, on every graph: the values that the references left over do not lead to,
   by the slots there were, and that do not hang from a cycle of these slots.
   */
  lemma FreesExactly(h: seq<Cell>, k: seq<Cell>, owned: multiset<Ref>, r: Ref)
    requires Settled(h) && Releases(h, k) && Balanced(k, owned) && Mortal(h, r)
    ensures k[r] == Free <==> !Reachable(h, owned, r) && !HangsFromCycle(h, r)
  {
    SettledStays(h, k);
    if Reachable(h, owned, r) {
      ReachableIsKept(h, k, owned, r);
    } else if HangsFromCycle(h, r) {
      CycleIsKept(h, k, r);
    } else if k[r].Cell? {
      assert Live(k[r]);
      KeptIffReachable(k, owned, r);
      if p :| Leads(k, owned, p, r) {
        PathWasThere(h, k, p);
        assert Leads(h, owned, p, r);
      } else {
        var p :| FromCycle(k, p, r);
        PathWasThere(h, k, p);
        assert FromCycle(h, p, r);
      }
      assert false;
    }
  }

  /** Without cycles, letting go frees exactly what can be reached no more. */
  lemma FreesTheUnreachable(h: seq<Cell>, k: seq<Cell>, owned: multiset<Ref>, r: Ref)
    requires Settled(h) && Acyclic(h) && Releases(h, k) && Balanced(k, owned) && Mortal(h, r)
    ensures k[r] == Free <==> !Reachable(h, owned, r)
  {
    FreesExactly(h, k, owned, r);
  }

  /** json_decref as its callers see it. */
  method LetGo(m: Memory, r: Ref)
    requires m.Valid() && Settled(m.cells) && r in m.owned
    modifies m
    ensures m.Valid() && Settled(m.cells) && m.owned == old(m.owned) - multiset{r}
    ensures forall x: Ref :: Mortal(old(m.cells), x) ==>
      x < |m.cells| &&
      (m.cells[x] == Free <==> !Reachable(old(m.cells), m.owned, x) && !HangsFromCycle(old(m.cells), x))
  {
    hide Balanced, Reachable, HangsFromCycle, KeepsTogether;
    ghost var was := m.cells;
    m.Decref(r);
    SettledStays(was, m.cells);
    forall x: Ref | Mortal(was, x)
      ensures x < |m.cells| && (m.cells[x] == Free <==> !Reachable(was, m.owned, x) && !HangsFromCycle(was, x))
    {
      FreesExactly(was, m.cells, m.owned, x);
    }
  }

  // ---- A cycle that leaks ----

  /** The cells of a memory are still there, behind them is what is new. */
  ghost predicate Extends(h: seq<Cell>, k: seq<Cell>) {
    |h| <= |k| && forall x :: 0 <= x < |h| ==> k[x] == h[x]
  }

  /** Paths from the owners of a memory do not get to what is new. */
  lemma {:induction false} NeverNew(h: seq<Cell>, g: seq<Cell>, k: seq<Cell>, owned: multiset<Ref>, p: seq<Ref>, i: nat)
    requires Balanced(h, owned) && Extends(h, g) && Shrinks(g, k) && Path(k, p) && p[0] in owned && i < |p|
    ensures p[i] < |h|
  {
    hide Slots, Balanced;
    if i == 0 {
      OwnedIsKnown(h, owned, p[0]);
    } else {
      NeverNew(h, g, k, owned, p, i - 1);
      assert Known(k, p[i - 1]);
      HeldAreKnown(h, owned, p[i - 1]);
    }
  }

  lemma Unreached(h: seq<Cell>, g: seq<Cell>, k: seq<Cell>, owned: multiset<Ref>, r: Ref)
    requires Balanced(h, owned) && Extends(h, g) && Shrinks(g, k) && r >= |h|
    ensures !Reachable(k, owned, r)
  {
    hide Balanced, Extends, Shrinks;
    if Reachable(k, owned, r) {
      var p :| Leads(k, owned, p, r);
      NeverNew(h, g, k, owned, p, |p| - 1);
    }
  }

  lemma TwoTogether(h: seq<Cell>, a: Ref, b: Ref)
    requires Known(h, a) && Known(h, b) && h[a].node == Elements([b]) && h[b].node == Elements([a])
    ensures Together(h, {a, b})
  {
    assert a in Children(h[b].node) && b in Children(h[a].node);
    assert HeldWithin(h, {a, b}, a) && HeldWithin(h, {a, b}, b);
  }

  /** Two new arrays are put into each other. */
  method TwoArrays(m: Memory) returns (a: Ref, b: Ref)
    requires m.Valid()
    modifies m
    ensures m.Valid() && m.owned == old(m.owned) + multiset{a} + multiset{b} && Extends(old(m.cells), m.cells)
    ensures a >= |old(m.cells)| && b >= |old(m.cells)| && Together(m.cells, {a, b})
  {
    hide Balanced, Slots, Together;
    a := m.New(Elements([]));
    b := m.New(Elements([]));
    m.Incref(b);
    var ok := m.ArrayAppendNew(a, b);
    m.Incref(a);
    ok := m.ArrayAppendNew(b, a);
    TwoTogether(m.cells, a, b);
  }

  /** When they are let go of, they stay, and nobody can get to them any more. */
  method LeakTwoArrays(m: Memory) returns (a: Ref, b: Ref)
    requires m.Valid()
    modifies m
    ensures m.Valid() && m.owned == old(m.owned)
    ensures Known(m.cells, a) && !Reachable(m.cells, m.owned, a)
    ensures Known(m.cells, b) && !Reachable(m.cells, m.owned, b)
  {
    hide Balanced, Slots, Shrinks, Extends, Reachable;
    ghost var was, mine := m.cells, m.owned;
    a, b := TwoArrays(m);
    ghost var full := m.cells;
    m.Decref(a);
    ghost var half := m.cells;
    m.Decref(b);
    ReleasesMore(full, half, m.cells);
    assert m.owned == mine;
    Unreached(was, full, m.cells, mine, a);
    Unreached(was, full, m.cells, mine, b);
    assert Together(m.cells, {a, b});
  }
}
