/**
 Reference counts of JSON values, jansson/value.c: memory is a sequence of cells, and a count is the
 number of container slots that hold the value plus the references that callers own.
 */
module Refcounts {
  import opened Bytes
  import opened Assoc
  import Utf8

  type Ref = nat

  datatype Node = Plain | Elements(items: seq<Ref>) | Fields(fields: seq<Pair<Ref>>)

  /** A value with its count. The count of true, false and null is (size_t)-1 for ever. */
  datatype Cell = Free | Cell(count: int, node: Node)

  const IMMORTAL := -1

  function Values(fields: seq<Pair<Ref>>): (s: seq<Ref>)
    ensures |s| == |fields| && forall i :: 0 <= i < |s| ==> s[i] == fields[i].value
  {
    seq(|fields|, i requires 0 <= i < |fields| => fields[i].value)
  }

  function Children(n: Node): seq<Ref> {
    match n
    case Plain => []
    case Elements(items) => items
    case Fields(fields) => Values(fields)
  }

  // ---- Counting slots ----

  predicate Live(c: Cell) {
    c.Cell? && c.count != 0
  }

  /** The references that a cell holds. One whose count is zero is being deleted, and its slots are given up. */
  function HeldBy(c: Cell): multiset<Ref> {
    if Live(c) then multiset(Children(c.node)) else multiset{}
  }

  /** All slots of all containers. */
  function Slots(h: seq<Cell>): multiset<Ref> {
    if h == [] then multiset{} else Slots(h[..|h| - 1]) + HeldBy(h[|h| - 1])
  }

  lemma {:induction false} SlotsUpdate(h: seq<Cell>, i: nat, c: Cell, x: Ref)
    requires i < |h|
    ensures Slots(h[i := c])[x] + HeldBy(h[i])[x] == Slots(h)[x] + HeldBy(c)[x]
  {
    hide HeldBy;
    var n := |h| - 1;
    if i == n {
      assert h[i := c][..n] == h[..n];
    } else {
      assert h[i := c][..n] == h[..n][i := c];
      SlotsUpdate(h[..n], i, c, x);
    }
  }

  lemma {:induction false} SlotsAppend(h: seq<Cell>, c: Cell)
    ensures Slots(h + [c]) == Slots(h) + HeldBy(c)
  {
    assert (h + [c])[..|h|] == h;
  }

  /** Who holds a value that is held. */
  lemma {:induction false} HolderOf(h: seq<Cell>, r: Ref) returns (p: Ref)
    requires r in Slots(h)
    ensures p < |h| && Live(h[p]) && r in Children(h[p].node)
  {
    var n := |h| - 1;
    if r in HeldBy(h[n]) {
      p := n;
    } else {
      p := HolderOf(h[..n], r);
    }
  }

  lemma {:induction false} ChildrenAreHeld(h: seq<Cell>, p: Ref, r: Ref)
    requires p < |h| && Live(h[p]) && r in Children(h[p].node)
    ensures r in Slots(h)
  {
    var n := |h| - 1;
    if p < n {
      ChildrenAreHeld(h[..n], p, r);
    }
  }

  /** The number of live cells. */
  function LiveCount(h: seq<Cell>): nat {
    if h == [] then 0 else LiveCount(h[..|h| - 1]) + if Live(h[|h| - 1]) then 1 else 0
  }

  lemma {:induction false} LiveUpdate(h: seq<Cell>, i: nat, c: Cell)
    requires i < |h|
    ensures LiveCount(h[i := c]) + (if Live(h[i]) then 1 else 0) == LiveCount(h) + (if Live(c) then 1 else 0)
  {
    var n := |h| - 1;
    if i == n {
      assert h[i := c][..n] == h[..n];
    } else {
      assert h[i := c][..n] == h[..n][i := c];
      LiveUpdate(h[..n], i, c);
    }
  }

  // ---- The law ----

  ghost predicate Known(h: seq<Cell>, r: Ref) {
    r < |h| && Live(h[r])
  }

  /** No reference dangles, and every count is the number of slots and owners of the value. */
  ghost predicate Balanced(h: seq<Cell>, owned: multiset<Ref>) {
    && (forall r :: r in Slots(h) || r in owned ==> Known(h, r))
    && (forall r :: 0 <= r < |h| && h[r].Cell? && h[r].count != IMMORTAL ==> h[r].count == Slots(h)[r] + owned[r])
    && (forall r :: 0 <= r < |h| && h[r].Cell? && h[r].count == IMMORTAL ==> h[r].node == Plain)
  }

  /** The number of references to a value. */
  ghost function References(h: seq<Cell>, owned: multiset<Ref>, r: Ref): nat {
    Slots(h)[r] + owned[r]
  }

  /** Changing one cell and the owned references keeps the law if it keeps the references to every other value. */
  lemma Recount(h: seq<Cell>, owned: multiset<Ref>, r: Ref, c: Cell, owned': multiset<Ref>)
    requires Balanced(h, owned) && Known(h, r) && c.Cell?
    requires forall x :: x != r ==> References(h[r := c], owned', x) == References(h, owned, x)
    requires c.count == IMMORTAL ==> c.node == Plain
    requires c.count != IMMORTAL ==> c.count == References(h[r := c], owned', r)
    ensures Balanced(h[r := c], owned')
  {
    hide Slots;
    var k := h[r := c];
    forall x | x in Slots(k) || x in owned' ensures Known(k, x) {
      assert References(k, owned', x) > 0;
      if x != r {
        assert References(h, owned, x) > 0;
        assert x in Slots(h) || x in owned;
      }
    }
    forall x | 0 <= x < |k| && k[x].Cell? && k[x].count != IMMORTAL ensures k[x].count == Slots(k)[x] + owned'[x] {
      if x != r {
        assert References(k, owned', x) == References(h, owned, x);
      }
    }
  }

  /** A cell with another count and the same slots. */
  lemma SameSlots(h: seq<Cell>, r: Ref, count: int)
    requires Known(h, r) && count != 0
    ensures forall x :: Slots(h[r := h[r].(count := count)])[x] == Slots(h)[x]
  {
    hide Slots;
    forall x {
      SlotsUpdate(h, r, h[r].(count := count), x);
    }
  }

  /** json_incref */
  function Raised(c: Cell): Cell
    requires c.Cell?
  {
    if c.count == IMMORTAL then c else c.(count := c.count + 1)
  }

  lemma RaiseKeeps(h: seq<Cell>, owned: multiset<Ref>, r: Ref)
    requires Balanced(h, owned) && Known(h, r)
    ensures Balanced(h[r := Raised(h[r])], owned + multiset{r})
  {
    hide Slots, Balanced;
    CountIs(h, owned, r);
    SameSlots(h, r, Raised(h[r]).count);
    Recount(h, owned, r, Raised(h[r]), owned + multiset{r});
  }

  lemma CountIs(h: seq<Cell>, owned: multiset<Ref>, r: Ref)
    requires Balanced(h, owned) && Known(h, r)
    ensures h[r].count != IMMORTAL ==> h[r].count == References(h, owned, r) > 0
    ensures h[r].count == IMMORTAL ==> h[r].node == Plain
  {
  }

  /** The count of json_decref goes down, and it is not the last reference. */
  lemma LowerKeeps(h: seq<Cell>, owned: multiset<Ref>, r: Ref)
    requires Balanced(h, owned) && Known(h, r) && r in owned && h[r].count != IMMORTAL && h[r].count != 1
    ensures Balanced(h[r := h[r].(count := h[r].count - 1)], owned - multiset{r})
  {
    hide Slots, Balanced;
    CountIs(h, owned, r);
    SameSlots(h, r, h[r].count - 1);
    Recount(h, owned, r, h[r].(count := h[r].count - 1), owned - multiset{r});
  }

  /** The last reference goes: the slots of the value become references of the deletion. */
  lemma LastKeeps(h: seq<Cell>, owned: multiset<Ref>, r: Ref)
    requires Balanced(h, owned) && Known(h, r) && r in owned && h[r].count == 1
    ensures r !in Children(h[r].node) && r !in Slots(h)
    ensures Balanced(h[r := h[r].(count := 0)], owned - multiset{r} + multiset(Children(h[r].node)))
    ensures LiveCount(h[r := h[r].(count := 0)]) < LiveCount(h)
  {
    hide Slots, Balanced, LiveCount;
    CountIs(h, owned, r);
    if r in Children(h[r].node) {
      ChildrenAreHeld(h, r, r);
    }
    var c := h[r].(count := 0);
    forall x ensures Slots(h[r := c])[x] + HeldBy(h[r])[x] == Slots(h)[x] {
      SlotsUpdate(h, r, c, x);
    }
    LiveUpdate(h, r, c);
    Recount(h, owned, r, c, owned - multiset{r} + multiset(Children(h[r].node)));
  }

  // ---- Paths ----

  /** A chain of references, each value held by the one before. */
  ghost predicate Path(h: seq<Cell>, p: seq<Ref>) {
    && p != []
    && (forall i :: 0 <= i < |p| ==> Known(h, p[i]))
    && (forall i :: 0 < i < |p| ==> p[i] in Children(h[p[i - 1]].node))
  }

  ghost predicate Leads(h: seq<Cell>, owned: multiset<Ref>, p: seq<Ref>, r: Ref) {
    Path(h, p) && p[0] in owned && p[|p| - 1] == r
  }

  /** Whether a caller can get to a value. */
  ghost predicate Reachable(h: seq<Cell>, owned: multiset<Ref>, r: Ref) {
    exists p :: Leads(h, owned, p, r)
  }

  /** The memory of jansson. */
  class Memory {
    var cells: seq<Cell>
    /** The references that callers own. */
    ghost var owned: multiset<Ref>

    ghost predicate Valid()
      reads this
    {
      Balanced(cells, owned)
    }

    constructor ()
      ensures Valid() && cells == [] && owned == multiset{}
    {
      cells, owned := [], multiset{};
    }

    /** json_incref */
    method Incref(r: Ref)
      requires Valid() && Known(cells, r)
      modifies this
      ensures Valid() && owned == old(owned) + multiset{r} && cells == old(cells)[r := Raised(old(cells)[r])]
    {
      hide Balanced;
      RaiseKeeps(cells, owned, r);
      owned := owned + multiset{r};
      assert cells[r := cells[r]] == cells;
      if cells[r].count != IMMORTAL {
        cells := cells[r := cells[r].(count := cells[r].count + 1)];
      }
    }

    /** The increfs of json_array_extend. */
    method IncrefAll(items: seq<Ref>)
      requires Valid() && forall i :: 0 <= i < |items| ==> Known(cells, items[i])
      modifies this
      ensures Valid() && owned == old(owned) + multiset(items) && SameNodes(old(cells), cells)
    {
      hide Balanced, Slots;
      ghost var was, rest := cells, owned;
      for i := 0 to |items|
        invariant Valid() && owned == rest + multiset(items[..i]) && SameNodes(was, cells)
        invariant forall k :: 0 <= k < |items| ==> Known(cells, items[k])
      {
        assert items[..i + 1] == items[..i] + [items[i]];
        CountIs(cells, owned, items[i]);
        Incref(items[i]);
      }
      assert items[..|items|] == items;
    }

    // ---- Letting go ----

    /**
     json_decref: the caller's reference goes. If it was the last, the value is deleted, and what it
     held is let go of in turn; the deletion ends, for every turn of it takes a live cell away.
     */
    method Decref(r: Ref)
      requires Valid() && r in owned
      modifies this
      ensures Valid() && owned == old(owned) - multiset{r} && Releases(old(cells), cells)
      decreases LiveCount(cells), 0
    {
      hide Balanced, Slots, LiveCount, Releases;
      ghost var was := cells;
      OwnedIsKnown(cells, owned, r);
      if cells[r].count != IMMORTAL {
        if cells[r].count == 1 {
          LastKeeps(cells, owned, r);
          ghost var before := owned - multiset{r};
          var node := cells[r].node;
          owned := before + multiset(Children(node));
          cells := cells[r := cells[r].(count := 0)];
          Delete(r, before);
          LastReleases(was, r, cells);
        } else {
          LowerKeeps(cells, owned, r);
          LowerReleases(cells, r);
          cells := cells[r := cells[r].(count := cells[r].count - 1)];
          owned := owned - multiset{r};
        }
      } else {
        DisownKeeps(cells, owned, r);
        ReleasesNone(cells);
        owned := owned - multiset{r};
      }
    }

    /** The decrefs of a loop over slots; `rest` is what the caller owns besides them. */
    method DecrefAll(kids: seq<Ref>, ghost rest: multiset<Ref>)
      requires Valid() && owned == rest + multiset(kids)
      modifies this
      ensures Valid() && owned == rest && Releases(old(cells), cells)
      decreases LiveCount(cells), 1
    {
      hide Balanced, Slots, LiveCount, Releases;
      ghost var was := cells;
      ReleasesNone(cells);
      assert kids[0..] == kids;
      for i := 0 to |kids|
        invariant Valid() && owned == rest + multiset(kids[i..])
        invariant Releases(was, cells) && LiveCount(cells) <= LiveCount(was)
      {
        assert kids[i..] == [kids[i]] + kids[i + 1..];
        ghost var before := cells;
        Decref(kids[i]);
        assert owned == rest + multiset(kids[i + 1..]);
        ReleasesMore(was, before, cells);
        ReleasesFewer(before, cells);
      }
      assert kids[|kids|..] == [];
    }

    /** json_delete of a value whose count is zero; `rest` is what the caller owns besides its slots. */
    method Delete(r: Ref, ghost rest: multiset<Ref>)
      requires Valid() && r < |cells| && cells[r].Cell? && cells[r].count == 0
      requires owned == rest + multiset(Children(cells[r].node))
      modifies this
      ensures Valid() && owned == rest && r < |old(cells)| && |cells| == |old(cells)|
      ensures cells[r] == Free && Releases(old(cells), cells[r := old(cells)[r]])
      decreases LiveCount(cells), 2
    {
      hide Balanced, Slots, LiveCount, Releases;
      ghost var was := cells;
      DecrefAll(Children(cells[r].node), rest);
      ReleasesKeepsDying(was, cells, r);
      FreeKeeps(cells, owned, r);
      assert cells[r := Free][r := was[r]] == cells;
      cells := cells[r := Free];
    }

    /** A container gets other slots, and the value that leaves them is let go of; `rest` is what the caller keeps. */
    method Exchange(a: Ref, node: Node, leaving: Ref, ghost rest: multiset<Ref>)
      requires Valid() && Known(cells, a) && Reachable(cells, owned, a) && cells[a].node != Plain
      requires multiset(Children(cells[a].node)) + owned == multiset(Children(node)) + (rest + multiset{leaving})
      requires forall x :: x in owned ==> x in rest || x in Children(node)
      modifies this
      ensures Valid() && owned == rest && Releases(With(old(cells), a, node), cells) && Known(cells, a)
    {
      hide Balanced, Slots, LiveCount, Releases, Reachable, Children;
      ghost var was, mine := cells, owned;
      Rewired(cells, owned, a, node, rest + multiset{leaving});
      cells, owned := With(cells, a, node), rest + multiset{leaving};
      Decref(leaving);
      ContainerStays(was, mine, a, node, cells, owned);
    }

    // ---- New values ----

    /** json_array, json_object and the constructors of scalars: a value that its caller owns. */
    method New(node: Node) returns (r: Ref)
      requires Valid() && Children(node) == []
      modifies this
      ensures Valid() && owned == old(owned) + multiset{r} && cells == old(cells) + [Cell(1, node)] && r == |old(cells)|
    {
      hide Balanced, Slots;
      NewKeeps(cells, owned, node);
      r := |cells|;
      cells, owned := cells + [Cell(1, node)], owned + multiset{r};
    }

    /** json_true, json_false and json_null: a value whose count never changes. */
    method NewImmortal() returns (r: Ref)
      requires Valid()
      modifies this
      ensures Valid() && owned == old(owned) + multiset{r} && cells == old(cells) + [Cell(IMMORTAL, Plain)]
      ensures r == |old(cells)|
    {
      hide Balanced, Slots;
      NewKeeps(cells, owned, Plain);
      r := |cells|;
      cells, owned := cells + [Cell(IMMORTAL, Plain)], owned + multiset{r};
    }

    // ---- Arrays ----

    /** json_array_append_new: the reference to the value is used up, whether it works or not. */
    method ArrayAppendNew(a: Ref, v: Ref) returns (ok: bool)
      requires Valid() && Known(cells, a) && v in owned
      modifies this
      ensures Valid() && owned == old(owned) - multiset{v}
      ensures ok <==> old(cells)[a].node.Elements? && a != v
      ensures ok ==> cells == With(old(cells), a, Elements(old(cells)[a].node.items + [v]))
      ensures !ok ==> Releases(old(cells), cells)
    {
      hide Balanced, Slots, LiveCount, Releases;
      if !cells[a].node.Elements? || a == v {
        Decref(v);
        return false;
      }
      var items := cells[a].node.items;
      Rewired(cells, owned, a, Elements(items + [v]), owned - multiset{v});
      cells, owned := With(cells, a, Elements(items + [v])), owned - multiset{v};
      ok := true;
    }

    /** json_array_insert_new */
    method ArrayInsertNew(a: Ref, i: nat, v: Ref) returns (ok: bool)
      requires Valid() && Known(cells, a) && v in owned
      modifies this
      ensures Valid() && owned == old(owned) - multiset{v}
      ensures ok <==> old(cells)[a].node.Elements? && a != v && i <= |old(cells)[a].node.items|
      ensures ok ==> cells == With(old(cells), a,
        Elements(old(cells)[a].node.items[..i] + [v] + old(cells)[a].node.items[i..]))
      ensures !ok ==> Releases(old(cells), cells)
    {
      hide Balanced, Slots, LiveCount, Releases;
      if !cells[a].node.Elements? || a == v || i > |cells[a].node.items| {
        Decref(v);
        return false;
      }
      var items := cells[a].node.items;
      assert items == items[..i] + items[i..];
      Rewired(cells, owned, a, Elements(items[..i] + [v] + items[i..]), owned - multiset{v});
      cells, owned := With(cells, a, Elements(items[..i] + [v] + items[i..])), owned - multiset{v};
      ok := true;
    }

    /** json_array_set_new: the value that was there is let go of. */
    method ArraySetNew(a: Ref, i: nat, v: Ref) returns (ok: bool)
      requires Valid() && Known(cells, a) && Reachable(cells, owned, a) && v in owned
      modifies this
      ensures Valid() && owned == old(owned) - multiset{v}
      ensures ok <==> old(cells)[a].node.Elements? && a != v && i < |old(cells)[a].node.items|
      ensures ok ==> Releases(With(old(cells), a, Elements(old(cells)[a].node.items[i := v])), cells)
      ensures !ok ==> Releases(old(cells), cells)
      ensures ok ==> Known(cells, a)
    {
      hide Balanced, Slots, LiveCount, Releases, Reachable;
      if !cells[a].node.Elements? || a == v || i >= |cells[a].node.items| {
        Decref(v);
        return false;
      }
      var items := cells[a].node.items;
      SlotReplaced(items, i, v);
      SlotHas(items, i, v);
      HandedOver(owned, v, items[i := v]);
      Exchange(a, Elements(items[i := v]), items[i], owned - multiset{v});
      ok := true;
    }

    /** json_array_remove */
    method ArrayRemove(a: Ref, i: nat) returns (ok: bool)
      requires Valid() && Known(cells, a) && Reachable(cells, owned, a)
      modifies this
      ensures Valid() && owned == old(owned)
      ensures ok <==> old(cells)[a].node.Elements? && i < |old(cells)[a].node.items|
      ensures ok ==> Releases(With(old(cells), a,
        Elements(old(cells)[a].node.items[..i] + old(cells)[a].node.items[i + 1..])), cells)
      ensures !ok ==> cells == old(cells)
      ensures ok ==> Known(cells, a)
    {
      hide Balanced, Slots, LiveCount, Releases, Reachable;
      if !cells[a].node.Elements? || i >= |cells[a].node.items| {
        return false;
      }
      var items := cells[a].node.items;
      assert items == items[..i] + [items[i]] + items[i + 1..];
      Exchange(a, Elements(items[..i] + items[i + 1..]), items[i], owned);
      ok := true;
    }

    /** json_array_clear */
    method ArrayClear(a: Ref) returns (ok: bool)
      requires Valid() && Known(cells, a) && Reachable(cells, owned, a)
      modifies this
      ensures Valid() && owned == old(owned)
      ensures ok <==> old(cells)[a].node.Elements?
      ensures ok ==> Releases(With(old(cells), a, Elements([])), cells)
      ensures !ok ==> cells == old(cells)
      ensures ok ==> Known(cells, a)
    {
      hide Balanced, Slots, LiveCount, Releases, Reachable;
      ghost var was, mine := cells, owned;
      if !cells[a].node.Elements? {
        return false;
      }
      var items := cells[a].node.items;
      ghost var rest := owned;
      Rewired(cells, owned, a, Elements([]), owned + multiset(items));
      cells, owned := With(cells, a, Elements([])), owned + multiset(items);
      DecrefAll(items, rest);
      ContainerStays(was, mine, a, Elements([]), cells, owned);
      ok := true;
    }

    /** json_array_extend: every value of the other array, which may be the same, gets one more holder. */
    method ArrayExtend(a: Ref, b: Ref) returns (ok: bool)
      requires Valid() && Known(cells, a) && Known(cells, b)
      modifies this
      ensures Valid() && owned == old(owned)
      ensures ok <==> old(cells)[a].node.Elements? && old(cells)[b].node.Elements?
      ensures ok ==> SameNodes(With(old(cells), a,
        Elements(old(cells)[a].node.items + old(cells)[b].node.items)), cells)
      ensures !ok ==> cells == old(cells)
    {
      hide Balanced, Slots, LiveCount;
      if !cells[a].node.Elements? || !cells[b].node.Elements? {
        return false;
      }
      ghost var rest := owned;
      var items := cells[b].node.items;
      var extended := cells[a].node.items + items;
      HeldAreKnown(cells, owned, b);
      IncrefAll(items);
      Rewired(cells, owned, a, Elements(extended), rest);
      cells, owned := With(cells, a, Elements(extended)), rest;
      ok := true;
    }

    // ---- Objects ----

    /** json_object_set_new: the key must be valid UTF-8. */
    method ObjectSetNew(o: Ref, key: Text, v: Ref) returns (ok: bool)
      requires Valid() && Known(cells, o) && Reachable(cells, owned, o) && v in owned
      modifies this
      ensures Valid() && owned == old(owned) - multiset{v}
      ensures ok <==> Utf8.Valid(key) && old(cells)[o].node.Fields? && o != v
      ensures ok ==> Releases(With(old(cells), o, Fields(Put(old(cells)[o].node.fields, key, v))), cells)
      ensures !ok ==> Releases(old(cells), cells)
      ensures ok ==> Known(cells, o)
    {
      hide Balanced, Slots, LiveCount, Releases, Reachable, Put, Find, Values;
      if !Utf8.Valid(key) || !cells[o].node.Fields? || o == v {
        Decref(v);
        return false;
      }
      var fields := cells[o].node.fields;
      var at := Find(fields, key);
      ghost var rest := owned - multiset{v};
      if at < |fields| {
        PutReplaces(fields, key, v, owned);
        Exchange(o, Fields(Put(fields, key, v)), fields[at].value, rest);
      } else {
        PutAppends(fields, key, v, owned);
        Rewired(cells, owned, o, Fields(Put(fields, key, v)), rest);
        cells, owned := With(cells, o, Fields(Put(fields, key, v))), rest;
        ReleasesNone(cells);
      }
      ok := true;
    }

    /** json_object_del */
    method ObjectDel(o: Ref, key: Text) returns (ok: bool)
      requires Valid() && Known(cells, o) && Reachable(cells, owned, o)
      modifies this
      ensures Valid() && owned == old(owned)
      ensures ok <==> old(cells)[o].node.Fields? && Get(old(cells)[o].node.fields, key).Some?
      ensures ok ==> Releases(With(old(cells), o, Fields(Remove(old(cells)[o].node.fields, key))), cells)
      ensures !ok ==> cells == old(cells)
      ensures ok ==> Known(cells, o)
    {
      hide Balanced, Slots, LiveCount, Releases, Reachable, Remove;
      if !cells[o].node.Fields? || Find(cells[o].node.fields, key) == |cells[o].node.fields| {
        return false;
      }
      var fields := cells[o].node.fields;
      var at := Find(fields, key);
      RemoveSlots(fields, key);
      Exchange(o, Fields(Remove(fields, key)), fields[at].value, owned);
      ok := true;
    }

    /** json_object_clear */
    method ObjectClear(o: Ref) returns (ok: bool)
      requires Valid() && Known(cells, o) && Reachable(cells, owned, o)
      modifies this
      ensures Valid() && owned == old(owned)
      ensures ok <==> old(cells)[o].node.Fields?
      ensures ok ==> Releases(With(old(cells), o, Fields([])), cells)
      ensures !ok ==> cells == old(cells)
      ensures ok ==> Known(cells, o)
    {
      hide Balanced, Slots, LiveCount, Releases, Reachable;
      ghost var was, mine := cells, owned;
      if !cells[o].node.Fields? {
        return false;
      }
      var held := Values(cells[o].node.fields);
      ghost var rest := owned;
      Rewired(cells, owned, o, Fields([]), owned + multiset(held));
      cells, owned := With(cells, o, Fields([])), owned + multiset(held);
      DecrefAll(held, rest);
      ContainerStays(was, mine, o, Fields([]), cells, owned);
      ok := true;
    }
  }

  // ---- What the operations on containers keep ----

  /** A cell with other slots. */
  function With(h: seq<Cell>, a: Ref, node: Node): (k: seq<Cell>)
    requires Known(h, a)
    ensures |k| == |h|
  {
    h[a := h[a].(node := node)]
  }

  ghost predicate SameNodes(h: seq<Cell>, k: seq<Cell>) {
    && |k| == |h|
    && forall r :: 0 <= r < |h| ==> (k[r] == h[r] || (Live(h[r]) && Live(k[r]) && k[r].node == h[r].node))
  }

  /** What leaves the slots of a container comes to the caller, and what enters them leaves the caller. */
  lemma Rewired(h: seq<Cell>, owned: multiset<Ref>, a: Ref, node: Node, owned': multiset<Ref>)
    requires Balanced(h, owned) && Known(h, a) && h[a].node != Plain
    requires multiset(Children(h[a].node)) + owned == multiset(Children(node)) + owned'
    ensures Balanced(With(h, a, node), owned')
  {
    hide Slots, Balanced;
    CountIs(h, owned, a);
    var c := h[a].(node := node);
    forall x ensures References(With(h, a, node), owned', x) == References(h, owned, x) {
      SlotsUpdate(h, a, c, x);
      assert (multiset(Children(h[a].node)) + owned)[x] == (multiset(Children(node)) + owned')[x];
    }
    Recount(h, owned, a, c, owned');
  }

  lemma NewKeeps(h: seq<Cell>, owned: multiset<Ref>, node: Node)
    requires Balanced(h, owned) && Children(node) == []
    ensures Balanced(h + [Cell(1, node)], owned + multiset{|h|})
    ensures node == Plain ==> Balanced(h + [Cell(IMMORTAL, node)], owned + multiset{|h|})
  {
    hide Slots;
    SlotsAppend(h, Cell(1, node));
    SlotsAppend(h, Cell(IMMORTAL, node));
    assert |h| !in Slots(h) && |h| !in owned;
  }

  lemma HeldAreKnown(h: seq<Cell>, owned: multiset<Ref>, p: Ref)
    requires Balanced(h, owned) && Known(h, p)
    ensures forall r :: r in Children(h[p].node) ==> Known(h, r)
  {
    hide Slots;
    forall r | r in Children(h[p].node) ensures Known(h, r) {
      ChildrenAreHeld(h, p, r);
    }
  }

  lemma SlotReplaced(s: seq<Ref>, i: nat, v: Ref)
    requires i < |s|
    ensures multiset(s[i := v]) + multiset{s[i]} == multiset(s) + multiset{v}
  {
    assert s == s[..i] + [s[i]] + s[i + 1..];
    assert s[i := v] == s[..i] + [v] + s[i + 1..];
  }

  lemma SlotHas(s: seq<Ref>, i: nat, v: Ref)
    requires i < |s|
    ensures v in s[i := v]
  {
    assert s[i := v][i] == v;
  }

  /** A caller that gives a reference to a slot keeps all others. */
  lemma HandedOver(owned: multiset<Ref>, v: Ref, slots: seq<Ref>)
    requires v in slots
    ensures forall x :: x in owned ==> x in owned - multiset{v} || x in slots
  {
  }

  lemma PutValues(fields: seq<Pair<Ref>>, key: Text, v: Ref)
    ensures Find(fields, key) < |fields| ==> Values(Put(fields, key, v)) == Values(fields)[Find(fields, key) := v]
    ensures Find(fields, key) == |fields| ==> Values(Put(fields, key, v)) == Values(fields) + [v]
  {
  }

  /** Setting a key that is there: the value comes in from its caller, and the value that had the key goes out. */
  lemma PutReplaces(fields: seq<Pair<Ref>>, key: Text, v: Ref, owned: multiset<Ref>)
    requires Find(fields, key) < |fields| && v in owned
    ensures var put, rest := Values(Put(fields, key, v)), owned - multiset{v};
      && multiset(Values(fields)) + owned == multiset(put) + (rest + multiset{fields[Find(fields, key)].value})
      && forall x :: x in owned ==> x in rest || x in put
  {
    hide Put, Find;
    PutValues(fields, key, v);
    var at := Find(fields, key);
    SlotReplaced(Values(fields), at, v);
    SlotHas(Values(fields), at, v);
    HandedOver(owned, v, Values(Put(fields, key, v)));
  }

  /** Setting a new key: the value comes in from its caller. */
  lemma PutAppends(fields: seq<Pair<Ref>>, key: Text, v: Ref, owned: multiset<Ref>)
    requires Find(fields, key) == |fields| && v in owned
    ensures multiset(Values(fields)) + owned == multiset(Values(Put(fields, key, v))) + (owned - multiset{v})
  {
    hide Put, Find;
    PutValues(fields, key, v);
  }

  lemma RemoveSlots(fields: seq<Pair<Ref>>, key: Text)
    requires Find(fields, key) < |fields|
    ensures multiset(Values(Remove(fields, key))) + multiset{fields[Find(fields, key)].value} == multiset(Values(fields))
  {
    var at, s, t := Find(fields, key), Values(fields), Values(Remove(fields, key));
    RemoveAt(fields, key);
    hide Remove, Find, Values;
    assert t == s[..at] + s[at + 1..] by {
      assert forall k :: 0 <= k < |t| ==> t[k] == s[if k < at then k else k + 1];
    }
    assert s == s[..at] + [s[at]] + s[at + 1..];
  }

  lemma OwnedIsKnown(h: seq<Cell>, owned: multiset<Ref>, r: Ref)
    requires Balanced(h, owned) && r in owned
    ensures Known(h, r)
  {
  }

  lemma DisownKeeps(h: seq<Cell>, owned: multiset<Ref>, r: Ref)
    requires Balanced(h, owned) && Known(h, r) && h[r].count == IMMORTAL
    ensures Balanced(h, owned - multiset{r})
  {
  }

  /** Nothing refers to a value that is being deleted, and it holds nothing: its memory can go. */
  lemma FreeKeeps(h: seq<Cell>, owned: multiset<Ref>, r: Ref)
    requires Balanced(h, owned) && r < |h| && h[r].Cell? && h[r].count == 0
    ensures Balanced(h[r := Free], owned)
  {
    hide Slots;
    var k := h[r := Free];
    forall x ensures Slots(k)[x] == Slots(h)[x] {
      SlotsUpdate(h, r, Free, x);
    }
    forall x | x in Slots(k) || x in owned ensures Known(k, x) {
      assert x in Slots(h) || x in owned;
    }
  }

  // ---- What letting go leaves alone ----

  /** What dropping references does: counts change and values are freed, containers do not change, and what is being deleted is left alone. */
  ghost predicate Shrinks(h: seq<Cell>, k: seq<Cell>) {
    && |k| == |h|
    && forall r :: 0 <= r < |h| ==>
      k[r] == h[r] || (Live(h[r]) && h[r].count != IMMORTAL && (k[r] == Free || StillIs(h[r], k[r])))
  }

  ghost predicate StillIs(c: Cell, d: Cell) {
    Live(c) && Live(d) && d.count != IMMORTAL && d.node == c.node
  }

  lemma ShrinksMore(h: seq<Cell>, k: seq<Cell>, l: seq<Cell>)
    requires Shrinks(h, k) && Shrinks(k, l)
    ensures Shrinks(h, l)
  {
  }

  lemma {:induction false} ShrinksFewer(h: seq<Cell>, k: seq<Cell>)
    requires Shrinks(h, k)
    ensures LiveCount(k) <= LiveCount(h) && |k| == |h|
  {
    if h != [] {
      ShrinksFewer(h[..|h| - 1], k[..|k| - 1]);
    }
  }

  /** A set of values each of which is held by one of the set, as those on a cycle and below it are. */
  ghost predicate Together(h: seq<Cell>, xs: set<Ref>) {
    forall x :: x in xs ==> Known(h, x) && HeldWithin(h, xs, x)
  }

  ghost predicate HeldWithin(h: seq<Cell>, xs: set<Ref>, x: Ref) {
    exists y :: y in xs && Known(h, y) && x in Children(h[y].node)
  }

  ghost predicate KeepsTogether(h: seq<Cell>, k: seq<Cell>) {
    forall xs: set<Ref> :: Together(h, xs) ==> Together(k, xs)
  }

  /** All that dropping references does: it also never lets go of values that hold each other. */
  ghost predicate Releases(h: seq<Cell>, k: seq<Cell>) {
    Shrinks(h, k) && KeepsTogether(h, k)
  }

  lemma ReleasesNone(h: seq<Cell>)
    ensures Releases(h, h)
  {
  }

  lemma ReleasesMore(h: seq<Cell>, k: seq<Cell>, l: seq<Cell>)
    requires Releases(h, k) && Releases(k, l)
    ensures Releases(h, l)
  {
    hide Together;
    ShrinksMore(h, k, l);
    hide Shrinks;
  }

  lemma ReleasesFewer(h: seq<Cell>, k: seq<Cell>)
    requires Releases(h, k)
    ensures LiveCount(k) <= LiveCount(h) && |k| == |h|
  {
    ShrinksFewer(h, k);
  }

  lemma ReleasesKeepsDying(h: seq<Cell>, k: seq<Cell>, r: Ref)
    requires Releases(h, k) && r < |h| && h[r].Cell? && h[r].count == 0
    ensures |k| == |h| && k[r] == h[r]
  {
    hide KeepsTogether;
  }

  lemma LowerReleases(h: seq<Cell>, r: Ref)
    requires Known(h, r) && h[r].count != 1 && h[r].count != IMMORTAL
    ensures Releases(h, h[r := h[r].(count := h[r].count - 1)])
  {
    var k := h[r := h[r].(count := h[r].count - 1)];
    forall xs: set<Ref> | Together(h, xs) ensures Together(k, xs) {
      TogetherStays(h, k, xs);
    }
  }

  /** What is together stays so if its values stay and hold what they held. */
  lemma TogetherStays(h: seq<Cell>, k: seq<Cell>, xs: set<Ref>)
    requires Together(h, xs) && forall x :: x in xs ==> Known(k, x) && k[x].node == h[x].node
    ensures Together(k, xs)
  {
    forall x | x in xs ensures HeldWithin(k, xs, x) {
      assert HeldWithin(h, xs, x);
      var y :| y in xs && Known(h, y) && x in Children(h[y].node);
      assert x in Children(k[y].node);
    }
  }

  /** A value with no holder is together with none. */
  lemma NotTogether(h: seq<Cell>, xs: set<Ref>, r: Ref)
    requires Together(h, xs) && r !in Slots(h)
    ensures r !in xs
  {
    hide Slots;
    if r in xs {
      assert HeldWithin(h, xs, r);
      var y :| y in xs && Known(h, y) && r in Children(h[y].node);
      ChildrenAreHeld(h, y, r);
    }
  }

  lemma LastReleases(h: seq<Cell>, r: Ref, k: seq<Cell>)
    requires Known(h, r) && h[r].count != IMMORTAL && r !in Slots(h) && |k| == |h| && k[r] == Free
    requires Releases(h[r := h[r].(count := 0)], k[r := h[r].(count := 0)])
    ensures Releases(h, k)
  {
    hide Slots;
    var a, b := h[r := h[r].(count := 0)], k[r := h[r].(count := 0)];
    LastShrinks(h, r, k);
    forall xs: set<Ref> | Together(h, xs) ensures Together(k, xs) {
      NotTogether(h, xs, r);
      TogetherStays(h, a, xs);
      assert Together(b, xs);
      assert r !in xs;
      TogetherStays(b, k, xs);
    }
  }

  lemma LastShrinks(h: seq<Cell>, r: Ref, k: seq<Cell>)
    requires Known(h, r) && h[r].count != IMMORTAL && |k| == |h| && k[r] == Free
    requires Shrinks(h[r := h[r].(count := 0)], k[r := h[r].(count := 0)])
    ensures Shrinks(h, k)
  {
    var a, b := h[r := h[r].(count := 0)], k[r := h[r].(count := 0)];
    forall x | 0 <= x < |h| && x != r
      ensures k[x] == h[x] || (Live(h[x]) && h[x].count != IMMORTAL && (k[x] == Free || StillIs(h[x], k[x])))
    {
      assert a[x] == h[x] && b[x] == k[x];
    }
  }

  // ---- The container stays ----

  /** Values that are still held keep what they hold. */
  lemma PathStays(h: seq<Cell>, k: seq<Cell>, owned: multiset<Ref>, p: seq<Ref>)
    requires Shrinks(h, k) && Balanced(k, owned) && Path(h, p) && p[0] in owned
    ensures Path(k, p)
  {
    forall i | 0 <= i < |p| ensures Known(k, p[i]) {
      PathStaysAt(h, k, owned, p, i);
    }
  }

  lemma {:induction false} PathStaysAt(h: seq<Cell>, k: seq<Cell>, owned: multiset<Ref>, p: seq<Ref>, i: nat)
    requires Shrinks(h, k) && Balanced(k, owned) && Path(h, p) && p[0] in owned && i < |p|
    ensures Known(k, p[i])
  {
    hide Slots, Balanced;
    if i == 0 {
      OwnedIsKnown(k, owned, p[0]);
    } else {
      PathStaysAt(h, k, owned, p, i - 1);
      HeldAreKnown(k, owned, p[i - 1]);
    }
  }

  /** The first place of a value on a path to it. */
  lemma {:induction false} FirstPlace(p: seq<Ref>, a: Ref) returns (i: nat)
    requires a in p
    ensures i < |p| && p[i] == a && a !in p[..i]
  {
    i := 0;
    if p[0] != a {
      i := FirstPlace(p[1..], a);
      i := i + 1;
      assert p[..i] == [p[0]] + p[1..][..i - 1];
    }
  }

  /** A path to a container does not use its slots, if it ends there the first time. */
  lemma PathTo(h: seq<Cell>, a: Ref, node: Node, p: seq<Ref>)
    requires Known(h, a) && Path(h, p) && p[|p| - 1] == a && a !in p[..|p| - 1]
    ensures Path(With(h, a, node), p)
  {
    forall i | 0 < i < |p| ensures p[i] in Children(With(h, a, node)[p[i - 1]].node) {
      assert p[i - 1] in p[..|p| - 1];
    }
  }

  /** The values of a path from a slot of a container to the container are together. */
  lemma RoundTogether(h: seq<Cell>, p: seq<Ref>)
    requires Path(h, p) && p[0] in Children(h[p[|p| - 1]].node)
    ensures Together(h, set x | x in p)
  {
    var xs := set x | x in p;
    forall x | x in xs ensures Known(h, x) && HeldWithin(h, xs, x) {
      var i :| 0 <= i < |p| && p[i] == x;
      var y := if i == 0 then p[|p| - 1] else p[i - 1];
      assert y in xs && Known(h, y) && x in Children(h[y].node);
    }
  }

  /**
   A container that an owner can get to is not freed by what leaves its slots: it is reached before
   these slots, or from a value that has gone into them.
   */
  lemma ContainerStays(h: seq<Cell>, owned: multiset<Ref>, a: Ref, node: Node, k: seq<Cell>, owned': multiset<Ref>)
    requires Known(h, a) && Reachable(h, owned, a) && Releases(With(h, a, node), k) && Balanced(k, owned')
    requires forall x :: x in owned ==> x in owned' || x in Children(node)
    ensures Known(k, a)
  {
    hide Slots, Balanced;
    var g := With(h, a, node);
    var p :| Leads(h, owned, p, a);
    var i := FirstPlace(p, a);
    var q := p[..i + 1];
    assert q[..i] == p[..i];
    PathTo(h, a, node, q);
    if q[0] in owned' {
      PathStays(g, k, owned', q);
    } else {
      RoundTogether(g, q);
      assert Together(k, set x | x in q);
      assert a in (set x | x in q);
    }
  }
}
