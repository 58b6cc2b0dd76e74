/**
 When dumping a graph of values succeeds: exactly when no container below the root can be
 reached from itself. Sharing without a cycle is no obstacle.
 */
module JsonCycles {
  import opened Bytes
  import opened Assoc
  import opened JsonValue
  import opened JsonDump
  import Utf8

  /** The container at `a` holds `b`. */
  ghost predicate Edge(h: Heap, a: Ref, b: Ref) {
    a in h &&
    match h[a]
    case Scalar(_) => false
    case ArrayNode(items) => b in items
    case ObjectNode(fields) => exists i :: 0 <= i < |fields| && fields[i].value == b
  }

  ghost predicate Path(h: Heap, p: seq<Ref>) {
    p != [] && forall i :: 0 <= i < |p| - 1 ==> Edge(h, p[i], p[i + 1])
  }

  ghost predicate PathBetween(h: Heap, p: seq<Ref>, a: Ref, b: Ref) {
    Path(h, p) && p[0] == a && p[|p| - 1] == b
  }

  ghost predicate Reaches(h: Heap, a: Ref, b: Ref) {
    exists p :: PathBetween(h, p, a, b)
  }

  /** A container that some non-trivial path leads back to. */
  ghost predicate OnCycle(h: Heap, c: Ref) {
    exists p :: |p| >= 2 && PathBetween(h, p, c, c)
  }

  ghost predicate CycleBelow(h: Heap, r: Ref) {
    exists c :: Reaches(h, r, c) && OnCycle(h, c)
  }

  /** Every value that a value of the heap holds is in the heap: no null pointers. */
  ghost predicate Closed(h: Heap) {
    forall a, b :: Edge(h, a, b) ==> b in h
  }

  /** The path ends where dumping has to stop: at a null pointer, or in a container it is already inside. */
  ghost predicate Blocked(h: Heap, p: seq<Ref>, parents: set<Ref>)
    requires p != []
  {
    var x := p[|p| - 1];
    x !in h || (!h[x].Scalar? && (x in parents || x in p[..|p| - 1]))
  }

  /** The child whose unfolding fails. */
  lemma FailingItem(h: Heap, items: seq<Ref>, sortKeys: bool, parents: set<Ref>) returns (i: nat)
    requires UnfoldItems(h, items, sortKeys, parents).None?
    ensures i < |items| && Unfold(h, items[i], sortKeys, parents).None?
  {
    if Unfold(h, items[0], sortKeys, parents).None? {
      i := 0;
    } else {
      var j := FailingItem(h, items[1..], sortKeys, parents);
      i := j + 1;
    }
  }

  lemma FailingField(h: Heap, fields: seq<Pair<Ref>>, sortKeys: bool, parents: set<Ref>) returns (i: nat)
    requires UnfoldFields(h, fields, sortKeys, parents).None?
    ensures i < |fields| && Unfold(h, fields[i].value, sortKeys, parents).None?
  {
    if Unfold(h, fields[0].value, sortKeys, parents).None? {
      i := 0;
    } else {
      var j := FailingField(h, fields[1..], sortKeys, parents);
      i := j + 1;
    }
  }

  lemma {:induction false} UnfoldedItem(h: Heap, items: seq<Ref>, sortKeys: bool, parents: set<Ref>, i: nat)
    requires UnfoldItems(h, items, sortKeys, parents).Some? && i < |items|
    ensures Unfold(h, items[i], sortKeys, parents).Some?
  {
    if i > 0 {
      UnfoldedItem(h, items[1..], sortKeys, parents, i - 1);
    }
  }

  lemma {:induction false} UnfoldedField(h: Heap, fields: seq<Pair<Ref>>, sortKeys: bool, parents: set<Ref>, i: nat)
    requires UnfoldFields(h, fields, sortKeys, parents).Some? && i < |fields|
    ensures Unfold(h, fields[i].value, sortKeys, parents).Some?
  {
    if i > 0 {
      UnfoldedField(h, fields[1..], sortKeys, parents, i - 1);
    }
  }

  /** The order of dumping does not change what an object holds. */
  lemma OrderedField(fields: seq<Pair<Ref>>, sortKeys: bool, i: nat) returns (j: nat)
    requires i < |fields|
    ensures j < |fields| && Order(fields, sortKeys)[j] == fields[i]
  {
    assert fields[i] in multiset(fields);
    assert fields[i] in multiset(Order(fields, sortKeys));
    j :| 0 <= j < |fields| && Order(fields, sortKeys)[j] == fields[i];
  }

  lemma FieldOfOrdered(fields: seq<Pair<Ref>>, sortKeys: bool, j: nat) returns (i: nat)
    requires j < |fields|
    ensures i < |fields| && Order(fields, sortKeys)[j] == fields[i]
  {
    var p := Order(fields, sortKeys)[j];
    assert p in multiset(Order(fields, sortKeys));
    assert p in multiset(fields);
    i :| 0 <= i < |fields| && fields[i] == p;
  }

  /** A failure to unfold comes from a blocked path. */
  lemma BlockedPath(h: Heap, r: Ref, sortKeys: bool, parents: set<Ref>) returns (p: seq<Ref>)
    requires Unfold(h, r, sortKeys, parents).None?
    ensures Path(h, p) && p[0] == r && Blocked(h, p, parents)
    decreases |h.Keys - parents|
  {
    if r !in h || r in parents {
      return [r];
    }
    FewerLeft(h, r, parents);
    var child: Ref;
    match h[r] {
      case Scalar(v) =>
      case ArrayNode(items) =>
        var i := FailingItem(h, items, sortKeys, parents + {r});
        child := items[i];
      case ObjectNode(fields) =>
        var j := FailingField(h, Order(fields, sortKeys), sortKeys, parents + {r});
        var i := FieldOfOrdered(fields, sortKeys, j);
        child := fields[i].value;
    }
    assert Edge(h, r, child);
    var q := BlockedPath(h, child, sortKeys, parents + {r});
    p := [r] + q;
    forall i | 0 <= i < |p| - 1 ensures Edge(h, p[i], p[i + 1]) {
      if i > 0 {
        assert Edge(h, q[i - 1], q[i]);
      }
    }
    assert p[..|p| - 1] == [r] + q[..|q| - 1];
  }

  /** A value that unfolds has no blocked path. */
  lemma {:induction false} NoBlockedPath(h: Heap, r: Ref, sortKeys: bool, parents: set<Ref>, p: seq<Ref>)
    requires Unfold(h, r, sortKeys, parents).Some?
    requires Path(h, p) && p[0] == r
    ensures !Blocked(h, p, parents)
    decreases |p|
  {
    if |p| >= 2 {
      assert Edge(h, p[0], p[1]);
      match h[r] {
        case Scalar(v) =>
        case ArrayNode(items) =>
          var i :| 0 <= i < |items| && items[i] == p[1];
          UnfoldedItem(h, items, sortKeys, parents + {r}, i);
        case ObjectNode(fields) =>
          var i :| 0 <= i < |fields| && fields[i].value == p[1];
          var j := OrderedField(fields, sortKeys, i);
          UnfoldedField(h, Order(fields, sortKeys), sortKeys, parents + {r}, j);
      }
      var q := p[1..];
      assert forall i :: 0 <= i < |q| - 1 ==> q[i] == p[i + 1] && Edge(h, p[i + 1], p[i + 2]);
      NoBlockedPath(h, p[1], sortKeys, parents + {r}, q);
      assert p[..|p| - 1] == [r] + q[..|q| - 1];
    }
  }

  /** A path that comes back to a container shows a cycle. */
  lemma CycleOfPath(h: Heap, p: seq<Ref>, i: nat)
    requires Path(h, p) && i < |p| - 1 && p[i] == p[|p| - 1]
    ensures CycleBelow(h, p[0])
  {
    hide Edge, PathBetween;
    PartOfPath(h, p, 0, i);
    PartOfPath(h, p, i, |p| - 1);
    assert Reaches(h, p[0], p[i]) && OnCycle(h, p[i]);
  }

  lemma PartOfPath(h: Heap, p: seq<Ref>, i: nat, j: nat)
    requires Path(h, p) && i <= j < |p|
    ensures PathBetween(h, p[i..j + 1], p[i], p[j])
  {
    hide Edge;
    var q := p[i..j + 1];
    assert forall k :: 0 <= k < |q| ==> q[k] == p[i + k];
    forall k | 0 <= k < |q| - 1 ensures Edge(h, q[k], q[k + 1]) {
      assert Edge(h, p[i + k], p[i + k + 1]);
    }
  }

  /** A cycle below a value gives a path that comes back to a container. */
  lemma PathOfCycle(h: Heap, r: Ref) returns (p: seq<Ref>)
    requires CycleBelow(h, r)
    ensures Path(h, p) && p[0] == r && Blocked(h, p, {})
  {
    var c :| Reaches(h, r, c) && OnCycle(h, c);
    var before :| PathBetween(h, before, r, c);
    var around :| |around| >= 2 && PathBetween(h, around, c, c);
    p := before + around[1..];
    forall k | 0 <= k < |p| - 1 ensures Edge(h, p[k], p[k + 1]) {
      if k < |before| - 1 {
        assert Edge(h, before[k], before[k + 1]);
      } else {
        var j := k - (|before| - 1);
        assert p[k] == around[j] && p[k + 1] == around[j + 1] && Edge(h, around[j], around[j + 1]);
      }
    }
    assert Edge(h, around[0], around[1]);
    assert p[..|p| - 1][|before| - 1] == c && p[|p| - 1] == c;
  }

  /** A value unfolds exactly when no cycle lies below it. */
  lemma UnfoldIffNoCycle(h: Heap, r: Ref, sortKeys: bool)
    requires Closed(h) && r in h
    ensures Unfold(h, r, sortKeys, {}).Some? <==> !CycleBelow(h, r)
  {
    if Unfold(h, r, sortKeys, {}).None? {
      var p := BlockedPath(h, r, sortKeys, {});
      PathInHeap(h, p);
      var i :| 0 <= i < |p| - 1 && p[i] == p[|p| - 1];
      CycleOfPath(h, p, i);
    } else if CycleBelow(h, r) {
      var p := PathOfCycle(h, r);
      NoBlockedPath(h, r, sortKeys, {}, p);
    }
  }

  lemma PathInHeap(h: Heap, p: seq<Ref>)
    requires Closed(h) && Path(h, p) && p[0] in h
    ensures p[|p| - 1] in h
  {
    if |p| > 1 {
      assert Edge(h, p[|p| - 2], p[|p| - 2 + 1]);
    }
  }

  // ---- Strings ----

  /** No string value of the tree is invalid; keys do not matter. */
  predicate StringsValid(v: Json) {
    match v
    case String(s) => Utf8.Valid(s)
    case Array(items) => ItemsValid(items)
    case Object(fields) => FieldsValid(fields)
    case _ => true
  }

  predicate ItemsValid(items: seq<Json>) {
    items == [] || (StringsValid(items[0]) && ItemsValid(items[1..]))
  }

  predicate FieldsValid(fields: seq<Pair<Json>>) {
    fields == [] || (StringsValid(fields[0].value) && FieldsValid(fields[1..]))
  }

  lemma {:induction false} StringOkIffValid(s: Text, run: Text, f: DumpFlags)
    ensures StringBody(s, run, f).ok <==> Utf8.Valid(s)
    decreases |s|
  {
    StringBodyStep(s, run, f);
    if s != [] && Utf8.Front(s).Some? {
      var c := Utf8.Front(s).value;
      StringOkIffValid(s[c.size..], [], f);
      StringOkIffValid(s[c.size..], run + s[..c.size], f);
    }
  }

  /** The text of a tree exists exactly when its strings are valid. */
  lemma {:induction false} DumpTreeIffValid(v: Json, f: DumpFlags, depth: nat, embed: bool)
    ensures DumpTree(v, f, depth, embed).Some? <==> StringsValid(v)
    decreases v, 0
  {
    match v
    case String(s) => StringOkIffValid(s, [], f);
    case Array(items) => DumpItemsIffValid(items, f, depth);
    case Object(fields) => DumpFieldsIffValid(fields, f, depth);
    case _ =>
  }

  lemma {:induction false} DumpItemsIffValid(items: seq<Json>, f: DumpFlags, depth: nat)
    ensures DumpItems(items, f, depth).Some? <==> ItemsValid(items)
    decreases items, 1
  {
    if items != [] {
      DumpTreeIffValid(items[0], f, depth + 1, false);
      DumpItemsIffValid(items[1..], f, depth);
    }
  }

  lemma {:induction false} DumpFieldsIffValid(fields: seq<Pair<Json>>, f: DumpFlags, depth: nat)
    ensures DumpFields(fields, f, depth).Some? <==> FieldsValid(fields)
    decreases fields, 1
  {
    if fields != [] {
      DumpTreeIffValid(fields[0].value, f, depth + 1, false);
      DumpFieldsIffValid(fields[1..], f, depth);
    }
  }

  /** Every string value in the heap is valid UTF-8. */
  ghost predicate HeapStringsValid(h: Heap) {
    forall r :: r in h && h[r].Scalar? ==> StringsValid(h[r].value)
  }

  lemma {:induction false} UnfoldStringsValid(h: Heap, r: Ref, sortKeys: bool, parents: set<Ref>)
    requires HeapStringsValid(h) && Unfold(h, r, sortKeys, parents).Some?
    ensures StringsValid(Unfold(h, r, sortKeys, parents).value)
    decreases |h.Keys - parents|, 0, 0
  {
    match h[r]
    case Scalar(_) =>
    case ArrayNode(items) =>
      FewerLeft(h, r, parents);
      UnfoldItemsValid(h, items, sortKeys, parents + {r});
    case ObjectNode(fields) =>
      FewerLeft(h, r, parents);
      UnfoldFieldsValid(h, Order(fields, sortKeys), sortKeys, parents + {r});
  }

  lemma {:induction false} UnfoldItemsValid(h: Heap, items: seq<Ref>, sortKeys: bool, parents: set<Ref>)
    requires HeapStringsValid(h) && UnfoldItems(h, items, sortKeys, parents).Some?
    ensures ItemsValid(UnfoldItems(h, items, sortKeys, parents).value)
    decreases |h.Keys - parents|, 1, |items|
  {
    if items != [] {
      UnfoldStringsValid(h, items[0], sortKeys, parents);
      UnfoldItemsValid(h, items[1..], sortKeys, parents);
      assert UnfoldItems(h, items, sortKeys, parents).value[1..] == UnfoldItems(h, items[1..], sortKeys, parents).value;
    }
  }

  lemma {:induction false} UnfoldFieldsValid(h: Heap, fields: seq<Pair<Ref>>, sortKeys: bool, parents: set<Ref>)
    requires HeapStringsValid(h) && UnfoldFields(h, fields, sortKeys, parents).Some?
    ensures FieldsValid(UnfoldFields(h, fields, sortKeys, parents).value)
    decreases |h.Keys - parents|, 1, |fields|
  {
    if fields != [] {
      UnfoldStringsValid(h, fields[0].value, sortKeys, parents);
      UnfoldFieldsValid(h, fields[1..], sortKeys, parents);
      assert UnfoldFields(h, fields, sortKeys, parents).value[1..] == UnfoldFields(h, fields[1..], sortKeys, parents).value;
    }
  }

  /**
   With valid strings and no null pointers, dumping a container fails exactly when some
   container below it can be reached from itself.
   */
  lemma DumpFailsIffCycle(h: Heap, r: Ref, f: DumpFlags)
    requires Closed(h) && HeapStringsValid(h) && IsContainerNode(h, r)
    ensures DumpText(h, r, f).None? <==> CycleBelow(h, r)
  {
    UnfoldIffNoCycle(h, r, f.sortKeys);
    if Unfold(h, r, f.sortKeys, {}).Some? {
      UnfoldStringsValid(h, r, f.sortKeys, {});
      DumpTreeIffValid(Unfold(h, r, f.sortKeys, {}).value, f, 0, f.embed);
    }
  }
}
