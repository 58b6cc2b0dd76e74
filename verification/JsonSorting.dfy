/**
 Dumping with sorted keys: the fields come out in strictly increasing key order, and the
 value that is written is equal to the one in memory.
 */
module JsonSorting {
  import opened Bytes
  import opened Assoc
  import opened JsonValue
  import opened JsonDump
  import opened JsonLoad
  import opened JsonCycles
  import opened JsonRoundTrip
  import Utf8

  // ---- Keys are totally ordered ----

  lemma {:induction false} KeyTotal(a: Text, b: Text)
    ensures a == b || KeyBefore(a, b) || KeyBefore(b, a)
    ensures !(KeyBefore(a, b) && KeyBefore(b, a))
    ensures !KeyBefore(a, a)
  {
    if a != [] {
      KeyTotal(a[1..], a[1..]);
      if b != [] {
        KeyTotal(a[1..], b[1..]);
        assert a[0] == b[0] && a[1..] == b[1..] ==> a == [a[0]] + a[1..] == [b[0]] + b[1..] == b;
      }
    }
  }

  /** Where two keys first differ. */
  ghost predicate DifferAt(a: Text, b: Text, i: nat) {
    i <= |a| && i < |b| && a[..i] == b[..i] && (i == |a| || a[i] < b[i])
  }

  /** A key comes before another if it is a part of it or has the smaller byte where they first differ. */
  lemma {:induction false} KeyBeforeIff(a: Text, b: Text)
    ensures KeyBefore(a, b) <==> exists i: nat :: DifferAt(a, b, i)
  {
    if b != [] && (a == [] || a[0] < b[0]) {
      assert DifferAt(a, b, 0);
    } else if b != [] && a[0] == b[0] {
      KeyBeforeIff(a[1..], b[1..]);
      if i: nat :| DifferAt(a[1..], b[1..], i) {
        assert a[..i + 1] == [a[0]] + a[1..][..i] && b[..i + 1] == [b[0]] + b[1..][..i];
        assert DifferAt(a, b, i + 1);
      }
      if i: nat :| DifferAt(a, b, i) {
        assert i > 0;
        assert a[1..][..i - 1] == a[..i][1..] && b[1..][..i - 1] == b[..i][1..];
        assert DifferAt(a[1..], b[1..], i - 1);
      }
    } else if b != [] {
      forall i: nat ensures !DifferAt(a, b, i) {
        if i > 0 && i <= |a| && i < |b| {
          assert a[..i][0] != b[..i][0];
        }
      }
    }
  }

  lemma {:induction false} KeyTransitive(a: Text, b: Text, c: Text)
    requires KeyBefore(a, b) && KeyBefore(b, c)
    ensures KeyBefore(a, c)
  {
    if a != [] && a[0] == b[0] && b[0] == c[0] {
      KeyTransitive(a[1..], b[1..], c[1..]);
    }
  }

  ghost predicate StrictlySorted<V>(s: seq<Pair<V>>) {
    forall i, j :: 0 <= i < j < |s| ==> KeyBefore(s[i].key, s[j].key)
  }

  ghost predicate KeyAbsent<V>(s: seq<Pair<V>>, key: Text) {
    forall i :: 0 <= i < |s| ==> s[i].key != key
  }

  lemma InsertElement<V>(p: Pair<V>, s: seq<Pair<V>>, i: nat)
    requires i < |s| + 1
    ensures InsertSorted(p, s)[i] == p || InsertSorted(p, s)[i] in s
  {
    var x := InsertSorted(p, s)[i];
    assert x in multiset(InsertSorted(p, s));
    assert x in multiset(s) + multiset{p};
  }

  lemma {:induction false} InsertKeepsSorted<V>(p: Pair<V>, s: seq<Pair<V>>)
    requires StrictlySorted(s) && KeyAbsent(s, p.key)
    ensures StrictlySorted(InsertSorted(p, s))
  {
    if s != [] {
      KeyTotal(s[0].key, p.key);
      if KeyBefore(s[0].key, p.key) {
        InsertKeepsSorted(p, s[1..]);
        forall j | 0 <= j < |s| ensures KeyBefore(s[0].key, InsertSorted(p, s[1..])[j].key) {
          InsertElement(p, s[1..], j);
        }
      } else {
        forall j | 1 <= j < |s| ensures KeyBefore(p.key, s[j].key) {
          KeyTransitive(p.key, s[0].key, s[j].key);
        }
      }
    }
  }

  lemma SortedElement<V>(s: seq<Pair<V>>, i: nat)
    requires i < |s|
    ensures SortPairs(s)[i] in s
  {
    assert SortPairs(s)[i] in multiset(SortPairs(s));
    assert SortPairs(s)[i] in multiset(s);
  }

  /** The fields of an object come out in strictly increasing order of their keys. */
  lemma {:induction false} SortPairsSorted<V>(s: seq<Pair<V>>)
    requires Unique(s)
    ensures StrictlySorted(SortPairs(s))
  {
    if s != [] {
      SortPairsSorted(s[1..]);
      forall i | 0 <= i < |s| - 1 ensures SortPairs(s[1..])[i].key != s[0].key {
        SortedElement(s[1..], i);
      }
      InsertKeepsSorted(s[0], SortPairs(s[1..]));
    }
  }

  lemma SortPairsUnique<V>(s: seq<Pair<V>>)
    requires Unique(s)
    ensures Unique(SortPairs(s))
  {
    SortPairsSorted(s);
    forall i, j | 0 <= i < j < |s| ensures SortPairs(s)[i].key != SortPairs(s)[j].key {
      KeyTotal(SortPairs(s)[i].key, SortPairs(s)[j].key);
    }
  }

  /** Sorting does not change what a key finds. */
  lemma GetOfSorted<V>(s: seq<Pair<V>>, i: nat)
    requires Unique(s) && i < |s|
    ensures Assoc.Get(SortPairs(s), s[i].key) == Some(s[i].value)
  {
    var t := SortPairs(s);
    SortPairsUnique(s);
    assert s[i] in multiset(s);
    assert s[i] in multiset(t);
    var j :| 0 <= j < |t| && t[j] == s[i];
    FindAt(t, j);
  }

  // ---- A sorted value is equal to the unsorted one ----

  lemma {:induction false} SortDeepEqual(v: Json)
    requires WellFormed(v)
    ensures Equal(v, SortDeep(v))
    decreases v, 0
  {
    match v
    case Array(items) => SortItemsEqual(items);
    case Object(fields) =>
      var sorted := SortFields(fields);
      assert Unique(sorted);
      forall i | 0 <= i < |fields| ensures Assoc.Get(SortPairs(sorted), fields[i].key) == Some(SortDeep(fields[i].value)) {
        GetOfSorted(sorted, i);
        SortFieldsAt(fields, i);
      }
      SortFieldsEqual(fields, SortPairs(sorted));
    case _ =>
  }

  lemma {:induction false} SortItemsEqual(items: seq<Json>)
    requires WellFormedItems(items)
    ensures EqualItems(items, SortItems(items))
    decreases items, 1
  {
    if items != [] {
      SortDeepEqual(items[0]);
      SortItemsEqual(items[1..]);
      assert SortItems(items)[1..] == SortItems(items[1..]);
    }
  }

  lemma {:induction false} SortFieldsAt(fields: seq<Pair<Json>>, i: nat)
    requires i < |fields|
    ensures SortFields(fields)[i] == Pair(fields[i].key, SortDeep(fields[i].value))
  {
    if i > 0 {
      SortFieldsAt(fields[1..], i - 1);
    }
  }

  lemma {:induction false} SortFieldsEqual(fields: seq<Pair<Json>>, y: seq<Pair<Json>>)
    requires WellFormedFields(fields)
    requires forall i :: 0 <= i < |fields| ==> Assoc.Get(y, fields[i].key) == Some(SortDeep(fields[i].value))
    ensures EqualFields(fields, y)
    decreases fields, 1
  {
    if fields != [] {
      SortDeepEqual(fields[0].value);
      SortFieldsEqual(fields[1..], y);
    }
  }

  // ---- Dumping a graph with sorted keys ----

  ghost predicate UnfoldedPair(h: Heap, p: Pair<Ref>, q: Pair<Json>, sortKeys: bool, parents: set<Ref>) {
    p.key == q.key && Unfold(h, p.value, sortKeys, parents) == Some(q.value)
  }

  /** Fields of the same object, in memory and unfolded. */
  ghost predicate Unfolded(h: Heap, fields: seq<Pair<Ref>>, vs: seq<Pair<Json>>, sortKeys: bool, parents: set<Ref>) {
    |fields| == |vs| && forall i :: 0 <= i < |fields| ==> UnfoldedPair(h, fields[i], vs[i], sortKeys, parents)
  }

  lemma UnfoldedCons(h: Heap, p: Pair<Ref>, q: Pair<Json>, fields: seq<Pair<Ref>>, vs: seq<Pair<Json>>, sortKeys: bool, parents: set<Ref>)
    ensures Unfolded(h, [p] + fields, [q] + vs, sortKeys, parents) <==>
      UnfoldedPair(h, p, q, sortKeys, parents) && Unfolded(h, fields, vs, sortKeys, parents)
  {
    hide UnfoldedPair;
    var ps, qs := [p] + fields, [q] + vs;
    assert forall i :: 0 <= i < |fields| ==> ps[i + 1] == fields[i];
    assert forall i :: 0 <= i < |vs| ==> qs[i + 1] == vs[i];
    if Unfolded(h, ps, qs, sortKeys, parents) {
      assert UnfoldedPair(h, ps[0], qs[0], sortKeys, parents);
      forall i | 0 <= i < |fields| ensures UnfoldedPair(h, fields[i], vs[i], sortKeys, parents) {
        assert UnfoldedPair(h, ps[i + 1], qs[i + 1], sortKeys, parents);
      }
    }
  }

  lemma {:induction false} UnfoldedIff(h: Heap, fields: seq<Pair<Ref>>, vs: seq<Pair<Json>>, sortKeys: bool, parents: set<Ref>)
    ensures UnfoldFields(h, fields, sortKeys, parents) == Some(vs) <==> Unfolded(h, fields, vs, sortKeys, parents)
    decreases fields
  {
    if fields != [] && vs != [] {
      assert fields == [fields[0]] + fields[1..] && vs == [vs[0]] + vs[1..];
      UnfoldedIff(h, fields[1..], vs[1..], sortKeys, parents);
      UnfoldedCons(h, fields[0], vs[0], fields[1..], vs[1..], sortKeys, parents);
    }
  }

  lemma {:induction false} InsertUnfolded(h: Heap, p: Pair<Ref>, q: Pair<Json>, fields: seq<Pair<Ref>>, vs: seq<Pair<Json>>, sortKeys: bool, parents: set<Ref>)
    requires Unfolded(h, fields, vs, sortKeys, parents) && UnfoldedPair(h, p, q, sortKeys, parents)
    ensures Unfolded(h, InsertSorted(p, fields), InsertSorted(q, vs), sortKeys, parents)
  {
    if fields == [] {
      UnfoldedCons(h, p, q, [], [], sortKeys, parents);
    } else {
      assert UnfoldedPair(h, fields[0], vs[0], sortKeys, parents);
      assert fields == [fields[0]] + fields[1..] && vs == [vs[0]] + vs[1..];
      UnfoldedCons(h, fields[0], vs[0], fields[1..], vs[1..], sortKeys, parents);
      hide Unfolded, Unfold, KeyBefore;
      if KeyBefore(fields[0].key, p.key) {
        InsertUnfolded(h, p, q, fields[1..], vs[1..], sortKeys, parents);
        UnfoldedCons(h, fields[0], vs[0], InsertSorted(p, fields[1..]), InsertSorted(q, vs[1..]), sortKeys, parents);
      } else {
        UnfoldedCons(h, p, q, fields, vs, sortKeys, parents);
      }
    }
  }

  lemma {:induction false} SortUnfolded(h: Heap, fields: seq<Pair<Ref>>, vs: seq<Pair<Json>>, sortKeys: bool, parents: set<Ref>)
    requires Unfolded(h, fields, vs, sortKeys, parents)
    ensures Unfolded(h, SortPairs(fields), SortPairs(vs), sortKeys, parents)
  {
    if fields != [] {
      assert UnfoldedPair(h, fields[0], vs[0], sortKeys, parents);
      assert fields == [fields[0]] + fields[1..] && vs == [vs[0]] + vs[1..];
      UnfoldedCons(h, fields[0], vs[0], fields[1..], vs[1..], sortKeys, parents);
      SortUnfolded(h, fields[1..], vs[1..], sortKeys, parents);
      InsertUnfolded(h, fields[0], vs[0], SortPairs(fields[1..]), SortPairs(vs[1..]), sortKeys, parents);
    }
  }

  /** The tree dumped with sorted keys is the sorted tree. */
  lemma {:induction false} UnfoldSorted(h: Heap, r: Ref, parents: set<Ref>)
    requires Unfold(h, r, false, parents).Some?
    ensures Unfold(h, r, true, parents) == Some(SortDeep(Unfold(h, r, false, parents).value))
    decreases |h.Keys - parents|, 0, 0
  {
    match h[r]
    case Scalar(_) =>
    case ArrayNode(items) =>
      FewerLeft(h, r, parents);
      UnfoldItemsSorted(h, items, parents + {r});
    case ObjectNode(fields) =>
      FewerLeft(h, r, parents);
      UnfoldFieldsSorted(h, fields, parents + {r});
      var vs := SortFields(UnfoldFields(h, fields, false, parents + {r}).value);
      UnfoldedIff(h, fields, vs, true, parents + {r});
      SortUnfolded(h, fields, vs, true, parents + {r});
      UnfoldedIff(h, SortPairs(fields), SortPairs(vs), true, parents + {r});
  }

  lemma {:induction false} UnfoldItemsSorted(h: Heap, items: seq<Ref>, parents: set<Ref>)
    requires UnfoldItems(h, items, false, parents).Some?
    ensures UnfoldItems(h, items, true, parents) == Some(SortItems(UnfoldItems(h, items, false, parents).value))
    decreases |h.Keys - parents|, 1, |items|
  {
    if items != [] {
      UnfoldSorted(h, items[0], parents);
      UnfoldItemsSorted(h, items[1..], parents);
      assert UnfoldItems(h, items, false, parents).value[1..] == UnfoldItems(h, items[1..], false, parents).value;
    }
  }

  lemma {:induction false} UnfoldFieldsSorted(h: Heap, fields: seq<Pair<Ref>>, parents: set<Ref>)
    requires UnfoldFields(h, fields, false, parents).Some?
    ensures UnfoldFields(h, fields, true, parents) == Some(SortFields(UnfoldFields(h, fields, false, parents).value))
    decreases |h.Keys - parents|, 1, |fields|
  {
    if fields != [] {
      UnfoldSorted(h, fields[0].value, parents);
      UnfoldFieldsSorted(h, fields[1..], parents);
      assert UnfoldFields(h, fields, false, parents).value[1..] == UnfoldFields(h, fields[1..], false, parents).value;
    }
  }

  // ---- The round trip of values in memory ----

  /** Scalars are well formed and keys are valid UTF-8 C strings. */
  ghost predicate HeapWellFormed(h: Heap) {
    forall r :: r in h ==>
      (h[r].Scalar? ==> WellFormed(h[r].value)) &&
      (h[r].ObjectNode? ==> forall i :: 0 <= i < |h[r].fields| ==> Utf8.Valid(h[r].fields[i].key) && NulFree(h[r].fields[i].key))
  }

  lemma {:induction false} UnfoldWellFormed(h: Heap, r: Ref, sortKeys: bool, parents: set<Ref>)
    requires HeapWellFormed(h) && Unfold(h, r, sortKeys, parents).Some?
    ensures WellFormed(Unfold(h, r, sortKeys, parents).value)
    decreases |h.Keys - parents|, 0, 0
  {
    match h[r]
    case Scalar(_) =>
    case ArrayNode(items) =>
      FewerLeft(h, r, parents);
      UnfoldItemsWellFormed(h, items, sortKeys, parents + {r});
    case ObjectNode(fields) =>
      FewerLeft(h, r, parents);
      var ordered := Order(fields, sortKeys);
      forall j | 0 <= j < |ordered| ensures Utf8.Valid(ordered[j].key) && NulFree(ordered[j].key) {
        var i := FieldOfOrdered(fields, sortKeys, j);
      }
      if sortKeys {
        SortPairsUnique(fields);
      }
      UnfoldFieldsWellFormed(h, ordered, sortKeys, parents + {r});
      UnfoldedIff(h, ordered, UnfoldFields(h, ordered, sortKeys, parents + {r}).value, sortKeys, parents + {r});
  }

  lemma {:induction false} UnfoldItemsWellFormed(h: Heap, items: seq<Ref>, sortKeys: bool, parents: set<Ref>)
    requires HeapWellFormed(h) && UnfoldItems(h, items, sortKeys, parents).Some?
    ensures WellFormedItems(UnfoldItems(h, items, sortKeys, parents).value)
    decreases |h.Keys - parents|, 1, |items|
  {
    if items != [] {
      UnfoldWellFormed(h, items[0], sortKeys, parents);
      UnfoldItemsWellFormed(h, items[1..], sortKeys, parents);
      assert UnfoldItems(h, items, sortKeys, parents).value[1..] == UnfoldItems(h, items[1..], sortKeys, parents).value;
    }
  }

  lemma {:induction false} UnfoldFieldsWellFormed(h: Heap, fields: seq<Pair<Ref>>, sortKeys: bool, parents: set<Ref>)
    requires HeapWellFormed(h) && UnfoldFields(h, fields, sortKeys, parents).Some?
    requires forall i :: 0 <= i < |fields| ==> Utf8.Valid(fields[i].key) && NulFree(fields[i].key)
    ensures WellFormedFields(UnfoldFields(h, fields, sortKeys, parents).value)
    decreases |h.Keys - parents|, 1, |fields|
  {
    if fields != [] {
      UnfoldWellFormed(h, fields[0].value, sortKeys, parents);
      UnfoldFieldsWellFormed(h, fields[1..], sortKeys, parents);
      assert UnfoldFields(h, fields, sortKeys, parents).value[1..] == UnfoldFields(h, fields[1..], sortKeys, parents).value;
    }
  }

  /**
   Dumping a value in memory, possibly shared and under any mix of indent, compact, ASCII, slash
   and sort flags, and loading the text: the loader returns the value that was dumped, with
   its keys in the order in which they were written, exactly when the nesting is within the
   parser's limit, and the root and the strings are such as the loader's flags admit. What was
   written is equal to the value in memory; the flag for it makes reals of its integers.
   */
  lemma GraphRoundTrip(h: Heap, r: Ref, df: DumpFlags, f: LoadFlags)
    requires HeapWellFormed(h) && !df.embed
    requires DumpText(h, r, df).Some?
    ensures Unfold(h, r, false, {}).Some?
    ensures var v := Unfold(h, r, false, {}).value;
      var written := if df.sortKeys then SortDeep(v) else v;
      ParseJson(DumpText(h, r, df).value, f) ==
        (if Height(written) <= MAX_DEPTH && (written.IsContainer() || f.decodeAny) && (f.allowNul || StringsNulFree(written))
         then Some(AsRead(written, f)) else None) &&
      Equal(v, written)
  {
    var written := Unfold(h, r, df.sortKeys, {}).value;
    UnfoldWellFormed(h, r, df.sortKeys, {});
    TreeRoundTrip(written, df, f);
    if df.sortKeys {
      UnsortedToo(h, r);
      UnfoldSorted(h, r, {});
    }
    UnfoldWellFormed(h, r, false, {});
    if df.sortKeys {
      SortDeepEqual(Unfold(h, r, false, {}).value);
    } else {
      EqualToItself(written);
    }
  }

  /** A value that unfolds with sorted keys unfolds without. */
  lemma {:induction false} UnsortedToo(h: Heap, r: Ref)
    requires Unfold(h, r, true, {}).Some?
    ensures Unfold(h, r, false, {}).Some?
  {
    if Unfold(h, r, false, {}).None? {
      var p := BlockedPath(h, r, false, {});
      NoBlockedPath(h, r, true, {}, p);
    }
  }

  lemma {:induction false} EqualToItself(v: Json)
    requires WellFormed(v)
    ensures Equal(v, v)
    decreases v, 0
  {
    match v
    case Array(items) => EqualItemsToThemselves(items);
    case Object(fields) =>
      forall i | 0 <= i < |fields| ensures Assoc.Get(fields, fields[i].key) == Some(fields[i].value) {
        FindAt(fields, i);
      }
      EqualFieldsOf(fields, fields);
    case _ =>
  }

  lemma {:induction false} EqualItemsToThemselves(items: seq<Json>)
    requires WellFormedItems(items)
    ensures EqualItems(items, items)
    decreases items, 1
  {
    if items != [] {
      EqualToItself(items[0]);
      EqualItemsToThemselves(items[1..]);
    }
  }

  lemma {:induction false} EqualFieldsOf(fields: seq<Pair<Json>>, y: seq<Pair<Json>>)
    requires WellFormedFields(fields)
    requires forall i :: 0 <= i < |fields| ==> Assoc.Get(y, fields[i].key) == Some(fields[i].value)
    ensures EqualFields(fields, y)
    decreases fields, 1
  {
    if fields != [] {
      EqualToItself(fields[0].value);
      EqualFieldsOf(fields[1..], y);
    }
  }
}
