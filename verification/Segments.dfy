/**
 Sequences whose elements are grouped by a number: the elements with one number are next to each
 other. This is how jansson/hashtable.c keeps its buckets, as segments of one list.
 */
module Segments {
  import opened IntrusiveList

  /** The first position of `b`, or the length. */
  function First(ids: seq<nat>, b: nat): (i: nat)
    ensures i <= |ids| && (i < |ids| ==> ids[i] == b)
    ensures forall k :: 0 <= k < i ==> ids[k] != b
  {
    if ids == [] || ids[0] == b then 0 else 1 + First(ids[1..], b)
  }

  /** The position after the last `b`, or zero. */
  function End(ids: seq<nat>, b: nat): (i: nat)
    ensures i <= |ids| && (i > 0 ==> ids[i - 1] == b)
    ensures forall k :: i <= k < |ids| ==> ids[k] != b
  {
    if ids == [] || ids[|ids| - 1] == b then |ids| else End(ids[..|ids| - 1], b)
  }

  ghost predicate Grouped(ids: seq<nat>) {
    forall i, j, k :: 0 <= i <= j <= k < |ids| && ids[i] == ids[k] ==> ids[j] == ids[i]
  }

  /** The ends of the segment of a number. */
  datatype Segment<T> = Empty | Span(first: T, last: T)

  function SegmentOf<T>(s: seq<T>, ids: seq<nat>, b: nat): Segment<T>
    requires |s| == |ids|
  {
    var i := First(ids, b);
    if i == |ids| then Empty else assert b in ids; Span(s[i], s[End(ids, b) - 1])
  }

  lemma SpanIs<T>(s: seq<T>, ids: seq<nat>, b: nat, first: nat, last: nat)
    requires |s| == |ids| && first < |s| && last < |s| && ids[first] == b && ids[last] == b
    requires forall k :: 0 <= k < first ==> ids[k] != b
    requires forall k :: last < k < |ids| ==> ids[k] != b
    ensures SegmentOf(s, ids, b) == Span(s[first], s[last])
  {
    assert First(ids, b) == first;
    assert End(ids, b) == last + 1;
  }

  /** The definition of a segment, without the recursion. */
  lemma Ends<T>(s: seq<T>, ids: seq<nat>, b: nat)
    requires |s| == |ids|
    ensures b !in ids <==> First(ids, b) == |ids|
    ensures b in ids ==> First(ids, b) < End(ids, b) && SegmentOf(s, ids, b) == Span(s[First(ids, b)], s[End(ids, b) - 1])
    ensures b !in ids ==> SegmentOf(s, ids, b) == Empty
  {
  }

  /** In a grouped sequence, a segment holds its number and nothing else. */
  lemma Inside(ids: seq<nat>, b: nat, k: nat)
    requires Grouped(ids) && k < |ids|
    ensures ids[k] == b <==> First(ids, b) <= k < End(ids, b)
  {
    if First(ids, b) <= k < End(ids, b) {
      assert ids[First(ids, b)] == b && ids[End(ids, b) - 1] == b;
    }
  }

  /** Where insert_to_bucket puts an element: in front of its segment, or at the end if that is empty. */
  lemma InsertSegment<T>(s: seq<T>, ids: seq<nat>, x: T, b: nat, c: nat)
    requires |s| == |ids| && Grouped(ids)
    ensures var k := First(ids, b);
      && |Insert(s, k, x)| == |Insert<nat>(ids, k, b)| == |s| + 1
      && var now := SegmentOf(Insert(s, k, x), Insert<nat>(ids, k, b), c);
      && (c != b ==> now == SegmentOf(s, ids, c))
      && (c == b && k == |ids| ==> now == Span(x, x))
      && (c == b && k < |ids| ==> SegmentOf(s, ids, b).Span? && now == Span(x, SegmentOf(s, ids, b).last))
  {
    hide Insert, First, End, SegmentOf;
    var k := First(ids, b);
    InsertAt(s, k, x);
    InsertAt<nat>(ids, k, b);
    Ends(s, ids, b);
    Ends(s, ids, c);
    var s', ids' := Insert(s, k, x), Insert<nat>(ids, k, b);
    if c == b {
      SpanIs(s', ids', b, k, if k == |ids| then k else End(ids, b));
    } else if c in ids {
      var i, j := First(ids, c), End(ids, c) - 1;
      SpanIs(s', ids', c, if i < k then i else i + 1, if j < k then j else j + 1);
    } else {
      assert c !in ids';
      Ends(s', ids', c);
    }
  }

  lemma InsertGrouped(ids: seq<nat>, b: nat)
    requires Grouped(ids)
    ensures Grouped(Insert<nat>(ids, First(ids, b), b))
  {
    var k := First(ids, b);
    InsertAt<nat>(ids, k, b);
    var ids' := Insert<nat>(ids, k, b);
    hide Insert;
    forall i, j, l | 0 <= i <= j <= l < |ids'| && ids'[i] == ids'[l] ensures ids'[j] == ids'[i] {
      var i0, j0, l0 := if i < k then i else i - 1, if j < k then j else j - 1, if l < k then l else l - 1;
      if i != k && j != k && l != k {
        assert ids[i0] == ids[l0];
      } else if i == k && j != k && l != k {
        assert ids[k] == b && ids[l0] == b;
      }
    }
  }

  /** What deleting position `k` does to the segment ends. */
  lemma DeleteSegment<T>(s: seq<T>, ids: seq<nat>, k: nat, c: nat)
    requires |s| == |ids| && Grouped(ids) && k < |s|
    ensures |Delete(s, k)| == |Delete<nat>(ids, k)| == |s| - 1 && Grouped(Delete<nat>(ids, k))
    ensures First(ids, ids[k]) <= k < End(ids, ids[k]) <= |ids|
    ensures
      var now, first, last := SegmentOf(Delete(s, k), Delete<nat>(ids, k), c), First(ids, c), End(ids, c) - 1;
      && (c != ids[k] ==> now == SegmentOf(s, ids, c))
      && (c == ids[k] ==>
        && SegmentOf(s, ids, c) == Span(s[first], s[last])
        && (k == first && k == last ==> now == Empty)
        && (k == first && k != last ==> k + 1 < |s| && now == Span(s[k + 1], s[last]))
        && (k != first && k == last ==> now == Span(s[first], s[k - 1]))
        && (k != first && k != last ==> now == SegmentOf(s, ids, c)))
  {
    hide Delete, First, End, SegmentOf;
    DeleteAt(s, k);
    DeleteAt<nat>(ids, k);
    Ends(s, ids, c);
    Ends(s, ids, ids[k]);
    Inside(ids, ids[k], k);
    var s', ids' := Delete(s, k), Delete<nat>(ids, k);
    var first, end := First(ids, c), End(ids, c);
    if c !in ids || (c == ids[k] && k == first && k + 1 == end) {
      assert c !in ids';
      Ends(s', ids', c);
    } else if c == ids[k] {
      SegmentShrinks(s, ids, k);
    } else {
      SpanIs(s', ids', c, if first < k then first else first - 1, if end - 1 < k then end - 1 else end - 2);
    }
  }

  /** The segment of the element that goes, if it had others. */
  lemma SegmentShrinks<T>(s: seq<T>, ids: seq<nat>, k: nat)
    requires |s| == |ids| && Grouped(ids) && k < |s|
    requires First(ids, ids[k]) <= k < End(ids, ids[k]) <= |ids| && End(ids, ids[k]) - First(ids, ids[k]) > 1
    ensures var first, last := First(ids, ids[k]), End(ids, ids[k]) - 1;
      SegmentOf(Delete(s, k), Delete<nat>(ids, k), ids[k]) ==
        Span(s[if k == first then k + 1 else first], s[if k == last then k - 1 else last])
  {
    hide Delete, First, End, SegmentOf;
    DeleteAt(s, k);
    DeleteAt<nat>(ids, k);
    var c := ids[k];
    var first, end := First(ids, c), End(ids, c);
    Ends(s, ids, c);
    Inside(ids, c, if k == first then k + 1 else k - 1);
    SpanIs(Delete(s, k), Delete<nat>(ids, k), c, first, end - 2);
  }
}
