/** A map of a finite set to itself that has an inverse on one side has it on both. */
module Permutations {
  ghost function Image<T>(f: T -> T, s: set<T>): set<T> {
    set x | x in s :: f(x)
  }

  lemma {:induction false} ImageSize<T>(f: T -> T, g: T -> T, s: set<T>)
    requires forall x :: x in s ==> g(f(x)) == x
    ensures |Image(f, s)| == |s|
  {
    if x :| x in s {
      ImageSize(f, g, s - {x});
      assert f(x) !in Image(f, s - {x});
      assert Image(f, s) == Image(f, s - {x}) + {f(x)};
    } else {
      assert s == {} && Image(f, s) == {};
    }
  }

  lemma SameSize<T>(a: set<T>, b: set<T>)
    requires a <= b && |a| == |b|
    ensures a == b
  {
    assert b == a + (b - a);
    assert |b - a| == 0;
  }

  lemma InverseBothWays<T>(f: T -> T, g: T -> T, s: set<T>, y: T)
    requires forall x :: x in s ==> f(x) in s && g(f(x)) == x
    requires y in s
    ensures f(g(y)) == y
  {
    ImageSize(f, g, s);
    SameSize(Image(f, s), s);
    assert y in Image(f, s);
  }

  // ---- Strings of bytes ----

  function ByteOf(i: int): bv8
    requires 0 <= i < 256
  {
    i as bv8
  }

  /** All strings of `n` bytes. */
  ghost function Strings(n: nat): (all: set<seq<bv8>>)
    ensures forall s :: s in all <==> |s| == n
  {
    if n == 0 then {[]}
    else
      var all := set s, i | s in Strings(n - 1) && 0 <= i < 256 :: s + [ByteOf(i)];
      StringsAre(n, all);
      all
  }

  lemma StringsAre(n: nat, all: set<seq<bv8>>)
    requires n > 0 && all == set s, i | s in Strings(n - 1) && 0 <= i < 256 :: s + [ByteOf(i)]
    ensures forall s :: s in all <==> |s| == n
    decreases n, 0
  {
    forall s: seq<bv8> | |s| == n ensures s in all {
      var b := s[n - 1];
      assert ByteOf(b as int) == b;
      assert s == s[..n - 1] + [ByteOf(b as int)];
    }
  }
}
