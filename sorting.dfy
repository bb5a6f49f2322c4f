/** Sorting of finite collections into strictly ascending sequences.
    Python's `sorted(set(...))` and `sorted(list(set(...)))` are both
    modelled here, generically over the element order. */
module Sorting {

  /** `less` is irreflexive, transitive and total on distinct elements. */
  ghost predicate IsStrictTotalOrder<T(!new)>(less: (T, T) -> bool) {
    && (forall x :: !less(x, x))
    && (forall x, y, z :: less(x, y) && less(y, z) ==> less(x, z))
    && (forall x, y :: x != y ==> less(x, y) || less(y, x))
  }

  /** Every element is strictly smaller than every later one (so no duplicates). */
  ghost predicate Ascending<T>(xs: seq<T>, less: (T, T) -> bool) {
    forall i, j :: 0 <= i < j < |xs| ==> less(xs[i], xs[j])
  }

  /** Python's `<` on integers, as a value that can be passed to the sorts. */
  predicate IntLess(a: int, b: int) {
    a < b
  }

  lemma IntLessIsStrictTotalOrder()
    ensures IsStrictTotalOrder(IntLess)
  {
  }

  ghost function Elems<T>(xs: seq<T>): set<T> {
    set x | x in xs
  }

  /** Inserts `x` into an ascending sequence, keeping it ascending; an element
      already present is not added twice. */
  function Insert<T(!new)>(x: T, xs: seq<T>, less: (T, T) -> bool): (r: seq<T>)
    requires IsStrictTotalOrder(less) && Ascending(xs, less)
    ensures Ascending(r, less)
    ensures Elems(r) == Elems(xs) + {x}
    ensures |r| == if x in xs then |xs| else |xs| + 1
  {
    if xs == [] then [x]
    else if less(x, xs[0]) then
      assert x !in xs by {
        forall i | 0 <= i < |xs| ensures xs[i] != x {
          if i > 0 { assert less(xs[0], xs[i]); }
        }
      }
      [x] + xs
    else if less(xs[0], x) then
      var tail := Insert(x, xs[1..], less);
      assert Elems(xs) == {xs[0]} + Elems(xs[1..]);
      assert x in xs <==> x in xs[1..];
      assert forall i :: 0 <= i < |tail| ==> less(xs[0], tail[i]) by {
        forall i | 0 <= i < |tail| ensures less(xs[0], tail[i]) {
          assert tail[i] in Elems(tail);
        }
      }
      assert Elems([xs[0]] + tail) == {xs[0]} + Elems(tail);
      [xs[0]] + tail
    else
      xs
  }

  /** `sorted(list(set(xs)))`: the distinct elements of `xs` in ascending order. */
  function SortedUnique<T(!new)>(xs: seq<T>, less: (T, T) -> bool): (r: seq<T>)
    requires IsStrictTotalOrder(less)
    ensures Ascending(r, less)
    ensures Elems(r) == Elems(xs)
  {
    if xs == [] then []
    else
      var init := xs[..|xs| - 1];
      assert Elems(xs) == Elems(init) + {xs[|xs| - 1]} by {
        assert xs == init + [xs[|xs| - 1]];
      }
      Insert(xs[|xs| - 1], SortedUnique(init, less), less)
  }

  /** Some sequence listing the elements of a finite set. */
  ghost function Enumerate<T>(s: set<T>): (r: seq<T>)
    ensures Elems(r) == s
    decreases |s|
  {
    if s == {} then []
    else
      var x :| x in s;
      var rest := Enumerate(s - {x});
      assert Elems([x] + rest) == {x} + Elems(rest);
      [x] + rest
  }

  /** `sorted(s)` for a set `s`: the one ascending sequence holding exactly `s`. */
  ghost function SortedSet<T(!new)>(s: set<T>, less: (T, T) -> bool): (r: seq<T>)
    requires IsStrictTotalOrder(less)
    ensures Ascending(r, less) && Elems(r) == s
  {
    SortedUnique(Enumerate(s), less)
  }

  /** Two ascending sequences with the same elements are equal: the sorted
      form of a collection does not depend on the order it was built in. */
  lemma {:induction false} AscendingUnique<T(!new)>(a: seq<T>, b: seq<T>, less: (T, T) -> bool)
    requires IsStrictTotalOrder(less)
    requires Ascending(a, less) && Ascending(b, less)
    requires Elems(a) == Elems(b)
    ensures a == b
  {
    AscendingCard(a, less);
    AscendingCard(b, less);
    if a != [] {
      assert a[0] == b[0] by {
        assert a[0] in Elems(b);
        assert b[0] in Elems(a);
      }
      AscendingTail(a, less);
      AscendingTail(b, less);
      AscendingUnique(a[1..], b[1..], less);
      assert a == [a[0]] + a[1..] && b == [b[0]] + b[1..];
    }
  }

  /** Dropping the head of an ascending sequence removes exactly that element. */
  lemma AscendingTail<T(!new)>(a: seq<T>, less: (T, T) -> bool)
    requires IsStrictTotalOrder(less) && Ascending(a, less) && a != []
    ensures Ascending(a[1..], less)
    ensures Elems(a[1..]) == Elems(a) - {a[0]}
  {
    assert a == [a[0]] + a[1..];
    forall x | x in a[1..] ensures x != a[0] {
      var i :| 0 <= i < |a[1..]| && a[1..][i] == x;
      assert less(a[0], a[i + 1]);
    }
  }

  /** An ascending sequence lists each of its elements exactly once. */
  lemma {:induction false} AscendingCard<T(!new)>(a: seq<T>, less: (T, T) -> bool)
    requires IsStrictTotalOrder(less) && Ascending(a, less)
    ensures |Elems(a)| == |a|
  {
    if a != [] {
      AscendingTail(a, less);
      AscendingCard(a[1..], less);
      assert Elems(a) == Elems(a[1..]) + {a[0]};
    }
  }

  /** `sorted(s)` for a set, computed by inserting the elements one by one in
      whatever order the set yields them. */
  method SortSet<T(==,!new)>(s: set<T>, less: (T, T) -> bool) returns (r: seq<T>)
    requires IsStrictTotalOrder(less)
    ensures Ascending(r, less) && Elems(r) == s && |r| == |s|
    ensures r == SortedSet(s, less)
  {
    r := [];
    var rest := s;
    while rest != {}
      invariant rest <= s
      invariant Ascending(r, less)
      invariant Elems(r) == s - rest
      decreases |rest|
    {
      var x :| x in rest;
      assert s - (rest - {x}) == (s - rest) + {x};
      r := Insert(x, r, less);
      rest := rest - {x};
    }
    AscendingCard(r, less);
    AscendingUnique(r, SortedSet(s, less), less);
  }

  /** Taking one more element appends it. */
  lemma TakeSnoc<T>(s: seq<T>, i: int)
    requires 0 <= i < |s|
    ensures s[..i + 1] == s[..i] + [s[i]]
  {
  }

  /** Taking every element gives the sequence back. */
  lemma TakeAll<T>(s: seq<T>)
    ensures s[..|s|] == s
  {
  }
}
