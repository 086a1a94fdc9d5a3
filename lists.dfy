/**
  The array operations the screens use on their lists: `Array.prototype.filter`
  with an element predicate, and `filter((_, i) => i !== index)`, which drops
  the element at one position.
 */
module Lists {

  /** `s.filter(p)`: the elements satisfying `p`, in their order. */
  function Filter<T>(s: seq<T>, p: T -> bool): (r: seq<T>)
    ensures |r| <= |s|
  {
    if s == [] then []
    else (if p(s[0]) then [s[0]] else []) + Filter(s[1..], p)
  }

  /** The filter keeps exactly the elements that satisfy `p`. */
  lemma {:induction false} FilterMember<T>(s: seq<T>, p: T -> bool, x: T)
    ensures x in Filter(s, p) <==> x in s && p(x)
  {
    if s != [] {
      FilterMember(s[1..], p, x);
      assert s == [s[0]] + s[1..];
    }
  }

  /** Everything the filter keeps satisfies `p`. */
  lemma {:induction false} FilterPasses<T>(s: seq<T>, p: T -> bool)
    ensures forall k :: 0 <= k < |Filter(s, p)| ==> p(Filter(s, p)[k])
  {
    if s != [] {
      FilterPasses(s[1..], p);
    }
  }

  /** Filtering a concatenation filters each part and keeps the parts in order,
      so the result is an order-preserving subsequence. */
  lemma {:induction false} FilterAppend<T>(a: seq<T>, b: seq<T>, p: T -> bool)
    ensures Filter(a + b, p) == Filter(a, p) + Filter(b, p)
  {
    if a == [] {
      assert a + b == b;
    } else {
      var ab := a + b;
      assert ab[0] == a[0];
      assert ab[1..] == a[1..] + b;
      FilterAppend(a[1..], b, p);
      var head := if p(a[0]) then [a[0]] else [];
      assert Filter(ab, p) == head + Filter(a[1..] + b, p);
      assert Filter(a, p) == head + Filter(a[1..], p);
    }
  }

  /** When every element passes, the filter keeps the whole list. */
  lemma {:induction false} FilterKeepsAll<T>(s: seq<T>, p: T -> bool)
    requires forall k :: 0 <= k < |s| ==> p(s[k])
    ensures Filter(s, p) == s
  {
    if s != [] {
      FilterKeepsAll(s[1..], p);
      assert [s[0]] + s[1..] == s;
    }
  }

  /** Filtering twice with the same predicate is filtering once. */
  lemma FilterIdempotent<T>(s: seq<T>, p: T -> bool)
    ensures Filter(Filter(s, p), p) == Filter(s, p)
  {
    var r := Filter(s, p);
    FilterPasses(s, p);
    FilterKeepsAll(r, p);
  }

  /** The positions lo .. n-1 of `s` whose element satisfies `p`, in order. */
  function Positions<T>(s: seq<T>, p: T -> bool, lo: nat, n: nat): (ix: seq<nat>)
    requires n <= |s|
    ensures forall j :: 0 <= j < |ix| ==> lo <= ix[j] < n
  {
    if n <= lo then []
    else Positions(s, p, lo, n - 1) + (if p(s[n - 1]) then [n - 1] else [])
  }

  /** A position is listed exactly when it is in range and its element passes. */
  lemma {:induction false} PositionsSpec<T>(s: seq<T>, p: T -> bool, lo: nat, n: nat, k: nat)
    requires n <= |s|
    ensures k in Positions(s, p, lo, n) <==> lo <= k < n && p(s[k])
  {
    if n > lo {
      PositionsSpec(s, p, lo, n - 1, k);
    }
  }

  /** The positions are listed in increasing order, so each at most once. */
  lemma {:induction false} PositionsOrdered<T>(s: seq<T>, p: T -> bool, lo: nat, n: nat)
    requires n <= |s|
    ensures forall i, j :: 0 <= i < j < |Positions(s, p, lo, n)| ==>
      Positions(s, p, lo, n)[i] < Positions(s, p, lo, n)[j]
  {
    if n > lo {
      PositionsOrdered(s, p, lo, n - 1);
    }
  }

  /** No more positions than the range holds. */
  lemma {:induction false} PositionsCount<T>(s: seq<T>, p: T -> bool, lo: nat, n: nat)
    requires lo <= n <= |s|
    ensures |Positions(s, p, lo, n)| <= n - lo
  {
    if n > lo {
      PositionsCount(s, p, lo, n - 1);
    }
  }

  /** The loop `for (k = lo; k < n; k++) if (p(s[k])) out.push(f(k, s[k]))`. */
  function Collect<T, U>(s: seq<T>, p: T -> bool, f: (nat, T) -> U, lo: nat, n: nat): seq<U>
    requires n <= |s|
  {
    if n <= lo then []
    else Collect(s, p, f, lo, n - 1) + (if p(s[n - 1]) then [f(n - 1, s[n - 1])] else [])
  }

  /** What the loop pushes is one record per passing position, in order. */
  lemma {:induction false} CollectAtPositions<T, U>(s: seq<T>, p: T -> bool, f: (nat, T) -> U, lo: nat, n: nat)
    requires n <= |s|
    ensures |Collect(s, p, f, lo, n)| == |Positions(s, p, lo, n)|
    ensures forall j :: 0 <= j < |Collect(s, p, f, lo, n)| ==>
      Collect(s, p, f, lo, n)[j] == f(Positions(s, p, lo, n)[j], s[Positions(s, p, lo, n)[j]])
  {
    if n > lo {
      CollectAtPositions(s, p, f, lo, n - 1);
      var c, ix := Collect(s, p, f, lo, n - 1), Positions(s, p, lo, n - 1);
      if p(s[n - 1]) {
        assert Collect(s, p, f, lo, n) == c + [f(n - 1, s[n - 1])];
        assert Positions(s, p, lo, n) == ix + [n - 1];
      } else {
        assert Collect(s, p, f, lo, n) == c;
        assert Positions(s, p, lo, n) == ix;
      }
    }
  }

  /** When every element in range passes, every position is listed and the
      loop pushes one record per position. */
  lemma {:induction false} CollectAll<T, U>(s: seq<T>, p: T -> bool, f: (nat, T) -> U, lo: nat, n: nat)
    requires lo <= n <= |s|
    requires forall k :: lo <= k < n ==> p(s[k])
    ensures |Collect(s, p, f, lo, n)| == n - lo
    ensures forall j :: 0 <= j < n - lo ==> Collect(s, p, f, lo, n)[j] == f(lo + j, s[lo + j])
  {
    if n > lo {
      CollectAll(s, p, f, lo, n - 1);
      assert Collect(s, p, f, lo, n) == Collect(s, p, f, lo, n - 1) + [f(n - 1, s[n - 1])];
    }
  }

  /** When every position passes and the view `g` of each record is the
      expected value for its position, the views of what the loop pushes are
      the expected values, in order. */
  lemma CollectAllExpected<T, U, V>(s: seq<T>, p: T -> bool, f: (nat, T) -> U, g: U -> V, expected: seq<V>, lo: nat, n: nat)
    requires lo <= n <= |s| && |expected| == n - lo
    requires forall k :: lo <= k < n ==> p(s[k])
    requires forall k :: lo <= k < n ==> g(f(k, s[k])) == expected[k - lo]
    ensures |Collect(s, p, f, lo, n)| == n - lo
    ensures forall j :: 0 <= j < n - lo ==> g(Collect(s, p, f, lo, n)[j]) == expected[j]
  {
    CollectAll(s, p, f, lo, n);
    forall j | 0 <= j < n - lo ensures g(Collect(s, p, f, lo, n)[j]) == expected[j] {
      assert Collect(s, p, f, lo, n)[j] == f(lo + j, s[lo + j]);
    }
  }

  /** Position k + 1 of a list with one element put in front is position k
      of the list. */
  lemma ConsIndex<T>(h: T, s: seq<T>, k: nat)
    requires k < |s|
    ensures ([h] + s)[k + 1] == s[k]
  {
  }

  /** `s.filter((_, i) => i !== index)`. */
  function DropIndex<T>(s: seq<T>, index: int): seq<T> {
    if s == [] then []
    else (if index == 0 then [] else [s[0]]) + DropIndex(s[1..], index - 1)
  }

  /** Dropping position `index` removes exactly that element and keeps the
      order of the rest; an index outside the list changes nothing. */
  lemma {:induction false} DropIndexSpec<T>(s: seq<T>, index: int)
    ensures 0 <= index < |s| ==> DropIndex(s, index) == s[..index] + s[index + 1..]
    ensures !(0 <= index < |s|) ==> DropIndex(s, index) == s
  {
    if s != [] {
      DropIndexSpec(s[1..], index - 1);
      if index == 0 {
        assert s[..0] + s[1..] == s[1..];
      } else if 0 < index < |s| {
        assert [s[0]] + (s[1..][..index - 1] + s[1..][index..]) == s[..index] + s[index + 1..];
      } else {
        assert [s[0]] + s[1..] == s;
      }
    }
  }
}
