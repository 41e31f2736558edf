/**
 * Sequence helpers shared by the collection-editing code: filtering, and the
 * first-occurrence removal that `Collection<T>.Remove` performs.
 */
module Sequences {

  import opened Wrappers

  /** The elements of `s` that satisfy `p`, in order. */
  function Filter<T>(s: seq<T>, p: T -> bool): (r: seq<T>)
    ensures |r| <= |s|
  {
    if s == [] then [] else (if p(s[0]) then [s[0]] else []) + Filter(s[1..], p)
  }

  /** An element is kept by `Filter` exactly when it occurs and satisfies `p`. */
  lemma {:induction false} FilterMembers<T>(s: seq<T>, p: T -> bool)
    ensures forall x :: x in Filter(s, p) <==> x in s && p(x)
  {
    if s != [] {
      FilterMembers(s[1..], p);
      assert s == [s[0]] + s[1..];
    }
  }

  /** The elements of `s` that do not satisfy `p`, in order. */
  function FilterOut<T>(s: seq<T>, p: T -> bool): (r: seq<T>)
    ensures |r| <= |s|
  {
    if s == [] then [] else (if p(s[0]) then [] else [s[0]]) + FilterOut(s[1..], p)
  }

  /** An element is kept by `FilterOut` exactly when it occurs and fails `p`. */
  lemma {:induction false} FilterOutMembers<T>(s: seq<T>, p: T -> bool)
    ensures forall x :: x in FilterOut(s, p) <==> x in s && !p(x)
  {
    if s != [] {
      FilterOutMembers(s[1..], p);
      assert s == [s[0]] + s[1..];
    }
  }
  /** Each element `FilterOut` keeps occurs in the input and fails `p`. */
  lemma FilterOutAt<T>(s: seq<T>, p: T -> bool)
    ensures forall i :: 0 <= i < |FilterOut(s, p)| ==> FilterOut(s, p)[i] in s && !p(FilterOut(s, p)[i])
  {
    FilterOutMembers(s, p);
    assert forall i :: 0 <= i < |FilterOut(s, p)| ==> FilterOut(s, p)[i] in FilterOut(s, p);
  }


  lemma {:induction false} FilterAppend<T>(a: seq<T>, b: seq<T>, p: T -> bool)
    ensures Filter(a + b, p) == Filter(a, p) + Filter(b, p)
  {
    if a == [] {
      assert a + b == b;
    } else {
      var head := if p(a[0]) then [a[0]] else [];
      assert (a + b)[0] == a[0];
      assert (a + b)[1..] == a[1..] + b;
      assert Filter(a + b, p) == head + Filter(a[1..] + b, p);
      FilterAppend(a[1..], b, p);
      assert Filter(a, p) == head + Filter(a[1..], p);
    }
  }

  /** Filtering one more element of a prefix appends it when it satisfies `p`. */
  lemma FilterPrefixStep<T>(s: seq<T>, i: nat, p: T -> bool)
    requires i < |s|
    ensures Filter(s[..i + 1], p) == Filter(s[..i], p) + (if p(s[i]) then [s[i]] else [])
  {
    FilterAppend(s[..i], [s[i]], p);
    assert s[..i + 1] == s[..i] + [s[i]];
  }

  lemma {:induction false} FilterOutAppend<T>(a: seq<T>, b: seq<T>, p: T -> bool)
    ensures FilterOut(a + b, p) == FilterOut(a, p) + FilterOut(b, p)
  {
    if a == [] {
      assert a + b == b;
    } else {
      assert (a + b)[1..] == a[1..] + b;
      FilterOutAppend(a[1..], b, p);
    }
  }

  /** Removes the first element equal to `x`, as `Collection<T>.Remove` does. */
  function RemoveFirst<T(==)>(s: seq<T>, x: T): (r: seq<T>)
    ensures x !in s ==> r == s
    ensures x in s ==> |r| == |s| - 1
    ensures forall i :: 0 <= i < |r| ==> r[i] in s
  {
    if s == [] then []
    else if s[0] == x then s[1..]
    else [s[0]] + RemoveFirst(s[1..], x)
  }

  /** Removes each element of `items` in turn, by `RemoveFirst`. */
  function RemoveEach<T(==)>(s: seq<T>, items: seq<T>): (r: seq<T>)
    decreases |items|
  {
    if items == [] then s else RemoveEach(RemoveFirst(s, items[0]), items[1..])
  }

  lemma {:induction false} RemoveEachSkipsHead<T>(x: T, t: seq<T>, items: seq<T>)
    requires x !in items
    ensures RemoveEach([x] + t, items) == [x] + RemoveEach(t, items)
    decreases |items|
  {
    if items != [] {
      assert ([x] + t)[1..] == t;
      assert RemoveFirst([x] + t, items[0]) == [x] + RemoveFirst(t, items[0]);
      RemoveEachSkipsHead(x, RemoveFirst(t, items[0]), items[1..]);
    }
  }

  /**
   * Removing, one by one and in order, the elements of `s` that satisfy `p`
   * leaves exactly the elements that do not: the "collect then remove" idiom
   * the source uses is a filter.
   */
  lemma {:induction false} RemoveFilteredIsFilterOut<T>(s: seq<T>, p: T -> bool)
    ensures RemoveEach(s, Filter(s, p)) == FilterOut(s, p)
  {
    if s != [] {
      RemoveFilteredIsFilterOut(s[1..], p);
      assert [s[0]] + s[1..] == s;
      if p(s[0]) {
        assert Filter(s, p) == [s[0]] + Filter(s[1..], p);
        assert RemoveFirst(s, s[0]) == s[1..];
      } else {
        assert Filter(s, p) == Filter(s[1..], p);
        FilterMembers(s[1..], p);
        assert s[0] !in Filter(s[1..], p);
        RemoveEachSkipsHead(s[0], s[1..], Filter(s[1..], p));
      }
    }
  }

  /** True when no element occurs twice. */
  predicate Distinct<T(==)>(s: seq<T>)
  {
    forall i, j :: 0 <= i < j < |s| ==> s[i] != s[j]
  }

  /** The index of the first element equal to `x`, as `IList<T>.IndexOf` gives it. */
  function IndexOf<T(==)>(s: seq<T>, x: T): (r: nat)
    requires x in s
    ensures r < |s| && s[r] == x
    ensures forall j :: 0 <= j < r ==> s[j] != x
  {
    if s[0] == x then 0 else 1 + IndexOf(s[1..], x)
  }

  /** `Enumerable.Zip`: pairs up the two sequences as far as the shorter one goes. */
  function Zip<A, B>(a: seq<A>, b: seq<B>): (r: seq<(A, B)>)
    ensures |r| == if |a| <= |b| then |a| else |b|
    ensures forall i :: 0 <= i < |r| ==> r[i] == (a[i], b[i])
  {
    if a == [] || b == [] then [] else [(a[0], b[0])] + Zip(a[1..], b[1..])
  }

  /** `Enumerable.Select`: `f` applied to every element, in order. */
  function Map<A, B>(s: seq<A>, f: A -> B): (r: seq<B>)
    ensures |r| == |s|
    ensures forall i :: 0 <= i < |s| ==> r[i] == f(s[i])
  {
    if s == [] then [] else [f(s[0])] + Map(s[1..], f)
  }

  /** The index of the first element satisfying `p`, as `FirstOrDefault` finds it; None when there is none. */
  function FirstWhere<T>(s: seq<T>, p: T -> bool): (r: Option<nat>)
    ensures r.None? ==> forall i :: 0 <= i < |s| ==> !p(s[i])
    ensures r.Some? ==> r.value < |s| && p(s[r.value]) && forall j :: 0 <= j < r.value ==> !p(s[j])
  {
    if s == [] then None
    else if p(s[0]) then Some(0)
    else match FirstWhere(s[1..], p)
      case None => None
      case Some(i) => Some(i + 1)
  }

  /** Filtering keeps distinct elements distinct. */
  lemma {:induction false} FilterOutDistinct<T>(s: seq<T>, p: T -> bool)
    requires Distinct(s)
    ensures Distinct(FilterOut(s, p))
  {
    if s != [] {
      var head := if p(s[0]) then [] else [s[0]];
      var tail := FilterOut(s[1..], p);
      assert Distinct(s[1..]) by {
        forall i, j | 0 <= i < j < |s[1..]| ensures s[1..][i] != s[1..][j] {
          assert s[1..][i] == s[i + 1] && s[1..][j] == s[j + 1];
        }
      }
      FilterOutDistinct(s[1..], p);
      FilterOutMembers(s[1..], p);
      assert s[0] !in s[1..] by {
        forall k | 0 <= k < |s[1..]| ensures s[1..][k] != s[0] {
          assert s[1..][k] == s[k + 1];
        }
      }
      assert FilterOut(s, p) == head + tail;
      forall i, j | 0 <= i < j < |head + tail| ensures (head + tail)[i] != (head + tail)[j] {
        if i >= |head| {
          assert (head + tail)[i] == tail[i - |head|] && (head + tail)[j] == tail[j - |head|];
        } else {
          assert (head + tail)[j] == tail[j - 1] && tail[j - 1] in tail;
        }
      }
    }
  }

  /** Two tests that agree on every element of `s` filter it alike. */
  lemma {:induction false} FilterOutAgree<T>(s: seq<T>, p: T -> bool, q: T -> bool)
    requires forall x :: x in s ==> p(x) == q(x)
    ensures FilterOut(s, p) == FilterOut(s, q)
  {
    if s != [] {
      assert forall x :: x in s[1..] ==> x in s;
      FilterOutAgree(s[1..], p, q);
    }
  }

  /** The test "is one of `items`". */
  function In<T(==)>(items: seq<T>): T -> bool
  {
    (x: T) => x in items
  }

  /** The test "is not one of `items`". */
  function NotIn<T(==)>(items: seq<T>): T -> bool
  {
    (x: T) => x !in items
  }

  /**
   * On a sequence without repeats, removing each of `items` in turn by
   * `RemoveFirst` removes exactly the elements that are among the items and
   * keeps the others in their order.
   */
  lemma {:induction false} RemoveEachDistinct<T>(s: seq<T>, items: seq<T>)
    requires Distinct(s)
    ensures RemoveEach(s, items) == FilterOut(s, In(items))
    decreases |items|
  {
    if items == [] {
      FilterOutAgree(s, In(items), (x: T) => false);
      FilterOutNothing(s);
    } else {
      var s' := RemoveFirst(s, items[0]);
      RemoveFirstDistinct(s, items[0]);
      RemoveEachDistinct(s', items[1..]);
      RemoveFirstFilterOut(s, items[0], items[1..]);
      assert [items[0]] + items[1..] == items;
    }
  }

  lemma {:induction false} FilterOutNothing<T>(s: seq<T>)
    ensures FilterOut(s, (x: T) => false) == s
  {
    if s != [] {
      FilterOutNothing(s[1..]);
    }
  }

  lemma {:induction false} RemoveFirstDistinct<T>(s: seq<T>, x: T)
    requires Distinct(s)
    ensures Distinct(RemoveFirst(s, x))
  {
    var r := RemoveFirst(s, x);
    if s != [] && s[0] != x {
      assert Distinct(s[1..]) by {
        forall i, j | 0 <= i < j < |s[1..]| ensures s[1..][i] != s[1..][j] {
          assert s[1..][i] == s[i + 1] && s[1..][j] == s[j + 1];
        }
      }
      RemoveFirstDistinct(s[1..], x);
      var t := RemoveFirst(s[1..], x);
      assert s[0] !in s[1..] by {
        forall k | 0 <= k < |s[1..]| ensures s[1..][k] != s[0] {
          assert s[1..][k] == s[k + 1];
        }
      }
      forall i, j | 0 <= i < j < |r| ensures r[i] != r[j] {
        assert r[j] == t[j - 1] && t[j - 1] in s[1..];
        if i > 0 {
          assert r[i] == t[i - 1];
        }
      }
    } else if s != [] {
      forall i, j | 0 <= i < j < |r| ensures r[i] != r[j] {
        assert r[i] == s[i + 1] && r[j] == s[j + 1];
      }
    }
  }

  lemma {:induction false} RemoveFirstFilterOut<T>(s: seq<T>, x: T, rest: seq<T>)
    requires Distinct(s)
    ensures FilterOut(RemoveFirst(s, x), In(rest)) == FilterOut(s, In([x] + rest))
  {
    if s != [] {
      assert Distinct(s[1..]) by {
        forall i, j | 0 <= i < j < |s[1..]| ensures s[1..][i] != s[1..][j] {
          assert s[1..][i] == s[i + 1] && s[1..][j] == s[j + 1];
        }
      }
      if s[0] == x {
        assert x !in s[1..] by {
          forall k | 0 <= k < |s[1..]| ensures s[1..][k] != s[0] {
            assert s[1..][k] == s[k + 1];
          }
        }
        FilterOutAgree(s[1..], In(rest), In([x] + rest));
      } else {
        RemoveFirstFilterOut(s[1..], x, rest);
        assert RemoveFirst(s, x) == [s[0]] + RemoveFirst(s[1..], x);
        assert ([s[0]] + RemoveFirst(s[1..], x))[1..] == RemoveFirst(s[1..], x);
      }
    }
  }

  /** The test `p`, widened to accept `x` as well. */
  function OrIs<T(==)>(p: T -> bool, x: T): T -> bool
  {
    (y: T) => p(y) || y == x
  }

  /** Removing one more element from a filtered list without repeats filters that element out too. */
  lemma {:induction false} RemoveFirstOfFiltered<T>(s: seq<T>, p: T -> bool, x: T)
    requires Distinct(s)
    ensures RemoveFirst(FilterOut(s, p), x) == FilterOut(s, OrIs(p, x))
  {
    if s != [] {
      var q := OrIs(p, x);
      var tail := s[1..];
      assert Distinct(tail) by {
        forall i, j | 0 <= i < j < |tail| ensures tail[i] != tail[j] {
          assert tail[i] == s[i + 1] && tail[j] == s[j + 1];
        }
      }
      RemoveFirstOfFiltered(tail, p, x);
      var rest := FilterOut(tail, p);
      if p(s[0]) {
        assert q(s[0]);
        assert FilterOut(s, p) == rest;
        assert FilterOut(s, q) == FilterOut(tail, q);
      } else if s[0] == x {
        assert q(s[0]);
        assert FilterOut(s, p) == [s[0]] + rest;
        assert FilterOut(s, q) == FilterOut(tail, q);
        assert x !in tail by {
          forall k | 0 <= k < |tail| ensures tail[k] != s[0] {
            assert tail[k] == s[k + 1];
          }
        }
        assert RemoveFirst([s[0]] + rest, x) == rest;
        FilterOutAgree(tail, p, q);
      } else {
        assert !q(s[0]);
        assert FilterOut(s, p) == [s[0]] + rest;
        assert FilterOut(s, q) == [s[0]] + FilterOut(tail, q);
        assert RemoveFirst([s[0]] + rest, x) == [s[0]] + RemoveFirst(rest, x);
      }
    }
  }

  /** The images of a prefix are the prefix of the images. */
  lemma MapPrefix<A, B>(s: seq<A>, n: nat, f: A -> B)
    requires n <= |s|
    ensures Map(s[..n], f) == Map(s, f)[..n]
  {
    assert forall i :: 0 <= i < n ==> Map(s[..n], f)[i] == f(s[i]);
  }
}
