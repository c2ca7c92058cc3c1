/** ORDER BY and Array.prototype.sort, reduced to what the routes rely on:
    the result is a permutation of its input that is sorted by the requested
    order, and `slice(0, n)` keeps a prefix of it. An order is a relation
    `le(a, b)`, "a may be listed before b". */
module Ordering {

  /** Any two elements can be compared. */
  ghost predicate Total<T(!new)>(le: (T, T) -> bool) {
    forall a, b :: le(a, b) || le(b, a)
  }

  ghost predicate Transitive<T(!new)>(le: (T, T) -> bool) {
    forall a, b, c :: le(a, b) && le(b, c) ==> le(a, c)
  }

  /** A total preorder: what an ORDER BY key or a sort comparator induces. */
  ghost predicate TotalPreorder<T(!new)>(le: (T, T) -> bool) {
    Total(le) && Transitive(le)
  }

  predicate Sorted<T>(s: seq<T>, le: (T, T) -> bool) {
    forall i, j :: 0 <= i < j < |s| ==> le(s[i], s[j])
  }

  /** Put `x` before the first element it may precede. */
  function Insert<T(!new)>(x: T, s: seq<T>, le: (T, T) -> bool): (r: seq<T>)
    ensures |r| == |s| + 1
    ensures multiset(r) == multiset(s) + multiset{x}
    ensures TotalPreorder(le) && Sorted(s, le) ==> Sorted(r, le)
  {
    if s == [] || le(x, s[0]) then [x] + s
    else
      assert s == [s[0]] + s[1..];
      var t := Insert(x, s[1..], le);
      assert TotalPreorder(le) && Sorted(s, le) ==> Sorted([s[0]] + t, le) by {
        if TotalPreorder(le) && Sorted(s, le) {
          forall k | 0 <= k < |t| ensures le(s[0], t[k]) {
            assert t[k] in multiset(s[1..]) + multiset{x};
            if t[k] != x {
              assert t[k] in s[1..];
            }
          }
        }
      }
      [s[0]] + t
  }

  /** The sort the routes ask for: a permutation of the rows, sorted
      whenever the order is a total preorder. */
  function SortBy<T(!new)>(s: seq<T>, le: (T, T) -> bool): (r: seq<T>)
    ensures |r| == |s|
    ensures multiset(r) == multiset(s)
    ensures forall x :: x in r <==> x in s
    ensures TotalPreorder(le) ==> Sorted(r, le)
  {
    if s == [] then []
    else
      assert s == [s[0]] + s[1..];
      var r := Insert(s[0], SortBy(s[1..], le), le);
      assert forall x :: x in r <==> x in multiset(r);
      assert forall x :: x in s <==> x in multiset(s);
      r
  }

  /** `s.slice(0, n)`. */
  function Take<T>(s: seq<T>, n: nat): (r: seq<T>)
    ensures |r| == if |s| < n then |s| else n
    ensures forall i :: 0 <= i < |r| ==> r[i] == s[i]
  {
    if |s| < n then s else s[..n]
  }

  /** A prefix of a sorted sequence is sorted, and every element that
      `slice(0, n)` drops may follow the last one it keeps. */
  lemma TakeOfSorted<T>(s: seq<T>, n: nat, le: (T, T) -> bool)
    requires Sorted(s, le)
    ensures Sorted(Take(s, n), le)
    ensures 0 < n < |s| ==> forall i :: n <= i < |s| ==> le(Take(s, n)[n - 1], s[i])
  {
  }

  /** `s.sort(compare).slice(0, n)`: the first n elements in the requested
      order, each taken from the input no more often than it occurs there;
      every element left out may follow the last one kept. */
  function Top<T(!new)>(s: seq<T>, n: nat, le: (T, T) -> bool): (r: seq<T>)
    ensures |r| == if |s| < n then |s| else n
    ensures forall x :: x in r ==> x in s
    ensures multiset(r) <= multiset(s)
    ensures TotalPreorder(le) ==> Sorted(r, le)
    ensures TotalPreorder(le) && n > 0 ==> forall x :: x in s ==> x in r || (|r| > 0 && le(r[|r| - 1], x))
  {
    var sorted := SortBy(s, le);
    var r := Take(sorted, n);
    assert forall x :: x in r ==> x in sorted;
    assert multiset(r) <= multiset(sorted) by {
      if n <= |sorted| {
        assert sorted == r + sorted[n..];
      }
    }
    assert TotalPreorder(le) ==> Sorted(r, le) by {
      if TotalPreorder(le) {
        TakeOfSorted(sorted, n, le);
      }
    }
    assert TotalPreorder(le) && n > 0 ==> forall x :: x in s ==> x in r || (|r| > 0 && le(r[|r| - 1], x)) by {
      if TotalPreorder(le) && n > 0 {
        TakeOfSorted(sorted, n, le);
        forall x | x in s ensures x in r || (|r| > 0 && le(r[|r| - 1], x)) {
          var i :| 0 <= i < |sorted| && sorted[i] == x;
          if i < |r| {
            assert r[i] == x;
          }
        }
      }
    }
    r
  }
}
