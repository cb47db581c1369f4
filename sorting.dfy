/** Python's `sorted(xs, key=...)` / `list.sort(key=...)`: a stable sort. The
    ordering is given as a strict "comes before" relation `lt`; elements that
    are not ordered either way keep their input order. */
module Sorting {

  ghost predicate StrictOrder<T(!new)>(lt: (T, T) -> bool) {
    && (forall x :: !lt(x, x))
    && (forall x, y, z :: lt(x, y) && lt(y, z) ==> lt(x, z))
  }

  /** No element comes strictly before an element to its left. */
  ghost predicate Sorted<T>(s: seq<T>, lt: (T, T) -> bool) {
    forall i, j :: 0 <= i < j < |s| ==> !lt(s[j], s[i])
  }

  /** Inserts x after every element it does not come strictly before. */
  function Insert<T>(x: T, s: seq<T>, lt: (T, T) -> bool): (r: seq<T>)
    ensures multiset(r) == multiset(s) + multiset{x}
    ensures |r| == |s| + 1
    decreases |s|
  {
    if s == [] then [x]
    else if lt(x, s[0]) then [x] + s
    else
      assert s == [s[0]] + s[1..];
      [s[0]] + Insert(x, s[1..], lt)
  }

  lemma {:induction false} InsertSorted<T(!new)>(x: T, s: seq<T>, lt: (T, T) -> bool)
    requires StrictOrder(lt)
    requires Sorted(s, lt)
    ensures Sorted(Insert(x, s, lt), lt)
    decreases |s|
  {
    if s != [] && !lt(x, s[0]) {
      InsertSorted(x, s[1..], lt);
      var r := Insert(x, s, lt);
      var t := Insert(x, s[1..], lt);
      assert r == [s[0]] + t;
      forall j | 1 <= j < |r| ensures !lt(r[j], r[0]) {
        assert r[j] in multiset(t);
        assert r[j] in multiset(s[1..]) + multiset{x};
        if r[j] != x {
          assert r[j] in s[1..];
          var k :| 0 <= k < |s[1..]| && s[1..][k] == r[j];
          assert s[k + 1] == r[j];
        }
      }
    }
  }

  /** Stable insertion sort: each element in turn is inserted after the
      already-sorted prefix's elements that it does not come strictly before. */
  function SortBy<T>(s: seq<T>, lt: (T, T) -> bool): (r: seq<T>)
    ensures multiset(r) == multiset(s)
    ensures |r| == |s|
    decreases |s|
  {
    if s == [] then []
    else
      assert s == s[..|s| - 1] + [s[|s| - 1]];
      Insert(s[|s| - 1], SortBy(s[..|s| - 1], lt), lt)
  }

  lemma {:induction false} SortBySorted<T(!new)>(s: seq<T>, lt: (T, T) -> bool)
    requires StrictOrder(lt)
    ensures Sorted(SortBy(s, lt), lt)
    decreases |s|
  {
    if s != [] {
      SortBySorted(s[..|s| - 1], lt);
      InsertSorted(s[|s| - 1], SortBy(s[..|s| - 1], lt), lt);
    }
  }

  /** A sorted list's prefix comes no later than the rest. */
  lemma SortedPrefix<T>(s: seq<T>, lt: (T, T) -> bool, k: nat, i: nat, j: nat)
    requires Sorted(s, lt)
    requires i < k <= j < |s|
    ensures !lt(s[j], s[i])
  {
  }

  lemma MultisetMembership<T>(s: seq<T>, t: seq<T>, x: T)
    requires multiset(s) == multiset(t)
    ensures x in s <==> x in t
  {
    assert x in s <==> x in multiset(s);
    assert x in t <==> x in multiset(t);
  }

  /** No two elements share a key. */
  ghost predicate DistinctBy<T, K>(s: seq<T>, key: T -> K) {
    forall i, j :: 0 <= i < j < |s| ==> key(s[i]) != key(s[j])
  }

  lemma {:induction false} DistinctCount<T>(s: seq<T>, x: T)
    requires forall i, j :: 0 <= i < j < |s| ==> s[i] != s[j]
    ensures multiset(s)[x] <= 1
    decreases |s|
  {
    if s != [] {
      DistinctCount(s[1..], x);
      assert s == [s[0]] + s[1..];
      if s[0] == x {
        assert x !in s[1..];
      }
    }
  }

  lemma RepeatCount<T>(s: seq<T>, i: nat, j: nat)
    requires i < j < |s| && s[i] == s[j]
    ensures multiset(s)[s[i]] >= 2
  {
    assert s == s[..j] + [s[j]] + s[j + 1..];
    assert s[i] in s[..j];
  }

  /** A permutation of a list with distinct keys has distinct keys. */
  lemma PermutationDistinctBy<T, K>(a: seq<T>, b: seq<T>, key: T -> K)
    requires multiset(a) == multiset(b) && DistinctBy(a, key)
    ensures DistinctBy(b, key)
  {
    forall i, j | 0 <= i < j < |b| ensures key(b[i]) != key(b[j]) {
      if key(b[i]) == key(b[j]) {
        assert b[i] in multiset(a) && b[j] in multiset(a);
        var p :| 0 <= p < |a| && a[p] == b[i];
        var q :| 0 <= q < |a| && a[q] == b[j];
        assert p == q;
        RepeatCount(b, i, j);
        DistinctCount(a, b[i]);
        assert false;
      }
    }
  }

  /** Keeps, in order, the first element for each key that is not in `seen`:
      a loop with a `seen` set that skips keys it has met. */
  function FirstByKey<T, K>(s: seq<T>, key: T -> K, seen: set<K>): (r: seq<T>)
    ensures |r| <= |s|
    decreases |s|
  {
    if s == [] then []
    else if key(s[0]) in seen then FirstByKey(s[1..], key, seen)
    else [s[0]] + FirstByKey(s[1..], key, seen + {key(s[0])})
  }

  /** No key twice, and no key from `seen`. */
  lemma {:induction false} FirstByKeyDistinct<T, K>(s: seq<T>, key: T -> K, seen: set<K>)
    ensures DistinctBy(FirstByKey(s, key, seen), key)
    ensures forall x :: x in FirstByKey(s, key, seen) ==> key(x) !in seen
    decreases |s|
  {
    if s != [] {
      if key(s[0]) in seen {
        FirstByKeyDistinct(s[1..], key, seen);
      } else {
        FirstByKeyDistinct(s[1..], key, seen + {key(s[0])});
        var t := FirstByKey(s[1..], key, seen + {key(s[0])});
        var r := [s[0]] + t;
        forall i, j | 0 <= i < j < |r| ensures key(r[i]) != key(r[j]) {
          assert r[j] == t[j - 1] && t[j - 1] in t;
          if i > 0 {
            assert r[i] == t[i - 1];
          }
        }
      }
    }
  }

  /** Each kept element is the first one in s with its key. */
  lemma {:induction false} FirstByKeyFirst<T, K>(s: seq<T>, key: T -> K, seen: set<K>, x: T) returns (i: nat)
    requires x in FirstByKey(s, key, seen)
    ensures i < |s| && s[i] == x
    ensures forall j :: 0 <= j < i ==> key(s[j]) != key(x)
    decreases |s|
  {
    FirstByKeyDistinct(s, key, seen);
    if key(s[0]) in seen {
      var i0 := FirstByKeyFirst(s[1..], key, seen, x);
      i := i0 + 1;
    } else if x == s[0] {
      i := 0;
    } else {
      var t := FirstByKey(s[1..], key, seen + {key(s[0])});
      FirstByKeyDistinct(s[1..], key, seen + {key(s[0])});
      var i0 := FirstByKeyFirst(s[1..], key, seen + {key(s[0])}, x);
      i := i0 + 1;
    }
  }

  /** Every key of s is in `seen` or is the key of a kept element. */
  lemma {:induction false} FirstByKeyCovers<T, K>(s: seq<T>, key: T -> K, seen: set<K>, i: nat) returns (j: nat)
    requires i < |s| && key(s[i]) !in seen
    ensures j < |FirstByKey(s, key, seen)| && key(FirstByKey(s, key, seen)[j]) == key(s[i])
    decreases |s|
  {
    var r := FirstByKey(s, key, seen);
    if key(s[0]) in seen {
      assert s[1..][i - 1] == s[i];
      j := FirstByKeyCovers(s[1..], key, seen, i - 1);
    } else if key(s[i]) == key(s[0]) {
      j := 0;
    } else {
      var seen' := seen + {key(s[0])};
      assert s[1..][i - 1] == s[i];
      var j0 := FirstByKeyCovers(s[1..], key, seen', i - 1);
      j := j0 + 1;
    }
  }

  /** What is kept from a sorted list is sorted. */
  lemma {:induction false} FirstByKeySorted<T, K>(s: seq<T>, key: T -> K, seen: set<K>, lt: (T, T) -> bool)
    requires Sorted(s, lt)
    ensures Sorted(FirstByKey(s, key, seen), lt)
    decreases |s|
  {
    if s != [] {
      var seen' := if key(s[0]) in seen then seen else seen + {key(s[0])};
      FirstByKeySorted(s[1..], key, seen', lt);
      if key(s[0]) !in seen {
        var t := FirstByKey(s[1..], key, seen');
        var r := [s[0]] + t;
        forall j | 1 <= j < |r| ensures !lt(r[j], r[0]) {
          var i := FirstByKeyFirst(s[1..], key, seen', t[j - 1]);
          assert r[j] == s[i + 1];
        }
      }
    }
  }
}
