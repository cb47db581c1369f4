/** Python list operations used across the model: the slice s[:k]
    (negative k counts from the end) and flattening a list of lists. */
module Lists {

  function Min(a: int, b: int): int { if a <= b then a else b }
  function Max(a: int, b: int): int { if a >= b then a else b }

  /** The length of s[:k]. */
  function TakeLen(n: nat, k: int): (r: nat)
    ensures r <= n
    ensures k >= 0 ==> r == Min(k, n)
    ensures k < 0 ==> r == Max(0, n + k)
  {
    if k >= 0 then (if k <= n then k else n) else if n + k > 0 then n + k else 0
  }

  /** Python's s[:k]. */
  function Take<T>(s: seq<T>, k: int): (r: seq<T>)
    ensures |r| == TakeLen(|s|, k) && r == s[..|r|]
  {
    s[..TakeLen(|s|, k)]
  }

  /** s[:k] with k >= 0 has at most k elements and is all of s once k >= |s|. */
  lemma TakeBound<T>(s: seq<T>, k: int)
    requires k >= 0
    ensures |Take(s, k)| <= k
    ensures k >= |s| ==> Take(s, k) == s
  {
  }

  /** A slice of at least one element of a non-empty list keeps its head. */
  lemma TakeCons<T>(x: T, s: seq<T>, k: int)
    requires k >= 1
    ensures Take([x] + s, k) == [x] + Take(s, k - 1)
  {
  }

  /** The elements of the groups in order, as nested `for` loops visit them. */
  function Flatten<T>(groups: seq<seq<T>>): seq<T>
  {
    if groups == [] then [] else Flatten(groups[..|groups| - 1]) + groups[|groups| - 1]
  }

  lemma FlattenSnoc<T>(groups: seq<seq<T>>, g: seq<T>)
    ensures Flatten(groups + [g]) == Flatten(groups) + g
  {
    assert (groups + [g])[..|groups|] == groups;
  }

  /** Every element of a group is in the flattening, and only those. */
  lemma {:induction false} FlattenMembers<T>(groups: seq<seq<T>>, x: T)
    ensures x in Flatten(groups) <==> exists g :: g in groups && x in g
  {
    if groups != [] {
      var init := groups[..|groups| - 1];
      FlattenMembers(init, x);
      assert groups == init + [groups[|groups| - 1]];
      assert forall g :: g in groups <==> g in init || g == groups[|groups| - 1];
    }
  }

  /** `[x for x in s if p(x)]`. */
  function Filter<T>(s: seq<T>, p: T -> bool): (r: seq<T>)
    ensures |r| <= |s|
  {
    if s == [] then [] else (if p(s[0]) then [s[0]] else []) + Filter(s[1..], p)
  }

  lemma {:induction false} FilterConcat<T>(a: seq<T>, b: seq<T>, p: T -> bool)
    ensures Filter(a + b, p) == Filter(a, p) + Filter(b, p)
    decreases |a|
  {
    if a == [] {
      assert a + b == b;
    } else {
      var c := a + b;
      var x: seq<T> := if p(a[0]) then [a[0]] else [];
      assert c[0] == a[0] && c[1..] == a[1..] + b;
      FilterConcat(a[1..], b, p);
      assert Filter(c, p) == x + (Filter(a[1..], p) + Filter(b, p));
      assert Filter(a, p) == x + Filter(a[1..], p);
    }
  }

  lemma FilterCons<T>(x: T, s: seq<T>, p: T -> bool)
    ensures Filter([x] + s, p) == (if p(x) then [x] else []) + Filter(s, p)
  {
    assert ([x] + s)[1..] == s;
  }

  /** Filtering keeps an element exactly when it is in the list and passes. */
  lemma {:induction false} FilterMembers<T>(s: seq<T>, p: T -> bool, x: T)
    ensures x in Filter(s, p) <==> x in s && p(x)
  {
    if s != [] {
      FilterMembers(s[1..], p, x);
      assert s == [s[0]] + s[1..];
    }
  }

  /** A list none of whose elements pass filters to nothing; a list whose every
      element passes filters to itself. */
  lemma {:induction false} FilterNone<T>(s: seq<T>, p: T -> bool)
    requires forall i :: 0 <= i < |s| ==> !p(s[i])
    ensures Filter(s, p) == []
  {
    if s != [] { FilterNone(s[1..], p); }
  }

  /** Dropping a prefix none of whose elements pass changes nothing. */
  lemma {:induction false} FilterDropPrefix<T>(s: seq<T>, a: nat, p: T -> bool)
    requires a <= |s| && forall i :: 0 <= i < a ==> !p(s[i])
    ensures Filter(s[a..], p) == Filter(s, p)
    decreases a
  {
    if a > 0 {
      assert s[1..][a - 1..] == s[a..];
      FilterDropPrefix(s[1..], a - 1, p);
    }
  }

  /** Dropping a suffix none of whose elements pass changes nothing. */
  lemma FilterDropSuffix<T>(s: seq<T>, b: nat, p: T -> bool)
    requires b <= |s| && forall i :: b <= i < |s| ==> !p(s[i])
    ensures Filter(s[..b], p) == Filter(s, p)
  {
    var z := s[b..];
    assert s == s[..b] + z;
    FilterConcat(s[..b], z, p);
    assert forall i :: 0 <= i < |z| ==> !p(z[i]) by {
      forall i | 0 <= i < |z| ensures !p(z[i]) {
        assert z[i] == s[b + i];
      }
    }
    FilterNone(z, p);
  }

  lemma {:induction false} FilterAll<T>(s: seq<T>, p: T -> bool)
    requires forall i :: 0 <= i < |s| ==> p(s[i])
    ensures Filter(s, p) == s
  {
    if s != [] {
      FilterAll(s[1..], p);
      assert s == [s[0]] + s[1..];
    }
  }
}
