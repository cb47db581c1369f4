/** rag/embeddings.py: `CachedEmbeddingsProvider`, a bounded least-recently-used
    cache of query embeddings with a time-to-live, in front of an inner provider.
    The clock, the key hash and the inner provider are parameters; the lock is
    left out (each call is one sequential step). */
module EmbeddingsCache {
  import opened Lists

  type Vector = seq<real>

  datatype Entry = Entry(stamp: real, vec: Vector)

  /** The OrderedDict: keys from least to most recently used, and their entries. */
  datatype CacheState = CacheState(keys: seq<string>, entries: map<string, Entry>)

  ghost predicate Distinct(keys: seq<string>) {
    forall i, j :: 0 <= i < j < |keys| ==> keys[i] != keys[j]
  }

  /** The order lists each cached key once. */
  ghost predicate WellFormed(st: CacheState) {
    Distinct(st.keys) && (forall k :: k in st.keys <==> k in st.entries)
  }

  predicate Fresh(e: Entry, now: real, ttl: real) {
    ttl <= 0.0 || now - e.stamp <= ttl
  }

  predicate NotKey(key: string, k: string) { k != key }

  function Without(keys: seq<string>, key: string): seq<string> {
    Filter(keys, k => NotKey(key, k))
  }

  /** `move_to_end(key)`. */
  function Touch(keys: seq<string>, key: string): seq<string> {
    Without(keys, key) + [key]
  }

  /** Keeps the n most recent keys: `popitem(last=False)` while the cache is over n. */
  function KeepNewest(keys: seq<string>, n: int): (r: seq<string>)
    ensures n >= 0 && |keys| > n ==> |r| == n
  {
    if |keys| > n then keys[if n >= 0 then |keys| - n else |keys|..] else keys
  }

  function Restrict(entries: map<string, Entry>, keys: seq<string>): map<string, Entry> {
    map k | k in entries && k in keys :: entries[k]
  }

  /** The state after a miss (or an expired entry): the old entry dropped, the new
      one stored as most recent, the oldest entries evicted. */
  function Insert(st: CacheState, key: string, now: real, vec: Vector, maxSize: int): CacheState {
    var keys := Without(st.keys, key) + [key];
    var entries := st.entries[key := Entry(now, vec)];
    var kept := KeepNewest(keys, maxSize);
    CacheState(kept, Restrict(entries, kept))
  }

  /** One embed_query call: the new state, the vector returned, and whether the inner
      provider was called. */
  datatype Outcome = Outcome(state: CacheState, vec: Vector, calledInner: bool)

  function QueryStep(st: CacheState, key: string, now: real, maxSize: int, ttl: real, computed: Vector): Outcome {
    if maxSize <= 0 then Outcome(st, computed, true)
    else if key in st.entries && Fresh(st.entries[key], now, ttl) then
      Outcome(CacheState(Touch(st.keys, key), st.entries), st.entries[key].vec, false)
    else Outcome(Insert(st, key, now, computed, maxSize), computed, true)
  }

  // ---------------------------------------------------------------------------
  // Facts about the key order

  lemma WithoutMembers(keys: seq<string>, key: string)
    ensures forall k :: k in Without(keys, key) <==> k in keys && k != key
  {
    forall k ensures k in Without(keys, key) <==> k in keys && k != key {
      FilterMembers(keys, k => NotKey(key, k), k);
    }
  }

  lemma {:induction false} WithoutDistinct(keys: seq<string>, key: string)
    requires Distinct(keys)
    ensures Distinct(Without(keys, key))
    decreases |keys|
  {
    if keys != [] {
      WithoutDistinct(keys[1..], key);
      WithoutMembers(keys[1..], key);
      FilterCons(keys[0], keys[1..], k => NotKey(key, k));
      assert keys == [keys[0]] + keys[1..];
      assert keys[0] !in keys[1..];
    }
  }

  lemma AppendDistinct(keys: seq<string>, key: string)
    requires Distinct(keys) && key !in keys
    ensures Distinct(keys + [key])
  {
  }

  lemma SuffixDistinct(keys: seq<string>, d: nat)
    requires Distinct(keys) && d <= |keys|
    ensures Distinct(keys[d..])
  {
  }

  lemma TouchSpec(keys: seq<string>, key: string)
    requires Distinct(keys)
    ensures Distinct(Touch(keys, key))
    ensures forall k :: k in Touch(keys, key) <==> k in keys || k == key
    ensures Touch(keys, key)[|Touch(keys, key)| - 1] == key
  {
    WithoutDistinct(keys, key);
    WithoutMembers(keys, key);
    AppendDistinct(Without(keys, key), key);
  }

  // ---------------------------------------------------------------------------
  // Properties of one call

  /** With max_size <= 0 the cache is bypassed: the inner provider is called and
      nothing is stored. */
  lemma BypassSpec(st: CacheState, key: string, now: real, maxSize: int, ttl: real, computed: Vector)
    requires maxSize <= 0
    ensures QueryStep(st, key, now, maxSize, ttl, computed) == Outcome(st, computed, true)
  {
  }

  /** A call keeps the cache well formed and within max_size. */
  lemma QueryStepBound(st: CacheState, key: string, now: real, maxSize: int, ttl: real, computed: Vector)
    requires WellFormed(st) && (maxSize > 0 ==> |st.keys| <= maxSize)
    ensures var r := QueryStep(st, key, now, maxSize, ttl, computed).state;
      WellFormed(r) && (maxSize > 0 ==> |r.keys| <= maxSize)
  {
    if maxSize > 0 {
      if key in st.entries && Fresh(st.entries[key], now, ttl) {
        TouchSpec(st.keys, key);
        WithoutLength(st.keys, key);
      } else {
        InsertSpec(st, key, now, computed, maxSize);
      }
    }
  }

  lemma {:induction false} WithoutLength(keys: seq<string>, key: string)
    requires Distinct(keys) && key in keys
    ensures |Without(keys, key)| == |keys| - 1
    decreases |keys|
  {
    FilterCons(keys[0], keys[1..], k => NotKey(key, k));
    assert keys == [keys[0]] + keys[1..];
    if keys[0] == key {
      assert key !in keys[1..];
      WithoutMembers(keys[1..], key);
      FilterAllBut(keys[1..], key);
    } else {
      WithoutLength(keys[1..], key);
    }
  }

  lemma FilterAllBut(keys: seq<string>, key: string)
    requires key !in keys
    ensures Without(keys, key) == keys
  {
    FilterAll(keys, k => NotKey(key, k));
  }

  /** After a miss: the new vector is stored with the current time as the most
      recent entry and is never evicted (max_size >= 1); the cache stays well formed
      and within max_size. */
  lemma InsertSpec(st: CacheState, key: string, now: real, vec: Vector, maxSize: int)
    requires WellFormed(st) && maxSize >= 1
    ensures var r := Insert(st, key, now, vec, maxSize);
      && WellFormed(r)
      && |r.keys| <= maxSize
      && key in r.entries && r.entries[key] == Entry(now, vec)
      && r.keys[|r.keys| - 1] == key
  {
    var keys := Without(st.keys, key) + [key];
    WithoutDistinct(st.keys, key);
    WithoutMembers(st.keys, key);
    AppendDistinct(Without(st.keys, key), key);
    var d := if |keys| > maxSize then |keys| - maxSize else 0;
    SuffixDistinct(keys, d);
    var kept := KeepNewest(keys, maxSize);
    assert kept == keys[d..];
    assert kept[|kept| - 1] == key;
  }

  /** Eviction removes the least recently used keys only: what remains is a suffix
      of the previous order followed by the new key, with the entries unchanged. */
  lemma InsertEvictsOldest(st: CacheState, key: string, now: real, vec: Vector, maxSize: int)
    requires maxSize >= 1
    ensures var r := Insert(st, key, now, vec, maxSize);
      && (exists d :: 0 <= d <= |Without(st.keys, key)| && r.keys == Without(st.keys, key)[d..] + [key])
      && (forall k :: k in r.entries && k != key ==> k in st.entries && r.entries[k] == st.entries[k])
  {
    var keys := Without(st.keys, key) + [key];
    var d := if |keys| > maxSize then |keys| - maxSize else 0;
    assert keys[d..] == Without(st.keys, key)[d..] + [key];
  }

  /** An unexpired hit returns the cached vector without calling the inner provider,
      makes the key the most recent, and keeps every entry. */
  lemma HitSpec(st: CacheState, key: string, now: real, maxSize: int, ttl: real, computed: Vector)
    requires WellFormed(st) && maxSize > 0
    requires key in st.entries && Fresh(st.entries[key], now, ttl)
    ensures var o := QueryStep(st, key, now, maxSize, ttl, computed);
      && o.vec == st.entries[key].vec && !o.calledInner
      && o.state.entries == st.entries
      && o.state.keys[|o.state.keys| - 1] == key
      && (forall k :: k in o.state.keys <==> k in st.keys)
  {
    TouchSpec(st.keys, key);
  }

  /** A missing or expired entry is recomputed by the inner provider and stored with
      the current time. */
  lemma MissSpec(st: CacheState, key: string, now: real, maxSize: int, ttl: real, computed: Vector)
    requires WellFormed(st) && maxSize > 0
    requires !(key in st.entries && Fresh(st.entries[key], now, ttl))
    ensures var o := QueryStep(st, key, now, maxSize, ttl, computed);
      && o.vec == computed && o.calledInner
      && key in o.state.entries && o.state.entries[key] == Entry(now, computed)
  {
    InsertSpec(st, key, now, computed, maxSize);
  }

  /** A ttl <= 0 never expires: a cached key is always a hit. */
  lemma NoTtlAlwaysHits(st: CacheState, key: string, now: real, maxSize: int, ttl: real, computed: Vector)
    requires maxSize > 0 && ttl <= 0.0 && key in st.entries
    ensures !QueryStep(st, key, now, maxSize, ttl, computed).calledInner
  {
  }

  // ---------------------------------------------------------------------------
  // The object

  class CachedEmbeddings {
    const maxSize: int
    const ttl: real
    var keys: seq<string>
    var entries: map<string, Entry>

    ghost predicate Valid()
      reads this
    {
      WellFormed(CacheState(keys, entries)) && (maxSize > 0 ==> |keys| <= maxSize)
    }

    function State(): CacheState
      reads this
    {
      CacheState(keys, entries)
    }

    constructor (maxSize: int, ttl: real)
      ensures Valid() && this.maxSize == maxSize && this.ttl == ttl && keys == [] && entries == map[]
    {
      this.maxSize := maxSize;
      this.ttl := ttl;
      keys := [];
      entries := map[];
    }

    /** `embed_documents` goes straight to the inner provider. */
    method EmbedDocuments(texts: seq<string>, inner: string -> Vector) returns (vecs: seq<Vector>)
      ensures |vecs| == |texts| && forall i :: 0 <= i < |texts| ==> vecs[i] == inner(texts[i])
    {
      vecs := seq(|texts|, i requires 0 <= i < |texts| => inner(texts[i]));
    }

    /** `embed_query` at time `now`. */
    method EmbedQuery(text: string, now: real, sha256: string -> string, inner: string -> Vector)
      returns (vec: Vector, calledInner: bool)
      requires Valid()
      modifies this
      ensures Valid()
      ensures var o := QueryStep(old(State()), sha256(text), now, maxSize, ttl, inner(text));
        State() == o.state && vec == o.vec && calledInner == o.calledInner
    {
      QueryStepBound(State(), sha256(text), now, maxSize, ttl, inner(text));
      if maxSize <= 0 {
        return inner(text), true;
      }
      var key := sha256(text);
      if key in entries {
        var item := entries[key];
        if ttl <= 0.0 || now - item.stamp <= ttl {
          keys := Touch(keys, key);
          return item.vec, false;
        }
      }
      vec := inner(text);
      calledInner := true;
      Store(key, now, vec);
    }

    /** Drops a stale entry for the key, then stores the new one as most recent and
        evicts the oldest entries. */
    method Store(key: string, now: real, vec: Vector)
      requires Valid() && maxSize > 0
      modifies this
      ensures State() == Insert(old(State()), key, now, vec, maxSize)
    {
      ghost var st0 := State();
      if key in entries {
        keys := Without(keys, key);
        entries := map k | k in entries && k != key :: entries[k];
      } else {
        FilterAllBut(keys, key);
      }
      assert keys == Without(st0.keys, key);
      WithoutMembers(st0.keys, key);
      WithoutDistinct(st0.keys, key);
      AppendDistinct(keys, key);
      keys := keys + [key];
      entries := entries[key := Entry(now, vec)];
      assert entries == st0.entries[key := Entry(now, vec)];
      EvictOldest();
    }

    /** `while len(self._cache) > self.max_size: self._cache.popitem(last=False)`. */
    method EvictOldest()
      requires Distinct(keys) && maxSize > 0
      requires forall k :: k in entries ==> k in keys
      modifies this
      ensures keys == KeepNewest(old(keys), maxSize)
      ensures entries == Restrict(old(entries), keys)
    {
      ghost var full := keys;
      ghost var fullEntries := entries;
      ghost var d := 0;
      while |keys| > maxSize
        invariant 0 <= d <= |full| && keys == full[d..]
        invariant d > 0 ==> |keys| >= maxSize
        invariant entries == Restrict(fullEntries, keys)
        decreases |keys|
      {
        SuffixDistinct(full, d);
        RestrictDrop(fullEntries, keys);
        entries := entries - {keys[0]};
        keys := keys[1..];
        d := d + 1;
      }
      KeepNewestSuffix(full, d, maxSize);
    }
  }

  lemma RestrictDrop(m: map<string, Entry>, keys: seq<string>)
    requires |keys| > 0 && Distinct(keys)
    ensures Restrict(m, keys) - {keys[0]} == Restrict(m, keys[1..])
  {
    assert keys[0] !in keys[1..];
    assert forall k :: k in keys <==> k == keys[0] || k in keys[1..];
  }

  lemma KeepNewestSuffix(full: seq<string>, d: nat, n: int)
    requires n > 0 && d <= |full| && |full| - d <= n && (d > 0 ==> |full| - d >= n)
    ensures full[d..] == KeepNewest(full, n)
  {
  }

  // ---------------------------------------------------------------------------
  // _wrap_with_cache

  datatype Provider = Base | Cached(maxSize: int, ttl: real)

  /** The base provider when the configured size is <= 0, else a cache of that size. */
  function WrapWithCache(size: int, ttl: real): (p: Provider)
    ensures p == Base <==> size <= 0
    ensures p.Cached? ==> p.maxSize == size && p.ttl == ttl
  {
    if size <= 0 then Base else Cached(size, ttl)
  }
}
