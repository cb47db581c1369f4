/** Which bindings receive the leftover units of the apportionment, and what
    follows for each binding's quota and for the allocator's output. */
module KbAllocationTheorems {
  import opened Text
  import opened Sorting
  import opened KbAllocation
  import opened KbAllocationProperties

  // ---------------------------------------------------------------------------
  // Who gets a leftover unit

  /** How many entries of rs carry id x. */
  function RemCount(rs: seq<Remainder>, x: string): nat {
    if rs == [] then 0 else RemCount(rs[..|rs| - 1], x) + (if rs[|rs| - 1].kbId == x then 1 else 0)
  }

  lemma {:induction false} RemCountConcat(a: seq<Remainder>, b: seq<Remainder>, x: string)
    ensures RemCount(a + b, x) == RemCount(a, x) + RemCount(b, x)
    decreases |b|
  {
    if b == [] {
      assert a + b == a;
    } else {
      assert (a + b)[..|a + b| - 1] == a + b[..|b| - 1];
      RemCountConcat(a, b[..|b| - 1], x);
    }
  }

  lemma {:induction false} RemCountInsert(y: Remainder, s: seq<Remainder>, x: string)
    ensures RemCount(Insert(y, s, RemainderBefore), x) == RemCount(s, x) + (if y.kbId == x then 1 else 0)
    decreases |s|
  {
    if s == [] {
      assert RemCount([y], x) == RemCount([], x) + (if y.kbId == x then 1 else 0);
    } else if RemainderBefore(y, s[0]) {
      RemCountConcat([y], s, x);
      assert RemCount([y], x) == RemCount([], x) + (if y.kbId == x then 1 else 0);
    } else {
      RemCountInsert(y, s[1..], x);
      RemCountConcat([s[0]], Insert(y, s[1..], RemainderBefore), x);
      RemCountConcat([s[0]], s[1..], x);
      assert s == [s[0]] + s[1..];
    }
  }

  /** Sorting the remainders keeps how often each id occurs. */
  lemma {:induction false} RemCountSort(s: seq<Remainder>, x: string)
    ensures RemCount(SortBy(s, RemainderBefore), x) == RemCount(s, x)
    decreases |s|
  {
    if s != [] {
      RemCountSort(s[..|s| - 1], x);
      RemCountInsert(s[|s| - 1], SortBy(s[..|s| - 1], RemainderBefore), x);
    }
  }

  lemma {:induction false} CountIdSnoc(s: seq<CleanBinding>, b: CleanBinding, x: string)
    ensures CountId(s + [b], x) == CountId(s, x) + (if b.kbId == x then 1 else 0)
    decreases |s|
  {
    if s != [] {
      assert (s + [b])[1..] == s[1..] + [b];
      CountIdSnoc(s[1..], b, x);
    }
  }

  lemma {:induction false} RemCountRemainders(clean: seq<CleanBinding>, weights: map<string, real>, raw: map<string, real>, x: string)
    requires forall b :: b in clean ==> b.kbId in weights && b.kbId in raw
    ensures RemCount(Remainders(clean, weights, raw), x) == CountId(clean, x)
    decreases |clean|
  {
    if clean != [] {
      var init := clean[..|clean| - 1];
      RemCountRemainders(init, weights, raw, x);
      assert clean == init + [clean[|clean| - 1]];
      CountIdSnoc(init, clean[|clean| - 1], x);
    }
  }

  lemma ModBelow(a: int, n: int)
    requires 0 <= a < n
    ensures a % n == a
  {
  }

  lemma RemCountSnoc(prefix: seq<Remainder>, x: string)
    requires prefix != []
    ensures RemCount(prefix, x) == RemCount(prefix[..|prefix| - 1], x) + (if prefix[|prefix| - 1].kbId == x then 1 else 0)
  {
  }

  /** One more leftover unit goes to the next id of the ranking. */
  lemma DistributeStep(base: map<string, int>, ranked: seq<Remainder>, count: nat, x: string)
    requires |ranked| > 0 && 0 < count <= |ranked|
    requires forall r :: r in ranked ==> r.kbId in base
    requires x in base
    ensures Distribute(base, ranked, count)[x]
         == Distribute(base, ranked, count - 1)[x] + (if ranked[count - 1].kbId == x then 1 else 0)
  {
    ModBelow(count - 1, |ranked|);
  }

  lemma {:induction false} DistributePointwise(base: map<string, int>, ranked: seq<Remainder>, count: nat, x: string)
    requires |ranked| > 0 && count <= |ranked|
    requires forall r :: r in ranked ==> r.kbId in base
    requires x in base
    ensures Distribute(base, ranked, count)[x] == base[x] + RemCount(ranked[..count], x)
  {
    if count > 0 {
      DistributePointwise(base, ranked, count - 1, x);
      DistributeStep(base, ranked, count, x);
      var prefix := ranked[..count];
      assert prefix[..count - 1] == ranked[..count - 1];
      RemCountSnoc(prefix, x);
    }
  }

  lemma {:induction false} RemCountPositive(rs: seq<Remainder>, x: string)
    ensures RemCount(rs, x) > 0 <==> exists i :: 0 <= i < |rs| && rs[i].kbId == x
  {
    if rs != [] {
      var init := rs[..|rs| - 1];
      RemCountPositive(init, x);
      assert forall i :: 0 <= i < |init| ==> init[i] == rs[i];
    }
  }

  /** The ranked remainders hold each id exactly once. */
  lemma RankedCount(clean: seq<CleanBinding>, k: int, x: string)
    requires 2 <= |clean| <= k && DistinctIds(clean)
    ensures RemCount(RankedRemainders(clean, k), x) == if x in IdSet(clean) then 1 else 0
  {
    assert forall b :: b in clean ==> b.kbId in IdSet(clean);
    RemCountSort(Remainders(clean, Weights(clean), Raw(clean, k)), x);
    RemCountRemainders(clean, Weights(clean), Raw(clean, k), x);
    CountIdDistinct(clean, x);
  }

  /** Id x is among the first `left` entries of `ranked`. */
  predicate InFirst(ranked: seq<Remainder>, left: int, x: string) {
    exists i :: 0 <= i < left && i < |ranked| && ranked[i].kbId == x
  }

  /** Binding x is one of the first `left` entries of the sorted remainders. */
  predicate GetsLeftover(clean: seq<CleanBinding>, k: int, x: string)
    requires 2 <= |clean| <= k
  {
    InFirst(RankedRemainders(clean, k), Left(clean, k), x)
  }

  lemma PrefixCount(rs: seq<Remainder>, left: nat, x: string)
    requires RemCount(rs, x) == 1 && left <= |rs|
    ensures RemCount(rs[..left], x) == if exists i :: 0 <= i < left && rs[i].kbId == x then 1 else 0
  {
    RemCountConcat(rs[..left], rs[left..], x);
    assert rs == rs[..left] + rs[left..];
    RemCountPositive(rs[..left], x);
    assert forall i :: 0 <= i < left ==> rs[..left][i] == rs[i];
  }

  lemma LeftoverAt(final: map<string, int>, base: map<string, int>, ranked: seq<Remainder>, left: nat, x: string)
    requires left < |ranked| && RemCount(ranked, x) == 1 && x in base
    requires forall r :: r in ranked ==> r.kbId in base
    requires final == if left > 0 then Distribute(base, ranked, left) else base
    ensures x in final && final[x] == base[x] + (if InFirst(ranked, left, x) then 1 else 0)
  {
    if left > 0 {
      DistributePointwise(base, ranked, left, x);
      PrefixCount(ranked, left, x);
    }
  }

  lemma LeftBelowCount(clean: seq<CleanBinding>, k: int)
    requires 2 <= |clean| <= k && DistinctIds(clean)
    requires forall b :: b in clean ==> b.weight >= 0.0
    ensures Left(clean, k) < |RankedRemainders(clean, k)|
  {
    UsedAndLeft(clean, k);
  }

  lemma FinalDef(clean: seq<CleanBinding>, k: int)
    requires 2 <= |clean| <= k
    ensures Final(clean, k)
         == if Left(clean, k) > 0 then Distribute(Base(clean, k), RankedRemainders(clean, k), Left(clean, k)) else Base(clean, k)
  {
  }

  lemma RankedInBase(clean: seq<CleanBinding>, k: int)
    requires 2 <= |clean| <= k
    ensures forall r :: r in RankedRemainders(clean, k) ==> r.kbId in Base(clean, k)
  {
  }

  lemma LeftoverFacts(clean: seq<CleanBinding>, k: int, x: string)
    requires 2 <= |clean| <= k && DistinctIds(clean) && x in IdSet(clean)
    requires forall b :: b in clean ==> b.weight >= 0.0
    ensures Left(clean, k) < |RankedRemainders(clean, k)|
    ensures RemCount(RankedRemainders(clean, k), x) == 1 && x in Base(clean, k)
    ensures forall r :: r in RankedRemainders(clean, k) ==> r.kbId in Base(clean, k)
  {
    LeftBelowCount(clean, k);
    RankedCount(clean, k, x);
    RankedInBase(clean, k);
  }

  /** The leftover loop adds one unit exactly to the bindings it reaches. */
  lemma QuotaLeftover(clean: seq<CleanBinding>, k: int, x: string)
    requires 2 <= |clean| <= k && DistinctIds(clean) && x in IdSet(clean)
    requires forall b :: b in clean ==> b.weight >= 0.0
    ensures x in Base(clean, k) && x in Final(clean, k)
    ensures Final(clean, k)[x] == Base(clean, k)[x] + (if GetsLeftover(clean, k, x) then 1 else 0)
  {
    var base, ranked, left := Base(clean, k), RankedRemainders(clean, k), Left(clean, k);
    LeftoverFacts(clean, k, x);
    FinalDef(clean, k);
    LeftoverAt(Final(clean, k), base, ranked, left, x);
  }

  /** Largest-remainder apportionment: one base unit, the rounded-down share of the
      rest of the budget, and one leftover unit for the `left` largest remainders. */
  lemma QuotaOf(clean: seq<CleanBinding>, k: int, c: CleanBinding)
    requires 2 <= |clean| <= k && DistinctIds(clean) && c in clean
    requires forall b :: b in clean ==> b.weight >= 0.0
    ensures c.kbId in Final(clean, k)
    ensures Final(clean, k)[c.kbId] == 1 + Share(clean, k, c).Floor + (if GetsLeftover(clean, k, c.kbId) then 1 else 0)
  {
    BaseAll(clean, k);
    QuotaLeftover(clean, k, c.kbId);
  }

  // ---------------------------------------------------------------------------
  // Remainder tuples of the bindings

  /** The (frac, weight, -priority, kb_id) tuple of binding c. */
  function Rem(clean: seq<CleanBinding>, k: int, c: CleanBinding): Remainder
    requires 2 <= |clean| <= k && c in clean
  {
    assert c.kbId in IdSet(clean);
    RemainderOf(c, Weights(clean), Raw(clean, k))
  }

  /** With distinct ids, c's tuple holds its share's fractional part and its own weight. */
  lemma RemOf(clean: seq<CleanBinding>, k: int, i: nat)
    requires 2 <= |clean| <= k && DistinctIds(clean) && i < |clean|
    ensures Rem(clean, k, clean[i]) == Remainder(
      Share(clean, k, clean[i]) - (Share(clean, k, clean[i]).Floor as real),
      EffectiveWeight(clean[i], Uniform(clean)), -clean[i].priority, clean[i].kbId)
  {
    RawDistinct(clean, k, i);
    WeightMapDistinct(clean, Uniform(clean), i);
  }

  lemma RankedIsSorted(clean: seq<CleanBinding>, k: int)
    requires 2 <= |clean| <= k
    ensures RankedRemainders(clean, k) == SortBy(Remainders(clean, Weights(clean), Raw(clean, k)), RemainderBefore)
    ensures Sorted(RankedRemainders(clean, k), RemainderBefore)
  {
    assert forall b :: b in clean ==> b.kbId in IdSet(clean);
    RemainderBeforeIsStrict();
    SortBySorted(Remainders(clean, Weights(clean), Raw(clean, k)), RemainderBefore);
  }

  /** Every binding's tuple is in the ranking. */
  lemma RankedHas(clean: seq<CleanBinding>, k: int, c: CleanBinding)
    requires 2 <= |clean| <= k && c in clean
    ensures exists j :: 0 <= j < |RankedRemainders(clean, k)| && RankedRemainders(clean, k)[j] == Rem(clean, k, c)
  {
    assert forall b :: b in clean ==> b.kbId in IdSet(clean);
    var rems := Remainders(clean, Weights(clean), Raw(clean, k));
    RankedIsSorted(clean, k);
    var i :| 0 <= i < |clean| && clean[i] == c;
    assert rems[i] == Rem(clean, k, c);
    MultisetMembership(RankedRemainders(clean, k), rems, rems[i]);
  }

  lemma RemaindersEntry(clean: seq<CleanBinding>, weights: map<string, real>, raw: map<string, real>, r: Remainder, c: CleanBinding)
    requires forall b :: b in clean ==> b.kbId in weights && b.kbId in raw
    requires DistinctIds(clean) && c in clean
    requires r in Remainders(clean, weights, raw) && r.kbId == c.kbId
    ensures r == RemainderOf(c, weights, raw)
  {
    var rems := Remainders(clean, weights, raw);
    var m :| 0 <= m < |rems| && rems[m] == r;
    var i :| 0 <= i < |clean| && clean[i] == c;
    assert clean[m].kbId == c.kbId;
    assert m == i;
  }

  /** A ranking entry with c's id is c's tuple. */
  lemma RankedEntry(clean: seq<CleanBinding>, k: int, j: nat, c: CleanBinding)
    requires 2 <= |clean| <= k && DistinctIds(clean) && c in clean
    requires j < |RankedRemainders(clean, k)| && RankedRemainders(clean, k)[j].kbId == c.kbId
    ensures RankedRemainders(clean, k)[j] == Rem(clean, k, c)
  {
    assert forall b :: b in clean ==> b.kbId in IdSet(clean);
    var rems := Remainders(clean, Weights(clean), Raw(clean, k));
    var ranked := RankedRemainders(clean, k);
    RankedIsSorted(clean, k);
    MultisetMembership(ranked, rems, ranked[j]);
    RemaindersEntry(clean, Weights(clean), Raw(clean, k), ranked[j], c);
  }

  // ---------------------------------------------------------------------------
  // What each binding's quota is

  /** Every binding gets at least one unit. */
  lemma QuotaAtLeastOne(clean: seq<CleanBinding>, k: int, c: CleanBinding)
    requires 2 <= |clean| <= k && DistinctIds(clean) && c in clean
    requires forall b :: b in clean ==> b.weight >= 0.0
    ensures c.kbId in Final(clean, k) && Final(clean, k)[c.kbId] >= 1
  {
    QuotaOf(clean, k, c);
    ShareNonNegative(clean, k, c);
  }

  /** Beyond its base unit, a binding gets its share of the rest of the budget
      rounded down or rounded up: less than one unit off. */
  lemma QuotaNearShare(clean: seq<CleanBinding>, k: int, c: CleanBinding)
    requires 2 <= |clean| <= k && DistinctIds(clean) && c in clean
    requires forall b :: b in clean ==> b.weight >= 0.0
    ensures c.kbId in Final(clean, k)
    ensures Share(clean, k, c) - 1.0 < (Final(clean, k)[c.kbId] - 1) as real <= Share(clean, k, c) + 1.0
  {
    QuotaOf(clean, k, c);
  }

  lemma FirstBeatsRest(ranked: seq<Remainder>, left: int, a: Remainder, b: Remainder)
    requires Sorted(ranked, RemainderBefore)
    requires exists i :: 0 <= i < left && i < |ranked| && ranked[i] == a
    requires exists j :: 0 <= j < |ranked| && ranked[j] == b
    requires !InFirst(ranked, left, b.kbId)
    ensures !RemainderBefore(b, a)
  {
    var i :| 0 <= i < left && i < |ranked| && ranked[i] == a;
    var j :| 0 <= j < |ranked| && ranked[j] == b;
    assert !(j < left);
  }

  lemma LeftoverEntry(clean: seq<CleanBinding>, k: int, c: CleanBinding)
    requires 2 <= |clean| <= k && DistinctIds(clean) && c in clean
    requires GetsLeftover(clean, k, c.kbId)
    ensures exists i :: 0 <= i < Left(clean, k) && i < |RankedRemainders(clean, k)| && RankedRemainders(clean, k)[i] == Rem(clean, k, c)
  {
    var ranked := RankedRemainders(clean, k);
    var i :| 0 <= i < Left(clean, k) && i < |ranked| && ranked[i].kbId == c.kbId;
    RankedEntry(clean, k, i, c);
  }

  /** The leftover units go to the largest remainders: a binding that gets one has a
      tuple no smaller than that of any binding that does not. */
  lemma LargestRemaindersWin(clean: seq<CleanBinding>, k: int, c: CleanBinding, d: CleanBinding)
    requires 2 <= |clean| <= k && DistinctIds(clean) && c in clean && d in clean
    requires GetsLeftover(clean, k, c.kbId) && !GetsLeftover(clean, k, d.kbId)
    ensures !RemainderBefore(Rem(clean, k, d), Rem(clean, k, c))
  {
    LeftoverEntry(clean, k, c);
    RankedHas(clean, k, d);
    RankedIsSorted(clean, k);
    FirstBeatsRest(RankedRemainders(clean, k), Left(clean, k), Rem(clean, k, c), Rem(clean, k, d));
  }

  // ---------------------------------------------------------------------------
  // Comparing two bindings

  lemma ShareMonotone(clean: seq<CleanBinding>, k: int, c: CleanBinding, d: CleanBinding)
    requires 2 <= |clean| <= k && !Uniform(clean) && c.weight >= d.weight
    ensures Share(clean, k, c) >= Share(clean, k, d)
  {
    var r := (k - |clean|) as real;
    var ws := WeightSum(clean);
    assert ws > 0.0;
    assert r * c.weight >= r * d.weight;
    assert r * c.weight / ws >= r * d.weight / ws;
  }

  /** With some positive weight, the tuples compare the fractional parts, then the weights. */
  lemma RemBeforeByWeight(clean: seq<CleanBinding>, k: int, c: CleanBinding, d: CleanBinding)
    requires 2 <= |clean| <= k && DistinctIds(clean) && c in clean && d in clean
    requires !Uniform(clean) && c.weight > d.weight
    requires Share(clean, k, c).Floor == Share(clean, k, d).Floor
    ensures RemainderBefore(Rem(clean, k, c), Rem(clean, k, d))
  {
    var i :| 0 <= i < |clean| && clean[i] == c;
    var j :| 0 <= j < |clean| && clean[j] == d;
    RemOf(clean, k, i);
    RemOf(clean, k, j);
    ShareMonotone(clean, k, c, d);
  }

  lemma WeightedWhenHeavier(clean: seq<CleanBinding>, c: CleanBinding, d: CleanBinding)
    requires c in clean && d in clean && c.weight > d.weight
    requires forall b :: b in clean ==> b.weight >= 0.0
    ensures !Uniform(clean)
  {
    TotalWeightNonNegative(clean);
  }

  /** A binding with a larger weight never gets a smaller quota. */
  lemma HeavierNeverLess(clean: seq<CleanBinding>, k: int, c: CleanBinding, d: CleanBinding)
    requires 2 <= |clean| <= k && DistinctIds(clean) && c in clean && d in clean
    requires forall b :: b in clean ==> b.weight >= 0.0
    requires c.weight > d.weight
    ensures c.kbId in Final(clean, k) && d.kbId in Final(clean, k)
    ensures Final(clean, k)[c.kbId] >= Final(clean, k)[d.kbId]
  {
    WeightedWhenHeavier(clean, c, d);
    ShareMonotone(clean, k, c, d);
    QuotaOf(clean, k, c);
    QuotaOf(clean, k, d);
    if Share(clean, k, c).Floor == Share(clean, k, d).Floor
      && GetsLeftover(clean, k, d.kbId) && !GetsLeftover(clean, k, c.kbId) {
      LargestRemaindersWin(clean, k, d, c);
      RemBeforeByWeight(clean, k, c, d);
      assert false;
    }
  }

  /** Two bindings with the same effective weight get quotas at most one apart. */
  lemma EqualWeightsWithinOne(clean: seq<CleanBinding>, k: int, c: CleanBinding, d: CleanBinding)
    requires 2 <= |clean| <= k && DistinctIds(clean) && c in clean && d in clean
    requires forall b :: b in clean ==> b.weight >= 0.0
    requires EffectiveWeight(c, Uniform(clean)) == EffectiveWeight(d, Uniform(clean))
    ensures c.kbId in Final(clean, k) && d.kbId in Final(clean, k)
    ensures -1 <= Final(clean, k)[c.kbId] - Final(clean, k)[d.kbId] <= 1
  {
    QuotaOf(clean, k, c);
    QuotaOf(clean, k, d);
  }

  /** When no weight is positive the budget is split evenly: quotas differ by at most one. */
  lemma UniformSplitEven(clean: seq<CleanBinding>, k: int, c: CleanBinding, d: CleanBinding)
    requires 2 <= |clean| <= k && DistinctIds(clean) && c in clean && d in clean
    requires forall b :: b in clean ==> b.weight >= 0.0
    requires TotalWeight(clean) <= 0.0
    ensures c.kbId in Final(clean, k) && d.kbId in Final(clean, k)
    ensures -1 <= Final(clean, k)[c.kbId] - Final(clean, k)[d.kbId] <= 1
  {
    EqualWeightsWithinOne(clean, k, c, d);
  }

  // ---------------------------------------------------------------------------
  // The allocator's output

  /** The bindings the output rows describe (id, weight, priority). */
  function Bindings(r: seq<KbAllocation>): (s: seq<CleanBinding>)
    ensures |s| == |r| && forall i :: 0 <= i < |r| ==> s[i] == CleanBinding(r[i].kbId, r[i].weight, r[i].priority)
  {
    seq(|r|, i requires 0 <= i < |r| => CleanBinding(r[i].kbId, r[i].weight, r[i].priority))
  }

  lemma OutputsBindings(sorted: seq<CleanBinding>, alloc: map<string, int>)
    ensures Bindings(Outputs(sorted, alloc)) == sorted
  {
  }

  lemma ChosenBindings(chosen: seq<CleanBinding>)
    ensures Bindings(Chosen(chosen)) == chosen
  {
  }

  /** Nothing is allocated exactly when the budget is not positive or no binding survives cleaning. */
  lemma AllocateEmptyIff(bindings: seq<KbBinding>, totalK: int)
    ensures Allocate(bindings, totalK) == [] <==> totalK <= 0 || Sanitize(bindings) == []
  {
    var clean := Sanitize(bindings);
    if totalK > 0 && |clean| >= 2 {
      if totalK < |clean| {
        AllocateSelect(bindings, totalK);
      } else {
        AllocateApportion(bindings, totalK);
      }
    }
  }

  lemma PrefixMembers<T>(s: seq<T>, t: nat)
    requires t <= |s|
    ensures forall j :: 0 <= j < t ==> s[j] in s[..t]
  {
    forall j | 0 <= j < t ensures s[j] in s[..t] {
      assert s[..t][j] == s[j];
    }
  }

  /** The first t bindings by (weight descending, priority, id), one unit each. */
  lemma ChosenShape(clean: seq<CleanBinding>, t: nat)
    requires t <= |clean|
    ensures |Chosen(SortBy(clean, RankBefore)[..t])| == t
    ensures forall a :: a in Chosen(SortBy(clean, RankBefore)[..t]) ==> a.topK == 1
    ensures Sorted(Bindings(Chosen(SortBy(clean, RankBefore)[..t])), RankBefore)
    ensures forall b :: b in Bindings(Chosen(SortBy(clean, RankBefore)[..t])) ==> b in clean
    ensures forall c, d :: (c in Bindings(Chosen(SortBy(clean, RankBefore)[..t])) && d in clean
      && d !in Bindings(Chosen(SortBy(clean, RankBefore)[..t]))) ==> !RankBefore(d, c)
  {
    var ranked := SortBy(clean, RankBefore);
    var chosen := ranked[..t];
    ChosenBindings(chosen);
    RankBeforeIsStrict();
    SortBySorted(clean, RankBefore);
    assert Sorted(chosen, RankBefore);
    SortedMembers(clean, RankBefore);
    PrefixMembers(ranked, t);
    forall c, d | c in chosen && d in clean && d !in chosen ensures !RankBefore(d, c) {
      var i :| 0 <= i < t && chosen[i] == c;
      var j :| 0 <= j < |ranked| && ranked[j] == d;
      assert j >= t;
    }
  }

  /** A budget smaller than the number of bindings gives one unit each to the first
      totalK bindings by (weight descending, priority, id): the output is in that
      order, and no binding left out ranks before one that was chosen. */
  lemma AllocateSelectsTopRanked(bindings: seq<KbBinding>, totalK: int)
    requires 0 < totalK < |Sanitize(bindings)|
    ensures |Allocate(bindings, totalK)| == totalK
    ensures forall a :: a in Allocate(bindings, totalK) ==> a.topK == 1
    ensures Sorted(Bindings(Allocate(bindings, totalK)), RankBefore)
    ensures forall b :: b in Bindings(Allocate(bindings, totalK)) ==> b in Sanitize(bindings)
    ensures forall c, d :: (c in Bindings(Allocate(bindings, totalK)) && d in Sanitize(bindings)
      && d !in Bindings(Allocate(bindings, totalK))) ==> !RankBefore(d, c)
  {
    AllocateSelect(bindings, totalK);
    ChosenShape(Sanitize(bindings), totalK);
  }

  /** Every binding once, ordered by (priority, id), with its entry of `alloc`. */
  lemma OutputsShape(clean: seq<CleanBinding>, alloc: map<string, int>)
    requires forall b :: b in clean ==> b.kbId in alloc
    ensures Sorted(Bindings(Outputs(SortBy(clean, OutputBefore), alloc)), OutputBefore)
    ensures multiset(Bindings(Outputs(SortBy(clean, OutputBefore), alloc))) == multiset(clean)
    ensures forall a :: a in Outputs(SortBy(clean, OutputBefore), alloc) ==> a.kbId in alloc && a.topK == alloc[a.kbId]
  {
    var sorted := SortBy(clean, OutputBefore);
    OutputsBindings(sorted, alloc);
    OutputBeforeIsStrict();
    SortBySorted(clean, OutputBefore);
    SortedMembers(clean, OutputBefore);
  }

  lemma FinalCovers(clean: seq<CleanBinding>, k: int)
    requires 2 <= |clean| <= k
    ensures forall b :: b in clean ==> b.kbId in Final(clean, k)
  {
  }

  /** Otherwise every binding appears once, ordered by (priority, id), with its quota. */
  lemma AllocateApportionShape(bindings: seq<KbBinding>, totalK: int)
    requires 2 <= |Sanitize(bindings)| <= totalK
    ensures Sorted(Bindings(Allocate(bindings, totalK)), OutputBefore)
    ensures multiset(Bindings(Allocate(bindings, totalK))) == multiset(Sanitize(bindings))
    ensures forall a :: a in Allocate(bindings, totalK) ==>
      a.kbId in Final(Sanitize(bindings), totalK) && a.topK == Final(Sanitize(bindings), totalK)[a.kbId]
  {
    AllocateApportion(bindings, totalK);
    FinalCovers(Sanitize(bindings), totalK);
    OutputsShape(Sanitize(bindings), Final(Sanitize(bindings), totalK));
  }

  lemma OutputsPositive(sorted: seq<CleanBinding>, alloc: map<string, int>)
    requires forall b :: b in sorted ==> b.kbId in alloc && alloc[b.kbId] >= 1
    ensures forall a :: a in Outputs(sorted, alloc) ==> a.topK >= 1
  {
    var r := Outputs(sorted, alloc);
    forall a | a in r ensures a.topK >= 1 {
      var i :| 0 <= i < |r| && r[i] == a;
      assert sorted[i] in sorted;
    }
  }

  lemma FinalPositive(clean: seq<CleanBinding>, k: int)
    requires 2 <= |clean| <= k && DistinctIds(clean)
    requires forall b :: b in clean ==> b.weight >= 0.0
    ensures forall b :: b in clean ==> b.kbId in Final(clean, k) && Final(clean, k)[b.kbId] >= 1
  {
    forall b | b in clean ensures b.kbId in Final(clean, k) && Final(clean, k)[b.kbId] >= 1 {
      QuotaAtLeastOne(clean, k, b);
    }
  }

  lemma ApportionPositive(clean: seq<CleanBinding>, k: int)
    requires 2 <= |clean| <= k && DistinctIds(clean)
    requires forall b :: b in clean ==> b.weight >= 0.0
    ensures forall a :: a in Outputs(SortBy(clean, OutputBefore), Final(clean, k)) ==> a.topK >= 1
  {
    FinalPositive(clean, k);
    SortedMembers(clean, OutputBefore);
    OutputsPositive(SortBy(clean, OutputBefore), Final(clean, k));
  }

  /** Every binding that is allocated anything gets at least one unit. */
  lemma AllocateAllPositive(bindings: seq<KbBinding>, totalK: int)
    requires DistinctIds(Sanitize(bindings))
    ensures forall a :: a in Allocate(bindings, totalK) ==> a.topK >= 1
  {
    var clean := Sanitize(bindings);
    if totalK > 0 && |clean| >= 2 {
      if totalK < |clean| {
        AllocateSelectsTopRanked(bindings, totalK);
      } else {
        AllocateApportion(bindings, totalK);
        ApportionPositive(clean, totalK);
      }
    } else if totalK > 0 && |clean| == 1 {
      AllocateSingle(bindings, totalK);
    }
  }
}
