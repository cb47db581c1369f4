/** What allocate_top_k promises about its result: the budget is conserved, every
    binding gets its share of the budget rounded down or up, the leftover units go
    to the largest remainders, a heavier binding never gets less, and with no
    usable weight the split is even. The proofs assume distinct kb ids, which the
    (app_id, kb_id) uniqueness constraint of the bindings table guarantees. */
module KbAllocationProperties {
  import opened Text
  import opened Sorting
  import opened KbAllocation

  // ---------------------------------------------------------------------------
  // The three orders are strict orders

  lemma RankBeforeIsStrict()
    ensures StrictOrder(RankBefore)
  {
    forall x ensures !RankBefore(x, x) {
      StrLtIrreflexive(x.kbId);
    }
    forall x, y, z | RankBefore(x, y) && RankBefore(y, z) ensures RankBefore(x, z) {
      if x.weight == y.weight == z.weight && x.priority == y.priority == z.priority {
        StrLtTransitive(x.kbId, y.kbId, z.kbId);
      }
    }
  }

  lemma OutputBeforeIsStrict()
    ensures StrictOrder(OutputBefore)
  {
    forall x ensures !OutputBefore(x, x) {
      StrLtIrreflexive(x.kbId);
    }
    forall x, y, z | OutputBefore(x, y) && OutputBefore(y, z) ensures OutputBefore(x, z) {
      if x.priority == y.priority == z.priority {
        StrLtTransitive(x.kbId, y.kbId, z.kbId);
      }
    }
  }

  lemma RemainderBeforeIsStrict()
    ensures StrictOrder(RemainderBefore)
  {
    forall x ensures !RemainderBefore(x, x) {
      StrLtIrreflexive(x.kbId);
    }
    forall x, y, z | RemainderBefore(x, y) && RemainderBefore(y, z) ensures RemainderBefore(x, z) {
      if x.frac == y.frac == z.frac && x.weight == y.weight == z.weight && x.negPriority == y.negPriority == z.negPriority {
        StrLtTransitive(z.kbId, y.kbId, x.kbId);
      }
    }
  }

  // ---------------------------------------------------------------------------
  // Sanitisation

  function Kept(b: KbBinding): seq<CleanBinding> {
    if Strip(b.kbId) == "" then [] else [CleanBinding(Strip(b.kbId), CleanWeight(b.weight), b.priority)]
  }

  lemma SanitizeSnoc(bs: seq<KbBinding>)
    requires bs != []
    ensures Sanitize(bs) == Sanitize(bs[..|bs| - 1]) + Kept(bs[|bs| - 1])
  {
  }

  predicate AllBlank(bs: seq<KbBinding>) {
    forall i :: 0 <= i < |bs| ==> Strip(bs[i].kbId) == ""
  }

  lemma KeptEmpty(b: KbBinding)
    ensures Kept(b) == [] <==> Strip(b.kbId) == ""
    ensures Strip(b.kbId) != "" ==> Kept(b) == [CleanBinding(Strip(b.kbId), CleanWeight(b.weight), b.priority)]
  {
  }

  lemma {:induction false} AllBlankDropped(bs: seq<KbBinding>)
    requires AllBlank(bs)
    ensures Sanitize(bs) == []
  {
    if bs != [] {
      var init := bs[..|bs| - 1];
      assert AllBlank(init) by {
        forall i | 0 <= i < |init| ensures Strip(init[i].kbId) == "" {
          assert init[i] == bs[i];
        }
      }
      AllBlankDropped(init);
      SanitizeSnoc(bs);
      KeptEmpty(bs[|bs| - 1]);
    }
  }

  lemma DroppedStep(bs: seq<KbBinding>)
    requires bs != [] && Sanitize(bs) == []
    ensures Sanitize(bs[..|bs| - 1]) == [] && Strip(bs[|bs| - 1].kbId) == ""
  {
    SanitizeSnoc(bs);
    assert |Sanitize(bs[..|bs| - 1])| + |Kept(bs[|bs| - 1])| == 0;
    KeptEmpty(bs[|bs| - 1]);
  }

  lemma {:induction false} DroppedAllBlank(bs: seq<KbBinding>)
    requires Sanitize(bs) == []
    ensures AllBlank(bs)
  {
    if bs != [] {
      var init := bs[..|bs| - 1];
      DroppedStep(bs);
      DroppedAllBlank(init);
      forall i | 0 <= i < |init| ensures Strip(bs[i].kbId) == "" {
        assert init[i] == bs[i];
      }
    }
  }

  /** Nothing is kept when every id is blank after trimming, and only then. */
  lemma SanitizeEmpty(bs: seq<KbBinding>)
    ensures Sanitize(bs) == [] <==> AllBlank(bs)
  {
    if AllBlank(bs) {
      AllBlankDropped(bs);
    }
    if Sanitize(bs) == [] {
      DroppedAllBlank(bs);
    }
  }

  function CleanOf(b: KbBinding): CleanBinding {
    CleanBinding(Strip(b.kbId), CleanWeight(b.weight), b.priority)
  }

  predicate NoneBlank(bs: seq<KbBinding>) {
    forall i :: 0 <= i < |bs| ==> Strip(bs[i].kbId) != ""
  }

  lemma KeptStep(bs: seq<KbBinding>)
    requires bs != [] && Strip(bs[|bs| - 1].kbId) != ""
    ensures Sanitize(bs) == Sanitize(bs[..|bs| - 1]) + [CleanOf(bs[|bs| - 1])]
  {
    SanitizeSnoc(bs);
    KeptEmpty(bs[|bs| - 1]);
  }

  /** When no id is blank, every binding is kept in order, id trimmed and weight cleaned. */
  lemma {:induction false} SanitizeKeepsNonBlank(bs: seq<KbBinding>)
    requires NoneBlank(bs)
    ensures |Sanitize(bs)| == |bs|
    ensures forall i :: 0 <= i < |bs| ==> Sanitize(bs)[i] == CleanOf(bs[i])
  {
    if bs != [] {
      var init := bs[..|bs| - 1];
      assert NoneBlank(init) by {
        forall i | 0 <= i < |init| ensures Strip(init[i].kbId) != "" {
          assert init[i] == bs[i];
        }
      }
      SanitizeKeepsNonBlank(init);
      KeptStep(bs);
      assert |Sanitize(bs)| == |bs|;
      forall i | 0 <= i < |bs| ensures Sanitize(bs)[i] == CleanOf(bs[i]) {
        if i < |init| {
          assert Sanitize(bs)[i] == Sanitize(init)[i];
          assert init[i] == bs[i];
        } else {
          assert Sanitize(bs)[i] == CleanOf(bs[|bs| - 1]);
        }
      }
    }
  }

  // ---------------------------------------------------------------------------
  // Distinct ids

  predicate DistinctIds(clean: seq<CleanBinding>) {
    forall i, j :: 0 <= i < j < |clean| ==> clean[i].kbId != clean[j].kbId
  }

  predicate DistinctRemIds(rs: seq<Remainder>) {
    forall i, j :: 0 <= i < j < |rs| ==> rs[i].kbId != rs[j].kbId
  }

  function Ids(s: seq<CleanBinding>): (r: seq<string>)
    ensures |r| == |s| && forall i :: 0 <= i < |s| ==> r[i] == s[i].kbId
  {
    seq(|s|, i requires 0 <= i < |s| => s[i].kbId)
  }

  /** With distinct ids the dict keys are the ids in binding order. */
  lemma {:induction false} KeyOrderDistinct(clean: seq<CleanBinding>)
    requires DistinctIds(clean)
    ensures KeyOrder(clean) == Ids(clean)
  {
    if clean != [] {
      var init := clean[..|clean| - 1];
      var last := clean[|clean| - 1];
      KeyOrderDistinct(init);
      assert forall i :: 0 <= i < |init| ==> init[i].kbId != last.kbId;
    }
  }

  /** With distinct ids each binding's own (effective) weight is in `weights`. */
  lemma {:induction false} WeightMapDistinct(clean: seq<CleanBinding>, uniform: bool, i: nat)
    requires DistinctIds(clean) && i < |clean|
    ensures WeightMap(clean, uniform)[clean[i].kbId] == EffectiveWeight(clean[i], uniform)
  {
    var n := |clean|;
    if i < n - 1 {
      WeightMapDistinct(clean[..n - 1], uniform, i);
      assert clean[i].kbId != clean[n - 1].kbId;
    }
  }

  lemma {:induction false} AddFloorsPointwise(base: map<string, int>, extra: map<string, int>, keys: seq<string>, x: string)
    requires forall k :: k in keys ==> k in base && k in extra
    requires forall i, j :: 0 <= i < j < |keys| ==> keys[i] != keys[j]
    requires x in base
    ensures AddFloors(base, extra, keys)[x] ==
      base[x] + (if x in keys && extra[x] > 0 then extra[x] else 0)
  {
    if keys != [] {
      var init := keys[..|keys| - 1];
      AddFloorsPointwise(base, extra, init, x);
      assert x in keys <==> x in init || x == keys[|keys| - 1];
    }
  }

  // ---------------------------------------------------------------------------
  // The share of each binding

  function Uniform(clean: seq<CleanBinding>): bool {
    TotalWeight(clean) <= 0.0
  }

  /** `remaining * weights[kid] / w_sum` for binding c. */
  function Share(clean: seq<CleanBinding>, k: int, c: CleanBinding): real
    requires 2 <= |clean| <= k
  {
    RawExtra(k - |clean|, EffectiveWeight(c, Uniform(clean)), WeightSum(clean))
  }

  lemma {:induction false} TotalWeightNonNegative(s: seq<CleanBinding>)
    requires forall c :: c in s ==> c.weight >= 0.0
    ensures TotalWeight(s) >= 0.0
    ensures TotalWeight(s) == 0.0 ==> forall c :: c in s ==> c.weight == 0.0
  {
    if s != [] {
      TotalWeightNonNegative(s[1..]);
      assert forall c :: c in s ==> c == s[0] || c in s[1..];
    }
  }

  lemma ShareNonNegative(clean: seq<CleanBinding>, k: int, c: CleanBinding)
    requires 2 <= |clean| <= k
    requires c.weight >= 0.0
    ensures Share(clean, k, c) >= 0.0
  {
    var r := (k - |clean|) as real;
    var w := EffectiveWeight(c, Uniform(clean));
    assert r * w >= 0.0;
  }

  /** What each entry of `raw_extra` holds, with distinct ids. */
  lemma RawDistinct(clean: seq<CleanBinding>, k: int, i: nat)
    requires 2 <= |clean| <= k && DistinctIds(clean) && i < |clean|
    ensures clean[i].kbId in Raw(clean, k)
    ensures Raw(clean, k)[clean[i].kbId] == Share(clean, k, clean[i])
  {
    assert clean[i] in clean;
    WeightMapDistinct(clean, Uniform(clean), i);
  }

  /** The base unit plus the rounded-down share, before the leftover round. */
  lemma BaseDistinct(clean: seq<CleanBinding>, k: int, i: nat)
    requires 2 <= |clean| <= k && DistinctIds(clean) && i < |clean|
    requires forall c :: c in clean ==> c.weight >= 0.0
    ensures clean[i].kbId in Base(clean, k)
    ensures Base(clean, k)[clean[i].kbId] == 1 + Share(clean, k, clean[i]).Floor
    ensures Share(clean, k, clean[i]).Floor >= 0
  {
    var c := clean[i];
    assert c in clean;
    RawDistinct(clean, k, i);
    ShareNonNegative(clean, k, c);
    KeyOrderDistinct(clean);
    assert c.kbId in Ids(clean);
    AddFloorsPointwise(OnePerId(clean), Extra(clean, k), KeyOrder(clean), c.kbId);
  }

  // ---------------------------------------------------------------------------
  // Sums

  function SumEffective(s: seq<CleanBinding>, uniform: bool): real {
    if s == [] then 0.0 else EffectiveWeight(s[0], uniform) + SumEffective(s[1..], uniform)
  }

  function SumShares(clean: seq<CleanBinding>, k: int, s: seq<CleanBinding>): real
    requires 2 <= |clean| <= k
  {
    if s == [] then 0.0 else Share(clean, k, s[0]) + SumShares(clean, k, s[1..])
  }

  function SumFloors(clean: seq<CleanBinding>, k: int, s: seq<CleanBinding>): int
    requires 2 <= |clean| <= k
  {
    if s == [] then 0 else Share(clean, k, s[0]).Floor + SumFloors(clean, k, s[1..])
  }

  /** A quota map summed over a list of bindings. */
  function SumQuota(m: map<string, int>, s: seq<CleanBinding>): int {
    if s == [] then 0 else GetOr(m, s[0].kbId, 0) + SumQuota(m, s[1..])
  }

  function SumTopK(r: seq<KbAllocation>): int {
    if r == [] then 0 else r[0].topK + SumTopK(r[1..])
  }

  /** How many bindings of s have id x. */
  function CountId(s: seq<CleanBinding>, x: string): nat {
    if s == [] then 0 else (if s[0].kbId == x then 1 else 0) + CountId(s[1..], x)
  }

  lemma {:induction false} SumEffectiveIsWeightSum(s: seq<CleanBinding>, uniform: bool)
    ensures SumEffective(s, uniform) == if uniform then |s| as real else TotalWeight(s)
  {
    if s != [] {
      SumEffectiveIsWeightSum(s[1..], uniform);
    }
  }

  lemma {:induction false} SumSharesLinear(clean: seq<CleanBinding>, k: int, s: seq<CleanBinding>)
    requires 2 <= |clean| <= k
    ensures SumShares(clean, k, s) == ((k - |clean|) as real) * SumEffective(s, Uniform(clean)) / WeightSum(clean)
  {
    if s != [] {
      SumSharesLinear(clean, k, s[1..]);
      var r := (k - |clean|) as real;
      var w := WeightSum(clean);
      var e := EffectiveWeight(s[0], Uniform(clean));
      var rest := SumEffective(s[1..], Uniform(clean));
      SharesStep(clean, k, s);
      DivSum(r, e, rest, w, Share(clean, k, s[0]), SumShares(clean, k, s[1..]), SumEffective(s, Uniform(clean)));
    }
  }

  lemma SharesStep(clean: seq<CleanBinding>, k: int, s: seq<CleanBinding>)
    requires 2 <= |clean| <= k && s != []
    ensures WeightSum(clean) != 0.0
    ensures Share(clean, k, s[0]) == ((k - |clean|) as real) * EffectiveWeight(s[0], Uniform(clean)) / WeightSum(clean)
    ensures SumShares(clean, k, s) == Share(clean, k, s[0]) + SumShares(clean, k, s[1..])
    ensures SumEffective(s, Uniform(clean)) == EffectiveWeight(s[0], Uniform(clean)) + SumEffective(s[1..], Uniform(clean))
  {
  }

  lemma DivSum(r: real, e: real, rest: real, w: real, a: real, b: real, total: real)
    requires w != 0.0 && a == r * e / w && b == r * rest / w && total == e + rest
    ensures a + b == r * total / w
  {
    assert r * e / w + r * rest / w == (r * e + r * rest) / w;
    assert r * e + r * rest == r * (e + rest);
  }

  /** The shares add up to the budget left after the base unit each. */
  lemma SharesAddUp(clean: seq<CleanBinding>, k: int)
    requires 2 <= |clean| <= k
    ensures SumShares(clean, k, clean) == (k - |clean|) as real
  {
    SumSharesLinear(clean, k, clean);
    SumEffectiveIsWeightSum(clean, Uniform(clean));
  }

  lemma {:induction false} FloorsBelowShares(clean: seq<CleanBinding>, k: int, s: seq<CleanBinding>)
    requires 2 <= |clean| <= k
    ensures SumFloors(clean, k, s) as real <= SumShares(clean, k, s)
    ensures SumShares(clean, k, s) < SumFloors(clean, k, s) as real + |s| as real || s == []
  {
    if s != [] {
      FloorsBelowShares(clean, k, s[1..]);
    }
  }

  lemma {:induction false} SumOverCons(extra: map<string, int>, x: string, keys: seq<string>)
    requires x in extra && forall k :: k in keys ==> k in extra
    ensures SumOver(extra, [x] + keys) == extra[x] + SumOver(extra, keys)
    decreases |keys|
  {
    if keys != [] {
      var init := keys[..|keys| - 1];
      assert ([x] + keys)[..|keys|] == [x] + init;
      SumOverCons(extra, x, init);
    }
  }

  lemma {:induction false} SumOverIds(extra: map<string, int>, s: seq<CleanBinding>)
    requires forall c :: c in s ==> c.kbId in extra
    ensures SumOver(extra, Ids(s)) == SumQuota(extra, s)
  {
    if s != [] {
      SumOverIds(extra, s[1..]);
      assert Ids(s) == [s[0].kbId] + Ids(s[1..]);
      SumOverCons(extra, s[0].kbId, Ids(s[1..]));
    }
  }

  lemma {:induction false} SumQuotaFloors(clean: seq<CleanBinding>, k: int, m: map<string, int>, s: seq<CleanBinding>)
    requires 2 <= |clean| <= k
    requires forall c :: c in s ==> c.kbId in m && m[c.kbId] == Share(clean, k, c).Floor
    ensures SumQuota(m, s) == SumFloors(clean, k, s)
  {
    if s != [] {
      SumQuotaFloors(clean, k, m, s[1..]);
    }
  }

  lemma ExtraDistinct(clean: seq<CleanBinding>, k: int)
    requires 2 <= |clean| <= k && DistinctIds(clean)
    ensures forall c :: c in clean ==> c.kbId in Extra(clean, k) && Extra(clean, k)[c.kbId] == Share(clean, k, c).Floor
  {
    forall c | c in clean ensures c.kbId in Extra(clean, k) && Extra(clean, k)[c.kbId] == Share(clean, k, c).Floor {
      var i :| 0 <= i < |clean| && clean[i] == c;
      RawDistinct(clean, k, i);
    }
  }

  lemma UsedDistinct(clean: seq<CleanBinding>, k: int)
    requires 2 <= |clean| <= k && DistinctIds(clean)
    ensures Used(clean, k) == SumFloors(clean, k, clean)
  {
    ExtraDistinct(clean, k);
    KeyOrderDistinct(clean);
    SumOverIds(Extra(clean, k), clean);
    SumQuotaFloors(clean, k, Extra(clean, k), clean);
  }

  /** The rounded-down shares use at most the budget, and leave fewer than n units over. */
  lemma UsedAndLeft(clean: seq<CleanBinding>, k: int)
    requires 2 <= |clean| <= k && DistinctIds(clean)
    requires forall c :: c in clean ==> c.weight >= 0.0
    ensures 0 <= Used(clean, k) <= k - |clean|
    ensures Left(clean, k) == k - |clean| - Used(clean, k)
    ensures Left(clean, k) < |clean|
  {
    UsedDistinct(clean, k);
    SharesAddUp(clean, k);
    FloorsBelowShares(clean, k, clean);
    FloorsNonNegative(clean, k, clean);
  }

  lemma {:induction false} FloorsNonNegative(clean: seq<CleanBinding>, k: int, s: seq<CleanBinding>)
    requires 2 <= |clean| <= k
    requires forall c :: c in s ==> c.weight >= 0.0
    ensures SumFloors(clean, k, s) >= 0
  {
    if s != [] {
      ShareNonNegative(clean, k, s[0]);
      FloorsNonNegative(clean, k, s[1..]);
    }
  }

  // ---------------------------------------------------------------------------
  // Sums over permutations, updates and the leftover round

  lemma {:induction false} SumQuotaConcat(m: map<string, int>, a: seq<CleanBinding>, b: seq<CleanBinding>)
    ensures SumQuota(m, a + b) == SumQuota(m, a) + SumQuota(m, b)
    decreases |a|
  {
    if a == [] {
      assert a + b == b;
    } else {
      assert (a + b)[1..] == a[1..] + b;
      SumQuotaConcat(m, a[1..], b);
    }
  }

  /** Removing the element at i removes one occurrence of it. */
  lemma RemoveAtMultiset(t: seq<CleanBinding>, i: int)
    requires 0 <= i < |t|
    ensures multiset(t) == multiset{t[i]} + multiset(t[..i] + t[i + 1..])
  {
    assert t == t[..i] + [t[i]] + t[i + 1..];
  }

  lemma MultisetCancel(x: CleanBinding, a: multiset<CleanBinding>, b: multiset<CleanBinding>)
    requires multiset{x} + a == multiset{x} + b
    ensures a == b
  {
    forall y ensures a[y] == b[y] {
      assert (multiset{x} + a)[y] == (multiset{x} + b)[y];
    }
  }

  /** Matching the head of s with t[i] leaves two permutations of each other. */
  lemma PermutationTail(s: seq<CleanBinding>, t: seq<CleanBinding>, i: int)
    requires multiset(s) == multiset(t) && s != [] && 0 <= i < |t| && t[i] == s[0]
    ensures multiset(s[1..]) == multiset(t[..i] + t[i + 1..])
  {
    RemoveAtMultiset(s, 0);
    RemoveAtMultiset(t, i);
    assert s[..0] + s[1..] == s[1..];
    MultisetCancel(s[0], multiset(s[1..]), multiset(t[..i] + t[i + 1..]));
  }

  /** The element at i contributes its quota once to the sum. */
  lemma SumQuotaRemoveAt(m: map<string, int>, t: seq<CleanBinding>, i: int)
    requires 0 <= i < |t|
    ensures SumQuota(m, t) == GetOr(m, t[i].kbId, 0) + SumQuota(m, t[..i] + t[i + 1..])
  {
    assert t == t[..i] + [t[i]] + t[i + 1..];
    SumQuotaConcat(m, t[..i] + [t[i]], t[i + 1..]);
    SumQuotaConcat(m, t[..i], [t[i]]);
    SumQuotaConcat(m, t[..i], t[i + 1..]);
  }

  /** The sum of a quota map over the bindings does not depend on their order. */
  lemma {:induction false} SumQuotaPermutation(m: map<string, int>, s: seq<CleanBinding>, t: seq<CleanBinding>)
    requires multiset(s) == multiset(t)
    ensures SumQuota(m, s) == SumQuota(m, t)
    decreases |s|
  {
    if s == [] {
      assert |t| == |multiset(t)| == 0;
    } else {
      var x := s[0];
      assert x in multiset(t);
      var i :| 0 <= i < |t| && t[i] == x;
      var rest := t[..i] + t[i + 1..];
      PermutationTail(s, t, i);
      SumQuotaPermutation(m, s[1..], rest);
      SumQuotaRemoveAt(m, t, i);
    }
  }

  lemma {:induction false} OutputsSum(sorted: seq<CleanBinding>, m: map<string, int>)
    ensures SumTopK(Outputs(sorted, m)) == SumQuota(m, sorted)
    decreases |sorted|
  {
    if sorted != [] {
      OutputsSum(sorted[1..], m);
      assert Outputs(sorted, m)[1..] == Outputs(sorted[1..], m);
    }
  }

  lemma {:induction false} SumQuotaUpdate(m: map<string, int>, x: string, s: seq<CleanBinding>)
    requires x in m
    ensures SumQuota(m[x := m[x] + 1], s) == SumQuota(m, s) + CountId(s, x)
  {
    if s != [] {
      SumQuotaUpdate(m, x, s[1..]);
    }
  }

  lemma {:induction false} CountIdDistinct(clean: seq<CleanBinding>, x: string)
    requires DistinctIds(clean)
    ensures CountId(clean, x) == if x in IdSet(clean) then 1 else 0
  {
    if clean != [] {
      var rest := clean[1..];
      assert DistinctIds(rest) by {
        forall i, j | 0 <= i < j < |rest| ensures rest[i].kbId != rest[j].kbId {
          assert rest[i] == clean[i + 1] && rest[j] == clean[j + 1];
        }
      }
      CountIdDistinct(rest, x);
      assert IdSet(clean) == {clean[0].kbId} + IdSet(rest) by {
        assert forall c :: c in clean <==> c == clean[0] || c in rest;
      }
    }
  }

  /** Each leftover unit lands on one of the bindings: the total grows by the number of rounds. */
  lemma {:induction false} DistributeSum(base: map<string, int>, ranked: seq<Remainder>, count: nat, clean: seq<CleanBinding>)
    requires |ranked| > 0 && DistinctIds(clean)
    requires forall r :: r in ranked ==> r.kbId in base && r.kbId in IdSet(clean)
    ensures SumQuota(Distribute(base, ranked, count), clean) == SumQuota(base, clean) + count
  {
    if count > 0 {
      DistributeSum(base, ranked, count - 1, clean);
      var prev := Distribute(base, ranked, count - 1);
      var x := ranked[(count - 1) % |ranked|].kbId;
      assert ranked[(count - 1) % |ranked|] in ranked;
      SumQuotaUpdate(prev, x, clean);
      CountIdDistinct(clean, x);
    }
  }

  lemma {:induction false} SumQuotaBase(clean: seq<CleanBinding>, k: int, m: map<string, int>, s: seq<CleanBinding>)
    requires 2 <= |clean| <= k
    requires forall c :: c in s ==> c.kbId in m && m[c.kbId] == 1 + Share(clean, k, c).Floor
    ensures SumQuota(m, s) == |s| + SumFloors(clean, k, s)
  {
    if s != [] {
      SumQuotaBase(clean, k, m, s[1..]);
    }
  }

  lemma BaseAll(clean: seq<CleanBinding>, k: int)
    requires 2 <= |clean| <= k && DistinctIds(clean)
    requires forall c :: c in clean ==> c.weight >= 0.0
    ensures forall c :: c in clean ==> c.kbId in Base(clean, k) && Base(clean, k)[c.kbId] == 1 + Share(clean, k, c).Floor
  {
    forall c | c in clean ensures c.kbId in Base(clean, k) && Base(clean, k)[c.kbId] == 1 + Share(clean, k, c).Floor {
      var i :| 0 <= i < |clean| && clean[i] == c;
      BaseDistinct(clean, k, i);
    }
  }

  /** The apportionment hands out exactly the budget. */
  lemma ApportionConserves(clean: seq<CleanBinding>, k: int)
    requires 2 <= |clean| <= k && DistinctIds(clean)
    requires forall c :: c in clean ==> c.weight >= 0.0
    ensures SumQuota(Final(clean, k), clean) == k
  {
    BaseSum(clean, k);
    UsedAndLeft(clean, k);
    UsedDistinct(clean, k);
    FinalSum(clean, k);
  }

  /** Every binding's base quota is one plus its rounded-down share. */
  lemma BaseSum(clean: seq<CleanBinding>, k: int)
    requires 2 <= |clean| <= k && DistinctIds(clean)
    requires forall c :: c in clean ==> c.weight >= 0.0
    ensures SumQuota(Base(clean, k), clean) == |clean| + SumFloors(clean, k, clean)
  {
    BaseAll(clean, k);
    SumQuotaBase(clean, k, Base(clean, k), clean);
  }

  /** The leftover loop adds exactly `left` units. */
  lemma FinalSum(clean: seq<CleanBinding>, k: int)
    requires 2 <= |clean| <= k && DistinctIds(clean)
    ensures SumQuota(Final(clean, k), clean) == SumQuota(Base(clean, k), clean) + Left(clean, k)
  {
    if Left(clean, k) > 0 {
      DistributeSum(Base(clean, k), RankedRemainders(clean, k), Left(clean, k), clean);
    }
  }

  lemma {:induction false} ChosenSum(chosen: seq<CleanBinding>)
    ensures SumTopK(Chosen(chosen)) == |chosen|
    decreases |chosen|
  {
    if chosen != [] {
      assert Chosen(chosen)[1..] == Chosen(chosen[1..]);
      ChosenSum(chosen[1..]);
    }
  }

  lemma ApportionSum(clean: seq<CleanBinding>, k: int)
    requires 2 <= |clean| <= k && DistinctIds(clean)
    requires forall b :: b in clean ==> b.weight >= 0.0
    ensures SumTopK(Outputs(SortBy(clean, OutputBefore), Final(clean, k))) == k
  {
    var sorted := SortBy(clean, OutputBefore);
    OutputsSum(sorted, Final(clean, k));
    SumQuotaPermutation(Final(clean, k), sorted, clean);
    ApportionConserves(clean, k);
  }

  // Allocate, branch by branch.

  lemma AllocateSingle(bindings: seq<KbBinding>, totalK: int)
    requires totalK > 0 && |Sanitize(bindings)| == 1
    ensures Allocate(bindings, totalK)
         == [KbAllocation(Sanitize(bindings)[0].kbId, totalK, Sanitize(bindings)[0].weight, Sanitize(bindings)[0].priority)]
  {
  }

  lemma AllocateSelect(bindings: seq<KbBinding>, totalK: int)
    requires 0 < totalK < |Sanitize(bindings)| && |Sanitize(bindings)| >= 2
    ensures Allocate(bindings, totalK) == Chosen(SortBy(Sanitize(bindings), RankBefore)[..totalK])
  {
    var k := if totalK > 0 then totalK else 0;
    assert k == totalK;
  }

  lemma AllocateApportion(bindings: seq<KbBinding>, totalK: int)
    requires 2 <= |Sanitize(bindings)| <= totalK
    ensures Allocate(bindings, totalK) == Outputs(SortBy(Sanitize(bindings), OutputBefore), Final(Sanitize(bindings), totalK))
  {
  }

  /** The allocations add up to the requested total whenever some binding is usable. */
  lemma AllocateConservesBudget(bindings: seq<KbBinding>, totalK: int)
    requires totalK > 0 && Sanitize(bindings) != [] && DistinctIds(Sanitize(bindings))
    ensures SumTopK(Allocate(bindings, totalK)) == totalK
  {
    var clean := Sanitize(bindings);
    if |clean| == 1 {
      AllocateSingle(bindings, totalK);
    } else if totalK < |clean| {
      AllocateSelect(bindings, totalK);
      ChosenSum(SortBy(clean, RankBefore)[..totalK]);
    } else {
      AllocateApportion(bindings, totalK);
      ApportionSum(clean, totalK);
    }
  }
}
