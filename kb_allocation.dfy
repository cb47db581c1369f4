/** The top-k budget allocator of rag/kb_allocation.py: one retrieval budget
    split over weighted, prioritised knowledge-base bindings by largest-remainder
    apportionment. Python floats are modelled as reals; NaN and infinities are
    a separate case of the input weight. */
module KbAllocation {
  import opened Text
  import opened Sorting

  /** A Python float weight: a finite value, or NaN / an infinity. A missing
      weight (None) is Finite(0.0). */
  datatype Weight = Finite(value: real) | NonFinite

  /** A binding as the caller passes it. */
  datatype KbBinding = KbBinding(kbId: string, weight: Weight, priority: int)

  /** A binding after sanitisation: trimmed non-blank id, weight at least 0. */
  datatype CleanBinding = CleanBinding(kbId: string, weight: real, priority: int)

  datatype KbAllocation = KbAllocation(kbId: string, topK: int, weight: real, priority: int)

  /** The tuple (frac, weight, -priority, kb_id) the leftover loop sorts. */
  datatype Remainder = Remainder(frac: real, weight: real, negPriority: int, kbId: string)

  // ---------------------------------------------------------------------------
  // Sanitisation

  /** Negative and non-finite weights become 0. */
  function CleanWeight(w: Weight): (r: real)
    ensures r >= 0.0
    ensures r == (if w.Finite? && w.value >= 0.0 then w.value else 0.0)
  {
    match w
    case NonFinite => 0.0
    case Finite(v) => if v < 0.0 then 0.0 else v
  }

  /** The `clean` list: bindings with a non-blank id, id trimmed, weight cleaned. */
  function Sanitize(bs: seq<KbBinding>): (clean: seq<CleanBinding>)
    ensures |clean| <= |bs|
    ensures forall c :: c in clean ==> c.kbId != "" && c.weight >= 0.0
  {
    if bs == [] then []
    else
      var b := bs[|bs| - 1];
      var kid := Strip(b.kbId);
      Sanitize(bs[..|bs| - 1]) + (if kid == "" then [] else [CleanBinding(kid, CleanWeight(b.weight), b.priority)])
  }

  // ---------------------------------------------------------------------------
  // The three orders

  /** `sorted(clean, key=lambda x: (-x.weight, x.priority, x.kb_id))`. */
  predicate RankBefore(a: CleanBinding, b: CleanBinding) {
    a.weight > b.weight ||
    (a.weight == b.weight && (a.priority < b.priority || (a.priority == b.priority && StrLt(a.kbId, b.kbId))))
  }

  /** `sorted(clean, key=lambda x: (x.priority, x.kb_id))`. */
  predicate OutputBefore(a: CleanBinding, b: CleanBinding) {
    a.priority < b.priority || (a.priority == b.priority && StrLt(a.kbId, b.kbId))
  }

  /** `remainders.sort(reverse=True)`: Python tuple comparison `a > b`. */
  predicate RemainderBefore(a: Remainder, b: Remainder) {
    a.frac > b.frac ||
    (a.frac == b.frac &&
      (a.weight > b.weight ||
        (a.weight == b.weight &&
          (a.negPriority > b.negPriority || (a.negPriority == b.negPriority && StrLt(b.kbId, a.kbId))))))
  }

  // ---------------------------------------------------------------------------
  // The dictionaries of the apportionment branch

  function IdSet(clean: seq<CleanBinding>): set<string> {
    set b | b in clean :: b.kbId
  }

  function EffectiveWeight(b: CleanBinding, uniform: bool): real {
    if uniform then 1.0 else b.weight
  }

  /** `weights = {b.kb_id: ... for b in clean}`: a later binding with the same id overwrites. */
  function WeightMap(clean: seq<CleanBinding>, uniform: bool): (m: map<string, real>)
    ensures m.Keys == IdSet(clean)
  {
    if clean == [] then map[]
    else
      var last := clean[|clean| - 1];
      assert clean == clean[..|clean| - 1] + [last];
      WeightMap(clean[..|clean| - 1], uniform)[last.kbId := EffectiveWeight(last, uniform)]
  }

  /** Insertion order of the keys of a dict built from `clean`. */
  function KeyOrder(clean: seq<CleanBinding>): (keys: seq<string>)
    ensures forall k :: k in keys <==> k in IdSet(clean)
    ensures forall i, j :: 0 <= i < j < |keys| ==> keys[i] != keys[j]
  {
    if clean == [] then []
    else
      var prev := KeyOrder(clean[..|clean| - 1]);
      var last := clean[|clean| - 1];
      assert clean == clean[..|clean| - 1] + [last];
      if last.kbId in prev then prev else prev + [last.kbId]
  }

  /** `sum(b.weight for b in clean)`. */
  function TotalWeight(clean: seq<CleanBinding>): real {
    if clean == [] then 0.0 else clean[0].weight + TotalWeight(clean[1..])
  }

  /** `remaining * weights[kid] / w_sum`. */
  function RawExtra(remaining: int, w: real, wSum: real): real
    requires wSum != 0.0
  {
    (remaining as real) * w / wSum
  }

  /** `raw_extra`. */
  function RawExtraMap(weights: map<string, real>, remaining: int, wSum: real): (m: map<string, real>)
    requires wSum != 0.0
    ensures m.Keys == weights.Keys
  {
    map id | id in weights :: RawExtra(remaining, weights[id], wSum)
  }

  /** `extra_base = {kid: int(math.floor(v)) ...}`. */
  function FloorMap(raw: map<string, real>): (m: map<string, int>)
    ensures m.Keys == raw.Keys
  {
    map id | id in raw :: raw[id].Floor
  }

  /** `base_alloc = {b.kb_id: 1 for b in clean}`. */
  function OnePerId(clean: seq<CleanBinding>): (m: map<string, int>)
    ensures m.Keys == IdSet(clean)
  {
    map id | id in IdSet(clean) :: 1
  }

  /** The floor loop: `base_alloc[kid] += max(0, inc)` for each key in order. */
  function AddFloors(base: map<string, int>, extra: map<string, int>, keys: seq<string>): (m: map<string, int>)
    requires forall k :: k in keys ==> k in base && k in extra
    ensures m.Keys == base.Keys
  {
    if keys == [] then base
    else
      var kid := keys[|keys| - 1];
      var prev := AddFloors(base, extra, keys[..|keys| - 1]);
      prev[kid := prev[kid] + (if extra[kid] > 0 then extra[kid] else 0)]
  }

  /** `sum(extra_base.values())`, taken in key order. */
  function SumOver(extra: map<string, int>, keys: seq<string>): int
    requires forall k :: k in keys ==> k in extra
  {
    if keys == [] then 0 else SumOver(extra, keys[..|keys| - 1]) + extra[keys[|keys| - 1]]
  }

  function RemainderOf(b: CleanBinding, weights: map<string, real>, raw: map<string, real>): Remainder
    requires b.kbId in weights && b.kbId in raw
  {
    var v := raw[b.kbId];
    Remainder(v - (v.Floor as real), weights[b.kbId], -b.priority, b.kbId)
  }

  /** The `remainders` list, one tuple per entry of `clean`, in `clean` order. */
  function Remainders(clean: seq<CleanBinding>, weights: map<string, real>, raw: map<string, real>): (r: seq<Remainder>)
    requires forall b :: b in clean ==> b.kbId in weights && b.kbId in raw
    ensures |r| == |clean|
    ensures forall i :: 0 <= i < |clean| ==> r[i] == RemainderOf(clean[i], weights, raw)
  {
    if clean == [] then []
    else Remainders(clean[..|clean| - 1], weights, raw) + [RemainderOf(clean[|clean| - 1], weights, raw)]
  }

  /** The leftover loop after `count` rounds: round i adds 1 to `ranked[i % len]`. */
  function Distribute(base: map<string, int>, ranked: seq<Remainder>, count: nat): (m: map<string, int>)
    requires |ranked| > 0
    requires forall r :: r in ranked ==> r.kbId in base
    ensures m.Keys == base.Keys
  {
    if count == 0 then base
    else
      var prev := Distribute(base, ranked, count - 1);
      var kid := ranked[(count - 1) % |ranked|].kbId;
      prev[kid := prev[kid] + 1]
  }

  function GetOr(m: map<string, int>, k: string, default: int): int {
    if k in m then m[k] else default
  }

  /** The output loop over the bindings sorted by (priority, kb_id). */
  function Outputs(sorted: seq<CleanBinding>, alloc: map<string, int>): (r: seq<KbAllocation>)
    ensures |r| == |sorted|
    ensures forall i :: 0 <= i < |sorted| ==>
      r[i] == KbAllocation(sorted[i].kbId, GetOr(alloc, sorted[i].kbId, 0), sorted[i].weight, sorted[i].priority)
  {
    if sorted == [] then []
    else
      var b := sorted[|sorted| - 1];
      Outputs(sorted[..|sorted| - 1], alloc) + [KbAllocation(b.kbId, GetOr(alloc, b.kbId, 0), b.weight, b.priority)]
  }

  /** The `k < n` branch: one unit each for the first k bindings of the ranking. */
  function Chosen(chosen: seq<CleanBinding>): (r: seq<KbAllocation>)
    ensures |r| == |chosen|
    ensures forall i :: 0 <= i < |chosen| ==>
      r[i] == KbAllocation(chosen[i].kbId, 1, chosen[i].weight, chosen[i].priority)
  {
    seq(|chosen|, i requires 0 <= i < |chosen| => KbAllocation(chosen[i].kbId, 1, chosen[i].weight, chosen[i].priority))
  }

  lemma SortedMembers<T>(s: seq<T>, lt: (T, T) -> bool)
    ensures forall x :: x in SortBy(s, lt) <==> x in s
  {
    forall x ensures x in SortBy(s, lt) <==> x in s {
      MultisetMembership(SortBy(s, lt), s, x);
    }
  }

  lemma RemaindersIds(clean: seq<CleanBinding>, weights: map<string, real>, raw: map<string, real>)
    requires weights.Keys == raw.Keys == IdSet(clean)
    ensures forall b :: b in clean ==> b.kbId in weights && b.kbId in raw
    ensures forall x :: x in Remainders(clean, weights, raw) ==> x.kbId in IdSet(clean)
  {
    assert forall b :: b in clean ==> b.kbId in IdSet(clean);
    var rems := Remainders(clean, weights, raw);
    forall x | x in rems ensures x.kbId in IdSet(clean) {
      var i :| 0 <= i < |rems| && rems[i] == x;
      assert clean[i] in clean;
    }
  }

  /** `remainders` after `remainders.sort(reverse=True)`. */
  function Ranked(clean: seq<CleanBinding>, weights: map<string, real>, raw: map<string, real>): (r: seq<Remainder>)
    requires weights.Keys == raw.Keys == IdSet(clean)
    ensures |r| == |clean|
    ensures forall x :: x in r ==> x.kbId in IdSet(clean)
  {
    RemaindersIds(clean, weights, raw);
    var rems := Remainders(clean, weights, raw);
    SortedMembers(rems, RemainderBefore);
    SortBy(rems, RemainderBefore)
  }

  // The apportionment branch (`2 <= len(clean) <= k`), one function per stage.

  /** `w_sum`, replaced by n when the weights sum to at most 0. */
  function WeightSum(clean: seq<CleanBinding>): real {
    if TotalWeight(clean) <= 0.0 then |clean| as real else TotalWeight(clean)
  }

  /** `weights`: the cleaned weights, or 1.0 each when they sum to at most 0. */
  function Weights(clean: seq<CleanBinding>): (m: map<string, real>)
    ensures m.Keys == IdSet(clean)
  {
    WeightMap(clean, TotalWeight(clean) <= 0.0)
  }

  function Raw(clean: seq<CleanBinding>, k: int): (m: map<string, real>)
    requires 2 <= |clean| <= k
    ensures m.Keys == IdSet(clean)
  {
    RawExtraMap(Weights(clean), k - |clean|, WeightSum(clean))
  }

  function Extra(clean: seq<CleanBinding>, k: int): (m: map<string, int>)
    requires 2 <= |clean| <= k
    ensures m.Keys == IdSet(clean)
  {
    FloorMap(Raw(clean, k))
  }

  /** `base_alloc` after the floor loop. */
  function Base(clean: seq<CleanBinding>, k: int): (m: map<string, int>)
    requires 2 <= |clean| <= k
    ensures m.Keys == IdSet(clean)
  {
    AddFloors(OnePerId(clean), Extra(clean, k), KeyOrder(clean))
  }

  /** `used = sum(extra_base.values())`. */
  function Used(clean: seq<CleanBinding>, k: int): int
    requires 2 <= |clean| <= k
  {
    SumOver(Extra(clean, k), KeyOrder(clean))
  }

  /** `left = max(0, remaining - used)`. */
  function Left(clean: seq<CleanBinding>, k: int): nat
    requires 2 <= |clean| <= k
  {
    var d := k - |clean| - Used(clean, k);
    if d > 0 then d else 0
  }

  function RankedRemainders(clean: seq<CleanBinding>, k: int): (r: seq<Remainder>)
    requires 2 <= |clean| <= k
    ensures |r| == |clean|
    ensures forall x :: x in r ==> x.kbId in IdSet(clean)
  {
    Ranked(clean, Weights(clean), Raw(clean, k))
  }

  /** `base_alloc` after the leftover loop. */
  function Final(clean: seq<CleanBinding>, k: int): (m: map<string, int>)
    requires 2 <= |clean| <= k
    ensures m.Keys == IdSet(clean)
  {
    if Left(clean, k) > 0 then Distribute(Base(clean, k), RankedRemainders(clean, k), Left(clean, k))
    else Base(clean, k)
  }

  /** `allocate_top_k(bindings, total_k=totalK)`. */
  function Allocate(bindings: seq<KbBinding>, totalK: int): (r: seq<KbAllocation>)
  {
    var k := if totalK > 0 then totalK else 0;
    if k <= 0 then []
    else
      var clean := Sanitize(bindings);
      if clean == [] then []
      else if |clean| == 1 then [KbAllocation(clean[0].kbId, k, clean[0].weight, clean[0].priority)]
      else if k < |clean| then Chosen(SortBy(clean, RankBefore)[..k])
      else Outputs(SortBy(clean, OutputBefore), Final(clean, k))
  }

  // ---------------------------------------------------------------------------
  // The source's loops

  /** The cleaning loop over the caller's bindings. */
  method CleanBindings(bindings: seq<KbBinding>) returns (clean: seq<CleanBinding>)
    ensures clean == Sanitize(bindings)
  {
    clean := [];
    var i := 0;
    while i < |bindings|
      invariant 0 <= i <= |bindings|
      invariant clean == Sanitize(bindings[..i])
    {
      var b := bindings[i];
      var kid := Strip(b.kbId);
      assert bindings[..i + 1][..i] == bindings[..i];
      if kid != "" {
        var w := CleanWeight(b.weight);
        clean := clean + [CleanBinding(kid, w, b.priority)];
      }
      i := i + 1;
    }
    assert bindings[..|bindings|] == bindings;
  }

  /** `for kid, inc in extra_base.items(): base_alloc[kid] += max(0, inc)`. */
  method AddFloorsLoop(base: map<string, int>, extra: map<string, int>, keys: seq<string>)
    returns (m: map<string, int>)
    requires forall k :: k in keys ==> k in base && k in extra
    ensures m == AddFloors(base, extra, keys)
  {
    m := base;
    var j := 0;
    while j < |keys|
      invariant 0 <= j <= |keys|
      invariant m == AddFloors(base, extra, keys[..j])
    {
      var kid := keys[j];
      var inc := extra[kid];
      assert keys[..j + 1][..j] == keys[..j];
      m := m[kid := m[kid] + (if inc > 0 then inc else 0)];
      j := j + 1;
    }
    assert keys[..|keys|] == keys;
  }

  /** The loop that builds `remainders`, before sorting. */
  method RemaindersLoop(clean: seq<CleanBinding>, weights: map<string, real>, raw: map<string, real>)
    returns (rems: seq<Remainder>)
    requires forall b :: b in clean ==> b.kbId in weights && b.kbId in raw
    ensures rems == Remainders(clean, weights, raw)
  {
    rems := [];
    var t := 0;
    while t < |clean|
      invariant 0 <= t <= |clean|
      invariant rems == Remainders(clean[..t], weights, raw)
    {
      var b := clean[t];
      assert clean[..t + 1][..t] == clean[..t];
      var v := raw[b.kbId];
      var frac := v - (v.Floor as real);
      rems := rems + [Remainder(frac, weights[b.kbId], -b.priority, b.kbId)];
      t := t + 1;
    }
    assert clean[..|clean|] == clean;
  }

  /** `for i in range(left): base_alloc[remainders[i % len(remainders)][3]] += 1`. */
  method DistributeLoop(base: map<string, int>, ranked: seq<Remainder>, left: nat) returns (m: map<string, int>)
    requires |ranked| > 0
    requires forall r :: r in ranked ==> r.kbId in base
    ensures m == Distribute(base, ranked, left)
  {
    m := base;
    var r := 0;
    while r < left
      invariant 0 <= r <= left
      invariant m == Distribute(base, ranked, r)
    {
      var kid := ranked[r % |ranked|].kbId;
      m := m[kid := m[kid] + 1];
      r := r + 1;
    }
  }

  /** The output loop over the bindings sorted by (priority, kb_id). */
  method OutputsLoop(sorted: seq<CleanBinding>, alloc: map<string, int>) returns (out: seq<KbAllocation>)
    ensures out == Outputs(sorted, alloc)
  {
    out := [];
    var s := 0;
    while s < |sorted|
      invariant 0 <= s <= |sorted|
      invariant out == Outputs(sorted[..s], alloc)
    {
      var b := sorted[s];
      assert sorted[..s + 1][..s] == sorted[..s];
      out := out + [KbAllocation(b.kbId, GetOr(alloc, b.kbId, 0), b.weight, b.priority)];
      s := s + 1;
    }
    assert sorted[..|sorted|] == sorted;
  }

  /** `w_sum` and `weights`: all weights 1.0 and `w_sum = n` when the weights sum to at most 0. */
  method WeightsStep(clean: seq<CleanBinding>) returns (wSum: real, weights: map<string, real>)
    ensures wSum == WeightSum(clean) && weights == Weights(clean)
  {
    wSum := TotalWeight(clean);
    if wSum <= 0.0 {
      wSum := |clean| as real;
      weights := WeightMap(clean, true);
    } else {
      weights := WeightMap(clean, false);
    }
  }

  /** `raw_extra`, `extra_base`, the floor loop and `used`. */
  method FloorStep(clean: seq<CleanBinding>, k: int)
    returns (weights: map<string, real>, rawExtra: map<string, real>, baseAlloc: map<string, int>, used: int)
    requires 2 <= |clean| <= k
    ensures weights == Weights(clean) && rawExtra == Raw(clean, k)
    ensures baseAlloc == Base(clean, k) && used == Used(clean, k)
  {
    baseAlloc := OnePerId(clean);
    var remaining := k - |clean|;
    var wSum;
    wSum, weights := WeightsStep(clean);
    rawExtra := RawExtraMap(weights, remaining, wSum);
    var extraBase := FloorMap(rawExtra);
    var keys := KeyOrder(clean);
    baseAlloc := AddFloorsLoop(baseAlloc, extraBase, keys);
    used := SumOver(extraBase, keys);
  }

  lemma LeftoverStage(clean: seq<CleanBinding>, k: int, weights: map<string, real>, rawExtra: map<string, real>)
    requires 2 <= |clean| <= k
    requires weights == Weights(clean) && rawExtra == Raw(clean, k) && Left(clean, k) > 0
    ensures Final(clean, k) == Distribute(Base(clean, k), Ranked(clean, weights, rawExtra), Left(clean, k))
  {
  }

  /** The leftover stage: the remainders sorted best first, one extra unit each in turn. */
  method LeftoverStep(clean: seq<CleanBinding>, k: int, weights: map<string, real>, rawExtra: map<string, real>,
                      baseAlloc: map<string, int>, left: nat) returns (alloc: map<string, int>)
    requires 2 <= |clean| <= k
    requires weights == Weights(clean) && rawExtra == Raw(clean, k)
    requires baseAlloc == Base(clean, k) && left == Left(clean, k) && left > 0
    ensures alloc == Final(clean, k)
  {
    assert forall b :: b in clean ==> b.kbId in IdSet(clean);
    var remainders := RemaindersLoop(clean, weights, rawExtra);
    remainders := SortBy(remainders, RemainderBefore);
    assert remainders == Ranked(clean, weights, rawExtra);
    LeftoverStage(clean, k, weights, rawExtra);
    alloc := DistributeLoop(baseAlloc, remainders, left);
  }

  /** The apportionment branch, `len(clean) <= k`. */
  method ApportionTopK(clean: seq<CleanBinding>, k: int) returns (out: seq<KbAllocation>)
    requires 2 <= |clean| <= k
    ensures out == Outputs(SortBy(clean, OutputBefore), Final(clean, k))
  {
    var remaining := k - |clean|;
    var weights, rawExtra, baseAlloc, used := FloorStep(clean, k);
    var left := if remaining - used > 0 then remaining - used else 0;
    if left > 0 {
      baseAlloc := LeftoverStep(clean, k, weights, rawExtra, baseAlloc, left);
    }
    out := OutputsLoop(SortBy(clean, OutputBefore), baseAlloc);
  }

  method AllocateTopK(bindings: seq<KbBinding>, totalK: int) returns (out: seq<KbAllocation>)
    ensures out == Allocate(bindings, totalK)
  {
    var k := if totalK > 0 then totalK else 0;
    if k <= 0 {
      return [];
    }
    var clean := CleanBindings(bindings);
    if clean == [] {
      return [];
    }
    if |clean| == 1 {
      var b := clean[0];
      return [KbAllocation(b.kbId, k, b.weight, b.priority)];
    }
    if k < |clean| {
      var ranked := SortBy(clean, RankBefore);
      return Chosen(ranked[..k]);
    }
    out := ApportionTopK(clean, k);
  }
}
