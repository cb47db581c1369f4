/** rag/pgvector_store.py: the retrieved-chunk record, the guards bm25_search
    applies before querying, and the score fusion of hybrid_search. The vector
    and full-text searches themselves are inputs (the rows the database returns). */
module PgvectorStore {
  import opened Wrappers
  import opened Text
  import opened Sorting
  import opened Lists

  datatype RetrievedChunk = RetrievedChunk(
    chunkId: int, url: string, title: string, sectionPath: string, text: string, score: real)

  /** `sort(key=lambda x: x.score, reverse=True)`: a higher score comes first. */
  predicate ScoreBefore(a: RetrievedChunk, b: RetrievedChunk) {
    a.score > b.score
  }

  lemma ScoreBeforeIsStrict()
    ensures StrictOrder(ScoreBefore)
  {
  }

  function ChunkId(c: RetrievedChunk): int { c.chunkId }

  function Ids(s: seq<RetrievedChunk>): set<int> {
    set c | c in s :: c.chunkId
  }

  // ---------------------------------------------------------------------------
  // bm25_search guards

  /** `ch.isalnum() or ch == "_"`, over ASCII. */
  predicate IsConfigChar(c: char) { IsAsciiAlnum(c) || c == '_' }

  predicate IsSafeConfig(s: string) {
    s != [] && forall i :: 0 <= i < |s| ==> IsConfigChar(s[i])
  }

  /** The text-search configuration: the trimmed setting when it is non-empty and
      made of letters, digits and '_' only, else "simple" (it is pasted into SQL). */
  function FtsConfig(fts: string): (cfg: string)
    ensures IsSafeConfig(cfg)
    ensures IsSafeConfig(Strip(fts)) ==> cfg == Strip(fts)
    ensures !IsSafeConfig(Strip(fts)) ==> cfg == "simple"
  {
    var raw0 := Strip(if fts == "" then "simple" else fts);
    var raw := if raw0 == "" then "simple" else raw0;
    assert Strip("simple") == "simple" by { StripOfStripped("simple"); }
    if IsSafeConfig(raw) then raw else "simple"
  }

  /** bm25_search: nothing for a blank query; otherwise the rows `search` returns for
      the trimmed query and the checked configuration, or nothing if it raised (None). */
  function Bm25Search(query: string, fts: string, search: (string, string) -> Option<seq<RetrievedChunk>>)
    : (r: seq<RetrievedChunk>)
    ensures Strip(query) == "" ==> r == []
    ensures Strip(query) != "" ==> r == search(Strip(query), FtsConfig(fts)).GetOr([])
  {
    var q := Strip(query);
    if q == "" then [] else
      match search(q, FtsConfig(fts))
      case None => []
      case Some(rows) => rows
  }

  // ---------------------------------------------------------------------------
  // hybrid_search fusion

  /** `max((c.score for c in s), default=0.0) or 1.0`: a zero maximum becomes 1. */
  function MaxScore(s: seq<RetrievedChunk>): (m: real)
    requires s != []
    ensures forall c :: c in s ==> c.score <= m
    ensures exists c :: c in s && c.score == m
  {
    if |s| == 1 then s[0].score
    else
      var rest := MaxScore(s[1..]);
      assert forall c :: c in s ==> c == s[0] || c in s[1..];
      if s[0].score >= rest then s[0].score else rest
  }

  function Normalizer(s: seq<RetrievedChunk>): (m: real)
    requires s != []
    ensures m != 0.0
  {
    if MaxScore(s) == 0.0 then 1.0 else MaxScore(s)
  }

  /** The `combined` and `scores` dicts; `keys` is their shared insertion order. */
  datatype Fusion = Fusion(keys: seq<int>, combined: map<int, RetrievedChunk>, scores: map<int, real>)

  ghost predicate FusionValid(f: Fusion) {
    && (forall i, j :: 0 <= i < j < |f.keys| ==> f.keys[i] != f.keys[j])
    && (forall id :: id in f.keys <==> id in f.combined)
    && f.combined.Keys == f.scores.Keys
    && (forall id :: id in f.combined ==> f.combined[id].chunkId == id)
  }

  /** `scores.get(id, 0.0)`. */
  function ScoreOr0(scores: map<int, real>, id: int): real {
    if id in scores then scores[id] else 0.0
  }

  /** `weight * (score / max)` with the maximum already made non-zero. */
  function Weighted(w: real, score: real, m: real): real
    requires m != 0.0
  {
    w * (score / m)
  }

  /** A dict assignment appends the key only when it is new. */
  function AddKey(keys: seq<int>, combined: map<int, RetrievedChunk>, id: int): seq<int> {
    if id in combined then keys else keys + [id]
  }

  /** One row of the first loop: `combined[id] = c` (a later duplicate replaces the
      record, the key keeps its place) and `scores[id] += vector_weight * score / vec_max`. */
  function VecStep(p: Fusion, c: RetrievedChunk, vw: real, vmax: real): Fusion
    requires vmax != 0.0
  {
    Fusion(AddKey(p.keys, p.combined, c.chunkId), p.combined[c.chunkId := c],
      p.scores[c.chunkId := ScoreOr0(p.scores, c.chunkId) + Weighted(vw, c.score, vmax)])
  }

  /** One row of the second loop: `combined.setdefault(id, c)` (a record already there
      is kept) and `scores[id] += bm25_weight * score / lex_max`. */
  function LexStep(p: Fusion, c: RetrievedChunk, bw: real, lmax: real): Fusion
    requires lmax != 0.0
  {
    Fusion(AddKey(p.keys, p.combined, c.chunkId),
      if c.chunkId in p.combined then p.combined else p.combined[c.chunkId := c],
      p.scores[c.chunkId := ScoreOr0(p.scores, c.chunkId) + Weighted(bw, c.score, lmax)])
  }

  function VecPass(vec: seq<RetrievedChunk>, vw: real, vmax: real): Fusion
    requires vmax != 0.0
  {
    if vec == [] then Fusion([], map[], map[])
    else VecStep(VecPass(vec[..|vec| - 1], vw, vmax), vec[|vec| - 1], vw, vmax)
  }

  function LexPass(base: Fusion, lex: seq<RetrievedChunk>, bw: real, lmax: real): Fusion
    requires lmax != 0.0
  {
    if lex == [] then base
    else LexStep(LexPass(base, lex[..|lex| - 1], bw, lmax), lex[|lex| - 1], bw, lmax)
  }

  /** `merged`: each record of `combined`, in key order, carrying its fused score. */
  function Rescore(keys: seq<int>, combined: map<int, RetrievedChunk>, scores: map<int, real>)
    : (r: seq<RetrievedChunk>)
    requires forall i :: 0 <= i < |keys| ==> keys[i] in combined
    ensures |r| == |keys|
  {
    if keys == [] then []
    else
      var id := keys[|keys| - 1];
      Rescore(keys[..|keys| - 1], combined, scores) + [WithScore(combined[id], ScoreOr0(scores, id))]
  }

  function WithScore(c: RetrievedChunk, score: real): RetrievedChunk {
    RetrievedChunk(c.chunkId, c.url, c.title, c.sectionPath, c.text, score)
  }

  function Fuse(vec: seq<RetrievedChunk>, lex: seq<RetrievedChunk>, vw: real, bw: real): Fusion
    requires vec != [] && lex != []
  {
    LexPass(VecPass(vec, vw, Normalizer(vec)), lex, bw, Normalizer(lex))
  }

  function Merged(vec: seq<RetrievedChunk>, lex: seq<RetrievedChunk>, vw: real, bw: real): seq<RetrievedChunk>
    requires vec != [] && lex != []
  {
    var f := Fuse(vec, lex, vw, bw);
    FuseValid(vec, lex, vw, bw);
    Rescore(f.keys, f.combined, f.scores)
  }

  /** hybrid_search after the two searches returned `vec` and `lex`: either list alone
      is cut to k as it is; otherwise the fused records by descending fused score, cut to k. */
  function Hybrid(vec: seq<RetrievedChunk>, lex: seq<RetrievedChunk>, k: int, vw: real, bw: real)
    : seq<RetrievedChunk>
  {
    if vec == [] && lex == [] then []
    else if lex == [] then Take(vec, k)
    else if vec == [] then Take(lex, k)
    else Take(SortBy(Merged(vec, lex, vw, bw), ScoreBefore), k)
  }

  /** The fallbacks: two empty searches give nothing, and a search whose partner
      came back empty is returned as it ranked its rows, cut to k. */
  lemma HybridFallbacks(vec: seq<RetrievedChunk>, lex: seq<RetrievedChunk>, k: int, vw: real, bw: real)
    ensures vec == [] && lex == [] ==> Hybrid(vec, lex, k, vw, bw) == []
    ensures vec != [] && lex == [] ==> Hybrid(vec, lex, k, vw, bw) == vec[..TakeLen(|vec|, k)]
    ensures vec == [] && lex != [] ==> Hybrid(vec, lex, k, vw, bw) == lex[..TakeLen(|lex|, k)]
    ensures k >= 0 ==> |Hybrid(vec, lex, k, vw, bw)| <= k
  {
    if vec != [] && lex != [] {
      HybridFused(vec, lex, k, vw, bw);
    }
  }

  // ---------------------------------------------------------------------------
  // The loops, proved against the fold

  lemma VecPassSnoc(vec: seq<RetrievedChunk>, i: nat, vw: real, vmax: real)
    requires vmax != 0.0 && i < |vec|
    ensures VecPass(vec[..i + 1], vw, vmax) == VecStep(VecPass(vec[..i], vw, vmax), vec[i], vw, vmax)
  {
    assert vec[..i + 1][..i] == vec[..i];
  }

  lemma LexPassSnoc(base: Fusion, lex: seq<RetrievedChunk>, j: nat, bw: real, lmax: real)
    requires lmax != 0.0 && j < |lex|
    ensures LexPass(base, lex[..j + 1], bw, lmax) == LexStep(LexPass(base, lex[..j], bw, lmax), lex[j], bw, lmax)
  {
    assert lex[..j + 1][..j] == lex[..j];
  }

  /** The first accumulation loop. */
  method VecLoop(vec: seq<RetrievedChunk>, vw: real, vmax: real)
    returns (keys: seq<int>, combined: map<int, RetrievedChunk>, scores: map<int, real>)
    requires vmax != 0.0
    ensures Fusion(keys, combined, scores) == VecPass(vec, vw, vmax)
  {
    keys, combined, scores := [], map[], map[];
    var i := 0;
    while i < |vec|
      invariant 0 <= i <= |vec|
      invariant Fusion(keys, combined, scores) == VecPass(vec[..i], vw, vmax)
    {
      var c := vec[i];
      VecPassSnoc(vec, i, vw, vmax);
      keys := AddKey(keys, combined, c.chunkId);
      combined := combined[c.chunkId := c];
      scores := scores[c.chunkId := ScoreOr0(scores, c.chunkId) + Weighted(vw, c.score, vmax)];
      i := i + 1;
    }
    assert vec[..i] == vec;
  }

  /** The second accumulation loop, continuing from the first one's dicts. */
  method LexLoop(keys0: seq<int>, combined0: map<int, RetrievedChunk>, scores0: map<int, real>,
                 lex: seq<RetrievedChunk>, bw: real, lmax: real)
    returns (keys: seq<int>, combined: map<int, RetrievedChunk>, scores: map<int, real>)
    requires lmax != 0.0
    ensures Fusion(keys, combined, scores) == LexPass(Fusion(keys0, combined0, scores0), lex, bw, lmax)
  {
    keys, combined, scores := keys0, combined0, scores0;
    ghost var base := Fusion(keys0, combined0, scores0);
    var j := 0;
    while j < |lex|
      invariant 0 <= j <= |lex|
      invariant Fusion(keys, combined, scores) == LexPass(base, lex[..j], bw, lmax)
    {
      var c := lex[j];
      LexPassSnoc(base, lex, j, bw, lmax);
      keys := AddKey(keys, combined, c.chunkId);
      if c.chunkId !in combined {
        combined := combined[c.chunkId := c];
      }
      scores := scores[c.chunkId := ScoreOr0(scores, c.chunkId) + Weighted(bw, c.score, lmax)];
      j := j + 1;
    }
    assert lex[..j] == lex;
  }

  /** The `merged` comprehension. */
  method MergeLoop(keys: seq<int>, combined: map<int, RetrievedChunk>, scores: map<int, real>)
    returns (merged: seq<RetrievedChunk>)
    requires forall i :: 0 <= i < |keys| ==> keys[i] in combined
    ensures merged == Rescore(keys, combined, scores)
  {
    merged := [];
    var i := 0;
    while i < |keys|
      invariant 0 <= i <= |keys|
      invariant merged == Rescore(keys[..i], combined, scores)
    {
      assert keys[..i + 1][..i] == keys[..i];
      var c := combined[keys[i]];
      merged := merged + [WithScore(c, ScoreOr0(scores, keys[i]))];
      i := i + 1;
    }
    assert keys[..i] == keys;
  }

  /** hybrid_search's fallbacks, the two accumulation loops and the final sort. */
  method HybridSearch(vec: seq<RetrievedChunk>, lex: seq<RetrievedChunk>, k: int, vw: real, bw: real)
    returns (r: seq<RetrievedChunk>)
    ensures r == Hybrid(vec, lex, k, vw, bw)
  {
    if vec == [] && lex == [] {
      return [];
    }
    if lex == [] {
      return Take(vec, k);
    }
    if vec == [] {
      return Take(lex, k);
    }
    var vmax := MaxScore(vec);
    if vmax == 0.0 { vmax := 1.0; }
    var lmax := MaxScore(lex);
    if lmax == 0.0 { lmax := 1.0; }
    var keys, combined, scores := VecLoop(vec, vw, vmax);
    keys, combined, scores := LexLoop(keys, combined, scores, lex, bw, lmax);
    FuseValid(vec, lex, vw, bw);
    var merged := MergeLoop(keys, combined, scores);
    r := Take(SortBy(merged, ScoreBefore), k);
  }

  // ---------------------------------------------------------------------------
  // What the fusion computes

  /** The sum of `w * score / m` over the rows of `s` with the given id. */
  function ScoreSum(s: seq<RetrievedChunk>, id: int, w: real, m: real): real
    requires m != 0.0
  {
    if s == [] then 0.0
    else ScoreSum(s[..|s| - 1], id, w, m) + (if s[|s| - 1].chunkId == id then Weighted(w, s[|s| - 1].score, m) else 0.0)
  }

  /** The last row of `s` with the given id. */
  function LastWith(s: seq<RetrievedChunk>, id: int): Option<RetrievedChunk> {
    if s == [] then None
    else if s[|s| - 1].chunkId == id then Some(s[|s| - 1])
    else LastWith(s[..|s| - 1], id)
  }

  /** The first row of `s` with the given id. */
  function FirstWith(s: seq<RetrievedChunk>, id: int): Option<RetrievedChunk> {
    if s == [] then None
    else if s[0].chunkId == id then Some(s[0])
    else FirstWith(s[1..], id)
  }

  function Lookup(m: map<int, RetrievedChunk>, id: int): Option<RetrievedChunk> {
    if id in m then Some(m[id]) else None
  }

  lemma VecStepValid(p: Fusion, c: RetrievedChunk, vw: real, vmax: real)
    requires vmax != 0.0 && FusionValid(p)
    ensures FusionValid(VecStep(p, c, vw, vmax))
  {
  }

  lemma LexStepValid(p: Fusion, c: RetrievedChunk, bw: real, lmax: real)
    requires lmax != 0.0 && FusionValid(p)
    ensures FusionValid(LexStep(p, c, bw, lmax))
  {
  }

  /** The dicts stay in step: distinct keys, the same key set, each record under its own id. */
  lemma {:induction false} VecPassValid(vec: seq<RetrievedChunk>, vw: real, vmax: real)
    requires vmax != 0.0
    ensures FusionValid(VecPass(vec, vw, vmax))
  {
    if vec != [] {
      VecPassValid(vec[..|vec| - 1], vw, vmax);
      VecStepValid(VecPass(vec[..|vec| - 1], vw, vmax), vec[|vec| - 1], vw, vmax);
    }
  }

  lemma {:induction false} LexPassValid(base: Fusion, lex: seq<RetrievedChunk>, bw: real, lmax: real)
    requires lmax != 0.0 && FusionValid(base)
    ensures FusionValid(LexPass(base, lex, bw, lmax))
  {
    if lex != [] {
      LexPassValid(base, lex[..|lex| - 1], bw, lmax);
      LexStepValid(LexPass(base, lex[..|lex| - 1], bw, lmax), lex[|lex| - 1], bw, lmax);
    }
  }

  lemma KeysInCombined(f: Fusion)
    requires FusionValid(f)
    ensures forall i :: 0 <= i < |f.keys| ==> f.keys[i] in f.combined
  {
    forall i | 0 <= i < |f.keys| ensures f.keys[i] in f.combined {
      assert f.keys[i] in f.keys;
    }
  }

  lemma FuseValid(vec: seq<RetrievedChunk>, lex: seq<RetrievedChunk>, vw: real, bw: real)
    requires vec != [] && lex != []
    ensures FusionValid(Fuse(vec, lex, vw, bw))
    ensures forall i :: 0 <= i < |Fuse(vec, lex, vw, bw).keys| ==>
      Fuse(vec, lex, vw, bw).keys[i] in Fuse(vec, lex, vw, bw).combined
  {
    VecPassValid(vec, vw, Normalizer(vec));
    LexPassValid(VecPass(vec, vw, Normalizer(vec)), lex, bw, Normalizer(lex));
    KeysInCombined(Fuse(vec, lex, vw, bw));
  }

  /** After the first loop, an id's score is the sum of its weighted vector scores. */
  lemma {:induction false} VecPassScore(vec: seq<RetrievedChunk>, id: int, vw: real, vmax: real)
    requires vmax != 0.0
    ensures ScoreOr0(VecPass(vec, vw, vmax).scores, id) == ScoreSum(vec, id, vw, vmax)
  {
    if vec != [] {
      VecPassScore(vec[..|vec| - 1], id, vw, vmax);
    }
  }

  /** The second loop adds an id's weighted full-text scores to what it had. */
  lemma {:induction false} LexPassScore(base: Fusion, lex: seq<RetrievedChunk>, id: int, bw: real, lmax: real)
    requires lmax != 0.0
    ensures ScoreOr0(LexPass(base, lex, bw, lmax).scores, id) == ScoreOr0(base.scores, id) + ScoreSum(lex, id, bw, lmax)
  {
    if lex != [] {
      LexPassScore(base, lex[..|lex| - 1], id, bw, lmax);
    }
  }

  /** After the first loop, an id's record is its last vector row, and only ids of
      vector rows have one. */
  lemma {:induction false} VecPassRecord(vec: seq<RetrievedChunk>, id: int, vw: real, vmax: real)
    requires vmax != 0.0
    ensures Lookup(VecPass(vec, vw, vmax).combined, id) == LastWith(vec, id)
  {
    if vec != [] {
      VecPassRecord(vec[..|vec| - 1], id, vw, vmax);
    }
  }

  /** The second loop keeps every record already there and adds an id's first
      full-text row when it had none. */
  lemma {:induction false} LexPassRecord(base: Fusion, lex: seq<RetrievedChunk>, id: int, bw: real, lmax: real)
    requires lmax != 0.0
    ensures Lookup(LexPass(base, lex, bw, lmax).combined, id) ==
      if id in base.combined then Some(base.combined[id]) else FirstWith(lex, id)
  {
    if lex != [] {
      LexPassRecord(base, lex[..|lex| - 1], id, bw, lmax);
      FirstWithSnoc(lex, id);
    }
  }

  lemma {:induction false} FirstWithSnoc(s: seq<RetrievedChunk>, id: int)
    requires s != []
    ensures FirstWith(s, id) ==
      if FirstWith(s[..|s| - 1], id).Some? then FirstWith(s[..|s| - 1], id)
      else if s[|s| - 1].chunkId == id then Some(s[|s| - 1]) else None
  {
    if |s| > 1 {
      assert s[1..][..|s[1..]| - 1] == s[..|s| - 1][1..];
      if s[0].chunkId != id {
        FirstWithSnoc(s[1..], id);
      }
    }
  }

  /** The record hybrid_search keeps for an id: its last vector row if it has one,
      else its first full-text row. */
  function FusedRecord(vec: seq<RetrievedChunk>, lex: seq<RetrievedChunk>, id: int): Option<RetrievedChunk> {
    if LastWith(vec, id).Some? then LastWith(vec, id) else FirstWith(lex, id)
  }

  /** The fused score of an id: its vector scores over the vector maximum, weighted,
      plus its full-text scores over the full-text maximum, weighted. */
  function FusedScore(vec: seq<RetrievedChunk>, lex: seq<RetrievedChunk>, id: int, vw: real, bw: real): real
    requires vec != [] && lex != []
  {
    ScoreSum(vec, id, vw, Normalizer(vec)) + ScoreSum(lex, id, bw, Normalizer(lex))
  }

  lemma FuseAt(vec: seq<RetrievedChunk>, lex: seq<RetrievedChunk>, vw: real, bw: real, id: int)
    requires vec != [] && lex != []
    ensures Lookup(Fuse(vec, lex, vw, bw).combined, id) == FusedRecord(vec, lex, id)
    ensures ScoreOr0(Fuse(vec, lex, vw, bw).scores, id) == FusedScore(vec, lex, id, vw, bw)
  {
    var base := VecPass(vec, vw, Normalizer(vec));
    VecPassRecord(vec, id, vw, Normalizer(vec));
    LexPassRecord(base, lex, id, bw, Normalizer(lex));
    VecPassScore(vec, id, vw, Normalizer(vec));
    LexPassScore(base, lex, id, bw, Normalizer(lex));
  }

  lemma IdsSnoc(s: seq<RetrievedChunk>)
    requires s != []
    ensures Ids(s) == Ids(s[..|s| - 1]) + {s[|s| - 1].chunkId}
  {
    assert s == s[..|s| - 1] + [s[|s| - 1]];
    assert forall c :: c in s <==> c in s[..|s| - 1] || c == s[|s| - 1];
  }

  lemma IdsCons(s: seq<RetrievedChunk>)
    requires s != []
    ensures Ids(s) == {s[0].chunkId} + Ids(s[1..])
  {
    assert forall c :: c in s <==> c == s[0] || c in s[1..];
  }

  lemma {:induction false} LastWithSpec(s: seq<RetrievedChunk>, id: int)
    ensures LastWith(s, id).Some? <==> id in Ids(s)
    ensures LastWith(s, id).Some? ==> LastWith(s, id).value in s && LastWith(s, id).value.chunkId == id
  {
    if s != [] {
      LastWithSpec(s[..|s| - 1], id);
      IdsSnoc(s);
    }
  }

  lemma {:induction false} FirstWithSpec(s: seq<RetrievedChunk>, id: int)
    ensures FirstWith(s, id).Some? <==> id in Ids(s)
    ensures FirstWith(s, id).Some? ==> FirstWith(s, id).value in s && FirstWith(s, id).value.chunkId == id
  {
    if s != [] {
      FirstWithSpec(s[1..], id);
      IdsCons(s);
    }
  }

  lemma {:induction false} RescoreEntry(keys: seq<int>, combined: map<int, RetrievedChunk>, scores: map<int, real>)
    requires forall i :: 0 <= i < |keys| ==> keys[i] in combined
    ensures forall i :: 0 <= i < |keys| ==>
      Rescore(keys, combined, scores)[i] == WithScore(combined[keys[i]], ScoreOr0(scores, keys[i]))
  {
    if keys != [] {
      var init := keys[..|keys| - 1];
      RescoreEntry(init, combined, scores);
      forall i | 0 <= i < |keys| - 1 ensures keys[i] == init[i] { }
    }
  }

  /** The records of a consistent fusion: one per key, in key order, each under its
      own id, each carrying the id's summed score. */
  lemma RescoreFacts(f: Fusion, m: seq<RetrievedChunk>)
    requires FusionValid(f)
    requires forall i :: 0 <= i < |f.keys| ==> f.keys[i] in f.combined
    requires m == Rescore(f.keys, f.combined, f.scores)
    ensures DistinctBy(m, ChunkId)
    ensures Ids(m) == f.combined.Keys
    ensures forall x :: x in m ==>
      x.chunkId in f.combined && x == WithScore(f.combined[x.chunkId], ScoreOr0(f.scores, x.chunkId))
  {
    RescoreEntry(f.keys, f.combined, f.scores);
    KeyIds(f, m);
    KeyIdsCover(f, m);
    KeyEntries(f, m);
  }

  lemma KeyIds(f: Fusion, m: seq<RetrievedChunk>)
    requires FusionValid(f)
    requires |m| == |f.keys|
    requires forall i :: 0 <= i < |f.keys| ==> f.keys[i] in f.combined
    requires forall i :: 0 <= i < |f.keys| ==> m[i] == WithScore(f.combined[f.keys[i]], ScoreOr0(f.scores, f.keys[i]))
    ensures forall i :: 0 <= i < |m| ==> m[i].chunkId == f.keys[i]
    ensures DistinctBy(m, ChunkId)
  {
  }

  lemma KeyIdsCover(f: Fusion, m: seq<RetrievedChunk>)
    requires FusionValid(f)
    requires |m| == |f.keys|
    requires forall i :: 0 <= i < |m| ==> m[i].chunkId == f.keys[i]
    ensures Ids(m) == f.combined.Keys
  {
    forall id | id in f.combined ensures id in Ids(m) {
      assert id in f.keys;
      var i :| 0 <= i < |f.keys| && f.keys[i] == id;
      assert m[i] in m;
    }
  }

  lemma KeyEntries(f: Fusion, m: seq<RetrievedChunk>)
    requires |m| == |f.keys|
    requires forall i :: 0 <= i < |f.keys| ==> f.keys[i] in f.combined
    requires forall i :: 0 <= i < |m| ==> m[i].chunkId == f.keys[i]
    requires forall i :: 0 <= i < |f.keys| ==> m[i] == WithScore(f.combined[f.keys[i]], ScoreOr0(f.scores, f.keys[i]))
    ensures forall x :: x in m ==>
      x.chunkId in f.combined && x == WithScore(f.combined[x.chunkId], ScoreOr0(f.scores, x.chunkId))
  {
  }

  /** The fused list before sorting: one record per id found by either search, each
      with its kept record and its fused score. */
  lemma MergedFacts(vec: seq<RetrievedChunk>, lex: seq<RetrievedChunk>, vw: real, bw: real)
    requires vec != [] && lex != []
    ensures DistinctBy(Merged(vec, lex, vw, bw), ChunkId)
    ensures Ids(Merged(vec, lex, vw, bw)) == Ids(vec) + Ids(lex)
    ensures forall x :: x in Merged(vec, lex, vw, bw) ==> FusedEntry(vec, lex, vw, bw, x)
  {
    var f := Fuse(vec, lex, vw, bw);
    var m := Merged(vec, lex, vw, bw);
    FuseValid(vec, lex, vw, bw);
    RescoreFacts(f, m);
    forall id ensures id in f.combined <==> id in Ids(vec) + Ids(lex) {
      FuseAt(vec, lex, vw, bw, id);
      LastWithSpec(vec, id);
      FirstWithSpec(lex, id);
    }
    forall x | x in m ensures FusedEntry(vec, lex, vw, bw, x) {
      FuseAt(vec, lex, vw, bw, x.chunkId);
    }
  }

  /** x is the record hybrid_search keeps for its id, with the id's fused score. */
  predicate FusedEntry(vec: seq<RetrievedChunk>, lex: seq<RetrievedChunk>, vw: real, bw: real, x: RetrievedChunk)
    requires vec != [] && lex != []
  {
    FusedRecord(vec, lex, x.chunkId).Some? &&
    x == WithScore(FusedRecord(vec, lex, x.chunkId).value, FusedScore(vec, lex, x.chunkId, vw, bw))
  }

  /** Sorting by descending score and cutting to k keeps distinct ids distinct and
      draws every record from the list. */
  lemma SortTakeFacts(m: seq<RetrievedChunk>, k: int)
    requires DistinctBy(m, ChunkId)
    ensures var all := SortBy(m, ScoreBefore);
      var r := Take(all, k);
      && Ids(all) == Ids(m)
      && Sorted(r, ScoreBefore)
      && DistinctBy(r, ChunkId)
      && forall x :: x in r ==> x in m
  {
    var all := SortBy(m, ScoreBefore);
    var r := Take(all, k);
    IdsOfPermutation(m, all);
    ScoreBeforeIsStrict();
    SortBySorted(m, ScoreBefore);
    PermutationDistinctBy(m, all, ChunkId);
    forall x | x in r ensures x in all {
      var i :| 0 <= i < |r| && r[i] == x;
      assert all[i] == x;
    }
  }

  lemma IdsOfPermutation(a: seq<RetrievedChunk>, b: seq<RetrievedChunk>)
    requires multiset(a) == multiset(b)
    ensures Ids(a) == Ids(b)
    ensures forall x :: x in a <==> x in b
  {
    forall x ensures x in a <==> x in b {
      MultisetMembership(a, b, x);
    }
  }

  /** hybrid_search when both searches found rows: at most k records, by descending
      fused score, no id twice, drawn from the fused list that has exactly the ids
      either search found, each with its kept record and its fused score. */
  lemma HybridFused(vec: seq<RetrievedChunk>, lex: seq<RetrievedChunk>, k: int, vw: real, bw: real)
    requires vec != [] && lex != []
    ensures var r := Hybrid(vec, lex, k, vw, bw);
      var all := SortBy(Merged(vec, lex, vw, bw), ScoreBefore);
      && Ids(all) == Ids(vec) + Ids(lex)
      && r == all[..|r|] && |r| == TakeLen(|all|, k)
      && Sorted(r, ScoreBefore)
      && DistinctBy(r, ChunkId)
      && forall x :: x in r ==> FusedEntry(vec, lex, vw, bw, x)
  {
    MergedFacts(vec, lex, vw, bw);
    SortTakeFacts(Merged(vec, lex, vw, bw), k);
  }
}
