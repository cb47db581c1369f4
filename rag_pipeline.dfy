/** rag/pipeline.py: the helpers prepare_rag runs after retrieval: merging the
    per-knowledge-base candidate lists, choosing the sources shown with an answer,
    filling their snippets, the numbered inline sources, the context handed to the
    model, and the reference tail appended to an answer. */
module RagPipeline {
  import opened Wrappers
  import opened Text
  import opened Sorting
  import opened Lists
  import opened PgvectorStore
  import opened RagAnchors
  import KbAllocation
  import KbAllocationProperties
  import KbAllocationTheorems

  // ---------------------------------------------------------------------------
  // _merge_candidates

  /** The `by_id` dict: its keys in insertion order and the record kept per key. */
  datatype ById = ById(keys: seq<int>, best: map<int, RetrievedChunk>)

  /** One step of the loop: a new id is appended, a known id is replaced only by a
      strictly higher score (a stored record is never falsy). */
  function Keep(b: ById, c: RetrievedChunk): ById {
    if c.chunkId !in b.best then ById(b.keys + [c.chunkId], b.best[c.chunkId := c])
    else if c.score > b.best[c.chunkId].score then ById(b.keys, b.best[c.chunkId := c])
    else b
  }

  /** The dict after visiting s in order. */
  function KeepAll(s: seq<RetrievedChunk>): ById
    decreases |s|
  {
    if s == [] then ById([], map[]) else Keep(KeepAll(s[..|s| - 1]), s[|s| - 1])
  }

  /** Keys are distinct, cover the domain, and each key maps to a record with that id. */
  ghost predicate ByIdValid(b: ById) {
    && (forall i :: 0 <= i < |b.keys| ==> b.keys[i] in b.best)
    && (forall id :: id in b.best ==> id in b.keys)
    && (forall i, j :: 0 <= i < j < |b.keys| ==> b.keys[i] != b.keys[j])
    && (forall id :: id in b.best ==> b.best[id].chunkId == id)
  }

  /** `list(by_id.values())`. */
  function Values(keys: seq<int>, best: map<int, RetrievedChunk>): (r: seq<RetrievedChunk>)
    requires forall i :: 0 <= i < |keys| ==> keys[i] in best
    ensures |r| == |keys|
    decreases |keys|
  {
    if keys == [] then [] else [best[keys[0]]] + Values(keys[1..], best)
  }

  /** The merged list before sorting. */
  function Deduped(candidates: seq<seq<RetrievedChunk>>): seq<RetrievedChunk> {
    var b := KeepAll(Flatten(candidates));
    KeepAllValid(Flatten(candidates));
    Values(b.keys, b.best)
  }

  /** _merge_candidates. */
  function Merge(candidates: seq<seq<RetrievedChunk>>, k: int): seq<RetrievedChunk> {
    Take(SortBy(Deduped(candidates), ScoreBefore), k)
  }

  lemma KeepAllSnoc(s: seq<RetrievedChunk>, c: RetrievedChunk)
    ensures KeepAll(s + [c]) == Keep(KeepAll(s), c)
  {
    assert (s + [c])[..|s|] == s;
  }

  method MergeCandidates(candidates: seq<seq<RetrievedChunk>>, k: int) returns (r: seq<RetrievedChunk>)
    ensures r == Merge(candidates, k)
  {
    var keys: seq<int> := [];
    var best: map<int, RetrievedChunk> := map[];
    for g := 0 to |candidates|
      invariant ById(keys, best) == KeepAll(Flatten(candidates[..g]))
    {
      var group := candidates[g];
      ghost var done := Flatten(candidates[..g]);
      assert done + group[..0] == done;
      for j := 0 to |group|
        invariant ById(keys, best) == KeepAll(done + group[..j])
      {
        var c := group[j];
        ghost var before := ById(keys, best);
        if c.chunkId !in best || c.score > best[c.chunkId].score {
          if c.chunkId !in best {
            keys := keys + [c.chunkId];
          }
          best := best[c.chunkId := c];
        }
        assert ById(keys, best) == Keep(before, c);
        GroupStep(done, group, j);
      }
      FlattenPrefixStep(candidates, g);
      assert group[..|group|] == group;
    }
    assert candidates[..|candidates|] == candidates;
    KeepAllValid(Flatten(candidates));
    var merged := Values(keys, best);
    r := Take(SortBy(merged, ScoreBefore), k);
  }

  /** Visiting one more record of the current group is one more Keep. */
  lemma GroupStep(done: seq<RetrievedChunk>, group: seq<RetrievedChunk>, j: nat)
    requires j < |group|
    ensures KeepAll(done + group[..j + 1]) == Keep(KeepAll(done + group[..j]), group[j])
  {
    assert done + group[..j + 1] == (done + group[..j]) + [group[j]];
    KeepAllSnoc(done + group[..j], group[j]);
  }

  lemma FlattenPrefixStep<T>(groups: seq<seq<T>>, g: nat)
    requires g < |groups|
    ensures Flatten(groups[..g + 1]) == Flatten(groups[..g]) + groups[g]
  {
    assert groups[..g + 1] == groups[..g] + [groups[g]];
    FlattenSnoc(groups[..g], groups[g]);
  }

  // Facts about the dict

  lemma KeepValid(b: ById, c: RetrievedChunk)
    requires ByIdValid(b)
    ensures ByIdValid(Keep(b, c))
  {
    if c.chunkId !in b.best {
      var keys := b.keys + [c.chunkId];
      forall i, j | 0 <= i < j < |keys| ensures keys[i] != keys[j] {
        if j == |b.keys| {
          assert keys[i] in b.best;
        }
      }
    }
  }

  lemma {:induction false} KeepAllValid(s: seq<RetrievedChunk>)
    ensures ByIdValid(KeepAll(s))
    decreases |s|
  {
    if s != [] {
      KeepAllValid(s[..|s| - 1]);
      KeepValid(KeepAll(s[..|s| - 1]), s[|s| - 1]);
    }
  }

  /** by_id has a key for every id the candidates hold, and no other. */
  lemma {:induction false} KeepAllDomain(s: seq<RetrievedChunk>)
    ensures KeepAll(s).best.Keys == Ids(s)
    decreases |s|
  {
    if s != [] {
      KeepAllDomain(s[..|s| - 1]);
      IdsSnoc(s);
    }
  }

  /** The record kept for an id is the first of the candidates with that id whose
      score no other candidate with that id exceeds. */
  lemma {:induction false} KeepAllBest(s: seq<RetrievedChunk>, id: int) returns (i: nat)
    requires id in KeepAll(s).best
    ensures i < |s| && s[i] == KeepAll(s).best[id] && s[i].chunkId == id
    ensures forall j :: 0 <= j < |s| && s[j].chunkId == id ==> s[j].score <= s[i].score
    ensures forall j :: 0 <= j < i && s[j].chunkId == id ==> s[j].score < s[i].score
    decreases |s|
  {
    var init := s[..|s| - 1];
    var c := s[|s| - 1];
    var b := KeepAll(init);
    if id in b.best {
      var i0 := KeepAllBest(init, id);
      if c.chunkId == id && c.score > b.best[id].score {
        i := |s| - 1;
      } else {
        i := i0;
      }
    } else {
      KeepAllDomain(init);
      assert forall j :: 0 <= j < |init| ==> init[j].chunkId != id by {
        forall j | 0 <= j < |init| ensures init[j].chunkId != id {
          assert init[j] in init;
        }
      }
      i := |s| - 1;
    }
  }

  lemma {:induction false} ValuesAt(keys: seq<int>, best: map<int, RetrievedChunk>, i: nat)
    requires forall j :: 0 <= j < |keys| ==> keys[j] in best
    requires i < |keys|
    ensures Values(keys, best)[i] == best[keys[i]]
    decreases i
  {
    if i > 0 {
      ValuesAt(keys[1..], best, i - 1);
    }
  }

  /** The merged list's i-th record is the one kept for the i-th key. */
  lemma DedupedAt(candidates: seq<seq<RetrievedChunk>>)
    ensures var b := KeepAll(Flatten(candidates)); var m := Deduped(candidates);
      && ByIdValid(b) && |m| == |b.keys|
      && forall i :: 0 <= i < |m| ==> m[i] == b.best[b.keys[i]]
  {
    var b := KeepAll(Flatten(candidates));
    KeepAllValid(Flatten(candidates));
    forall i | 0 <= i < |b.keys| ensures Values(b.keys, b.best)[i] == b.best[b.keys[i]] {
      ValuesAt(b.keys, b.best, i);
    }
  }

  lemma DedupedDistinct(candidates: seq<seq<RetrievedChunk>>)
    ensures DistinctBy(Deduped(candidates), ChunkId)
  {
    DedupedAt(candidates);
  }

  lemma DedupedIds(candidates: seq<seq<RetrievedChunk>>)
    ensures Ids(Deduped(candidates)) == Ids(Flatten(candidates))
  {
    var flat := Flatten(candidates);
    var b := KeepAll(flat);
    var m := Deduped(candidates);
    DedupedAt(candidates);
    KeepAllDomain(flat);
    forall id | id in Ids(flat) ensures id in Ids(m) {
      var i :| 0 <= i < |b.keys| && b.keys[i] == id;
      assert m[i] in m;
    }
  }

  lemma DedupedEntries(candidates: seq<seq<RetrievedChunk>>)
    ensures var b := KeepAll(Flatten(candidates));
      forall x :: x in Deduped(candidates) ==> x.chunkId in b.best && x == b.best[x.chunkId]
  {
    DedupedAt(candidates);
  }

  /** The merged list holds one record per candidate id, the kept one for that id. */
  lemma DedupedFacts(candidates: seq<seq<RetrievedChunk>>)
    ensures var m := Deduped(candidates); var flat := Flatten(candidates);
      && DistinctBy(m, ChunkId)
      && Ids(m) == Ids(flat)
      && forall x :: x in m ==> x.chunkId in KeepAll(flat).best && x == KeepAll(flat).best[x.chunkId]
  {
    DedupedDistinct(candidates);
    DedupedIds(candidates);
    DedupedEntries(candidates);
  }

  /** A record the merge returns is drawn from the candidates and has the best
      score any candidate with its id has. */
  predicate BestFor(flat: seq<RetrievedChunk>, x: RetrievedChunk) {
    x in flat && forall y :: y in flat && y.chunkId == x.chunkId ==> y.score <= x.score
  }

  lemma DedupedBest(candidates: seq<seq<RetrievedChunk>>, x: RetrievedChunk)
    requires x in Deduped(candidates)
    ensures BestFor(Flatten(candidates), x)
  {
    var flat := Flatten(candidates);
    DedupedFacts(candidates);
    var i := KeepAllBest(flat, x.chunkId);
    forall y | y in flat && y.chunkId == x.chunkId ensures y.score <= x.score {
      var j :| 0 <= j < |flat| && flat[j] == y;
    }
  }

  /** _merge_candidates: at most k records (for k >= 0), by descending score, no id
      twice, cut from a list that has exactly the candidates' ids, and each the
      best-scored candidate for its id. */
  lemma MergeFacts(candidates: seq<seq<RetrievedChunk>>, k: int)
    ensures var flat := Flatten(candidates);
      var all := SortBy(Deduped(candidates), ScoreBefore);
      var r := Merge(candidates, k);
      && Ids(all) == Ids(flat)
      && r == all[..|r|] && |r| == TakeLen(|all|, k)
      && Sorted(r, ScoreBefore)
      && DistinctBy(r, ChunkId)
      && forall x :: x in r ==> BestFor(flat, x)
  {
    var m := Deduped(candidates);
    DedupedFacts(candidates);
    SortTakeFacts(m, k);
    forall x | x in Merge(candidates, k) ensures BestFor(Flatten(candidates), x) {
      DedupedBest(candidates, x);
    }
  }

  // ---------------------------------------------------------------------------
  // _build_sources

  /** A source entry shown with an answer (the dict built by the helpers below);
      `ref` is set only by _build_inline_sources. */
  datatype Source = Source(ref: Option<int>, url: string, title: string, sectionPath: string, snippet: string)

  function SourceUrl(s: Source): string { s.url }

  /** The chunk's url with the anchor of its section appended. */
  function AnchoredUrl(c: RetrievedChunk): string { AppendAnchor(c.url, c.sectionPath) }

  function SourceOf(c: RetrievedChunk): Source {
    Source(None, AnchoredUrl(c), c.title, c.sectionPath, "")
  }

  function SourcesOf(cs: seq<RetrievedChunk>): (r: seq<Source>)
    ensures |r| == |cs|
  {
    seq(|cs|, i requires 0 <= i < |cs| => SourceOf(cs[i]))
  }

  /** The chunks _build_sources turns into sources: by descending score, the first
      chunk for each anchored url, cut to max_sources, and never fewer than one when
      there is a chunk (the length test comes after the append). */
  function ChosenChunks(chunks: seq<RetrievedChunk>, maxSources: int): seq<RetrievedChunk> {
    Take(FirstByKey(SortBy(chunks, ScoreBefore), AnchoredUrl, {}), Max(1, maxSources))
  }

  function BuildSources(chunks: seq<RetrievedChunk>, maxSources: int): seq<Source> {
    SourcesOf(ChosenChunks(chunks, maxSources))
  }

  lemma SourcesOfConcat(a: seq<RetrievedChunk>, b: seq<RetrievedChunk>)
    ensures SourcesOf(a + b) == SourcesOf(a) + SourcesOf(b)
  {
  }

  /** The loop invariant: what is collected, followed by what the rest of the
      sorted chunks would add, is the whole answer. */
  ghost predicate SourcesInv(sorted: seq<RetrievedChunk>, i: int, seen: set<string>, sources: seq<Source>,
                             limit: int, target: seq<Source>) {
    && 0 <= i <= |sorted|
    && |sources| < limit
    && sources + SourcesOf(Take(FirstByKey(sorted[i..], AnchoredUrl, seen), limit - |sources|)) == target
  }

  lemma SourcesSkip(sorted: seq<RetrievedChunk>, i: int, seen: set<string>, sources: seq<Source>,
                    limit: int, target: seq<Source>)
    requires SourcesInv(sorted, i, seen, sources, limit, target)
    requires i < |sorted| && AnchoredUrl(sorted[i]) in seen
    ensures SourcesInv(sorted, i + 1, seen, sources, limit, target)
  {
    assert sorted[i..] == [sorted[i]] + sorted[i + 1..];
  }

  lemma SourcesAdd(sorted: seq<RetrievedChunk>, i: int, seen: set<string>, sources: seq<Source>,
                   limit: int, target: seq<Source>)
    requires SourcesInv(sorted, i, seen, sources, limit, target)
    requires i < |sorted| && AnchoredUrl(sorted[i]) !in seen
    ensures var sources' := sources + [SourceOf(sorted[i])];
      && (|sources'| < limit ==> SourcesInv(sorted, i + 1, seen + {AnchoredUrl(sorted[i])}, sources', limit, target))
      && (|sources'| >= limit ==> sources' == target)
  {
    var sources' := sources + [SourceOf(sorted[i])];
    var rest := FirstByKey(sorted[i + 1..], AnchoredUrl, seen + {AnchoredUrl(sorted[i])});
    SourcesAddTarget(sorted, i, seen, sources, limit, target);
    if |sources'| >= limit {
      assert Take(rest, limit - |sources'|) == [];
    }
  }

  lemma SourcesAddTarget(sorted: seq<RetrievedChunk>, i: int, seen: set<string>, sources: seq<Source>,
                         limit: int, target: seq<Source>)
    requires SourcesInv(sorted, i, seen, sources, limit, target)
    requires i < |sorted| && AnchoredUrl(sorted[i]) !in seen
    ensures target == sources + [SourceOf(sorted[i])]
      + SourcesOf(Take(FirstByKey(sorted[i + 1..], AnchoredUrl, seen + {AnchoredUrl(sorted[i])}), limit - |sources| - 1))
  {
    var c := sorted[i];
    var room := limit - |sources|;
    var rest := FirstByKey(sorted[i + 1..], AnchoredUrl, seen + {AnchoredUrl(c)});
    FirstByKeyStep(sorted, i, seen);
    TakeCons(c, rest, room);
    var tail := Take(rest, room - 1);
    assert Take(FirstByKey(sorted[i..], AnchoredUrl, seen), room) == [c] + tail;
    SourcesOfConcat([c], tail);
    assert SourcesOf([c]) == [SourceOf(c)];
    assert target == sources + ([SourceOf(c)] + SourcesOf(tail));
  }

  lemma FirstByKeyStep(sorted: seq<RetrievedChunk>, i: int, seen: set<string>)
    requires 0 <= i < |sorted| && AnchoredUrl(sorted[i]) !in seen
    ensures FirstByKey(sorted[i..], AnchoredUrl, seen)
         == [sorted[i]] + FirstByKey(sorted[i + 1..], AnchoredUrl, seen + {AnchoredUrl(sorted[i])})
  {
    assert sorted[i..][0] == sorted[i] && sorted[i..][1..] == sorted[i + 1..];
  }

  /** The loop of _build_sources over the chunks already sorted by score. */
  method CollectSources(sorted: seq<RetrievedChunk>, maxSources: int) returns (sources: seq<Source>)
    ensures sources == SourcesOf(Take(FirstByKey(sorted, AnchoredUrl, {}), Max(1, maxSources)))
  {
    ghost var limit := Max(1, maxSources);
    ghost var target := SourcesOf(Take(FirstByKey(sorted, AnchoredUrl, {}), limit));
    var seen: set<string> := {};
    sources := [];
    var i := 0;
    assert sorted[0..] == sorted;
    while i < |sorted|
      invariant SourcesInv(sorted, i, seen, sources, limit, target)
      decreases |sorted| - i
    {
      var c := sorted[i];
      var url := AppendAnchor(c.url, c.sectionPath);
      if url in seen {
        SourcesSkip(sorted, i, seen, sources, limit, target);
        i := i + 1;
        continue;
      }
      SourcesAdd(sorted, i, seen, sources, limit, target);
      seen := seen + {url};
      sources := sources + [Source(None, url, c.title, c.sectionPath, "")];
      if |sources| >= maxSources {
        break;
      }
      i := i + 1;
    }
    assert sorted[i..] == [] || |sources| >= maxSources;
  }

  method BuildSourcesLoop(chunks: seq<RetrievedChunk>, maxSources: int) returns (sources: seq<Source>)
    ensures sources == BuildSources(chunks, maxSources)
  {
    sources := CollectSources(SortBy(chunks, ScoreBefore), maxSources);
  }

  lemma ChosenFacts(chunks: seq<RetrievedChunk>, maxSources: int)
    ensures var chosen := ChosenChunks(chunks, maxSources);
      && |chosen| <= Max(1, maxSources) && |chosen| <= |chunks|
      && DistinctBy(chosen, AnchoredUrl)
      && Sorted(chosen, ScoreBefore)
      && (forall x :: x in chosen ==> x in FirstByKey(SortBy(chunks, ScoreBefore), AnchoredUrl, {}))
  {
    var sorted := SortBy(chunks, ScoreBefore);
    var firsts := FirstByKey(sorted, AnchoredUrl, {});
    var chosen := ChosenChunks(chunks, maxSources);
    ScoreBeforeIsStrict();
    SortBySorted(chunks, ScoreBefore);
    FirstByKeyDistinct(sorted, AnchoredUrl, {});
    FirstByKeySorted(sorted, AnchoredUrl, {}, ScoreBefore);
    forall x | x in chosen ensures x in firsts {
      var i :| 0 <= i < |chosen| && chosen[i] == x;
      assert firsts[i] == x;
    }
  }

  /** A chosen chunk is the best-scored chunk of its anchored url. */
  lemma ChosenBest(chunks: seq<RetrievedChunk>, maxSources: int, x: RetrievedChunk, y: RetrievedChunk)
    requires x in ChosenChunks(chunks, maxSources) && y in chunks && AnchoredUrl(y) == AnchoredUrl(x)
    ensures x in chunks && y.score <= x.score
  {
    var sorted := SortBy(chunks, ScoreBefore);
    ChosenFacts(chunks, maxSources);
    ScoreBeforeIsStrict();
    SortBySorted(chunks, ScoreBefore);
    IdsOfPermutation(chunks, sorted);
    var i := FirstByKeyFirst(sorted, AnchoredUrl, {}, x);
    var j :| 0 <= j < |sorted| && sorted[j] == y;
    assert j >= i;
  }

  /** Short of the cut, every chunk's anchored url is chosen. */
  lemma ChosenCovers(chunks: seq<RetrievedChunk>, maxSources: int, y: RetrievedChunk) returns (j: nat)
    requires y in chunks && |ChosenChunks(chunks, maxSources)| < Max(1, maxSources)
    ensures j < |ChosenChunks(chunks, maxSources)| && AnchoredUrl(ChosenChunks(chunks, maxSources)[j]) == AnchoredUrl(y)
  {
    var sorted := SortBy(chunks, ScoreBefore);
    IdsOfPermutation(chunks, sorted);
    var k :| 0 <= k < |sorted| && sorted[k] == y;
    j := FirstByKeyCovers(sorted, AnchoredUrl, {}, k);
  }

  /** _build_sources: at most max(1, max_sources) entries, no anchored url twice,
      empty snippets and no ref; the i-th is built from the i-th chosen chunk, and
      the chosen chunks are by descending score, each the best-scored chunk of its
      anchored url. Unless the cut was reached, every anchored url has a source. */
  lemma BuildSourcesFacts(chunks: seq<RetrievedChunk>, maxSources: int)
    ensures var r := BuildSources(chunks, maxSources); var chosen := ChosenChunks(chunks, maxSources);
      && |r| == |chosen| <= Max(1, maxSources) && |r| <= |chunks|
      && DistinctBy(r, SourceUrl)
      && (forall i :: 0 <= i < |r| ==> r[i] == SourceOf(chosen[i]) && r[i].snippet == "" && r[i].ref.None?)
      && Sorted(chosen, ScoreBefore)
      && (forall x, y :: x in chosen && y in chunks && AnchoredUrl(y) == AnchoredUrl(x) ==> x in chunks && y.score <= x.score)
      && (|r| < Max(1, maxSources) ==>
            forall y :: y in chunks ==> exists i :: 0 <= i < |r| && r[i].url == AnchoredUrl(y))
  {
    var chosen := ChosenChunks(chunks, maxSources);
    var r := BuildSources(chunks, maxSources);
    ChosenFacts(chunks, maxSources);
    forall x, y | x in chosen && y in chunks && AnchoredUrl(y) == AnchoredUrl(x) ensures x in chunks && y.score <= x.score {
      ChosenBest(chunks, maxSources, x, y);
    }
    forall y | y in chunks && |r| < Max(1, maxSources)
      ensures exists i :: 0 <= i < |r| && r[i].url == AnchoredUrl(y)
    {
      var j := ChosenCovers(chunks, maxSources, y);
      assert r[j].url == AnchoredUrl(y);
    }
  }

  // ---------------------------------------------------------------------------
  // _fill_source_snippets

  function ChunkUrl(c: RetrievedChunk): string { c.url }

  function Urls(chunks: seq<RetrievedChunk>): set<string> {
    set c | c in chunks :: c.url
  }

  /** `by_url.setdefault(key(c), c)` over s in order: the first chunk per key. */
  function FirstOfKey(s: seq<RetrievedChunk>, key: RetrievedChunk -> string): map<string, RetrievedChunk>
    decreases |s|
  {
    if s == [] then map[]
    else
      var m := FirstOfKey(s[..|s| - 1], key);
      var c := s[|s| - 1];
      if key(c) in m then m else m[key(c) := c]
  }

  /** `clamp_text(c.text.replace("\n", " ").strip(), snippet_max_chars)`; clamp_text
      is not part of this model and is passed in. */
  function Snippet(c: RetrievedChunk, snippetMaxChars: int, clamp: (string, int) -> string): string {
    clamp(Strip(ReplaceChar(c.text, '\n', ' ')), snippetMaxChars)
  }

  function Filled(s: Source, byUrl: map<string, RetrievedChunk>, snippetMaxChars: int,
                  clamp: (string, int) -> string): Source {
    if s.url in byUrl then s.(snippet := Snippet(byUrl[s.url], snippetMaxChars, clamp)) else s
  }

  /** The sources after _fill_source_snippets: looked up by their url among the
      chunks' own urls, the highest-scored chunk first. */
  function FillAll(ss: seq<Source>, chunks: seq<RetrievedChunk>, snippetMaxChars: int,
                   clamp: (string, int) -> string): (r: seq<Source>)
    ensures |r| == |ss|
  {
    var byUrl := FirstOfKey(SortBy(chunks, ScoreBefore), ChunkUrl);
    seq(|ss|, i requires 0 <= i < |ss| => Filled(ss[i], byUrl, snippetMaxChars, clamp))
  }

  lemma FirstOfKeySnoc(s: seq<RetrievedChunk>, c: RetrievedChunk, key: RetrievedChunk -> string)
    ensures FirstOfKey(s + [c], key) == (var m := FirstOfKey(s, key); if key(c) in m then m else m[key(c) := c])
  {
    assert (s + [c])[..|s|] == s;
  }

  method UrlIndex(sorted: seq<RetrievedChunk>) returns (byUrl: map<string, RetrievedChunk>)
    ensures byUrl == FirstOfKey(sorted, ChunkUrl)
  {
    byUrl := map[];
    for i := 0 to |sorted|
      invariant byUrl == FirstOfKey(sorted[..i], ChunkUrl)
    {
      var c := sorted[i];
      FirstOfKeySnoc(sorted[..i], c, ChunkUrl);
      assert sorted[..i + 1] == sorted[..i] + [c];
      if c.url !in byUrl {
        byUrl := byUrl[c.url := c];
      }
    }
    assert sorted[..|sorted|] == sorted;
  }

  /** Sets the snippet of each source whose url is a chunk's url, in place. */
  method FillSnippetsLoop(sources: array<Source>, byUrl: map<string, RetrievedChunk>, snippetMaxChars: int,
                          clamp: (string, int) -> string)
    modifies sources
    ensures forall i :: 0 <= i < sources.Length ==> sources[i] == Filled(old(sources[i]), byUrl, snippetMaxChars, clamp)
  {
    ghost var orig := sources[..];
    for i := 0 to sources.Length
      invariant forall j :: 0 <= j < i ==> sources[j] == Filled(orig[j], byUrl, snippetMaxChars, clamp)
      invariant forall j :: i <= j < sources.Length ==> sources[j] == orig[j]
    {
      var s := sources[i];
      if s.url in byUrl {
        var c := byUrl[s.url];
        sources[i] := s.(snippet := clamp(Strip(ReplaceChar(c.text, '\n', ' ')), snippetMaxChars));
        assert sources[i] == Filled(s, byUrl, snippetMaxChars, clamp);
      }
    }
  }

  method FillSourceSnippets(sources: array<Source>, chunks: seq<RetrievedChunk>, snippetMaxChars: int,
                            clamp: (string, int) -> string)
    modifies sources
    ensures sources[..] == FillAll(old(sources[..]), chunks, snippetMaxChars, clamp)
  {
    var byUrl := UrlIndex(SortBy(chunks, ScoreBefore));
    FillSnippetsLoop(sources, byUrl, snippetMaxChars, clamp);
  }

  /** The chunk kept for a key is the first one in s with that key. */
  lemma {:induction false} FirstOfKeyFirst(s: seq<RetrievedChunk>, key: RetrievedChunk -> string, u: string) returns (i: nat)
    requires u in FirstOfKey(s, key)
    ensures i < |s| && s[i] == FirstOfKey(s, key)[u] && key(s[i]) == u
    ensures forall j :: 0 <= j < i ==> key(s[j]) != u
    decreases |s|
  {
    var init := s[..|s| - 1];
    if u in FirstOfKey(init, key) {
      i := FirstOfKeyFirst(init, key, u);
    } else {
      FirstOfKeyDomain(init, key);
      forall j | 0 <= j < |s| - 1 ensures key(s[j]) != u {
        assert init[j] in init;
      }
      i := |s| - 1;
    }
  }

  lemma {:induction false} FirstOfKeyDomain(s: seq<RetrievedChunk>, key: RetrievedChunk -> string)
    ensures forall u :: u in FirstOfKey(s, key) <==> exists c :: c in s && key(c) == u
    decreases |s|
  {
    if s != [] {
      FirstOfKeyDomain(s[..|s| - 1], key);
      assert s == s[..|s| - 1] + [s[|s| - 1]];
    }
  }

  /** The first chunk with its key is the one kept for that key. */
  lemma FirstOfKeyAt(s: seq<RetrievedChunk>, key: RetrievedChunk -> string, i: nat)
    requires i < |s| && forall j :: 0 <= j < i ==> key(s[j]) != key(s[i])
    ensures key(s[i]) in FirstOfKey(s, key) && FirstOfKey(s, key)[key(s[i])] == s[i]
  {
    FirstOfKeyDomain(s, key);
    assert s[i] in s;
    var k := FirstOfKeyFirst(s, key, key(s[i]));
  }

  /** _fill_source_snippets changes nothing but snippets, and a source whose url is
      no chunk's url keeps its snippet. */
  lemma FillKeepsOthers(ss: seq<Source>, chunks: seq<RetrievedChunk>, snippetMaxChars: int,
                        clamp: (string, int) -> string)
    ensures var r := FillAll(ss, chunks, snippetMaxChars, clamp);
      && |r| == |ss|
      && (forall i :: 0 <= i < |r| ==> r[i].(snippet := ss[i].snippet) == ss[i])
      && (forall i :: 0 <= i < |r| && ss[i].url !in Urls(chunks) ==> r[i] == ss[i])
  {
    var sorted := SortBy(chunks, ScoreBefore);
    FirstOfKeyDomain(sorted, ChunkUrl);
    IdsOfPermutation(chunks, sorted);
  }

  /** A source whose url is a chunk's url gets the snippet of the highest-scored
      chunk with that url. */
  lemma FillUsesBest(ss: seq<Source>, chunks: seq<RetrievedChunk>, snippetMaxChars: int,
                     clamp: (string, int) -> string, i: nat) returns (c: RetrievedChunk)
    requires i < |ss| && ss[i].url in Urls(chunks)
    ensures c in chunks && c.url == ss[i].url
    ensures FillAll(ss, chunks, snippetMaxChars, clamp)[i].snippet == Snippet(c, snippetMaxChars, clamp)
    ensures forall y :: y in chunks && y.url == c.url ==> y.score <= c.score
  {
    var sorted := SortBy(chunks, ScoreBefore);
    IdsOfPermutation(chunks, sorted);
    FirstOfKeyDomain(sorted, ChunkUrl);
    var w :| w in chunks && w.url == ss[i].url;
    assert w in sorted && ChunkUrl(w) == ss[i].url;
    ScoreBeforeIsStrict();
    SortBySorted(chunks, ScoreBefore);
    c := BestOfSorted(sorted, ss[i].url);
  }

  /** In a list sorted by descending score, the first chunk with a url scores
      highest among the chunks with that url. */
  lemma BestOfSorted(sorted: seq<RetrievedChunk>, u: string) returns (c: RetrievedChunk)
    requires Sorted(sorted, ScoreBefore) && u in FirstOfKey(sorted, ChunkUrl)
    ensures c in sorted && c.url == u && FirstOfKey(sorted, ChunkUrl)[u] == c
    ensures forall y :: y in sorted && y.url == u ==> y.score <= c.score
  {
    var k := FirstOfKeyFirst(sorted, ChunkUrl, u);
    c := sorted[k];
    forall y | y in sorted && y.url == u ensures y.score <= c.score {
      var j :| 0 <= j < |sorted| && sorted[j] == y;
      assert j >= k;
      if j > k {
        assert !ScoreBefore(sorted[j], sorted[k]);
      }
    }
  }

  // ---------------------------------------------------------------------------
  // Snippets of anchored sources

  /** As written, a source whose url received an anchor is looked up under a url no
      chunk has, so its snippet stays empty. */
  lemma AnchoredSourceGetsNoSnippet(c: RetrievedChunk, maxSources: int, snippetMaxChars: int,
                                    clamp: (string, int) -> string)
    requires AnchoredUrl(c) != c.url
    ensures BuildSources([c], maxSources) == [SourceOf(c)]
    ensures FillAll(BuildSources([c], maxSources), [c], snippetMaxChars, clamp) == [SourceOf(c)]
  {
    SingleSource(c, maxSources);
    assert Urls([c]) == {c.url};
    FillKeepsOthers([SourceOf(c)], [c], snippetMaxChars, clamp);
    var r := FillAll([SourceOf(c)], [c], snippetMaxChars, clamp);
    assert |r| == 1 && r[0] == SourceOf(c);
  }

  lemma SingleSource(c: RetrievedChunk, maxSources: int)
    ensures BuildSources([c], maxSources) == [SourceOf(c)]
  {
    assert SortBy([c], ScoreBefore) == [c];
    assert FirstByKey([c], AnchoredUrl, {}) == [c];
    assert Take([c], Max(1, maxSources)) == [c];
    assert SourcesOf([c]) == [SourceOf(c)];
  }

  /** A chunk of "https://x/a" under the section "Intro" is such a chunk. */
  lemma AnchoredExample()
    ensures var c := RetrievedChunk(1, "https://x/a", "Guide", "Intro", "text", 1.0);
      AnchoredUrl(c) != c.url
  {
    IntroSection();
    IntroSlug();
    ExampleUrlHasNoHash();
    AppendAnchorCases("https://x/a", "Intro");
  }

  lemma IntroSection()
    ensures LastSection("Intro") == "Intro"
  {
    NoCharNoIndex("Intro", " > ");
    StripOfStripped("Intro");
  }

  lemma IntroSlug()
    ensures Slugify("Intro") != ""
  {
    assert Lower("Intro")[0] == 'i';
    SlugifyNonEmpty("Intro", 0);
  }

  lemma ExampleUrlHasNoHash()
    ensures !Contains("https://x/a", "#")
  {
    NoCharNoContains("https://x/a", '#');
  }

  /** The lookup the code evidently intends: by the anchored url _build_sources
      stores, so each source finds the chunk it was built from. */
  function FillAllAnchored(ss: seq<Source>, chunks: seq<RetrievedChunk>, snippetMaxChars: int,
                           clamp: (string, int) -> string): (r: seq<Source>)
    ensures |r| == |ss|
  {
    var byUrl := FirstOfKey(SortBy(chunks, ScoreBefore), AnchoredUrl);
    seq(|ss|, i requires 0 <= i < |ss| => Filled(ss[i], byUrl, snippetMaxChars, clamp))
  }

  /** The non-inline sources of prepare_rag: _build_sources, then the snippets, with
      the lookup by anchored url. */
  function NonInlineSources(chunks: seq<RetrievedChunk>, maxSources: int, snippetMaxChars: int,
                            clamp: (string, int) -> string): seq<Source> {
    FillAllAnchored(BuildSources(chunks, maxSources), chunks, snippetMaxChars, clamp)
  }

  /** With the lookup by anchored url, every source carries the snippet of the chunk
      it was built from. */
  lemma NonInlineSourcesHaveSnippets(chunks: seq<RetrievedChunk>, maxSources: int, snippetMaxChars: int,
                                     clamp: (string, int) -> string)
    ensures var r := NonInlineSources(chunks, maxSources, snippetMaxChars, clamp);
      var chosen := ChosenChunks(chunks, maxSources);
      && |r| == |chosen|
      && forall i :: 0 <= i < |r| ==> r[i] == SourceOf(chosen[i]).(snippet := Snippet(chosen[i], snippetMaxChars, clamp))
  {
    var sorted := SortBy(chunks, ScoreBefore);
    var chosen := ChosenChunks(chunks, maxSources);
    ChosenFacts(chunks, maxSources);
    forall i | 0 <= i < |chosen|
      ensures AnchoredUrl(chosen[i]) in FirstOfKey(sorted, AnchoredUrl)
           && FirstOfKey(sorted, AnchoredUrl)[AnchoredUrl(chosen[i])] == chosen[i]
    {
      assert chosen[i] in chosen;
      var k := FirstByKeyFirst(sorted, AnchoredUrl, {}, chosen[i]);
      FirstOfKeyAt(sorted, AnchoredUrl, k);
    }
  }

  // ---------------------------------------------------------------------------
  // _build_inline_sources

  function InlineSource(ref: int, c: RetrievedChunk, snippetMaxChars: int, clamp: (string, int) -> string): Source {
    Source(Some(ref), AnchoredUrl(c), c.title, c.sectionPath, Snippet(c, snippetMaxChars, clamp))
  }

  /** `chunks[:max_sources]`, numbered from 1. */
  function BuildInlineSources(chunks: seq<RetrievedChunk>, snippetMaxChars: int, maxSources: int,
                              clamp: (string, int) -> string): seq<Source> {
    var t := Take(chunks, maxSources);
    seq(|t|, i requires 0 <= i < |t| => InlineSource(i + 1, t[i], snippetMaxChars, clamp))
  }

  /** _build_inline_sources: one source per chunk of `chunks[:max_sources]`, in
      order, built from that chunk. */
  lemma InlineSourcesShape(chunks: seq<RetrievedChunk>, snippetMaxChars: int, maxSources: int,
                           clamp: (string, int) -> string)
    ensures var r := BuildInlineSources(chunks, snippetMaxChars, maxSources, clamp);
      && |r| == TakeLen(|chunks|, maxSources)
      && forall i :: 0 <= i < |r| ==>
           r[i].url == AnchoredUrl(chunks[i]) && r[i].title == chunks[i].title &&
           r[i].sectionPath == chunks[i].sectionPath && r[i].snippet == Snippet(chunks[i], snippetMaxChars, clamp)
  {
    var t := Take(chunks, maxSources);
    assert forall i :: 0 <= i < |t| ==> t[i] == chunks[i];
  }

  /** The refs are exactly 1..m: the i-th source, and no other, carries ref i + 1. */
  lemma InlineSourcesRefs(chunks: seq<RetrievedChunk>, snippetMaxChars: int, maxSources: int,
                          clamp: (string, int) -> string)
    ensures var r := BuildInlineSources(chunks, snippetMaxChars, maxSources, clamp);
      forall i, n :: 0 <= i < |r| ==> (r[i].ref == Some(n) <==> n == i + 1)
  {
  }

  // ---------------------------------------------------------------------------
  // _build_references_tail

  /** The headings "参考：" (references, inline mode) and "来源：" (sources). */
  const InlineHeading: string := "\U{53C2}\U{8003}\U{FF1A}"
  const PlainHeading: string := "\U{6765}\U{6E90}\U{FF1A}"

  function Heading(inline: bool): string { if inline then InlineHeading else PlainHeading }

  /** `int(s.get("ref") or i)`: a missing or zero ref falls back to the position. */
  function RefNumber(s: Source, i: int): int {
    if s.ref.Some? && s.ref.value != 0 then s.ref.value else i
  }

  /** "[ref] title - url", or "[ref] url" when the title is blank. */
  function RefLine(s: Source, i: int): string {
    var title := Strip(s.title);
    var url := Strip(s.url);
    var tag := "[" + IntToString(RefNumber(s, i)) + "] ";
    if title != "" then tag + title + " - " + url else tag + url
  }

  /** One line per source, numbered from 1. */
  function RefLines(sources: seq<Source>): (r: seq<string>)
    ensures |r| == |sources|
  {
    seq(|sources|, i requires 0 <= i < |sources| => RefLine(sources[i], i + 1))
  }

  /** "- url" for each source whose url is not blank. */
  function UrlLines(sources: seq<Source>): seq<string>
    decreases |sources|
  {
    if sources == [] then []
    else (if Strip(sources[0].url) != "" then ["- " + Strip(sources[0].url)] else []) + UrlLines(sources[1..])
  }

  function TailBody(sources: seq<Source>, inline: bool): seq<string> {
    if inline then RefLines(sources) else UrlLines(sources)
  }

  /** _build_references_tail. */
  function ReferencesTail(sources: seq<Source>, inline: bool): string {
    if sources == [] then ""
    else RStrip(Join(["\n\n" + Heading(inline)] + TailBody(sources, inline), "\n"))
  }

  /** The lines of the tail: two empty lines, the heading, then the body, the last
      line right-stripped. */
  function TailLines(sources: seq<Source>, inline: bool): seq<string> {
    var parts := ["", "", Heading(inline)] + TailBody(sources, inline);
    parts[..|parts| - 1] + [RStrip(parts[|parts| - 1])]
  }

  lemma JoinHeading(h: string, body: seq<string>)
    ensures Join(["\n\n" + h] + body, "\n") == Join(["", "", h] + body, "\n")
  {
    JoinPrefixed("\n\n", h, body);
    var one := ["", h] + body;
    assert one == [""] + ([h] + body);
    JoinEmptyFirst([h] + body);
    assert ["", "", h] + body == [""] + one;
    JoinEmptyFirst(one);
  }

  lemma JoinPrefixed(pre: string, h: string, body: seq<string>)
    ensures Join([pre + h] + body, "\n") == pre + Join([h] + body, "\n")
  {
    JoinCons(pre + h, body, "\n");
    JoinCons(h, body, "\n");
    if body != [] {
      assert (pre + h) + "\n" + Join(body, "\n") == pre + (h + "\n" + Join(body, "\n"));
    }
  }

  lemma JoinEmptyFirst(r: seq<string>)
    requires r != []
    ensures Join([""] + r, "\n") == "\n" + Join(r, "\n")
  {
    JoinCons("", r, "\n");
  }

  /** Every line of the tail starts with a visible character. */
  lemma TailLinesStart(sources: seq<Source>, inline: bool)
    ensures var parts := ["", "", Heading(inline)] + TailBody(sources, inline);
      |parts[|parts| - 1]| > 0 && !IsSpace(parts[|parts| - 1][0])
  {
    var body := TailBody(sources, inline);
    if body != [] {
      var last := body[|body| - 1];
      if inline {
        assert last == RefLine(sources[|sources| - 1], |sources|);
      } else {
        UrlLinesStart(sources);
      }
    }
  }

  lemma {:induction false} UrlLinesStart(sources: seq<Source>)
    ensures forall i :: 0 <= i < |UrlLines(sources)| ==> |UrlLines(sources)[i]| > 0 && UrlLines(sources)[i][0] == '-'
    decreases |sources|
  {
    if sources != [] {
      UrlLinesStart(sources[1..]);
    }
  }

  lemma StripLacks(s: string, c: char)
    requires Lacks(s, c)
    ensures Lacks(Strip(s), c)
  {
    var a, b := StripSlice(s);
  }

  lemma IntToStringLacksNewline(n: int)
    ensures Lacks(IntToString(n), '\n')
  {
  }

  lemma RefLineLacksNewline(s: Source, i: int)
    requires Lacks(s.title, '\n') && Lacks(s.url, '\n')
    ensures Lacks(RefLine(s, i), '\n')
  {
    StripLacks(s.title, '\n');
    StripLacks(s.url, '\n');
    IntToStringLacksNewline(RefNumber(s, i));
  }

  lemma {:induction false} UrlLinesLackNewline(sources: seq<Source>)
    requires forall i :: 0 <= i < |sources| ==> Lacks(sources[i].url, '\n')
    ensures forall i :: 0 <= i < |UrlLines(sources)| ==> Lacks(UrlLines(sources)[i], '\n')
    decreases |sources|
  {
    if sources != [] {
      UrlLinesLackNewline(sources[1..]);
      StripLacks(sources[0].url, '\n');
    }
  }

  lemma HeadingLacksNewline(inline: bool)
    ensures Lacks(Heading(inline), '\n')
  {
  }

  /** With no line break inside titles and urls, splitting the tail at "\n" gives
      back its lines: two empty ones, the heading, then one line per source (inline)
      or per non-blank url, the last one right-stripped. */
  lemma ReferencesTailLines(sources: seq<Source>, inline: bool)
    requires sources != []
    requires forall i :: 0 <= i < |sources| ==> Lacks(sources[i].title, '\n') && Lacks(sources[i].url, '\n')
    ensures Split(ReferencesTail(sources, inline), "\n") == TailLines(sources, inline)
  {
    var body := TailBody(sources, inline);
    var parts := ["", "", Heading(inline)] + body;
    JoinHeading(Heading(inline), body);
    TailLinesStart(sources, inline);
    RStripJoinLast(parts, "\n", 0);
    var lines := TailLines(sources, inline);
    if inline {
      forall i | 0 <= i < |sources| ensures Lacks(body[i], '\n') {
        RefLineLacksNewline(sources[i], i + 1);
      }
    } else {
      UrlLinesLackNewline(sources);
    }
    HeadingLacksNewline(inline);
    RStripLacks(parts[|parts| - 1], '\n');
    forall i | 0 <= i < |lines| ensures Lacks(lines[i], '\n') {
      if i < |parts| - 1 {
        assert lines[i] == parts[i];
      }
    }
    SplitJoin(lines, '\n');
  }

  lemma RStripLacks(s: string, c: char)
    requires Lacks(s, c)
    ensures Lacks(RStrip(s), c)
  {
    RStripSpec(s);
  }

  /** The tail is empty exactly when there are no sources. */
  lemma ReferencesTailEmptyIff(sources: seq<Source>, inline: bool)
    ensures ReferencesTail(sources, inline) == "" <==> sources == []
  {
    if sources != [] {
      var body := TailBody(sources, inline);
      var parts := ["\n\n" + Heading(inline)] + body;
      JoinHeading(Heading(inline), body);
      TailLinesStart(sources, inline);
      RStripJoinLast(["", "", Heading(inline)] + body, "\n", 0);
      assert |Join(["", "", Heading(inline)] + body, "\n")| > 0;
    }
  }

  // ---------------------------------------------------------------------------
  // _build_context

  /** The block for the i-th chunk: its number, url, title ("标题"), section ("章节")
      and text ("内容"). */
  function Block(i: nat, c: RetrievedChunk): string {
    "[" + NatToString(i) + "]\nURL: " + c.url
      + "\n\U{6807}\U{9898}: " + c.title
      + "\n\U{7AE0}\U{8282}: " + c.sectionPath
      + "\n\U{5185}\U{5BB9}:\n" + c.text + "\n"
  }

  function Blocks(chunks: seq<RetrievedChunk>): (r: seq<string>)
    ensures |r| == |chunks|
  {
    seq(|chunks|, i requires 0 <= i < |chunks| => Block(i + 1, chunks[i]))
  }

  /** The total length of some blocks. */
  function SumLen(bs: seq<string>): nat
    decreases |bs|
  {
    if bs == [] then 0 else |bs[0]| + SumLen(bs[1..])
  }

  lemma {:induction false} SumLenSnoc(bs: seq<string>, b: string)
    ensures SumLen(bs + [b]) == SumLen(bs) + |b|
    decreases |bs|
  {
    if bs == [] {
      assert ([b])[1..] == [];
    } else {
      assert (bs + [b])[1..] == bs[1..] + [b];
      SumLenSnoc(bs[1..], b);
    }
  }

  /** How many leading blocks fit in `room` characters, taken in order and stopping
      at the first that does not fit. */
  function PackCount(bs: seq<string>, room: int): (n: nat)
    ensures n <= |bs|
    decreases |bs|
  {
    if bs == [] || |bs[0]| > room then 0 else 1 + PackCount(bs[1..], room - |bs[0]|)
  }

  lemma PackCountStep(bs: seq<string>, i: nat, room: int)
    requires i < |bs|
    ensures PackCount(bs[i..], room)
         == if |bs[i]| > room then 0 else 1 + PackCount(bs[i + 1..], room - |bs[i]|)
  {
    assert bs[i..][0] == bs[i] && bs[i..][1..] == bs[i + 1..];
  }

  /** _build_context: the blocks that fit in max_chars, separated by blank lines. */
  function Context(chunks: seq<RetrievedChunk>, maxChars: int): string {
    var bs := Blocks(chunks);
    Strip(Join(bs[..PackCount(bs, maxChars)], "\n\n"))
  }

  lemma BlocksAt(chunks: seq<RetrievedChunk>, i: nat)
    requires i < |chunks|
    ensures Blocks(chunks)[i] == Block(i + 1, chunks[i])
  {
  }

  /** One round of the packing loop: the next block either stops it or joins the parts. */
  lemma PackStep(bs: seq<string>, i: nat, parts: seq<string>, total: int, room: int)
    requires i < |bs| && parts == bs[..i] && total == SumLen(parts)
    requires PackCount(bs, room) == i + PackCount(bs[i..], room - total)
    ensures total + |bs[i]| > room ==> PackCount(bs, room) == i
    ensures total + |bs[i]| <= room ==>
      && parts + [bs[i]] == bs[..i + 1]
      && total + |bs[i]| == SumLen(parts + [bs[i]])
      && PackCount(bs, room) == i + 1 + PackCount(bs[i + 1..], room - (total + |bs[i]|))
  {
    PackCountStep(bs, i, room - total);
    SumLenSnoc(parts, bs[i]);
    assert bs[..i + 1] == bs[..i] + [bs[i]];
  }

  /** The loop of _build_context. */
  method BuildContext(chunks: seq<RetrievedChunk>, maxChars: int) returns (r: string)
    ensures r == Context(chunks, maxChars)
  {
    ghost var bs := Blocks(chunks);
    var parts: seq<string> := [];
    var total := 0;
    var i := 0;
    while i < |chunks|
      invariant 0 <= i <= |chunks|
      invariant parts == bs[..i] && total == SumLen(parts)
      invariant PackCount(bs, maxChars) == i + PackCount(bs[i..], maxChars - total)
      decreases |chunks| - i
    {
      var block := Block(i + 1, chunks[i]);
      BlocksAt(chunks, i);
      PackStep(bs, i, parts, total, maxChars);
      if total + |block| > maxChars {
        break;
      }
      parts := parts + [block];
      total := total + |block|;
      i := i + 1;
    }
    if i == |chunks| {
      assert bs[i..] == [];
    }
    assert parts == bs[..PackCount(bs, maxChars)];
    r := Strip(Join(parts, "\n\n"));
  }

  lemma {:induction false} SumLenPrefix(bs: seq<string>, m: nat)
    requires 1 <= m <= |bs|
    ensures SumLen(bs[..m]) == |bs[0]| + SumLen(bs[1..][..m - 1])
  {
    assert bs[..m][1..] == bs[1..][..m - 1];
  }

  /** The packed blocks are exactly the longest prefix whose length fits: a prefix of
      m >= 1 blocks is kept if and only if its total length is at most `room`. */
  lemma {:induction false} PackCountPrefix(bs: seq<string>, room: int, m: nat)
    requires 1 <= m <= |bs|
    ensures m <= PackCount(bs, room) <==> SumLen(bs[..m]) <= room
    decreases |bs|
  {
    SumLenPrefix(bs, m);
    if |bs[0]| <= room && m >= 2 {
      PackCountPrefix(bs[1..], room - |bs[0]|, m - 1);
    }
  }

  /** The context holds the blocks of the first chunks, in order, and their total
      length is within max_chars; every longer prefix of blocks would exceed it. */
  lemma ContextFacts(chunks: seq<RetrievedChunk>, maxChars: int)
    ensures var bs := Blocks(chunks); var n := PackCount(bs, maxChars);
      && Context(chunks, maxChars) == Strip(Join(bs[..n], "\n\n"))
      && (n >= 1 ==> SumLen(bs[..n]) <= maxChars)
      && (forall m :: n < m <= |bs| ==> SumLen(bs[..m]) > maxChars)
  {
    var bs := Blocks(chunks);
    var n := PackCount(bs, maxChars);
    if n >= 1 {
      PackCountPrefix(bs, maxChars, n);
    }
    forall m | n < m <= |bs| ensures SumLen(bs[..m]) > maxChars {
      PackCountPrefix(bs, maxChars, m);
    }
  }

  // ---------------------------------------------------------------------------
  // The allocation filter of prepare_rag

  /** `[a for a in kb_allocations if int(a.top_k or 0) > 0]`. */
  function ActiveAllocations(allocs: seq<KbAllocation.KbAllocation>): (r: seq<KbAllocation.KbAllocation>)
    ensures forall a :: a in r <==> a in allocs && a.topK > 0
  {
    FilterMembersAll(allocs);
    Filter(allocs, (a: KbAllocation.KbAllocation) => a.topK > 0)
  }

  lemma FilterMembersAll(allocs: seq<KbAllocation.KbAllocation>)
    ensures forall a :: a in Filter(allocs, (a: KbAllocation.KbAllocation) => a.topK > 0) <==> a in allocs && a.topK > 0
  {
    forall a {
      FilterMembers(allocs, (a: KbAllocation.KbAllocation) => a.topK > 0, a);
    }
  }

  /** The per-knowledge-base search size, `max(1, int(a.top_k))`. */
  function PerK(a: KbAllocation.KbAllocation): (k: int)
    ensures k >= 1 && (a.topK >= 1 ==> k == a.topK)
  {
    Max(1, a.topK)
  }

  /** Applied to the allocator's output for bindings with distinct ids, the filter
      drops nothing and every knowledge base is searched for exactly its quota. */
  lemma ActiveAllocationsOfAllocate(bindings: seq<KbAllocation.KbBinding>, totalK: int)
    requires KbAllocationProperties.DistinctIds(KbAllocation.Sanitize(bindings))
    ensures ActiveAllocations(KbAllocation.Allocate(bindings, totalK)) == KbAllocation.Allocate(bindings, totalK)
    ensures forall a :: a in KbAllocation.Allocate(bindings, totalK) ==> PerK(a) == a.topK
  {
    var allocs := KbAllocation.Allocate(bindings, totalK);
    KbAllocationTheorems.AllocateAllPositive(bindings, totalK);
    assert forall i :: 0 <= i < |allocs| ==> allocs[i] in allocs;
    FilterAll(allocs, (a: KbAllocation.KbAllocation) => a.topK > 0);
  }
}
