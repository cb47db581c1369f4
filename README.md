# onekey_rag_service, modelled in Dafny

This project models the logic at the core of the backend of the OneKey RAG
chat service and proves properties of it. The service crawls documentation
sites, chunks and embeds the pages, and answers chat completions. The answers
come from chunks retrieved from several weighted knowledge bases and are
streamed back as server-sent events. It covers:

- **The top-k allocator**, `allocate_top_k`. It splits a retrieval budget
  across knowledge-base bindings by largest-remainder apportionment.
- **The retrieval helpers of the RAG pipeline:**
  - candidate merge;
  - sources, anchors, snippets and inline sources;
  - citation sanitising;
  - the references tail;
  - context packing;
  - the allocation filter;
  - the BM25 guards and hybrid score fusion of the pgvector store.
- **The chat endpoint's request logic:**
  - question and bindings;
  - feedback upsert;
  - the retrieval event;
  - `_chunk_text`;
  - the frame sequence of `event_stream`. Each frame uses the event-stream
    format of section 9.2 of the WHATWG HTML Living Standard (server-sent
    events).
- **The LRU+TTL query-embedding cache.**
- **The job queue of the worker:** stale requeue, claim and processing with
  attempt counting and final status. The admin cancel and requeue endpoints
  act on the same queue.
- **The admin helpers:** pagination, cpuset counting, date ranges, workspace
  access, `put_app_kbs` and the `list_jobs` date bound.
- **The breadth-first crawler:** URL canonicalisation and filtering, the
  `seen`/`visited` frontier and the keep-if-empty page upsert.
- **The incremental indexing rule.**
- **The chat-provider helpers and the two JSON settings.**
- **Admin authentication:**
  - unpadded base64url, per section 5 of RFC 4648;
  - HS256 JSON Web Tokens (RFC 7519) in the JWS Compact Serialization of
    section 7.1 of RFC 7515;
  - password login and the bearer guard.

Each source file is one module:

| module | source |
|---|---|
| `KbAllocation`, `KbAllocationProperties`, `KbAllocationTheorems` | `rag/kb_allocation.py` |
| `RagPipeline`, `RagAnchors`, `RagCitations` | `rag/pipeline.py` |
| `PgvectorStore` | `rag/pgvector_store.py` |
| `EmbeddingsCache` | `rag/embeddings.py` |
| `ChatProvider` | `rag/chat_provider.py` |
| `ApiChunk`, `ApiStream`, `ApiRequests` | `api/app.py` |
| `AdminApi` | `api/admin.py` |
| `WorkerJobs` | `worker.py` |
| `Crawler` | `crawler/pipeline.py` |
| `Indexing` | `indexing/pipeline.py` |
| `Config` | `config.py` |
| `AdminAuth` | `admin/auth.py` |

`Wrappers`, `Text`, `Lists`, `Sorting` and `JsonValues` hold shared helpers:
Option and Result, Python's `strip` and `lower`, `s[:k]`, a stable sort and
JSON values.

Where the code does something by a loop or in place, the model does the same:

- a `method` with the loop and its invariants, proved equal to a function
  that specifies it;
- a `class` with `modifies` clauses for the tables the code updates: jobs,
  pages, chunks, feedback, `app_kbs` and the cache.

The properties are proved about the specifying functions.

The database is an in-memory table (a `seq` of rows or a `map` keyed by url).
These are parameters of the model:

- the clock;
- SHA-256 and HMAC-SHA256;
- `json.dumps`/`json.loads`;
- `urljoin`/`urlparse`/`urlunparse`;
- the include/exclude regexes;
- HTTP fetching, readable-text extraction, link extraction;
- the markdown chunker, the embedder, `clamp_text`;
- the vector and full-text searches;
- the LangChain chat model.

Weights and scores are `real`.

### Ties in the allocator

The leftover units go by the tuple `(frac, weight, -priority, kb_id)` sorted
with `reverse=True` (`src/onekey_rag_service/rag/kb_allocation.py:86-87`).
When every other key ties, the **larger** `kb_id` gets the unit first
(`KbAllocation.RemainderBefore`, `KbAllocationTheorems.LargestRemaindersWin`).

## Model

| member | source | states |
|---|---|---|
| KbAllocation.Sanitize | src/onekey_rag_service/rag/kb_allocation.py:37-45 | every kept binding has a non-blank id and a non-negative weight; nothing is added |
| KbAllocation.CleanBindings | src/onekey_rag_service/rag/kb_allocation.py:37-45 | the cleaning loop builds exactly the `clean` list |
| KbAllocation.AddFloorsLoop | src/onekey_rag_service/rag/kb_allocation.py:75-76 | the floor loop adds `max(0, inc)` to each key's base unit |
| KbAllocation.RemaindersLoop | src/onekey_rag_service/rag/kb_allocation.py:81-86 | the loop builds one (frac, weight, -priority, kb_id) tuple per binding |
| KbAllocation.DistributeLoop | src/onekey_rag_service/rag/kb_allocation.py:88-90 | the leftover loop gives round i's unit to `ranked[i % len]` |
| KbAllocation.OutputsLoop | src/onekey_rag_service/rag/kb_allocation.py:93-96 | the output loop emits one row per binding in (priority, kb_id) order with its quota |
| KbAllocation.WeightsStep | src/onekey_rag_service/rag/kb_allocation.py:65-71 | weights are the cleaned weights, or 1.0 each with `w_sum = n` when they sum to at most 0 |
| KbAllocation.FloorStep | src/onekey_rag_service/rag/kb_allocation.py:62-78 | base units plus rounded-down shares, and the units they use |
| KbAllocation.LeftoverStep | src/onekey_rag_service/rag/kb_allocation.py:80-90 | the remainders sorted best first, and one leftover unit each in turn |
| KbAllocation.ApportionTopK | src/onekey_rag_service/rag/kb_allocation.py:61-97 | the `n <= k` branch computes the apportionment the specification gives |
| KbAllocation.AllocateTopK | src/onekey_rag_service/rag/kb_allocation.py:22-97 | the whole of `allocate_top_k` equals the specification `Allocate` |
| KbAllocationProperties.RankBeforeIsStrict | src/onekey_rag_service/rag/kb_allocation.py:57 | the ranking order (weight desc, priority, kb_id) is a strict order |
| KbAllocationProperties.OutputBeforeIsStrict | src/onekey_rag_service/rag/kb_allocation.py:95 | the output order (priority, kb_id) is a strict order |
| KbAllocationProperties.RemainderBeforeIsStrict | src/onekey_rag_service/rag/kb_allocation.py:86-87 | Python's reversed tuple order on remainders is a strict order |
| KbAllocationProperties.SanitizeEmpty | src/onekey_rag_service/rag/kb_allocation.py:38-48 | nothing is kept exactly when every id is blank after trimming |
| KbAllocationProperties.SanitizeKeepsNonBlank | src/onekey_rag_service/rag/kb_allocation.py:38-45 | with no blank id every binding is kept in order, id trimmed, negative or non-finite weight made 0 |
| KbAllocationProperties.AllocateSingle | src/onekey_rag_service/rag/kb_allocation.py:50-52 | one usable binding receives the whole budget |
| KbAllocationProperties.AllocateSelect | src/onekey_rag_service/rag/kb_allocation.py:55-59 | a budget below the number of bindings gives exactly k rows of top_k 1 |
| KbAllocationProperties.AllocateApportion | src/onekey_rag_service/rag/kb_allocation.py:61-97 | otherwise the output is the apportionment branch |
| KbAllocationProperties.UsedAndLeft | src/onekey_rag_service/rag/kb_allocation.py:78-90 | the rounded-down shares use at most the budget and leave fewer than n units, so the modulo never wraps |
| KbAllocationProperties.ApportionConserves | src/onekey_rag_service/rag/kb_allocation.py:62-90 | with distinct ids the quotas sum to the budget |
| KbAllocationProperties.ApportionSum | src/onekey_rag_service/rag/kb_allocation.py:62-97 | the output rows' top_k values sum to the budget |
| KbAllocationProperties.AllocateConservesBudget | src/onekey_rag_service/rag/kb_allocation.py:33-97 | with distinct ids and a usable binding the allocations add up to total_k |
| KbAllocationTheorems.LeftBelowCount | src/onekey_rag_service/rag/kb_allocation.py:78-90 | the leftover is smaller than the number of bindings |
| KbAllocationTheorems.QuotaOf | src/onekey_rag_service/rag/kb_allocation.py:62-90 | each quota is 1 + floor(share) + one unit iff the binding is among the `left` largest remainders |
| KbAllocationTheorems.QuotaAtLeastOne | src/onekey_rag_service/rag/kb_allocation.py:62-90 | every quota is at least 1 |
| KbAllocationTheorems.QuotaNearShare | src/onekey_rag_service/rag/kb_allocation.py:73-76 | beyond the base unit, a quota is its share rounded down or up |
| KbAllocationTheorems.LargestRemaindersWin | src/onekey_rag_service/rag/kb_allocation.py:84-89 | a binding that gets a leftover unit has a remainder tuple no smaller than any binding that does not |
| KbAllocationTheorems.HeavierNeverLess | src/onekey_rag_service/rag/kb_allocation.py:66-90 | a heavier binding never gets a smaller quota |
| KbAllocationTheorems.EqualWeightsWithinOne | src/onekey_rag_service/rag/kb_allocation.py:73-90 | two bindings of equal weight get quotas at most one apart |
| KbAllocationTheorems.UniformSplitEven | src/onekey_rag_service/rag/kb_allocation.py:66-69 | with no positive weight any two quotas differ by at most one |
| KbAllocationTheorems.AllocateEmptyIff | src/onekey_rag_service/rag/kb_allocation.py:33-48 | the output is empty exactly when total_k <= 0 or no binding has a non-blank id |
| KbAllocationTheorems.AllocateSelectsTopRanked | src/onekey_rag_service/rag/kb_allocation.py:55-59 | the k < n output is the first k bindings by (weight desc, priority, kb_id), in ranked order, and nothing left out ranks before a chosen one |
| KbAllocationTheorems.AllocateApportionShape | src/onekey_rag_service/rag/kb_allocation.py:92-97 | the k >= n output has each binding once, ordered by (priority, kb_id), carrying its weight, priority and quota |
| KbAllocationTheorems.AllocateAllPositive | src/onekey_rag_service/rag/kb_allocation.py:50-97 | with distinct ids, every row of the output has top_k >= 1 |
| RagPipeline.MergeCandidates | src/onekey_rag_service/rag/pipeline.py:42-51 | the merge loop computes `_merge_candidates` |
| RagPipeline.MergeFacts | src/onekey_rag_service/rag/pipeline.py:42-51 | the merge gives at most k records, by descending score, no id twice, each the best-scored candidate for its id |
| RagPipeline.DedupedBest | src/onekey_rag_service/rag/pipeline.py:44-49 | every merged record comes from the candidates and no candidate with its id scores higher |
| RagPipeline.BuildSourcesLoop | src/onekey_rag_service/rag/pipeline.py:54-73 | the loop computes `_build_sources` |
| RagPipeline.CollectSources | src/onekey_rag_service/rag/pipeline.py:58-72 | the loop over the sorted chunks collects exactly the chosen sources |
| RagPipeline.BuildSourcesFacts | src/onekey_rag_service/rag/pipeline.py:54-73 | at most max(1, max_sources) sources, distinct anchored urls, empty snippets, descending score |
| RagPipeline.ChosenBest | src/onekey_rag_service/rag/pipeline.py:58-62 | each source comes from the best-scored chunk of its anchored url |
| RagPipeline.ChosenCovers | src/onekey_rag_service/rag/pipeline.py:58-72 | short of the cut, every anchored url gets a source |
| RagPipeline.FillSourceSnippets | src/onekey_rag_service/rag/pipeline.py:137-147 | the in-place fill over the array of sources computes `FillAll` |
| RagPipeline.FillSnippetsLoop | src/onekey_rag_service/rag/pipeline.py:142-147 | the loop sets each matched source's snippet in place |
| RagPipeline.UrlIndex | src/onekey_rag_service/rag/pipeline.py:138-140 | `setdefault` keeps the first (highest-scored) chunk per url |
| RagPipeline.FillKeepsOthers | src/onekey_rag_service/rag/pipeline.py:137-147 | only snippets change, and a source whose url matches no chunk keeps its snippet |
| RagPipeline.FillUsesBest | src/onekey_rag_service/rag/pipeline.py:139-147 | a matched source gets the snippet of the highest-scored chunk with its url |
| RagPipeline.AnchoredSourceGetsNoSnippet | src/onekey_rag_service/rag/pipeline.py:137-147 | as written, a source whose url got an anchor keeps an empty snippet |
| RagPipeline.AnchoredExample | src/onekey_rag_service/rag/pipeline.py:87-94 | the chunk of "https://x/a" in section "Intro" gets an anchor |
| RagPipeline.NonInlineSourcesHaveSnippets | src/onekey_rag_service/rag/pipeline.py:137-147 | corrected lookup by anchored url: every source carries its own chunk's snippet |
| RagPipeline.InlineSourcesShape | src/onekey_rag_service/rag/pipeline.py:150-162 | one source per chunk of `chunks[:max_sources]`, in order, built from that chunk |
| RagPipeline.InlineSourcesRefs | src/onekey_rag_service/rag/pipeline.py:152-155 | the refs are exactly 1..m, the i-th source carrying i + 1 |
| RagPipeline.ReferencesTailLines | src/onekey_rag_service/rag/pipeline.py:118-134 | the tail is two empty lines, the heading, then one line per source (inline, "[ref] title - url" or "[ref] url") or per non-blank url |
| RagPipeline.ReferencesTailEmptyIff | src/onekey_rag_service/rag/pipeline.py:119-120 | the tail is empty exactly when there are no sources |
| RagPipeline.BuildContext | src/onekey_rag_service/rag/pipeline.py:165-174 | the loop with its running total computes `_build_context` |
| RagPipeline.PackCountPrefix | src/onekey_rag_service/rag/pipeline.py:168-173 | a prefix of blocks is packed iff its total length is within max_chars |
| RagPipeline.ContextFacts | src/onekey_rag_service/rag/pipeline.py:165-174 | the context is the blocks of the first chunks, in order, within max_chars, and one more block would overflow |
| RagPipeline.ActiveAllocations | src/onekey_rag_service/rag/pipeline.py:240 | an allocation is kept iff it is in the input with top_k > 0 |
| RagPipeline.PerK | src/onekey_rag_service/rag/pipeline.py:244 | each search asks for at least one chunk |
| RagPipeline.ActiveAllocationsOfAllocate | src/onekey_rag_service/rag/pipeline.py:240-244 | with distinct ids, nothing of the allocator's output is dropped and each knowledge base is searched for exactly its quota |
| RagAnchors.SlugifyIsSlug | src/onekey_rag_service/rag/pipeline.py:79-84 | a slug holds lower-case word characters and single inner dashes only |
| RagAnchors.SlugifyIdempotent | src/onekey_rag_service/rag/pipeline.py:79-84 | slugging a slug changes nothing |
| RagAnchors.SlugifyKeepsWords | src/onekey_rag_service/rag/pipeline.py:80-83 | the slug's word characters are exactly those of the lower-cased text, in order |
| RagAnchors.SlugifyNonEmpty | src/onekey_rag_service/rag/pipeline.py:79-84 | a text with a letter, digit or '_' has a non-empty slug |
| RagAnchors.AppendAnchorCases | src/onekey_rag_service/rag/pipeline.py:87-94 | an empty url, one with '#', or an empty slug gives the url back; otherwise url + "#" + slug |
| RagAnchors.AppendAnchorRoundTrip | src/onekey_rag_service/rag/pipeline.py:87-94 | cutting at the first '#' gives the url back, and the fragment is a slug |
| RagAnchors.AppendAnchorIdempotent | src/onekey_rag_service/rag/pipeline.py:88-89 | anchoring an anchored url again changes nothing |
| RagCitations.MarkerUnique | src/onekey_rag_service/rag/pipeline.py:76 | a marker at a position has one length only |
| RagCitations.SubMarkersFixedIff | src/onekey_rag_service/rag/pipeline.py:102-109 | the substitution changes nothing exactly when no marker is out of 1..max_ref |
| RagCitations.SubMarkersShrinks | src/onekey_rag_service/rag/pipeline.py:102-109 | a substitution that changes something shortens the text |
| RagCitations.HasAnyCitationIff | src/onekey_rag_service/rag/pipeline.py:114-115 | the search finds a marker exactly when one starts somewhere |
| RagCitations.SanitizeShape | src/onekey_rag_service/rag/pipeline.py:110-111 | the result has no two neighbouring spaces and no surrounding whitespace |
| RagCitations.SanitizeLeavesOutOfRange | src/onekey_rag_service/rag/pipeline.py:109 | as written, "[2[99]]" with one source gives "[2]", an out-of-range marker |
| RagCitations.OutOfRangeExample | src/onekey_rag_service/rag/pipeline.py:97-111 | "[2]" is not clean for max_ref 1 |
| RagCitations.SanitizeFixedSpec | src/onekey_rag_service/rag/pipeline.py:97-111 | corrected: no marker out of range, no run of spaces, stripped |
| RagCitations.SanitizeFixedAgrees | src/onekey_rag_service/rag/pipeline.py:97-111 | where one pass already leaves nothing out of range, the corrected sanitiser agrees with the code |
| PgvectorStore.ScoreBeforeIsStrict | src/onekey_rag_service/rag/pgvector_store.py:178 | descending score is a strict order |
| PgvectorStore.FtsConfig | src/onekey_rag_service/rag/pgvector_store.py:75-76 | the configuration is the trimmed setting if it is all alphanumerics and '_', otherwise "simple" |
| PgvectorStore.Bm25Search | src/onekey_rag_service/rag/pgvector_store.py:71-76 | a blank query gives []; otherwise the search's rows for the trimmed query |
| PgvectorStore.MaxScore | src/onekey_rag_service/rag/pgvector_store.py:155-156 | the maximum score bounds every score and is attained |
| PgvectorStore.Normalizer | src/onekey_rag_service/rag/pgvector_store.py:155-156 | the normaliser is never zero (a zero maximum becomes 1.0) |
| PgvectorStore.VecLoop | src/onekey_rag_service/rag/pgvector_store.py:160-162 | the first loop computes the vector pass |
| PgvectorStore.LexLoop | src/onekey_rag_service/rag/pgvector_store.py:164-166 | the second loop computes the lexical pass |
| PgvectorStore.MergeLoop | src/onekey_rag_service/rag/pgvector_store.py:168-177 | the comprehension gives each combined record with its fused score, in key order |
| PgvectorStore.HybridSearch | src/onekey_rag_service/rag/pgvector_store.py:144-180 | the whole of `hybrid_search` after the searches equals `Hybrid` |
| PgvectorStore.HybridFallbacks | src/onekey_rag_service/rag/pgvector_store.py:147-152 | both empty gives []; an empty partner gives the other list cut to k; never more than k |
| PgvectorStore.VecPassScore | src/onekey_rag_service/rag/pgvector_store.py:160-162 | after the first loop an id's score is the sum of its weighted vector scores |
| PgvectorStore.LexPassScore | src/onekey_rag_service/rag/pgvector_store.py:164-166 | the second loop adds the id's weighted lexical scores |
| PgvectorStore.VecPassRecord | src/onekey_rag_service/rag/pgvector_store.py:161 | the record of an id is its last vector row |
| PgvectorStore.LexPassRecord | src/onekey_rag_service/rag/pgvector_store.py:165 | an existing record is kept; otherwise the first lexical row is added |
| PgvectorStore.FuseAt | src/onekey_rag_service/rag/pgvector_store.py:154-166 | each fused entry's score is vw·s/vmax + bw·s/lmax over its rows, with vector metadata preferred |
| PgvectorStore.MergedFacts | src/onekey_rag_service/rag/pgvector_store.py:154-177 | the merged list has unique ids, exactly the ids of vec ∪ lex, each a fused entry |
| PgvectorStore.HybridFused | src/onekey_rag_service/rag/pgvector_store.py:154-180 | the fused result has ids from vec ∪ lex, is a prefix of length min(k, n) of the sorted list, sorted by fused score, with unique ids |
| ApiChunk.ChunkTextConcat | src/onekey_rag_service/api/app.py:668-671 | concatenating the pieces gives back the text |
| ApiChunk.ChunkTextSizes | src/onekey_rag_service/api/app.py:668-671 | size <= 0 gives [text]; otherwise pieces are non-empty, at most size long, and all but the last exactly size |
| ApiChunk.ChunkPrefix | src/onekey_rag_service/api/app.py:671 | the first j pieces are the text up to j·size |
| ApiChunk.ChunkTextEmpty | src/onekey_rag_service/api/app.py:671 | the empty text has no pieces |
| ApiStream.EmitDeltas | src/onekey_rag_service/api/app.py:384-390 | the loop over parts yields one content frame per (non-empty) part, in order |
| ApiStream.EventStream | src/onekey_rag_service/api/app.py:353-523 | the generator's frames equal `StreamFrames` |
| ApiStream.EmitBody | src/onekey_rag_service/api/app.py:395-516 | the middle of the stream: fallback text, or the model's parts then the tail or error |
| ApiStream.StreamFramesAreEvents | src/onekey_rag_service/api/app.py:358-523 | every frame is "data: " + payload + "\n\n" |
| ApiStream.StreamOrder | src/onekey_rag_service/api/app.py:358-523 | first the role delta, last the stop chunk and the sources event, content in between |
| ApiStream.StreamFramesOrder | src/onekey_rag_service/api/app.py:358-523 | the frames open with the role delta and close with stop, sources and `[DONE]`, in that order |
| ApiStream.StreamContent | src/onekey_rag_service/api/app.py:380-516 | the content deltas join to the prepare error, then the answer text and its tail |
| ApiStream.InlineTailIsReferencesTail | src/onekey_rag_service/api/app.py:440-452 | the stream's inline tail equals `_build_references_tail` for non-empty sources |
| ApiRequests.LastUser | src/onekey_rag_service/api/app.py:206-209 | the index of the last user message, or none if there is none |
| ApiRequests.QuestionSpec | src/onekey_rag_service/api/app.py:205-211 | the question is found iff the last user message is non-empty; otherwise 400 |
| ApiRequests.AppBindingsSpec | src/onekey_rag_service/api/app.py:237-244 | the allocator gets the usable bindings, each with a non-blank id and positive weight, or the single default binding iff none is usable |
| ApiRequests.KeptBindings | src/onekey_rag_service/api/app.py:237-241 | the filtered bindings are exactly those of the usable rows |
| ApiRequests.UpsertSpec | src/onekey_rag_service/api/app.py:543-569 | after a submission the key has exactly one record, with the request's fields; other records are kept |
| ApiRequests.UpsertKeepsUnique | src/onekey_rag_service/api/app.py:543-569 | at most one record per (conversation_id, message_id) is preserved |
| ApiRequests.FeedbackTable.Submit | src/onekey_rag_service/api/app.py:543-569 | the endpoint updates the record with the key in place or appends one |
| ApiRequests.CopyRetrievalKeys | src/onekey_rag_service/api/app.py:604-624 | the loop copies exactly the listed keys present in meta |
| ApiRequests.RetrievalEventSpec | src/onekey_rag_service/api/app.py:589-638 | disabled writes nothing; message_id defaults to request_id; the kb ids are exactly the non-blank kb_id values of the allocations; only sources with a url are kept; the retrieval record holds the listed meta keys present and always the allocation list |
| EmbeddingsCache.BypassSpec | src/onekey_rag_service/rag/embeddings.py:60-61 | max_size <= 0 calls inner and stores nothing |
| EmbeddingsCache.QueryStepBound | src/onekey_rag_service/rag/embeddings.py:59-80 | each call keeps the cache well formed and within max_size |
| EmbeddingsCache.InsertSpec | src/onekey_rag_service/rag/embeddings.py:72-79 | the new entry is stored at `now` as most recent and survives eviction |
| EmbeddingsCache.InsertEvictsOldest | src/onekey_rag_service/rag/embeddings.py:76-79 | eviction removes least recently used keys only |
| EmbeddingsCache.HitSpec | src/onekey_rag_service/rag/embeddings.py:66-71 | an unexpired hit returns the cached vector without calling inner and makes the key most recent |
| EmbeddingsCache.MissSpec | src/onekey_rag_service/rag/embeddings.py:72-77 | a missing or expired entry is recomputed and stored with the new time |
| EmbeddingsCache.NoTtlAlwaysHits | src/onekey_rag_service/rag/embeddings.py:69 | with ttl <= 0 a cached key is always a hit |
| EmbeddingsCache.CachedEmbeddings.EmbedDocuments | src/onekey_rag_service/rag/embeddings.py:56-57 | documents go straight to inner, and the cache is not touched |
| EmbeddingsCache.CachedEmbeddings.EmbedQuery | src/onekey_rag_service/rag/embeddings.py:59-80 | the cache's new state, the vector and whether inner was called are those of `QueryStep` |
| EmbeddingsCache.CachedEmbeddings.Store | src/onekey_rag_service/rag/embeddings.py:72-79 | drops the stale entry, stores the new one and evicts |
| EmbeddingsCache.CachedEmbeddings.EvictOldest | src/onekey_rag_service/rag/embeddings.py:78-79 | the eviction loop keeps the max_size newest keys |
| EmbeddingsCache.WrapWithCache | src/onekey_rag_service/rag/embeddings.py:238-246 | the base provider is returned unwrapped iff the size is <= 0 |
| WorkerJobs.MergeJobMetaKeeps | src/onekey_rag_service/worker.py:44-49 | every other progress key and every other `_meta` key is kept |
| WorkerJobs.MergeJobMetaSets | src/onekey_rag_service/worker.py:46-48 | worker_id, attempts and updated_at are set |
| WorkerJobs.RequeueStaleDisabled | src/onekey_rag_service/worker.py:53-54 | stale_after_s <= 0 returns 0 and changes nothing |
| WorkerJobs.RequeueStaleSpec | src/onekey_rag_service/worker.py:52-70 | at most ten stale running jobs are queued with the note appended; the count says how many; others unchanged |
| WorkerJobs.RequeueStaleOldestFirst | src/onekey_rag_service/worker.py:56-62 | a stale job left running means ten moved, none started later than it |
| WorkerJobs.ClaimCandidateSpec | src/onekey_rag_service/worker.py:73-85 | none claimed iff none queued; the claimed job is queued with the smallest started_at |
| WorkerJobs.ClaimTableSpec | src/onekey_rag_service/worker.py:84-89 | only the claimed row changes: running, started now, error cleared |
| WorkerJobs.ProcessOnlyRunning | src/onekey_rag_service/worker.py:140-145 | a missing or non-running job is left alone |
| WorkerJobs.StartAttemptCounts | src/onekey_rag_service/worker.py:147-150 | a readable attempt count goes up by one and nothing else of the job changes |
| WorkerJobs.FinalizeCases | src/onekey_rag_service/worker.py:174-197 | as written: an error with a non-empty message requeues while attempts remain and otherwise fails with finished_at; success, and an exception with an empty message, mark the job succeeded with the result (empty for the exception) plus `_meta` |
| WorkerJobs.UnknownTypeFails | src/onekey_rag_service/worker.py:172-197 | an unknown type takes the error path, naming the type |
| WorkerJobs.EmptyErrorSucceeds | src/onekey_rag_service/worker.py:174-197 | as written, an exception with an empty message marks the job succeeded |
| WorkerJobs.RaisedNeverSucceeds | src/onekey_rag_service/worker.py:174-193 | corrected: a raised exception never marks the job succeeded |
| WorkerJobs.FinalizeAgrees | src/onekey_rag_service/worker.py:184-197 | the code and the corrected finalisation differ only for an empty message |
| WorkerJobs.ProcessOthersUnchanged | src/onekey_rag_service/worker.py:130-200 | processing touches only the processed row |
| WorkerJobs.JobQueue.RequeueStale | src/onekey_rag_service/worker.py:52-70 | the new table and the count are those of the specification |
| WorkerJobs.JobQueue.RequeueRows | src/onekey_rag_service/worker.py:67-69 | the loop requeues exactly the picked rows |
| WorkerJobs.JobQueue.ClaimNext | src/onekey_rag_service/worker.py:73-89 | the new table and the claimed id are those of the specification |
| WorkerJobs.JobQueue.ProcessJob | src/onekey_rag_service/worker.py:130-200 | the table after processing is `ProcessTable` |
| AdminApi.WorkspaceAccess | src/onekey_rag_service/api/admin.py:47-51 | 403 iff the principal's workspace is non-empty and differs |
| AdminApi.ParsePaginationSpec | src/onekey_rag_service/api/admin.py:54-58 | page >= 1, 1 <= size <= 200, offset = (page-1)·size, falsy inputs default |
| AdminApi.CountCpusetCpus | src/onekey_rag_service/api/admin.py:291-319 | the loop computes the count part by part |
| AdminApi.CpusetBlank | src/onekey_rag_service/api/admin.py:292-319 | a blank list gives None, and a count is never 0 |
| AdminApi.PartCountRange | src/onekey_rag_service/api/admin.py:302-310 | "a-b" names b-a+1 CPUs when b >= a and none otherwise |
| AdminApi.PartCountSingle | src/onekey_rag_service/api/admin.py:311-315 | a single integer names one CPU |
| AdminApi.CpusetOfParts | src/onekey_rag_service/api/admin.py:295-319 | the count is the sum over the comma-separated parts |
| AdminApi.DateRangeBounds | src/onekey_rag_service/api/admin.py:677-694 | the window ends now and spans at least one hour |
| AdminApi.DateRangeHourUnit | src/onekey_rag_service/api/admin.py:683-694 | "Nh" is the last max(1, N) hours, or the last 24 hours when that window overflows |
| AdminApi.DateRangeDayUnit | src/onekey_rag_service/api/admin.py:683-694 | "Nd" is the last max(1, N) days, or the last 24 hours when that window overflows |
| AdminApi.DateRangeDefault | src/onekey_rag_service/api/admin.py:679-681 | a blank range is the last 24 hours |
| AdminApi.CreatedToBoundSpec | src/onekey_rag_service/api/admin.py:1541-1547 | a 10-character date bounds exclusively at the next midnight; otherwise the bound is inclusive |
| AdminApi.RequeueSpec | src/onekey_rag_service/api/admin.py:1604-1621 | succeeds iff access is allowed and the job is in the workspace, resetting it whatever its status; a 403 or 404 changes nothing |
| AdminApi.CancelSpec | src/onekey_rag_service/api/admin.py:1624-1640 | succeeds iff access is allowed and the job is in the workspace and queued, marking it cancelled at now; a 400, 403 or 404 changes nothing |
| AdminApi.RequeueJob | src/onekey_rag_service/api/admin.py:1615-1619 | the job table after the endpoint is the specification's |
| AdminApi.CancelJob | src/onekey_rag_service/api/admin.py:1635-1639 | the job table after the endpoint is the specification's |
| AdminApi.AppKbTable.PutAppKbs | src/onekey_rag_service/api/admin.py:1188-1224 | the table after the endpoint is the specification's |
| AdminApi.PutAppKbsSpec | src/onekey_rag_service/api/admin.py:1188-1224 | success exactly when access, app and every kb check pass and the commit keeps the (app_id, kb_id) constraint; then the app's bindings are exactly the request list, the constraint holds and no kb id repeats; any failure changes nothing; 403 iff no workspace access, 404 iff the app is outside the workspace, 400 (naming the missing ids) iff some requested kb is outside it, otherwise 500 |
| AdminApi.PutAppKbsDuplicateFails | src/onekey_rag_service/api/admin.py:1205-1223 | a request naming one kb twice fails at the commit with 500 and leaves the table as it was |
| AdminApi.PutAppKbsCommit | src/onekey_rag_service/api/admin.py:1205-1223 | from a table meeting the constraint, the commit succeeds iff the request's kb ids are distinct and no row of the same app id in another workspace binds one of them |
| AdminApi.MissingKbsEmptyIff | src/onekey_rag_service/api/admin.py:1194-1200 | no kb is missing iff every requested kb is in the workspace |
| Crawler.CanonicalizeSpec | src/onekey_rag_service/crawler/pipeline.py:218-235 | empty, '#…', mailto/tel/javascript and static assets give None; otherwise the unparse with an empty fragment |
| Crawler.CanonicalHasNoFragment | src/onekey_rag_service/crawler/pipeline.py:228-235 | a canonical url has no fragment |
| Crawler.PassesIff | src/onekey_rag_service/crawler/pipeline.py:89-98 | a url passes iff http(s), same host, base prefix, some include (if any) and no exclude |
| Crawler.UpsertPageSpec | src/onekey_rag_service/crawler/pipeline.py:189-215 | empty title, content or hash keep the old value; status always written; other rows unchanged |
| Crawler.TouchPageSpec | src/onekey_rag_service/crawler/pipeline.py:178-186 | touching changes only owner, status and crawl time of an existing row |
| Crawler.PageTable.Upsert | src/onekey_rag_service/crawler/pipeline.py:189-215 | the pages table after `_upsert_page` |
| Crawler.PageTable.Touch | src/onekey_rag_service/crawler/pipeline.py:178-186 | the pages table after `_touch_page` |
| Crawler.Visit | src/onekey_rag_service/crawler/pipeline.py:111-172 | one turn of the loop either skips a visited url or marks the head visited |
| Crawler.SeedAllOk | src/onekey_rag_service/crawler/pipeline.py:87-102 | seeding gives a duplicate-free queue of filtered urls |
| Crawler.DiscoverAllOk | src/onekey_rag_service/crawler/pipeline.py:249-275 | discovery keeps the frontier invariant, adds nothing once max_pages are seen, and never passes max_pages |
| Crawler.DiscoverSaturated | src/onekey_rag_service/crawler/pipeline.py:274-275 | once the seen set is full, later links change nothing |
| Crawler.CrawlFromOk | src/onekey_rag_service/crawler/pipeline.py:111-172 | the loop keeps the crawl invariant |
| Crawler.CrawlSpec | src/onekey_rag_service/crawler/pipeline.py:87-172 | the crawl raises with the pages table untouched iff canonicalising some initial url raises; otherwise the table is the loop's, no url is visited twice, fetched equals the number of visited urls and stays within max_pages, every seen url passed the filters, no page row is lost, and fetched equals succeeded + failed when link parsing never raises |
| Crawler.CrawlResultSpec | src/onekey_rag_service/crawler/pipeline.py:87-175 | no result when seeding raised; otherwise the result reports the seen set's size and the three counters |
| Crawler.MalformedInitialUrlAborts | src/onekey_rag_service/crawler/pipeline.py:89-90 | one sitemap or seed url whose canonicalisation raises ends the crawl before any fetch, leaving the pages table unchanged |
| Crawler.IncrementalUnchanged | src/onekey_rag_service/crawler/pipeline.py:138-144 | in incremental mode an unchanged hash only touches the row and counts as succeeded |
| Crawler.DiscoverLinks | src/onekey_rag_service/crawler/pipeline.py:238-275 | the link loop computes `DiscoverAll` |
| Crawler.SeedFrontier | src/onekey_rag_service/crawler/pipeline.py:87-102 | the seeding loop raises iff canonicalising some initial url raises (`urljoin` on a malformed url such as "http://["), and otherwise computes `SeedAll` |
| Crawler.FetchAndStore | src/onekey_rag_service/crawler/pipeline.py:115-172 | one fetch stores the row, counts the outcome and discovers links as `Record` says; links admitted before an exception in link discovery stay queued, and the exception also counts the page failed with status 0 |
| Crawler.CrawlAndStorePages | src/onekey_rag_service/crawler/pipeline.py:55-175 | the result and the pages table are those of `CrawlOutcome`: no result and an untouched table when seeding raises, otherwise the crawl loop's |
| Indexing.ApproxTokenCountSpec | src/onekey_rag_service/indexing/pipeline.py:100-102 | the estimate is >= 1, and len//4 when len >= 4 |
| Indexing.RebuiltSpec | src/onekey_rag_service/indexing/pipeline.py:71-97 | rows 0..m-1 pair piece i with vector i, m = min(#pieces, #vectors) |
| Indexing.StepPages | src/onekey_rag_service/indexing/pipeline.py:39-54 | one page is rebuilt and marked indexed, or everything is left unchanged |
| Indexing.IndexAllSpec | src/onekey_rag_service/indexing/pipeline.py:27-57 | rebuilt pages get indexed hash = content hash and their rows; others unchanged; counters add pages and rows |
| Indexing.SecondRunRebuildsOnlyEmptyHashes | src/onekey_rag_service/indexing/pipeline.py:40-52 | after an incremental run, a second one rebuilds only pages with an empty content hash |
| Indexing.IncrementalRule | src/onekey_rag_service/indexing/pipeline.py:40-42 | a page is rebuilt iff its indexed hash is empty or differs from its content hash |
| Indexing.RebuildPageChunks | src/onekey_rag_service/indexing/pipeline.py:59-97 | the page's rows are replaced by the rebuilt rows, and their number is returned |
| Indexing.IndexPagesToChunks | src/onekey_rag_service/indexing/pipeline.py:16-57 | both tables and both counters are those of `IndexAll` |
| ChatProvider.ChunkTextSpec | src/onekey_rag_service/rag/chat_provider.py:185-208 | non-empty text, else non-empty content, else the joined text blocks, else "" |
| ChatProvider.ExtractChunkText | src/onekey_rag_service/rag/chat_provider.py:185-208 | the loop over blocks computes the chunk text |
| ChatProvider.LangChainStreamSpec | src/onekey_rag_service/rag/chat_provider.py:144-147 | the stream never yields "" and joins to the text of all chunks |
| ChatProvider.StreamTexts | src/onekey_rag_service/rag/chat_provider.py:144-147 | the async loop yields exactly `LangChainStream` |
| ChatProvider.DefaultStreamSpec | src/onekey_rag_service/rag/chat_provider.py:23-27 | the default stream yields exactly one item, the content |
| ChatProvider.ExtractUsageSources | src/onekey_rag_service/rag/chat_provider.py:150-166 | usage_metadata takes precedence; with neither dict there is no usage |
| ChatProvider.UsageCounts | src/onekey_rag_service/rag/chat_provider.py:152-156 | counts fall back from input to prompt, output to completion, and total to the sum |
| ChatProvider.UsageRejectsText | src/onekey_rag_service/rag/chat_provider.py:153 | a count int() cannot read raises |
| ChatProvider.MaybeResponseFormatErrorIgnoresCase | src/onekey_rag_service/rag/chat_provider.py:211-220 | the keyword test ignores case |
| ChatProvider.CompleteRetry | src/onekey_rag_service/rag/chat_provider.py:97-122 | one retry without response_format only after a matching error; any other failure propagates |
| ChatProvider.NormalizePathSpec | src/onekey_rag_service/rag/chat_provider.py:179-181 | trailing '/' go, an empty path becomes "/v1", and normalising twice changes nothing |
| ChatProvider.NormalizeBaseUrlIdempotent | src/onekey_rag_service/rag/chat_provider.py:169-182 | only the path changes, and the normalisation is idempotent |
| ChatProvider.BuildChatProviderSpec | src/onekey_rag_service/rag/chat_provider.py:223-240 | disabled or keyless gives none; a known name gives a provider; any other name raises |
| ChatProvider.BuildChatProviderIgnoresCase | src/onekey_rag_service/rag/chat_provider.py:224 | the provider name is read without regard to case |
| Config.CollectKeys | src/onekey_rag_service/config.py:128-163 | a key is present iff some kept entry names it; keys are stripped and non-blank |
| Config.CollectLastWins | src/onekey_rag_service/config.py:134 | a key holds the value of the last kept entry naming it |
| Config.ChatModelMapSpec | src/onekey_rag_service/config.py:118-135 | unset gives {}; bad JSON or non-object raises; keys and values are stripped and non-blank |
| Config.ModelMapLaterWins | src/onekey_rag_service/config.py:134 | keys that differ only in whitespace collide, and the later entry wins |
| Config.ChatModelMap | src/onekey_rag_service/config.py:118-135 | the loop computes the map |
| Config.ModelPricingSpec | src/onekey_rag_service/config.py:137-164 | unset gives {}; bad JSON raises; an entry is kept iff the key is non-blank and the value holds two numeric prices |
| Config.BooleanPricesAccepted | src/onekey_rag_service/config.py:161-163 | a JSON boolean price is read as 1.0 or 0.0 |
| Config.ModelPricing | src/onekey_rag_service/config.py:137-164 | the loop computes the pricing table |
| AdminAuth.B64UrlEncodeSpec | src/onekey_rag_service/admin/auth.py:24-25 | the encoding uses the URL-safe alphabet only and is the padded encoding minus its '=' padding |
| AdminAuth.B64UrlEncodeLength | src/onekey_rag_service/admin/auth.py:24-25 | n bytes give ceil(4n/3) characters |
| AdminAuth.PadLen | src/onekey_rag_service/admin/auth.py:29 | decode padding brings the length to a multiple of four |
| AdminAuth.B64UrlRoundTrip | src/onekey_rag_service/admin/auth.py:24-30 | decoding undoes encoding |
| AdminAuth.B64UrlDecodeRejectsOneOver | src/onekey_rag_service/admin/auth.py:28-30 | a string of 4k+1 characters of the URL-safe alphabet never decodes |
| AdminAuth.B64UrlDecodeLenient | src/onekey_rag_service/admin/auth.py:28-30 | the standard alphabet's '+' and '/' decode like '-' and '_', and other characters are skipped, so "-_!-_" decodes |
| AdminAuth.SplitThreeSpec | src/onekey_rag_service/admin/auth.py:52-54 | a split gives three segments that join back to the token, the first two without a dot; a failed split means the token has at most one dot |
| AdminAuth.VerifyJwt | src/onekey_rag_service/admin/auth.py:50-77 | acceptance needs three segments, a matching signature, a decodable object payload, the issuer, and an `exp` of 0 or after now; no split means invalid token |
| AdminAuth.VerifyCreated | src/onekey_rag_service/admin/auth.py:41-77 | verify(create(p)) returns p unless the issuer differs or it expired |
| AdminAuth.ForgedSignatureRefused | src/onekey_rag_service/admin/auth.py:56-59 | a token with any other signature is never accepted |
| AdminAuth.AuthenticateAdminSpec | src/onekey_rag_service/admin/auth.py:80-84 | login raises iff one of the four compared strings is not ASCII; otherwise it succeeds iff stripped user names match and passwords are equal, giving the owner of the default workspace, and refuses with 401 |
| AdminAuth.NonAsciiPasswordRaises | src/onekey_rag_service/admin/auth.py:81 | a non-ASCII password raises even with a wrong user name |
| AdminAuth.Lifetime | src/onekey_rag_service/admin/auth.py:90 | the lifetime is max(60, configured or 3600) |
| AdminAuth.IssueAdminAccessToken | src/onekey_rag_service/admin/auth.py:88-99 | expires_in is the lifetime |
| AdminAuth.RequireAdmin | src/onekey_rag_service/admin/auth.py:102-114 | a granted principal has a user name and a role; a refusal is 401 |
| AdminAuth.BearerHeader | src/onekey_rag_service/admin/auth.py:103-107 | "Bearer <token>" hands the guard the token |
| AdminAuth.IssueThenRequire | src/onekey_rag_service/admin/auth.py:88-114 | an issued token admits its principal until it expires, role defaulting to "viewer"; an empty subject or an expired token gives 401 |
| AdminAuth.AdminClaimsRead | src/onekey_rag_service/admin/auth.py:91-111 | the guard reads back the claims the issuer writes |
| AdminAuth.MissingBearerRefused | src/onekey_rag_service/admin/auth.py:104-105 | a header without a case-insensitive "bearer " prefix is refused |

## Left out

- SQL and ORM plumbing: queries, `SKIP LOCKED`, commits and sessions. The
  tables the core touches are in-memory sequences or maps, and a query's row
  order is an input (for example the `order` of `Indexing.IndexPagesToChunks`).
- The /proc and cgroup metrics of `api/admin.py`. These are file I/O and float
  arithmetic; only `_count_cpuset_cpus` is modelled.
- Network clients are not modelled. This covers HTTP fetching with retries, the
  sitemap, the embedding providers and the LangChain model. Their results are
  parameters of the model.
- Floating point: weights and scores are exact `real`s, with no rounding, NaN
  or infinity. A non-finite weight is a separate constructor that counts as 0.
- Concurrency and timing are not modelled: the semaphore, `wait_for` timeouts,
  the cache lock and the worker poll loop. Each call is one sequential step,
  with the clock as a parameter.
- JSON encoding, HMAC-SHA256, SHA-256, `urljoin`/`urlparse`/`urlunparse` and
  the include/exclude regexes are uninterpreted functions. `clamp_text` and the
  markdown chunker are not part of this model and are passed in.
- Strings are sequences of characters. `\w`, `isalnum`, `lower()` and the digit
  classes are ASCII only, while `strip()` uses Python's whitespace set.
- Orchestration in `prepare_rag`/`answer_with_rag` beyond the helpers and the
  allocation filter is not modelled: provider calls, timing and reranking.
- `KbAllocationProperties.AllocateConservesBudget`: proved only when kb ids are
  distinct. With duplicate ids `base_alloc` merges the entries, so the sum can
  differ. The (app_id, kb_id) uniqueness constraint of the bindings table rules
  this out: `AdminApi.PutAppKbsSpec` proves that a stored binding list never
  repeats a kb id.
- `Crawler.CrawlSpec`: fetched == succeeded + failed is proved only when link
  discovery never raises. An exception there counts the page twice.
- `Crawler.CanonicalizeSpec`: `Canonicalize` gives the value for a url whose
  join does not raise. Seeding tests `CanonicalizeRaises` first. In link
  discovery a raise is recorded by `LinkScan`, and the model does not require
  `LinkScan` to agree with `UrlLib.raises`.
- `WorkerJobs.JobQueue.ProcessJob` and `WorkerJobs.ProcessTable` finalise with
  the corrected `WorkerJobs.Finalize`. A handler exception with an empty
  message is retried or failed here, where the code marks the job succeeded.
  `WorkerJobs.FinalizeCases` and `WorkerJobs.EmptyErrorSucceeds` state the code
  as written (see Findings).
- `AdminAuth.B64UrlDecode` follows the non-strict decoder of CPython 3.11 and
  later. Older versions handle a '=' inside the data differently.
- `AdminAuth.VerifyCreated`: assumes `json.loads` inverts `json.dumps` on the
  claims, and that `int()` accepts the expiry.
- `AdminAuth.RequireAdmin`: its own contract states only the shape of the
  outcome. The round trip with the issuer is `AdminAuth.IssueThenRequire`.
- `ChatProvider.CompleteRetry`: building the model and its keyword arguments
  (`_build_model`) is not modelled; only the retry decision and the content
  and usage read from the reply are.
- `RagPipeline.FillSourceSnippets` models the code's lookup by raw url.
  `RagPipeline.NonInlineSources` states the corrected lookup by anchored url
  (see Findings). Neither is wired into the streamed answer:
  `ApiStream.Prepared.sources` is an input of the streaming members, so the
  model does not derive the sources `prepare_rag` hands to `event_stream`.

## Findings

| source | as written | input that shows it | evidently intended | confidence | as-written member | corrected member |
|---|---|---|---|---|---|---|
| src/onekey_rag_service/worker.py:174-197 | `err = str(e)` and then `if err:` decides failure | a handler raising an exception whose `str()` is empty, such as `asyncio.TimeoutError()` | every raised exception takes the error path (retry or failed) | not executed; high | WorkerJobs.EmptyErrorSucceeds | WorkerJobs.RaisedNeverSucceeds |
| src/onekey_rag_service/rag/pipeline.py:109 | one left-to-right pass of the citation substitution | "[2[99]]" with max_ref 1 gives "[2]" | no marker outside 1..max_ref remains | not executed; medium | RagCitations.SanitizeLeavesOutOfRange | RagCitations.SanitizeFixedSpec |
| src/onekey_rag_service/rag/pipeline.py:137-147 | sources store the anchored url, but snippets are looked up by the chunk's raw url | one chunk "https://x/a" in section "Intro": its source url is "https://x/a#intro" and its snippet stays "" | every source carries the snippet of its chunk | not executed; high | RagPipeline.AnchoredSourceGetsNoSnippet | RagPipeline.NonInlineSourcesHaveSnippets |
