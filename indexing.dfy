/** indexing/pipeline.py: turning crawled pages into embedded chunks. A page
    of the knowledge base with a status below 400 is re-chunked unless, in
    incremental mode, its indexed hash is non-empty and equals its content
    hash. The chunker, the embedder and the hash are parameters. */
module Indexing {
  import opened Lists
  import Crawler

  type Vector = seq<real>

  /** What the header-aware markdown chunker yields per piece. */
  datatype ChunkItem = ChunkItem(sectionPath: string, text: string)

  /** A row of `chunks`. The page is named by its url, the key of `pages`. */
  datatype Chunk = Chunk(page: string, chunkIndex: nat, sectionPath: string, text: string, chunkHash: string,
                         tokenCount: int, embedding: Vector, embeddingModel: string)

  type Chunks = map<string, seq<Chunk>>

  /** The arguments of `index_pages_to_chunks`, with the chunker
      (text, max_chars, overlap_chars), the embedder and sha256 as functions. */
  datatype IndexEnv = IndexEnv(
    workspaceId: string,
    kbId: string,
    mode: string,
    modelName: string,
    maxChars: int,
    overlapChars: int,
    chunker: (string, int, int) -> seq<ChunkItem>,
    embed: seq<string> -> seq<Vector>,
    sha: string -> string)

  /** `_approx_token_count`: a quarter of the length, at least 1. */
  function ApproxTokenCount(text: string): int {
    Max(1, |text| / 4)
  }

  /** The estimate is never below 1, is 1 for texts shorter than four
      characters, and otherwise counts the whole groups of four characters. */
  lemma ApproxTokenCountSpec(text: string)
    ensures ApproxTokenCount(text) >= 1
    ensures |text| < 4 ==> ApproxTokenCount(text) == 1
    ensures |text| >= 4 ==> 4 * ApproxTokenCount(text) <= |text| < 4 * ApproxTokenCount(text) + 4
  {
  }

  function Texts(items: seq<ChunkItem>): (r: seq<string>)
    ensures |r| == |items| && forall i :: 0 <= i < |items| ==> r[i] == items[i].text
  {
    seq(|items|, i requires 0 <= i < |items| => items[i].text)
  }

  /** The row written for the idx-th pair of `zip(chunk_items, vectors)`. */
  function MakeChunk(page: string, idx: nat, item: ChunkItem, vec: Vector, env: IndexEnv): Chunk {
    Chunk(page, idx, item.sectionPath, item.text, env.sha(item.text), ApproxTokenCount(item.text), vec, env.modelName)
  }

  /** The rows of one page after `_rebuild_page_chunks`: `zip` without
      `strict` stops at the shorter list. */
  function Rebuilt(page: string, content: string, env: IndexEnv): seq<Chunk> {
    var items := env.chunker(content, env.maxChars, env.overlapChars);
    if items == [] then []
    else
      var vecs := env.embed(Texts(items));
      seq(Min(|items|, |vecs|), i requires 0 <= i < Min(|items|, |vecs|) => MakeChunk(page, i, items[i], vecs[i], env))
  }

  /** The rebuilt rows pair the i-th piece with the i-th vector for i below
      the shorter length, numbered from 0, each with its hash, estimate and
      model name; no pieces give no rows. */
  lemma RebuiltSpec(page: string, content: string, env: IndexEnv)
    ensures var items := env.chunker(content, env.maxChars, env.overlapChars);
      var r := Rebuilt(page, content, env);
      && (items == [] ==> r == [])
      && (items != [] ==> |r| == Min(|items|, |env.embed(Texts(items))|))
      && forall i :: 0 <= i < |r| ==>
           && r[i].page == page && r[i].chunkIndex == i
           && r[i].text == items[i].text && r[i].sectionPath == items[i].sectionPath
           && r[i].chunkHash == env.sha(items[i].text) && r[i].tokenCount >= 1
           && r[i].embedding == env.embed(Texts(items))[i] && r[i].embeddingModel == env.modelName
  {
    var r := Rebuilt(page, content, env);
    forall i | 0 <= i < |r|
      ensures r[i].tokenCount >= 1
    {
      ApproxTokenCountSpec(r[i].text);
    }
  }

  /** The SQL filter of the page query. */
  predicate Selected(p: Crawler.Page, env: IndexEnv) {
    p.workspaceId == env.workspaceId && p.kbId == env.kbId && p.httpStatus < 400
  }

  /** The incremental skip rule. */
  predicate UpToDate(p: Crawler.Page, env: IndexEnv) {
    env.mode == "incremental" && p.indexedContentHash != "" && p.indexedContentHash == p.contentHash
  }

  /** The state of the indexing loop: both tables and both counters. */
  datatype IndexState = IndexState(pages: Crawler.Pages, chunks: Chunks, indexedPages: nat, totalChunks: nat)

  /** One iteration over the page with key `u`. */
  function IndexStep(s: IndexState, u: string, env: IndexEnv): IndexState {
    if u !in s.pages || !Selected(s.pages[u], env) || UpToDate(s.pages[u], env) then s
    else
      var p := s.pages[u];
      var rows := Rebuilt(u, p.content, env);
      IndexState(s.pages[u := p.(indexedContentHash := p.contentHash)], s.chunks[u := rows],
                 s.indexedPages + 1, s.totalChunks + |rows|)
  }

  /** The loop over the pages in the order the query returns them. */
  function IndexAll(s: IndexState, order: seq<string>, env: IndexEnv): IndexState {
    if order == [] then s else IndexStep(IndexAll(s, order[..|order| - 1], env), order[|order| - 1], env)
  }

  /** A page is rebuilt when it is selected and not up to date. */
  predicate Chosen(pages: Crawler.Pages, u: string, env: IndexEnv) {
    u in pages && Selected(pages[u], env) && !UpToDate(pages[u], env)
  }

  /** How many of the listed pages are rebuilt, and how many rows they get. */
  function ChosenCount(pages: Crawler.Pages, order: seq<string>, env: IndexEnv): nat {
    if order == [] then 0
    else ChosenCount(pages, order[..|order| - 1], env) + (if Chosen(pages, order[|order| - 1], env) then 1 else 0)
  }

  function ChosenChunks(pages: Crawler.Pages, order: seq<string>, env: IndexEnv): nat {
    if order == [] then 0
    else
      var u := order[|order| - 1];
      ChosenChunks(pages, order[..|order| - 1], env) + (if Chosen(pages, u, env) then |Rebuilt(u, pages[u].content, env)| else 0)
  }

  lemma StepPages(s: IndexState, u: string, env: IndexEnv)
    ensures var r := IndexStep(s, u, env);
      && r.pages.Keys == s.pages.Keys
      && (forall v :: v in s.pages && v != u ==> r.pages[v] == s.pages[v])
      && (forall v :: v != u ==> (v in r.chunks <==> v in s.chunks))
      && (forall v :: v in s.chunks && v != u ==> r.chunks[v] == s.chunks[v])
      && (Chosen(s.pages, u, env) ==>
            r.pages[u] == s.pages[u].(indexedContentHash := s.pages[u].contentHash)
            && u in r.chunks && r.chunks[u] == Rebuilt(u, s.pages[u].content, env)
            && r.indexedPages == s.indexedPages + 1 && r.totalChunks == s.totalChunks + |r.chunks[u]|)
      && (!Chosen(s.pages, u, env) ==> r == s)
  {
  }

  /** Over a list of distinct keys, a rebuilt page gets its content hash as
      indexed hash and exactly its rebuilt rows; every other page and every
      other page's rows are unchanged; the counters add the number of
      rebuilt pages and their rows. */
  lemma {:induction false} IndexAllSpec(s: IndexState, order: seq<string>, env: IndexEnv)
    requires forall i, j :: 0 <= i < j < |order| ==> order[i] != order[j]
    ensures var r := IndexAll(s, order, env);
      && r.pages.Keys == s.pages.Keys
      && (forall u :: u in s.pages && !(u in order && Chosen(s.pages, u, env)) ==> r.pages[u] == s.pages[u])
      && (forall u :: u !in order || !Chosen(s.pages, u, env) ==> (u in r.chunks <==> u in s.chunks))
      && (forall u :: u in s.chunks && !(u in order && Chosen(s.pages, u, env)) ==> r.chunks[u] == s.chunks[u])
      && (forall u :: u in order && Chosen(s.pages, u, env) ==>
            r.pages[u] == s.pages[u].(indexedContentHash := s.pages[u].contentHash)
            && u in r.chunks && r.chunks[u] == Rebuilt(u, s.pages[u].content, env))
      && r.indexedPages == s.indexedPages + ChosenCount(s.pages, order, env)
      && r.totalChunks == s.totalChunks + ChosenChunks(s.pages, order, env)
    decreases |order|
  {
    if order != [] {
      var init := order[..|order| - 1];
      var u := order[|order| - 1];
      IndexAllSpec(s, init, env);
      var m := IndexAll(s, init, env);
      StepPages(m, u, env);
      assert u !in init;
      assert u in s.pages ==> m.pages[u] == s.pages[u];
      assert Chosen(m.pages, u, env) == Chosen(s.pages, u, env);
      forall v | v in order
        ensures v in init || v == u
      {
        var k :| 0 <= k < |order| && order[k] == v;
        if k < |order| - 1 {
          assert init[k] == v;
        }
      }
    }
  }

  /** After an incremental run every rebuilt page has indexed hash equal to
      its content hash, so a second incremental run over the same pages
      rebuilds exactly the pages the first one rebuilt with an empty content
      hash. */
  lemma SecondRunRebuildsOnlyEmptyHashes(s: IndexState, order: seq<string>, env: IndexEnv, u: string)
    requires forall i, j :: 0 <= i < j < |order| ==> order[i] != order[j]
    requires env.mode == "incremental" && u in order
    ensures Chosen(IndexAll(s, order, env).pages, u, env) <==> Chosen(s.pages, u, env) && s.pages[u].contentHash == ""
  {
    IndexAllSpec(s, order, env);
  }

  /** With both tables untouched, a page is re-chunked only when its
      content changed since its last indexing or it has never been indexed. */
  lemma IncrementalRule(p: Crawler.Page, env: IndexEnv)
    requires env.mode == "incremental" && Selected(p, env)
    ensures !UpToDate(p, env) <==> p.indexedContentHash == "" || p.indexedContentHash != p.contentHash
  {
  }

  /** The `chunks` table. */
  class ChunkTable {
    var chunks: Chunks

    constructor(initial: Chunks)
      ensures chunks == initial
    {
      chunks := initial;
    }
  }

  /** `_rebuild_page_chunks`: deletes the page's rows, then inserts one per
      (piece, vector) pair and returns how many. */
  method RebuildPageChunks(c: ChunkTable, page: string, content: string, env: IndexEnv) returns (inserted: nat)
    modifies c
    ensures c.chunks == old(c.chunks)[page := Rebuilt(page, content, env)]
    ensures inserted == |Rebuilt(page, content, env)|
  {
    c.chunks := c.chunks[page := []];
    var items := env.chunker(content, env.maxChars, env.overlapChars);
    if items == [] {
      return 0;
    }
    var vecs := env.embed(Texts(items));
    var rows: seq<Chunk> := [];
    inserted := 0;
    var n := Min(|items|, |vecs|);
    for idx := 0 to n
      invariant |rows| == idx && inserted == idx
      invariant forall i :: 0 <= i < idx ==> rows[i] == MakeChunk(page, i, items[i], vecs[i], env)
    {
      rows := rows + [MakeChunk(page, idx, items[idx], vecs[idx], env)];
      inserted := inserted + 1;
    }
    assert rows == Rebuilt(page, content, env);
    c.chunks := c.chunks[page := rows];
  }

  /** `index_pages_to_chunks`: `order` lists the keys of `pages` in the order
      the query returns them; the SQL filter is the first test of the loop. */
  method IndexPagesToChunks(t: Crawler.PageTable, c: ChunkTable, order: seq<string>, env: IndexEnv)
    returns (indexedPages: nat, totalChunks: nat)
    modifies t, c
    ensures IndexState(t.pages, c.chunks, indexedPages, totalChunks)
         == IndexAll(IndexState(old(t.pages), old(c.chunks), 0, 0), order, env)
  {
    indexedPages, totalChunks := 0, 0;
    ghost var s0 := IndexState(t.pages, c.chunks, 0, 0);
    for k := 0 to |order|
      invariant IndexState(t.pages, c.chunks, indexedPages, totalChunks) == IndexAll(s0, order[..k], env)
    {
      assert order[..k + 1][..k] == order[..k];
      var u := order[k];
      if u !in t.pages || !Selected(t.pages[u], env) {
        continue;
      }
      var page := t.pages[u];
      if env.mode == "incremental" && page.indexedContentHash != "" && page.indexedContentHash == page.contentHash {
        continue;
      }
      var count := RebuildPageChunks(c, u, page.content, env);
      t.pages := t.pages[u := page.(indexedContentHash := page.contentHash)];
      indexedPages := indexedPages + 1;
      totalChunks := totalChunks + count;
    }
    assert order[..|order|] == order;
  }
}
