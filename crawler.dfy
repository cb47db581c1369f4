/** crawler/pipeline.py: the breadth-first crawl of one site. URLs are
    canonicalised and filtered, kept in a `seen` set and a FIFO queue, fetched
    at most once each (the `visited` set) up to `max_pages`, and stored in the
    `pages` table. URL parsing, HTTP fetching, readable-text extraction,
    link extraction, hashing and the include/exclude regexes are parameters. */
module Crawler {
  import opened Wrappers
  import opened Text
  import opened Lists

  // ---------------------------------------------------------------------
  // URLs

  /** The six parts `urlparse` splits a URL into. */
  datatype Url = Url(scheme: string, netloc: string, path: string, params: string, query: string, fragment: string)

  /** `urljoin`, `urlparse` and `urlunparse`, and whether `urljoin(base, url)`
      raises: splitting a URL with a malformed network location, such as
      "http://[", raises ValueError. */
  datatype UrlLib = UrlLib(join: (string, string) -> string, parse: string -> Url, unparse: Url -> string,
                           raises: (string, string) -> bool)

  /** The extensions of the static-asset pattern `\.(png|jpe?g|...|webm)$`. */
  const StaticExtensions: seq<string> :=
    ["png", "jpg", "jpeg", "gif", "svg", "ico", "css", "js", "json", "xml", "pdf", "zip", "mp4", "webm"]

  /** The pattern searched in the lower-cased path; `$` also matches before a
      final newline. */
  predicate IsStaticAsset(path: string) {
    exists k :: 0 <= k < |StaticExtensions| &&
      (EndsWith(path, "." + StaticExtensions[k]) || EndsWith(path, "." + StaticExtensions[k] + "\n"))
  }

  predicate SkippedScheme(url: string) {
    StartsWith(url, "mailto:") || StartsWith(url, "tel:") || StartsWith(url, "javascript:")
  }

  /** `_canonicalize_url(url, base_url)`: the absolute URL without its
      fragment, or None for an empty link, an in-page anchor, a mail, phone
      or script link, or a static asset. */
  function Canonicalize(url: string, baseUrl: string, lib: UrlLib): Option<string> {
    if url == [] || StartsWith(url, "#") || SkippedScheme(url) then None
    else
      var parsed := lib.parse(lib.join(baseUrl, url)).(fragment := "");
      if IsStaticAsset(Lower(parsed.path)) then None else Some(lib.unparse(parsed))
  }

  /** Whether `_canonicalize_url(url, base_url)` raises: it gets past the
      early returns and joining the URL raises. */
  predicate CanonicalizeRaises(url: string, baseUrl: string, lib: UrlLib) {
    url != [] && !StartsWith(url, "#") && !SkippedScheme(url) && lib.raises(baseUrl, url)
  }

  /** The rejected forms give None; anything kept is the unparse of a URL
      with an empty fragment and a path that is not a static asset. */
  lemma CanonicalizeSpec(url: string, baseUrl: string, lib: UrlLib)
    ensures url == [] || StartsWith(url, "#") || SkippedScheme(url) ==> Canonicalize(url, baseUrl, lib).None?
    ensures Canonicalize(url, baseUrl, lib).Some? ==>
      var u := lib.parse(lib.join(baseUrl, url)).(fragment := "");
      Canonicalize(url, baseUrl, lib).value == lib.unparse(u) && u.fragment == "" && !IsStaticAsset(Lower(u.path))
    ensures Canonicalize(url, baseUrl, lib).None? && url != [] && !StartsWith(url, "#") && !SkippedScheme(url) ==>
      IsStaticAsset(Lower(lib.parse(lib.join(baseUrl, url)).path))
  {
  }

  /** When parsing reads back the fragment unparse wrote, a canonical URL has
      no fragment. */
  lemma CanonicalHasNoFragment(url: string, baseUrl: string, lib: UrlLib)
    requires forall u :: lib.parse(lib.unparse(u)).fragment == u.fragment
    requires Canonicalize(url, baseUrl, lib).Some?
    ensures lib.parse(Canonicalize(url, baseUrl, lib).value).fragment == ""
  {
    var u := lib.parse(lib.join(baseUrl, url)).(fragment := "");
    assert lib.parse(lib.unparse(u)).fragment == u.fragment;
  }

  /** `_is_allowed_url`: an http(s) URL on the base URL's host that extends
      the base URL as a string. */
  predicate IsAllowedUrl(url: string, baseUrl: string, lib: UrlLib) {
    var u := lib.parse(url);
    (u.scheme == "http" || u.scheme == "https") && u.netloc == lib.parse(baseUrl).netloc && StartsWith(url, baseUrl)
  }

  /** The compiled include and exclude patterns, as their `search` tests. */
  datatype Patterns = Patterns(includes: seq<string -> bool>, excludes: seq<string -> bool>)

  predicate MatchAny(url: string, ps: seq<string -> bool>) {
    exists k :: 0 <= k < |ps| && ps[k](url)
  }

  /** The filter every URL must pass before it is queued. */
  predicate Passes(url: string, baseUrl: string, lib: UrlLib, pats: Patterns) {
    IsAllowedUrl(url, baseUrl, lib)
    && !(pats.includes != [] && !MatchAny(url, pats.includes))
    && !(pats.excludes != [] && MatchAny(url, pats.excludes))
  }

  /** A URL passes exactly when it is allowed, matches some include pattern
      (if there are any) and matches no exclude pattern. */
  lemma PassesIff(url: string, baseUrl: string, lib: UrlLib, pats: Patterns)
    ensures Passes(url, baseUrl, lib, pats) <==>
      && (lib.parse(url).scheme == "http" || lib.parse(url).scheme == "https")
      && lib.parse(url).netloc == lib.parse(baseUrl).netloc
      && StartsWith(url, baseUrl)
      && (pats.includes == [] || exists k :: 0 <= k < |pats.includes| && pats.includes[k](url))
      && (forall k :: 0 <= k < |pats.excludes| ==> !pats.excludes[k](url))
  {
  }

  // ---------------------------------------------------------------------
  // The `pages` table

  /** A row of `pages`, keyed by its url. `last_crawled_at` is an instant. */
  datatype Page = Page(workspaceId: string, kbId: string, sourceId: string, title: string, content: string,
                       contentHash: string, indexedContentHash: string, httpStatus: int, lastCrawledAt: int)

  type Pages = map<string, Page>

  /** A new row: the column defaults under the given owner. */
  function NewPage(workspaceId: string, kbId: string, sourceId: string, now: int): Page {
    Page(workspaceId, kbId, sourceId, "", "", "", "", 0, now)
  }

  /** `_upsert_page`: the row moves to the given owner; title, content and
      hash change only to non-empty values; the status is always written. */
  function UpsertPage(pages: Pages, url: string, workspaceId: string, kbId: string, sourceId: string,
                      title: string, content: string, contentHash: string, httpStatus: int, now: int): Pages
  {
    var p := if url in pages then pages[url].(workspaceId := workspaceId, kbId := kbId, sourceId := sourceId)
             else NewPage(workspaceId, kbId, sourceId, now);
    pages[url := p.(title := if title != "" then title else p.title,
                    content := if content != "" then content else p.content,
                    contentHash := if contentHash != "" then contentHash else p.contentHash,
                    httpStatus := httpStatus, lastCrawledAt := now)]
  }

  /** `_touch_page`: an existing row moves to the owner and takes the status. */
  function TouchPage(pages: Pages, url: string, workspaceId: string, kbId: string, sourceId: string,
                     httpStatus: int, now: int): Pages
  {
    if url !in pages then pages
    else pages[url := pages[url].(workspaceId := workspaceId, kbId := kbId, sourceId := sourceId,
                                  httpStatus := httpStatus, lastCrawledAt := now)]
  }

  /** Upserting keeps the old title, content and hash where the new value is
      empty, always writes the status, and touches no other row. */
  lemma UpsertPageSpec(pages: Pages, url: string, workspaceId: string, kbId: string, sourceId: string,
                       title: string, content: string, contentHash: string, httpStatus: int, now: int)
    ensures var r := UpsertPage(pages, url, workspaceId, kbId, sourceId, title, content, contentHash, httpStatus, now);
      && r.Keys == pages.Keys + {url}
      && (forall u :: u in pages && u != url ==> r[u] == pages[u])
      && r[url].httpStatus == httpStatus
      && r[url].workspaceId == workspaceId && r[url].kbId == kbId && r[url].sourceId == sourceId
      && r[url].title == (if title != "" then title else if url in pages then pages[url].title else "")
      && r[url].content == (if content != "" then content else if url in pages then pages[url].content else "")
      && r[url].contentHash == (if contentHash != "" then contentHash else if url in pages then pages[url].contentHash else "")
      && (url in pages ==> r[url].indexedContentHash == pages[url].indexedContentHash)
  {
  }

  /** Touching changes only the owner, status and crawl time of an existing row. */
  lemma TouchPageSpec(pages: Pages, url: string, workspaceId: string, kbId: string, sourceId: string,
                      httpStatus: int, now: int)
    ensures var r := TouchPage(pages, url, workspaceId, kbId, sourceId, httpStatus, now);
      && r.Keys == pages.Keys
      && (forall u :: u in pages && u != url ==> r[u] == pages[u])
      && (url in pages ==> r[url] == pages[url].(workspaceId := workspaceId, kbId := kbId, sourceId := sourceId,
                                                httpStatus := httpStatus, lastCrawledAt := now))
  {
  }

  /** The `pages` table the crawler writes. */
  class PageTable {
    var pages: Pages

    constructor(initial: Pages)
      ensures pages == initial
    {
      pages := initial;
    }

    method Upsert(url: string, workspaceId: string, kbId: string, sourceId: string,
                  title: string, content: string, contentHash: string, httpStatus: int, now: int)
      modifies this
      ensures pages == UpsertPage(old(pages), url, workspaceId, kbId, sourceId, title, content, contentHash, httpStatus, now)
    {
      var p: Page;
      if url !in pages {
        p := NewPage(workspaceId, kbId, sourceId, now);
      } else {
        p := pages[url].(workspaceId := workspaceId, kbId := kbId, sourceId := sourceId);
      }
      p := p.(title := if title != "" then title else p.title);
      p := p.(content := if content != "" then content else p.content);
      p := p.(contentHash := if contentHash != "" then contentHash else p.contentHash);
      p := p.(httpStatus := httpStatus, lastCrawledAt := now);
      pages := pages[url := p];
    }

    method Touch(url: string, workspaceId: string, kbId: string, sourceId: string, httpStatus: int, now: int)
      modifies this
      ensures pages == TouchPage(old(pages), url, workspaceId, kbId, sourceId, httpStatus, now)
    {
      if url !in pages {
        return;
      }
      pages := pages[url := pages[url].(workspaceId := workspaceId, kbId := kbId, sourceId := sourceId,
                                        httpStatus := httpStatus, lastCrawledAt := now)];
    }
  }

  // ---------------------------------------------------------------------
  // The frontier

  /** What `_fetch_html` gave: a response, or an exception after its retries. */
  datatype Fetch = Response(status: int, html: string) | FetchError

  /** How far the link walk over one page got: the href values of the page's
      `<a>` elements ("" for a missing one) that were handled before an
      exception, all of them when none was raised, and whether one was
      raised (by the HTML parser, or by URL joining or parsing on the href
      that follows `hrefs`). */
  datatype LinkScan = LinkScan(hrefs: seq<string>, raised: bool)

  /** Everything one crawl runs against. */
  datatype CrawlEnv = CrawlEnv(
    baseUrl: string,
    lib: UrlLib,
    pats: Patterns,
    maxPages: int,
    mode: string,
    workspaceId: string,
    kbId: string,
    sourceId: string,
    fetch: string -> Fetch,
    extract: string -> (string, string),
    sha: string -> string,
    links: string -> LinkScan,
    now: int)

  predicate Admissible(env: CrawlEnv, url: string) {
    Passes(url, env.baseUrl, env.lib, env.pats)
  }

  /** The frontier: the seen set and the queue. */
  datatype Frontier = Frontier(seen: set<string>, queue: seq<string>)

  /** One candidate link: queued when canonical, admissible and not yet seen. */
  function Admit(f: Frontier, c: Option<string>, env: CrawlEnv): Frontier {
    if c.None? || !Admissible(env, c.value) || c.value in f.seen then f
    else Frontier(f.seen + {c.value}, f.queue + [c.value])
  }

  /** The seeding loop canonicalises every initial URL outside any `try`, so
      one URL whose canonicalisation raises ends the whole crawl. */
  predicate SeedsRaise(urls: seq<string>, env: CrawlEnv) {
    exists i :: 0 <= i < |urls| && CanonicalizeRaises(urls[i], env.baseUrl, env.lib)
  }

  /** The seeding loop over the initial URLs, when none of them raises. */
  function SeedAll(urls: seq<string>, env: CrawlEnv): Frontier {
    if urls == [] then Frontier({}, [])
    else Admit(SeedAll(urls[..|urls| - 1], env), Canonicalize(urls[|urls| - 1], env.baseUrl, env.lib), env)
  }

  /** `_discover_links` over the hrefs of one page: the links after the seen
      set reached max_pages add nothing. */
  function DiscoverAll(f: Frontier, hrefs: seq<string>, current: string, env: CrawlEnv): Frontier {
    if hrefs == [] then f
    else
      var g := DiscoverAll(f, hrefs[..|hrefs| - 1], current, env);
      if |g.seen| >= env.maxPages then g
      else Admit(g, Canonicalize(hrefs[|hrefs| - 1], current, env.lib), env)
  }

  /** The initial URLs: the sitemap's then the seeds, or the base URL alone. */
  function InitialUrls(sitemapUrls: seq<string>, seedUrls: seq<string>, baseUrl: string): seq<string> {
    if sitemapUrls + seedUrls == [] then [baseUrl] else sitemapUrls + seedUrls
  }

  /** The crawl's local state: frontier, visited URLs in visit order, counters
      and the pages table. */
  datatype Crawl = Crawl(front: Frontier, visited: seq<string>, fetched: nat, succeeded: nat, failed: nat, pages: Pages)

  /** Whether the link walk of a page reaches the href that raises: it does
      unless the seen set was full before the walk or filled up (and the walk
      stopped) among the hrefs handled before it. */
  predicate ScanRaises(f: Frontier, url: string, html: string, env: CrawlEnv) {
    && |f.seen| < env.maxPages
    && env.links(html).raised
    && |DiscoverAll(f, env.links(html).hrefs, url, env).seen| < env.maxPages
  }

  /** A successful fetch ends by discovering links. Links admitted before an
      exception stay queued; the exception counts the page as failed too and
      rewrites its status to 0. */
  function AfterSuccess(st: Crawl, url: string, html: string, env: CrawlEnv): Crawl {
    if |st.front.seen| >= env.maxPages then st
    else
      var front := DiscoverAll(st.front, env.links(html).hrefs, url, env);
      if ScanRaises(st.front, url, html, env) then
        st.(front := front, failed := st.failed + 1,
            pages := UpsertPage(st.pages, url, env.workspaceId, env.kbId, env.sourceId, "", "", "", 0, env.now))
      else st.(front := front)
  }

  /** The stored hash of the page, when a row exists. */
  function ExistingHash(pages: Pages, url: string): string {
    if url in pages then pages[url].contentHash else ""
  }

  /** A fetch that raised or answered with status 400 or more: the row is
      upserted with empty text and that status. */
  function FetchFailed(st: Crawl, url: string, status: int, env: CrawlEnv): Crawl {
    st.(failed := st.failed + 1,
        pages := UpsertPage(st.pages, url, env.workspaceId, env.kbId, env.sourceId, "", "", "", status, env.now))
  }

  /** A page fetched with a status below 400: in incremental mode a row whose
      stored hash equals the new one is only touched, otherwise the row is
      upserted with the extracted title, text and hash; then links are
      discovered. */
  function Fetched(st: Crawl, url: string, status: int, html: string, env: CrawlEnv): Crawl {
    var title := env.extract(html).0;
    var content := env.extract(html).1;
    var h := env.sha(content);
    var existing := ExistingHash(st.pages, url);
    var pages := if env.mode == "incremental" && existing != "" && existing == h
                 then TouchPage(st.pages, url, env.workspaceId, env.kbId, env.sourceId, status, env.now)
                 else UpsertPage(st.pages, url, env.workspaceId, env.kbId, env.sourceId, title, content, h, status, env.now);
    AfterSuccess(st.(succeeded := st.succeeded + 1, pages := pages), url, html, env)
  }

  /** Fetching one URL that was just marked visited. */
  function Record(st: Crawl, url: string, env: CrawlEnv): (r: Crawl)
    ensures r.visited == st.visited && r.fetched == st.fetched
  {
    match env.fetch(url)
    case FetchError => FetchFailed(st, url, 0, env)
    case Response(status, html) =>
      if status >= 400 then FetchFailed(st, url, status, env) else Fetched(st, url, status, html, env)
  }

  /** The state with the head of the queue popped. */
  function Pop(st: Crawl): Crawl
    requires st.front.queue != []
  {
    st.(front := st.front.(queue := st.front.queue[1..]))
  }

  /** One turn of the `while q` loop: pop a URL and, unless already visited,
      fetch it and record the outcome. */
  function Visit(st: Crawl, env: CrawlEnv): (r: Crawl)
    requires st.front.queue != []
    ensures r.visited == st.visited ==> |r.front.queue| < |st.front.queue|
    ensures r.visited == st.visited || r.visited == st.visited + [st.front.queue[0]]
  {
    var url := st.front.queue[0];
    if url in st.visited then Pop(st)
    else Record(Pop(st).(visited := st.visited + [url], fetched := st.fetched + 1), url, env)
  }

  function Budget(st: Crawl, env: CrawlEnv): nat {
    if |st.visited| < env.maxPages then env.maxPages - |st.visited| else 0
  }

  /** The `while q and len(visited) < max_pages` loop. */
  function CrawlFrom(st: Crawl, env: CrawlEnv): Crawl
    decreases Budget(st, env), |st.front.queue|
  {
    if st.front.queue == [] || |st.visited| >= env.maxPages then st
    else CrawlFrom(Visit(st, env), env)
  }

  /** What `crawl_and_store_pages` returns. */
  datatype CrawlResult = CrawlResult(discovered: nat, fetched: nat, succeeded: nat, failed: nat)

  function StartState(sitemapUrls: seq<string>, seedUrls: seq<string>, pages: Pages, env: CrawlEnv): Crawl {
    Crawl(SeedAll(InitialUrls(sitemapUrls, seedUrls, env.baseUrl), env), [], 0, 0, 0, pages)
  }

  /** The result and the pages table after a crawl: None, with the table
      untouched, when seeding raised before anything was fetched. */
  function CrawlOutcome(sitemapUrls: seq<string>, seedUrls: seq<string>, pages: Pages, env: CrawlEnv)
    : (Option<CrawlResult>, Pages)
  {
    if SeedsRaise(InitialUrls(sitemapUrls, seedUrls, env.baseUrl), env) then (None, pages)
    else
      var st0 := StartState(sitemapUrls, seedUrls, pages, env);
      var st := CrawlFrom(st0, env);
      (Some(CrawlResult(Max(|st0.front.seen|, |st.front.seen|), st.fetched, st.succeeded, st.failed)), st.pages)
  }

  // ---------------------------------------------------------------------
  // Invariants of the frontier

  /** Queue and visited list have no repeats, are disjoint, lie in the seen
      set, and every seen URL passed the filters. */
  ghost predicate FrontierOk(f: Frontier, visited: seq<string>, env: CrawlEnv) {
    && (forall i, j :: 0 <= i < j < |f.queue| ==> f.queue[i] != f.queue[j])
    && (forall i, j :: 0 <= i < j < |visited| ==> visited[i] != visited[j])
    && (forall i :: 0 <= i < |f.queue| ==> f.queue[i] in f.seen && f.queue[i] !in visited)
    && (forall i :: 0 <= i < |visited| ==> visited[i] in f.seen)
    && (forall u :: u in f.seen ==> Admissible(env, u))
  }

  lemma AdmitOk(f: Frontier, c: Option<string>, visited: seq<string>, env: CrawlEnv)
    requires FrontierOk(f, visited, env)
    ensures FrontierOk(Admit(f, c, env), visited, env)
    ensures f.seen <= Admit(f, c, env).seen && |Admit(f, c, env).seen| <= |f.seen| + 1
  {
    if !(c.None? || !Admissible(env, c.value) || c.value in f.seen) {
      var g := Admit(f, c, env);
      assert forall i :: 0 <= i < |visited| ==> visited[i] != c.value;
      assert forall i :: 0 <= i < |f.queue| ==> g.queue[i] == f.queue[i];
    }
  }

  lemma {:induction false} SeedAllOk(urls: seq<string>, env: CrawlEnv)
    ensures FrontierOk(SeedAll(urls, env), [], env)
    decreases |urls|
  {
    if urls != [] {
      SeedAllOk(urls[..|urls| - 1], env);
      AdmitOk(SeedAll(urls[..|urls| - 1], env), Canonicalize(urls[|urls| - 1], env.baseUrl, env.lib), [], env);
    }
  }

  /** Discovery keeps the frontier invariant, only adds seen URLs, adds
      nothing once max_pages URLs are seen, and never takes the seen set past
      max_pages when it started below. */
  lemma {:induction false} DiscoverAllOk(f: Frontier, hrefs: seq<string>, current: string, visited: seq<string>, env: CrawlEnv)
    requires FrontierOk(f, visited, env)
    ensures FrontierOk(DiscoverAll(f, hrefs, current, env), visited, env)
    ensures f.seen <= DiscoverAll(f, hrefs, current, env).seen
    ensures |f.seen| >= env.maxPages ==> DiscoverAll(f, hrefs, current, env) == f
    ensures |f.seen| < env.maxPages ==> |DiscoverAll(f, hrefs, current, env).seen| <= env.maxPages
    decreases |hrefs|
  {
    if hrefs != [] {
      var init := hrefs[..|hrefs| - 1];
      DiscoverAllOk(f, init, current, visited, env);
      var g := DiscoverAll(f, init, current, env);
      if |g.seen| < env.maxPages {
        AdmitOk(g, Canonicalize(hrefs[|hrefs| - 1], current, env.lib), visited, env);
      }
    }
  }

  /** The invariant of the whole loop: the frontier invariant, one fetch per
      visited URL, never more than max_pages of them, a page row for each,
      and the seen set bounded by max_pages beyond the seeds. */
  ghost predicate CrawlInv(st: Crawl, env: CrawlEnv, seeds: nat) {
    && FrontierOk(st.front, st.visited, env)
    && st.fetched == |st.visited|
    && |st.visited| <= Max(0, env.maxPages)
    && (forall i :: 0 <= i < |st.visited| ==> st.visited[i] in st.pages)
    && |st.front.seen| <= Max(seeds, env.maxPages)
    && st.fetched <= st.succeeded + st.failed
  }

  /** Link discovery never raises. */
  ghost predicate LinksTotal(env: CrawlEnv) {
    forall html :: !env.links(html).raised
  }

  /** Every fetched page is counted once as a success or a failure. */
  ghost predicate Balanced(st: Crawl) {
    st.succeeded + st.failed == st.fetched
  }

  lemma AfterSuccessOk(st: Crawl, url: string, html: string, env: CrawlEnv, seeds: nat)
    requires FrontierOk(st.front, st.visited, env)
    requires |st.front.seen| <= Max(seeds, env.maxPages)
    ensures var r := AfterSuccess(st, url, html, env);
      && FrontierOk(r.front, r.visited, env) && r.visited == st.visited && r.fetched == st.fetched
      && st.pages.Keys <= r.pages.Keys && st.front.seen <= r.front.seen
      && |r.front.seen| <= Max(seeds, env.maxPages)
      && r.succeeded == st.succeeded && r.failed >= st.failed
      && (LinksTotal(env) ==> r.failed == st.failed)
  {
    if |st.front.seen| < env.maxPages {
      DiscoverAllOk(st.front, env.links(html).hrefs, url, st.visited, env);
    }
  }

  lemma FetchedOk(st: Crawl, url: string, status: int, html: string, env: CrawlEnv, seeds: nat)
    requires FrontierOk(st.front, st.visited, env)
    requires |st.front.seen| <= Max(seeds, env.maxPages)
    ensures var r := Fetched(st, url, status, html, env);
      && FrontierOk(r.front, r.visited, env) && r.visited == st.visited && r.fetched == st.fetched
      && st.pages.Keys + {url} <= r.pages.Keys && st.front.seen <= r.front.seen
      && |r.front.seen| <= Max(seeds, env.maxPages)
      && r.succeeded == st.succeeded + 1 && r.failed >= st.failed
      && (LinksTotal(env) ==> r.failed == st.failed)
  {
    var h := env.sha(env.extract(html).1);
    var existing := ExistingHash(st.pages, url);
    var pages := if env.mode == "incremental" && existing != "" && existing == h
                 then TouchPage(st.pages, url, env.workspaceId, env.kbId, env.sourceId, status, env.now)
                 else UpsertPage(st.pages, url, env.workspaceId, env.kbId, env.sourceId,
                                 env.extract(html).0, env.extract(html).1, h, status, env.now);
    assert st.pages.Keys + {url} <= pages.Keys;
    var m := st.(succeeded := st.succeeded + 1, pages := pages);
    assert Fetched(st, url, status, html, env) == AfterSuccess(m, url, html, env);
    assert m.front == st.front && m.visited == st.visited;
    AfterSuccessOk(m, url, html, env, seeds);
  }

  lemma RecordOk(st: Crawl, url: string, env: CrawlEnv, seeds: nat)
    requires FrontierOk(st.front, st.visited, env)
    requires |st.front.seen| <= Max(seeds, env.maxPages)
    ensures var r := Record(st, url, env);
      && FrontierOk(r.front, r.visited, env) && r.visited == st.visited && r.fetched == st.fetched
      && st.pages.Keys + {url} <= r.pages.Keys && st.front.seen <= r.front.seen
      && |r.front.seen| <= Max(seeds, env.maxPages)
      && r.succeeded + r.failed >= st.succeeded + st.failed + 1
      && (LinksTotal(env) ==> r.succeeded + r.failed == st.succeeded + st.failed + 1)
  {
    match env.fetch(url)
    case FetchError =>
    case Response(status, html) =>
      if status < 400 {
        FetchedOk(st, url, status, html, env, seeds);
      }
  }

  /** Popping the head of the queue and marking it visited keeps the
      frontier invariant. */
  lemma MarkOk(st: Crawl, env: CrawlEnv)
    requires FrontierOk(st.front, st.visited, env) && st.front.queue != []
    ensures var m := Pop(st).(visited := st.visited + [st.front.queue[0]]);
      FrontierOk(m.front, m.visited, env)
  {
    var q := st.front.queue;
    forall i | 0 <= i < |q| - 1
      ensures q[1..][i] != q[0]
    {
      assert q[i + 1] != q[0];
    }
  }

  lemma VisitOk(st: Crawl, env: CrawlEnv, seeds: nat)
    requires CrawlInv(st, env, seeds) && st.front.queue != [] && |st.visited| < env.maxPages
    ensures CrawlInv(Visit(st, env), env, seeds)
    ensures Balanced(st) && LinksTotal(env) ==> Balanced(Visit(st, env))
    ensures st.front.seen <= Visit(st, env).front.seen && st.pages.Keys <= Visit(st, env).pages.Keys
  {
    var url := st.front.queue[0];
    assert url !in st.visited;
    var m := Pop(st).(visited := st.visited + [url], fetched := st.fetched + 1);
    assert Visit(st, env) == Record(m, url, env);
    MarkOk(st, env);
    RecordOk(m, url, env, seeds);
    var r := Record(m, url, env);
    assert forall i :: 0 <= i < |r.visited| ==> r.visited[i] in r.pages by {
      assert forall i :: 0 <= i < |st.visited| ==> st.visited[i] in m.pages;
      assert r.visited == st.visited + [url] && url in r.pages;
    }
  }

  lemma {:induction false} CrawlFromOk(st: Crawl, env: CrawlEnv, seeds: nat)
    requires CrawlInv(st, env, seeds)
    ensures CrawlInv(CrawlFrom(st, env), env, seeds)
    ensures Balanced(st) && LinksTotal(env) ==> Balanced(CrawlFrom(st, env))
    ensures st.front.seen <= CrawlFrom(st, env).front.seen && st.pages.Keys <= CrawlFrom(st, env).pages.Keys
    decreases Budget(st, env), |st.front.queue|
  {
    if !(st.front.queue == [] || |st.visited| >= env.maxPages) {
      VisitOk(st, env, seeds);
      CrawlFromOk(Visit(st, env), env, seeds);
    }
  }

  lemma {:induction false} SubsetCard<T>(a: set<T>, b: set<T>)
    requires a <= b
    ensures |a| <= |b|
    decreases a
  {
    if a != {} {
      var x :| x in a;
      SubsetCard(a - {x}, b - {x});
    }
  }

  /** The crawl fetches each URL at most once and at most max_pages of them,
      `fetched` counts exactly the visited URLs, every visited URL has a page
      row, every seen URL passed the filters, the seen set grows past the
      seeds only up to max_pages, and the counters add up when link parsing
      never raises. The crawl raises, leaving the table untouched, exactly
      when canonicalising an initial URL raises; otherwise its table is the
      loop's. */
  lemma CrawlSpec(sitemapUrls: seq<string>, seedUrls: seq<string>, pages: Pages, env: CrawlEnv)
    ensures var out := CrawlOutcome(sitemapUrls, seedUrls, pages, env);
      && (out.0.None? <==> SeedsRaise(InitialUrls(sitemapUrls, seedUrls, env.baseUrl), env))
      && (out.0.None? ==> out.1 == pages)
      && (out.0.Some? ==> out.1 == CrawlFrom(StartState(sitemapUrls, seedUrls, pages, env), env).pages)
    ensures var st0 := StartState(sitemapUrls, seedUrls, pages, env);
      var st := CrawlFrom(st0, env);
      && (forall i, j :: 0 <= i < j < |st.visited| ==> st.visited[i] != st.visited[j])
      && st.fetched == |st.visited| <= Max(0, env.maxPages)
      && (forall i :: 0 <= i < |st.visited| ==> st.visited[i] in st.front.seen && st.visited[i] in st.pages)
      && (forall u :: u in st.front.seen ==> Passes(u, env.baseUrl, env.lib, env.pats))
      && pages.Keys <= st.pages.Keys
      && |st.front.seen| <= Max(|st0.front.seen|, env.maxPages)
      && (LinksTotal(env) ==> st.succeeded + st.failed == st.fetched)
  {
    var st0 := StartState(sitemapUrls, seedUrls, pages, env);
    SeedAllOk(InitialUrls(sitemapUrls, seedUrls, env.baseUrl), env);
    CrawlFromOk(st0, env, |st0.front.seen|);
  }

  /** Unless seeding raised, the result reports the final seen set's size as
      discovered (it only grows), and the three counters. */
  lemma CrawlResultSpec(sitemapUrls: seq<string>, seedUrls: seq<string>, pages: Pages, env: CrawlEnv)
    ensures var st0 := StartState(sitemapUrls, seedUrls, pages, env);
      var st := CrawlFrom(st0, env);
      CrawlOutcome(sitemapUrls, seedUrls, pages, env).0
        == if SeedsRaise(InitialUrls(sitemapUrls, seedUrls, env.baseUrl), env) then None
           else Some(CrawlResult(|st.front.seen|, st.fetched, st.succeeded, st.failed))
  {
    var st0 := StartState(sitemapUrls, seedUrls, pages, env);
    SeedAllOk(InitialUrls(sitemapUrls, seedUrls, env.baseUrl), env);
    CrawlFromOk(st0, env, |st0.front.seen|);
    SubsetCard(st0.front.seen, CrawlFrom(st0, env).front.seen);
  }

  /** A sitemap or seed URL whose canonicalisation raises ends the crawl
      before anything is fetched, whatever the other URLs are. */
  lemma MalformedInitialUrlAborts(sitemapUrls: seq<string>, seedUrls: seq<string>, pages: Pages, env: CrawlEnv, i: nat)
    requires i < |sitemapUrls + seedUrls|
    requires CanonicalizeRaises((sitemapUrls + seedUrls)[i], env.baseUrl, env.lib)
    ensures CrawlOutcome(sitemapUrls, seedUrls, pages, env) == (None, pages)
  {
    assert InitialUrls(sitemapUrls, seedUrls, env.baseUrl) == sitemapUrls + seedUrls;
  }

  /** In incremental mode a page whose stored hash equals the new content
      hash is only touched, and counts as a success. */
  lemma IncrementalUnchanged(st: Crawl, env: CrawlEnv, status: int, html: string)
    requires st.front.queue != [] && st.front.queue[0] !in st.visited
    requires env.fetch(st.front.queue[0]) == Response(status, html) && status < 400
    requires env.mode == "incremental"
    requires var url := st.front.queue[0];
      url in st.pages && st.pages[url].contentHash != "" && st.pages[url].contentHash == env.sha(env.extract(html).1)
    ensures var url := st.front.queue[0];
      var r := Visit(st, env);
      r.succeeded == st.succeeded + 1 && r.fetched == st.fetched + 1 &&
      (forall u :: u in st.pages && u != url ==> u in r.pages && r.pages[u] == st.pages[u]) &&
      url in r.pages &&
      r.pages[url].contentHash == st.pages[url].contentHash && r.pages[url].title == st.pages[url].title &&
      r.pages[url].content == st.pages[url].content && r.pages[url].httpStatus == (if ScanRaises(Pop(st).front, url, html, env) then 0 else status)
  {
  }

  // ---------------------------------------------------------------------
  // The imperative crawl

  /** `_discover_links`: adds the new admissible links of one page to the
      frontier, stopping once max_pages URLs are seen. */
  method DiscoverLinks(hrefs: seq<string>, current: string, env: CrawlEnv, seen0: set<string>, q0: seq<string>)
    returns (seen: set<string>, q: seq<string>)
    ensures Frontier(seen, q) == DiscoverAll(Frontier(seen0, q0), hrefs, current, env)
  {
    seen, q := seen0, q0;
    if |seen| >= env.maxPages {
      assert DiscoverAll(Frontier(seen0, q0), hrefs[..0], current, env) == Frontier(seen0, q0);
      DiscoverRest(Frontier(seen0, q0), hrefs, 0, current, env);
      return;
    }
    var k := 0;
    while k < |hrefs|
      invariant 0 <= k <= |hrefs|
      invariant Frontier(seen, q) == DiscoverAll(Frontier(seen0, q0), hrefs[..k], current, env)
      invariant |seen| < env.maxPages
    {
      var url := Canonicalize(hrefs[k], current, env.lib);
      DiscoverStep(Frontier(seen0, q0), hrefs, k, current, env);
      ghost var before := Frontier(seen, q);
      k := k + 1;
      if url.None? || !Admissible(env, url.value) || url.value in seen {
        assert Admit(before, url, env) == before;
        continue;
      }
      seen := seen + {url.value};
      q := q + [url.value];
      assert Frontier(seen, q) == Admit(before, url, env);
      if |seen| >= env.maxPages {
        DiscoverRest(Frontier(seen0, q0), hrefs, k, current, env);
        return;
      }
    }
    assert hrefs[..k] == hrefs;
  }

  /** While the seen set has room, one more link is one more Admit. */
  lemma DiscoverStep(f: Frontier, hrefs: seq<string>, k: nat, current: string, env: CrawlEnv)
    requires k < |hrefs| && |DiscoverAll(f, hrefs[..k], current, env).seen| < env.maxPages
    ensures DiscoverAll(f, hrefs[..k + 1], current, env)
         == Admit(DiscoverAll(f, hrefs[..k], current, env), Canonicalize(hrefs[k], current, env.lib), env)
  {
    assert hrefs[..k + 1][..k] == hrefs[..k];
  }

  lemma DiscoverRest(f: Frontier, hrefs: seq<string>, k: nat, current: string, env: CrawlEnv)
    requires k <= |hrefs| && |DiscoverAll(f, hrefs[..k], current, env).seen| >= env.maxPages
    ensures DiscoverAll(f, hrefs, current, env) == DiscoverAll(f, hrefs[..k], current, env)
  {
    DiscoverSaturated(f, hrefs[..k], hrefs[k..], current, env);
    assert hrefs[..k] + hrefs[k..] == hrefs;
  }

  /** Once the seen set is full, later links change nothing. */
  lemma {:induction false} DiscoverSaturated(f: Frontier, prefix: seq<string>, rest: seq<string>, current: string, env: CrawlEnv)
    requires |DiscoverAll(f, prefix, current, env).seen| >= env.maxPages
    ensures DiscoverAll(f, prefix + rest, current, env) == DiscoverAll(f, prefix, current, env)
    decreases |rest|
  {
    if rest != [] {
      var init := rest[..|rest| - 1];
      DiscoverSaturated(f, prefix, init, current, env);
      assert (prefix + rest)[..|prefix + rest| - 1] == prefix + init;
    } else {
      assert prefix + rest == prefix;
    }
  }

  lemma CrawlFromStep(st: Crawl, env: CrawlEnv)
    requires st.front.queue != [] && |st.visited| < env.maxPages
    ensures CrawlFrom(st, env) == CrawlFrom(Visit(st, env), env)
  {
  }

  lemma VisitUnvisited(st: Crawl, env: CrawlEnv)
    requires st.front.queue != [] && st.front.queue[0] !in st.visited
    ensures Visit(st, env) == Record(Pop(st).(visited := st.visited + [st.front.queue[0]], fetched := st.fetched + 1),
                                     st.front.queue[0], env)
  {
  }

  /** The seeding loop: canonicalise each initial URL and queue it once;
      `raised` when canonicalising one of them raised. */
  method SeedFrontier(initial: seq<string>, env: CrawlEnv) returns (seen: set<string>, q: seq<string>, raised: bool)
    ensures raised <==> SeedsRaise(initial, env)
    ensures !raised ==> Frontier(seen, q) == SeedAll(initial, env)
  {
    seen, q, raised := {}, [], false;
    for k := 0 to |initial|
      invariant !SeedsRaise(initial[..k], env)
      invariant Frontier(seen, q) == SeedAll(initial[..k], env)
    {
      assert initial[..k + 1][..k] == initial[..k];
      if CanonicalizeRaises(initial[k], env.baseUrl, env.lib) {
        raised := true;
        return;
      }
      var url := Canonicalize(initial[k], env.baseUrl, env.lib);
      if url.None? || !Admissible(env, url.value) || url.value in seen {
        continue;
      }
      seen := seen + {url.value};
      q := q + [url.value];
    }
    assert initial[..|initial|] == initial;
  }

  /** The body of the crawl loop for a URL just marked visited: fetch it,
      store the row, count the outcome and discover its links. */
  method FetchAndStore(t: PageTable, env: CrawlEnv, url: string, seen0: set<string>, q0: seq<string>,
                       visited: seq<string>, fetched: nat, succeeded0: nat, failed0: nat)
    returns (seen: set<string>, q: seq<string>, succeeded: nat, failed: nat)
    modifies t
    ensures Crawl(Frontier(seen, q), visited, fetched, succeeded, failed, t.pages)
         == Record(Crawl(Frontier(seen0, q0), visited, fetched, succeeded0, failed0, old(t.pages)), url, env)
  {
    seen, q, succeeded, failed := seen0, q0, succeeded0, failed0;
    ghost var m := Crawl(Frontier(seen0, q0), visited, fetched, succeeded0, failed0, t.pages);
    var response := env.fetch(url);
    if response.FetchError? || response.status >= 400 {
      var status := if response.FetchError? then 0 else response.status;
      failed := failed + 1;
      t.Upsert(url, env.workspaceId, env.kbId, env.sourceId, "", "", "", status, env.now);
      assert Crawl(Frontier(seen, q), visited, fetched, succeeded, failed, t.pages) == FetchFailed(m, url, status, env);
      return;
    }
    var html := response.html;
    var status := response.status;
    var title := env.extract(html).0;
    var content := env.extract(html).1;
    var contentHash := env.sha(content);
    var existing := ExistingHash(t.pages, url);
    if env.mode == "incremental" && existing != "" && existing == contentHash {
      t.Touch(url, env.workspaceId, env.kbId, env.sourceId, status, env.now);
    } else {
      t.Upsert(url, env.workspaceId, env.kbId, env.sourceId, title, content, contentHash, status, env.now);
    }
    succeeded := succeeded + 1;
    ghost var stored := Crawl(Frontier(seen, q), visited, fetched, succeeded, failed, t.pages);
    assert Record(m, url, env) == AfterSuccess(stored, url, html, env);
    if |seen| < env.maxPages {
      var scan := env.links(html);
      seen, q := DiscoverLinks(scan.hrefs, url, env, seen, q);
      if scan.raised && |seen| < env.maxPages {
        failed := failed + 1;
        t.Upsert(url, env.workspaceId, env.kbId, env.sourceId, "", "", "", 0, env.now);
      }
    }
  }

  /** `crawl_and_store_pages`: seeds the frontier, then visits URLs until the
      queue is empty or max_pages URLs were visited. None stands for the
      ValueError that seeding lets escape. */
  method CrawlAndStorePages(t: PageTable, env: CrawlEnv, sitemapUrls: seq<string>, seedUrls: seq<string>)
    returns (result: Option<CrawlResult>)
    modifies t
    ensures (result, t.pages) == CrawlOutcome(sitemapUrls, seedUrls, old(t.pages), env)
  {
    var initial := sitemapUrls + seedUrls;
    if initial == [] {
      initial := [env.baseUrl];
    }
    assert initial == InitialUrls(sitemapUrls, seedUrls, env.baseUrl);
    var seen, q, raised := SeedFrontier(initial, env);
    if raised {
      return None;
    }
    var discovered := |seen|;
    var visited: seq<string> := [];
    var fetched, succeeded, failed := 0, 0, 0;
    ghost var st0 := Crawl(Frontier(seen, q), visited, fetched, succeeded, failed, t.pages);
    assert st0 == StartState(sitemapUrls, seedUrls, old(t.pages), env);
    while q != [] && |visited| < env.maxPages
      invariant CrawlFrom(Crawl(Frontier(seen, q), visited, fetched, succeeded, failed, t.pages), env) == CrawlFrom(st0, env)
      decreases if |visited| < env.maxPages then env.maxPages - |visited| else 0, |q|
    {
      ghost var before := Crawl(Frontier(seen, q), visited, fetched, succeeded, failed, t.pages);
      CrawlFromStep(before, env);
      var url := q[0];
      q := q[1..];
      if url in visited {
        assert Visit(before, env) == Crawl(Frontier(seen, q), visited, fetched, succeeded, failed, t.pages);
        continue;
      }
      visited := visited + [url];
      fetched := fetched + 1;
      VisitUnvisited(before, env);
      assert Pop(before).(visited := visited, fetched := fetched)
          == Crawl(Frontier(seen, q), visited, fetched, succeeded, failed, t.pages);
      seen, q, succeeded, failed := FetchAndStore(t, env, url, seen, q, visited, fetched, succeeded, failed);
      assert Visit(before, env) == Crawl(Frontier(seen, q), visited, fetched, succeeded, failed, t.pages);
    }
    CrawlDone(Crawl(Frontier(seen, q), visited, fetched, succeeded, failed, t.pages), env);
    result := Some(CrawlResult(Max(discovered, |seen|), fetched, succeeded, failed));
  }

  lemma CrawlDone(st: Crawl, env: CrawlEnv)
    requires st.front.queue == [] || |st.visited| >= env.maxPages
    ensures CrawlFrom(st, env) == st
  {
  }
}
