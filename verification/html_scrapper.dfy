/** The HTML scraper's caching logic: conditional request headers built from the
    stored validators, the decision to reuse stored content, and the update of the
    stored validators from a fresh response. Fetching, hashing and the HTML to
    markdown conversion are parameters. */
module HtmlScrapper {
  import opened Wrappers
  import opened Strings

  /** The stored HTTP validators of a page. */
  datatype CacheHeaders = CacheHeaders(etag: Option<string>, lastModified: Option<string>)

  /** A stored page: its URL, its content, its validators and the hash of its HTML. */
  datatype UrlsContent = UrlsContent(
    url: string,
    content: Option<string>,
    cacheHeaders: Option<CacheHeaders>,
    contentHash: Option<string>)

  /** Response headers, looked up without regard to case: keys are stored lower-cased. */
  type ResponseHeaders = map<string, string>

  function Header(h: ResponseHeaders, name: string): (r: Option<string>)
    ensures r.Some? <==> Lower(name) in h
  {
    if Lower(name) in h then Some(h[Lower(name)]) else None
  }

  /** Python truthiness of an optional string: present and not empty. */
  predicate Truthy(s: Option<string>) {
    s.Some? && s.value != ""
  }

  /** One fetched response. */
  datatype Response = Response(raw: string, headers: ResponseHeaders, status: int)

  /** The outside world of a scrape: the HTTP GET (given the headers actually sent,
      `None` for none), the SHA-256 hex digest, and the HTML to markdown conversion
      of the page or of the element with the given fragment id ("" for the page). */
  datatype Web = Web(
    fetch: (string, Option<map<string, string>>) -> Response,
    hash: string -> string,
    markdown: (string, string) -> string)

  const UserAgent: map<string, string> := map["User-Agent" := "Mozilla/5.0"]

  /** `get_conditional_headers`: If-None-Match from a stored ETag and
      If-Modified-Since from a stored Last-Modified, each only when present and not
      empty. */
  function ConditionalHeaders(existing: UrlsContent): (r: map<string, string>)
    ensures r.Keys <= {"If-None-Match", "If-Modified-Since"}
    ensures "If-None-Match" in r <==> existing.cacheHeaders.Some? && Truthy(existing.cacheHeaders.value.etag)
    ensures "If-None-Match" in r ==> r["If-None-Match"] == existing.cacheHeaders.value.etag.value
    ensures "If-Modified-Since" in r <==> existing.cacheHeaders.Some? && Truthy(existing.cacheHeaders.value.lastModified)
    ensures "If-Modified-Since" in r ==> r["If-Modified-Since"] == existing.cacheHeaders.value.lastModified.value
  {
    match existing.cacheHeaders
    case None => map[]
    case Some(ch) =>
      var withEtag := if Truthy(ch.etag) then map["If-None-Match" := ch.etag.value] else map[];
      if Truthy(ch.lastModified) then withEtag["If-Modified-Since" := ch.lastModified.value] else withEtag
  }

  /** `should_use_cached_content`: reuse on 304, on 200 exactly when the stored hash
      is the new page's hash, never otherwise. */
  predicate ShouldUseCachedContent(status: int, existing: UrlsContent, contentHash: string) {
    status == 304 || (status == 200 && existing.contentHash == Some(contentHash))
  }

  /** `update_cache_metadata`: the hash is always replaced; the validators are
      replaced only when Cache-Control is present without "no-store" and at least one
      validator came back. */
  function UpdateCacheMetadata(existing: UrlsContent, h: ResponseHeaders, contentHash: string): (r: UrlsContent)
    ensures r.contentHash == Some(contentHash)
    ensures r.url == existing.url && r.content == existing.content
    ensures var cc := Lower(Header(h, "Cache-Control").GetOr(""));
            var keep := cc != "" && !Contains(cc, "no-store");
            var etag, lm := Header(h, "ETag"), Header(h, "Last-Modified");
            if keep && (Truthy(etag) || Truthy(lm))
            then r.cacheHeaders == Some(CacheHeaders(if Truthy(etag) then etag else None,
                                                     if Truthy(lm) then lm else None))
            else r.cacheHeaders == existing.cacheHeaders
  {
    var etag, lm := Header(h, "ETag"), Header(h, "Last-Modified");
    var cc := Lower(Header(h, "Cache-Control").GetOr(""));
    var headers :=
      if cc != "" && !Contains(cc, "no-store") && (Truthy(etag) || Truthy(lm))
      then Some(CacheHeaders(if Truthy(etag) then etag else None, if Truthy(lm) then lm else None))
      else existing.cacheHeaders;
    existing.(cacheHeaders := headers, contentHash := Some(contentHash))
  }

  /** `fetch_html` as written: `headers.update(...)` adds the User-Agent to the
      caller's dictionary in place and evaluates to `None`, and that `None` is what
      goes out as the request headers. Returns what is sent and the dictionary after
      the update. */
  function FetchHeadersAsWritten(headers: Option<map<string, string>>): (r: (Option<map<string, string>>, map<string, string>))
    ensures r.0.None?
    ensures "User-Agent" in r.1
  {
    (None, headers.GetOr(map[]) + UserAgent)
  }

  /** The headers `fetch_html` evidently means to send: the caller's, with the
      User-Agent added. */
  function FetchHeaders(headers: Option<map<string, string>>): (r: Option<map<string, string>>)
    ensures r.Some? && "User-Agent" in r.value && r.value["User-Agent"] == "Mozilla/5.0"
    ensures headers.Some? ==> forall k :: k in headers.value && k != "User-Agent" ==>
              k in r.value && r.value[k] == headers.value[k]
  {
    Some(headers.GetOr(map[]) + UserAgent)
  }

  /** As written, a page cached with an ETag is fetched without If-None-Match, so
      the server cannot answer 304. */
  lemma ConditionalHeadersLost(existing: UrlsContent, etag: string)
    requires existing.cacheHeaders == Some(CacheHeaders(Some(etag), None)) && etag != ""
    ensures "If-None-Match" in ConditionalHeaders(existing)
    ensures FetchHeadersAsWritten(Some(ConditionalHeaders(existing))).0.None?
  {
  }

  /** Corrected, every conditional header goes out with its stored value. */
  lemma ConditionalHeadersSent(existing: UrlsContent)
    ensures var sent := FetchHeaders(Some(ConditionalHeaders(existing))).value;
            forall k :: k in ConditionalHeaders(existing) ==> k in sent && sent[k] == ConditionalHeaders(existing)[k]
  {
  }

  /** A URL split at its first "#": the URL to fetch and the fragment id. */
  function SplitFragment(url: string): (r: (string, string))
    ensures '#' !in url ==> r == (url, "")
    ensures '#' in url ==> r.0 + "#" + r.1 == url && '#' !in r.0
  {
    var parts := SplitOnce(url, '#');
    if |parts| == 1 then (url, "") else (parts[0], parts[1])
  }

  /** What a scrape returns: the content, whether the stored copy was reused, and the
      stored page as the scrape left it. */
  datatype Scrape = Scrape(content: Option<string>, matched: bool, stored: Option<UrlsContent>)

  /** The headers `scrape_markdown_from_url` hands to `fetch_html`: the conditional
      ones for a cached scrape of a stored page, none otherwise. */
  function RequestedHeaders(cached: bool, existing: Option<UrlsContent>): map<string, string> {
    if cached && existing.Some? then ConditionalHeaders(existing.value) else map[]
  }

  /** The body of `scrape_markdown_from_url` once the headers that actually go out
      are fixed. */
  function ScrapeSending(url: string, cached: bool, existing: Option<UrlsContent>, web: Web,
                         sent: Option<map<string, string>>): Result<Scrape>
  {
    if cached && existing.None? then Err("'NoneType' object has no attribute 'cache_headers'")
    else
      var (base, fragment) := SplitFragment(url);
      var resp := web.fetch(base, sent);
      var contentHash := web.hash(resp.raw);
      if cached && ShouldUseCachedContent(resp.status, existing.value, contentHash) then
        Ok(Scrape(existing.value.content, true, existing))
      else
        var stored := if cached && resp.status == 200
                      then Some(UpdateCacheMetadata(existing.value, resp.headers, contentHash))
                      else existing;
        Ok(Scrape(Some(web.markdown(resp.raw, fragment)), false, stored))
  }

  /** `scrape_markdown_from_url` as written: the page without its fragment is fetched
      with no request headers at all (the conditional headers are lost in
      `fetch_html`); the stored content is reused when the cache rule says so, the
      stored validators are refreshed on any other 200, and otherwise the page (or its
      fragment) is converted to markdown. Asking for a cached scrape without a stored
      page fails. */
  function ScrapeMarkdown(url: string, cached: bool, existing: Option<UrlsContent>, web: Web): (r: Result<Scrape>)
    ensures r.Err? <==> cached && existing.None?
    ensures r.Ok? && cached ==> r.value.stored.Some?
  {
    ScrapeSending(url, cached, existing, web, FetchHeadersAsWritten(Some(RequestedHeaders(cached, existing))).0)
  }

  /** What a scrape as written answers, in terms of the one unconditional fetch it makes. */
  lemma ScrapeMarkdownSpec(url: string, cached: bool, existing: Option<UrlsContent>, web: Web)
    ensures var r := ScrapeMarkdown(url, cached, existing, web);
      r.Ok? ==>
      var (base, fragment) := SplitFragment(url);
      var resp := web.fetch(base, None);
      && (r.value.matched <==> cached && ShouldUseCachedContent(resp.status, existing.value, web.hash(resp.raw)))
      && (r.value.matched ==> r.value.content == existing.value.content && r.value.stored == existing)
      && (!r.value.matched ==> r.value.content == Some(web.markdown(resp.raw, fragment)))
      && (!r.value.matched && cached && resp.status == 200 ==>
            r.value.stored == Some(UpdateCacheMetadata(existing.value, resp.headers, web.hash(resp.raw))))
      && (!r.value.matched && !(cached && resp.status == 200) ==> r.value.stored == existing)
  {
  }

  /** `scrape_markdown_from_url` with the request headers `fetch_html` evidently means to
      send: the conditional ones and the User-Agent. */
  function ScrapeMarkdownIntended(url: string, cached: bool, existing: Option<UrlsContent>, web: Web): (r: Result<Scrape>)
    ensures r.Err? <==> cached && existing.None?
    ensures r.Ok? && cached ==> r.value.stored.Some?
  {
    ScrapeSending(url, cached, existing, web, FetchHeaders(Some(RequestedHeaders(cached, existing))))
  }

  /** What the intended scrape answers, in terms of the conditional fetch it makes. */
  lemma ScrapeMarkdownIntendedSpec(url: string, cached: bool, existing: Option<UrlsContent>, web: Web)
    ensures var r := ScrapeMarkdownIntended(url, cached, existing, web);
      r.Ok? ==>
      var (base, fragment) := SplitFragment(url);
      var resp := web.fetch(base, FetchHeaders(Some(RequestedHeaders(cached, existing))));
      && (r.value.matched <==> cached && ShouldUseCachedContent(resp.status, existing.value, web.hash(resp.raw)))
      && (r.value.matched ==> r.value.content == existing.value.content && r.value.stored == existing)
      && (!r.value.matched ==> r.value.content == Some(web.markdown(resp.raw, fragment)))
      && (!r.value.matched && cached && resp.status == 200 ==>
            r.value.stored == Some(UpdateCacheMetadata(existing.value, resp.headers, web.hash(resp.raw))))
      && (!r.value.matched && !(cached && resp.status == 200) ==> r.value.stored == existing)
  {
  }

  /** A plain scrape never reuses anything and leaves the stored page alone. */
  lemma PlainScrape(url: string, existing: Option<UrlsContent>, web: Web)
    ensures ScrapeMarkdown(url, false, existing, web).Ok?
    ensures !ScrapeMarkdown(url, false, existing, web).value.matched
    ensures ScrapeMarkdown(url, false, existing, web).value.stored == existing
  {
  }

  /** The two differ only in what reaches the server: a server that answers 304 to a
      request carrying the stored ETag and 200 with a changed page otherwise makes the
      intended scrape reuse the stored copy, while the scrape as written converts the
      page again. */
  lemma RevalidationLost(url: string, existing: UrlsContent, web: Web)
    requires var (base, _) := SplitFragment(url);
             && web.fetch(base, FetchHeaders(Some(ConditionalHeaders(existing)))).status == 304
             && web.fetch(base, None).status == 200
             && existing.contentHash != Some(web.hash(web.fetch(base, None).raw))
    ensures ScrapeMarkdownIntended(url, true, Some(existing), web).value.matched
    ensures !ScrapeMarkdown(url, true, Some(existing), web).value.matched
  {
  }

  /** After a 200 whose page changed, the stored hash is the new page's, so fetching
      the same page again with 200 reuses the copy. */
  lemma RefreshThenReuse(url: string, existing: UrlsContent, web: Web)
    requires var (base, _) := SplitFragment(url);
             web.fetch(base, None).status == 200
    ensures var s := ScrapeMarkdown(url, true, Some(existing), web).value;
            s.stored.Some? &&
            var (base, _) := SplitFragment(url);
            ShouldUseCachedContent(200, s.stored.value, web.hash(web.fetch(base, None).raw))
  {
  }

  /** The validators stored from a cacheable response are the ones the next request
      sends back. */
  lemma ValidatorsRoundTrip(existing: UrlsContent, h: ResponseHeaders, contentHash: string)
    requires var cc := Lower(Header(h, "Cache-Control").GetOr(""));
             cc != "" && !Contains(cc, "no-store")
    requires Truthy(Header(h, "ETag"))
    ensures var next := ConditionalHeaders(UpdateCacheMetadata(existing, h, contentHash));
            "If-None-Match" in next && next["If-None-Match"] == Header(h, "ETag").value
  {
  }
}
