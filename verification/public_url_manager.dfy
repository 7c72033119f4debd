/** The public URL manager: each URL is answered from the store, scraped
    conditionally against its stored copy, or scraped plainly; scrapes are gathered
    in batches and their results written back over the stored pages. The store
    queries and writes are inputs and outputs; the batch gathering is modelled
    in task order. */
module PublicUrlManager {
  import opened Wrappers
  import opened Seqs
  import opened HtmlScrapper

  /** A pending scrape: its URL and whether it is conditional on the stored copy. */
  datatype Task = Task(url: string, cached: bool)

  /** The stored pages with non-empty content. */
  predicate HasContent(store: map<string, UrlsContent>, url: string) {
    url in store && Truthy(store[url].content)
  }

  /** One gathered scrape: the result page for its URL, the store afterwards, and
      whether the stored page changed (stored, and the copy was not reused). */
  datatype Gathered = Gathered(page: UrlsContent, store: map<string, UrlsContent>, changed: bool)

  /** The scrape a task runs: conditional on the stored page when the task is cached. */
  function TaskScrape(t: Task, store: map<string, UrlsContent>, web: Web): (s: Scrape)
    requires t.cached ==> t.url in store
    ensures t.cached ==> s.stored.Some?
  {
    ScrapeMarkdown(t.url, t.cached, if t.cached then Some(store[t.url]) else None, web).value
  }

  /** One task of `_gather_batch`: the result carries the scraped content; a stored URL
      keeps its stored page (as the scrape left it, with refreshed validators) and is
      written back unless the stored copy was reused; a new URL gets a new page. */
  function GatherOne(t: Task, store: map<string, UrlsContent>, web: Web): (g: Gathered)
    requires t.cached ==> t.url in store
    ensures g.store.Keys == store.Keys
    ensures forall k :: k in store && k != t.url ==> g.store[k] == store[k]
    ensures t.url in store ==> g.store[t.url] == g.page
  {
    var s := TaskScrape(t, store, web);
    if t.url in store then
      var base := if t.cached then s.stored.value else store[t.url];
      var page := base.(content := s.content);
      Gathered(page, store[t.url := page], !s.matched)
    else
      Gathered(UrlsContent(t.url, s.content, None, None), store, false)
  }

  /** The result of a task carries the scraped content; a stored URL's page is the
      stored page as a conditional scrape left it (validators refreshed) or as stored
      for a plain scrape; a new URL's page is fresh; the stored page is written back
      exactly when it exists and its copy was not reused. */
  lemma GatherOneSpec(t: Task, store: map<string, UrlsContent>, web: Web)
    requires t.cached ==> t.url in store
    ensures var g, s := GatherOne(t, store, web), TaskScrape(t, store, web);
            && g.page.content == s.content
            && (t.url in store && t.cached ==> g.page == s.stored.value.(content := s.content))
            && (t.url in store && !t.cached ==> g.page == store[t.url].(content := s.content))
            && (t.url !in store ==> g.page == UrlsContent(t.url, s.content, None, None))
            && (g.changed <==> t.url in store && !s.matched)
  {
  }

  /** A conditional scrape whose stored copy is reused leaves the stored page exactly
      as it was, and it is not written back. */
  lemma GatherReused(t: Task, store: map<string, UrlsContent>, web: Web)
    requires t.cached && t.url in store && TaskScrape(t, store, web).matched
    ensures GatherOne(t, store, web).page == store[t.url]
    ensures !GatherOne(t, store, web).changed
  {
  }

  /** A task looks only at its own URL's stored page. */
  lemma GatherOneLocal(t: Task, s1: map<string, UrlsContent>, s2: map<string, UrlsContent>, web: Web)
    requires t.cached ==> t.url in s1
    requires t.url in s1 <==> t.url in s2
    requires t.url in s1 ==> s1[t.url] == s2[t.url]
    ensures GatherOne(t, s1, web).page == GatherOne(t, s2, web).page
    ensures GatherOne(t, s1, web).changed == GatherOne(t, s2, web).changed
  {
  }

  /** The URLs of some tasks. */
  function Urls(tasks: seq<Task>): (r: seq<string>)
    ensures |r| == |tasks| && forall i :: 0 <= i < |r| ==> r[i] == tasks[i].url
  {
    Map((t: Task) => t.url, tasks)
  }

  /** `_gather_batch`: the tasks in order; the results hold one page per URL and the
      changed stored pages are listed. */
  function GatherBatch(tasks: seq<Task>, store: map<string, UrlsContent>, web: Web): (r: (map<string, UrlsContent>, map<string, UrlsContent>, seq<string>))
    requires forall i :: 0 <= i < |tasks| && tasks[i].cached ==> tasks[i].url in store
    ensures r.1.Keys == store.Keys
    decreases |tasks|
  {
    if |tasks| == 0 then (map[], store, [])
    else
      var g := GatherOne(tasks[0], store, web);
      var (results, after, updated) := GatherBatch(tasks[1..], g.store, web);
      (map[tasks[0].url := g.page] + results, after, (if g.changed then [tasks[0].url] else []) + updated)
  }

  /** The batch answers exactly its URLs, touches the store only at them, and lists
      only stored URLs among them as changed. */
  lemma {:induction false} GatherBatchSpec(tasks: seq<Task>, store: map<string, UrlsContent>, web: Web)
    requires forall i :: 0 <= i < |tasks| && tasks[i].cached ==> tasks[i].url in store
    ensures var r := GatherBatch(tasks, store, web);
            (forall u :: u in r.0 <==> u in Urls(tasks)) &&
            (forall k :: k in store && k !in Urls(tasks) ==> r.1[k] == store[k]) &&
            (forall u :: u in r.2 ==> u in store && u in Urls(tasks))
    decreases |tasks|
  {
    if |tasks| > 0 {
      var g := GatherOne(tasks[0], store, web);
      GatherBatchSpec(tasks[1..], g.store, web);
      assert Urls(tasks) == [tasks[0].url] + Urls(tasks[1..]);
    }
  }

  /** Some task of `tasks` for `u` writes its stored page back. */
  predicate ChangedIn(tasks: seq<Task>, store: map<string, UrlsContent>, web: Web, u: string)
    requires forall i :: 0 <= i < |tasks| && tasks[i].cached ==> tasks[i].url in store
  {
    FlaggedIn(tasks, ChangeFlags(tasks, store, web), u)
  }

  /** Whether each task writes its stored page back. */
  function ChangeFlags(tasks: seq<Task>, store: map<string, UrlsContent>, web: Web): (f: seq<bool>)
    requires forall i :: 0 <= i < |tasks| && tasks[i].cached ==> tasks[i].url in store
    ensures |f| == |tasks|
    decreases |tasks|
  {
    if |tasks| == 0 then [] else [Changes(tasks[0], store, web)] + ChangeFlags(tasks[1..], store, web)
  }

  /** Each task's flag says whether it writes its stored page back. */
  lemma {:induction false} FlagsAt(tasks: seq<Task>, store: map<string, UrlsContent>, web: Web, i: int)
    requires forall i :: 0 <= i < |tasks| && tasks[i].cached ==> tasks[i].url in store
    requires 0 <= i < |tasks|
    ensures ChangeFlags(tasks, store, web)[i] == Changes(tasks[i], store, web)
    decreases i
  {
    var tail := ChangeFlags(tasks[1..], store, web);
    assert ChangeFlags(tasks, store, web) == [Changes(tasks[0], store, web)] + tail;
    if i > 0 {
      FlagsAt(tasks[1..], store, web, i - 1);
      assert tasks[1..][i - 1] == tasks[i];
    }
  }

  /** Stores that agree at every task's URL flag the same tasks. */
  lemma {:induction false} FlagsAgree(tasks: seq<Task>, s1: map<string, UrlsContent>,
                                      s2: map<string, UrlsContent>, web: Web)
    requires forall i :: 0 <= i < |tasks| && tasks[i].cached ==> tasks[i].url in s1
    requires forall i :: 0 <= i < |tasks| ==>
               (tasks[i].url in s1 <==> tasks[i].url in s2) &&
               (tasks[i].url in s1 ==> s1[tasks[i].url] == s2[tasks[i].url])
    ensures ChangeFlags(tasks, s1, web) == ChangeFlags(tasks, s2, web)
    decreases |tasks|
  {
    if |tasks| > 0 {
      GatherOneLocal(tasks[0], s1, s2, web);
      assert Changes(tasks[0], s1, web) == Changes(tasks[0], s2, web);
      FlagsAgree(tasks[1..], s1, s2, web);
    }
  }

  /** Some task for `u` is flagged. */
  predicate FlaggedIn(tasks: seq<Task>, flags: seq<bool>, u: string)
    requires |flags| == |tasks|
  {
    exists i :: 0 <= i < |tasks| && tasks[i].url == u && flags[i]
  }

  /** The task writes its stored page back. */
  predicate Changes(t: Task, store: map<string, UrlsContent>, web: Web)
    requires t.cached ==> t.url in store
  {
    GatherOne(t, store, web).changed
  }

  /** When no URL repeats, every task's result is what it gathers against the store the
      batch started from, and the changed URLs are listed. */
  lemma GatherBatchDistinct(tasks: seq<Task>, store: map<string, UrlsContent>, web: Web)
    requires forall i :: 0 <= i < |tasks| && tasks[i].cached ==> tasks[i].url in store
    requires NoDuplicates(Urls(tasks))
    ensures var r := GatherBatch(tasks, store, web);
            forall i :: 0 <= i < |tasks| ==>
              && tasks[i].url in r.0 && r.0[tasks[i].url] == GatherOne(tasks[i], store, web).page
              && (tasks[i].url in store ==> r.1[tasks[i].url] == r.0[tasks[i].url])
    ensures var r := GatherBatch(tasks, store, web);
            forall u :: u in r.2 <==> ChangedIn(tasks, store, web, u)
  {
    GatherBatchPages(tasks, store, web);
    GatherBatchChanged(tasks, store, web);
  }

  lemma {:induction false} GatherBatchPages(tasks: seq<Task>, store: map<string, UrlsContent>, web: Web)
    requires forall i :: 0 <= i < |tasks| && tasks[i].cached ==> tasks[i].url in store
    requires NoDuplicates(Urls(tasks))
    ensures var r := GatherBatch(tasks, store, web);
            forall i :: 0 <= i < |tasks| ==>
              && tasks[i].url in r.0 && r.0[tasks[i].url] == GatherOne(tasks[i], store, web).page
              && (tasks[i].url in store ==> r.1[tasks[i].url] == r.0[tasks[i].url])
    decreases |tasks|
  {
    if |tasks| > 0 {
      var t, rest := tasks[0], tasks[1..];
      var g := GatherOne(t, store, web);
      TailNoDuplicates(tasks);
      PagesAfterHead(tasks, store, web);
      GatherBatchPages(rest, g.store, web);
      GatherBatchSpec(rest, g.store, web);
      var rr := GatherBatch(rest, g.store, web);
      var r := GatherBatch(tasks, store, web);
      assert r == (map[t.url := g.page] + rr.0, rr.1, (if g.changed then [t.url] else []) + rr.2);
      assert t.url !in Urls(rest);
      assert t.url !in rr.0 && r.0[t.url] == g.page;
      assert t.url in store ==> r.1[t.url] == g.store[t.url];
      forall i | 0 < i < |tasks|
        ensures tasks[i].url in r.0 && r.0[tasks[i].url] == GatherOne(tasks[i], store, web).page
        ensures tasks[i].url in store ==> r.1[tasks[i].url] == r.0[tasks[i].url]
      {
        assert tasks[i] == rest[i - 1];
      }
    }
  }

  lemma {:induction false} GatherBatchChanged(tasks: seq<Task>, store: map<string, UrlsContent>, web: Web)
    requires forall i :: 0 <= i < |tasks| && tasks[i].cached ==> tasks[i].url in store
    requires NoDuplicates(Urls(tasks))
    ensures var r := GatherBatch(tasks, store, web);
            forall u :: u in r.2 <==> FlaggedIn(tasks, ChangeFlags(tasks, store, web), u)
    decreases |tasks|
  {
    if |tasks| > 0 {
      var t, rest := tasks[0], tasks[1..];
      var g := GatherOne(t, store, web);
      TailNoDuplicates(tasks);
      assert t.url !in Urls(rest);
      assert forall i :: 0 <= i < |rest| ==> rest[i].url == Urls(rest)[i];
      FlagsAgree(rest, g.store, store, web);
      GatherBatchChanged(rest, g.store, web);
      var rr := GatherBatch(rest, g.store, web);
      var flags, tail := ChangeFlags(tasks, store, web), ChangeFlags(rest, g.store, web);
      assert flags == [g.changed] + tail;
      assert GatherBatch(tasks, store, web).2 == (if flags[0] then [t.url] else []) + rr.2;
      FlaggedListStep(tasks, flags, GatherBatch(tasks, store, web).2, rr.2);
    }
  }

  /** Listing the first task's URL when it is flagged, then the flagged URLs of the
      rest, lists exactly the flagged URLs. */
  lemma FlaggedListStep(tasks: seq<Task>, flags: seq<bool>, listed: seq<string>, tail: seq<string>)
    requires |tasks| > 0 && |flags| == |tasks|
    requires listed == (if flags[0] then [tasks[0].url] else []) + tail
    requires forall u :: u in tail <==> FlaggedIn(tasks[1..], flags[1..], u)
    ensures forall u :: u in listed <==> FlaggedIn(tasks, flags, u)
  {
    forall u
      ensures u in listed <==> FlaggedIn(tasks, flags, u)
    {
      FlaggedInCons(tasks, flags, u);
    }
  }

  /** After the first task, the others gather the pages they would have before it: it
      touched only its own URL, which no other task has. */
  lemma PagesAfterHead(tasks: seq<Task>, store: map<string, UrlsContent>, web: Web)
    requires |tasks| > 0 && NoDuplicates(Urls(tasks))
    requires forall i :: 0 <= i < |tasks| && tasks[i].cached ==> tasks[i].url in store
    ensures var s2 := GatherOne(tasks[0], store, web).store;
            forall i :: 1 <= i < |tasks| ==>
              tasks[i].url != tasks[0].url &&
              GatherOne(tasks[i], s2, web).page == GatherOne(tasks[i], store, web).page
  {
    var s2 := GatherOne(tasks[0], store, web).store;
    forall i | 1 <= i < |tasks|
      ensures tasks[i].url != tasks[0].url
      ensures GatherOne(tasks[i], s2, web).page == GatherOne(tasks[i], store, web).page
    {
      HeadNotInTail(tasks, i);
      GatherOneLocal(tasks[i], s2, store, web);
    }
  }

  lemma TailNoDuplicates(tasks: seq<Task>)
    requires |tasks| > 0 && NoDuplicates(Urls(tasks))
    ensures NoDuplicates(Urls(tasks[1..]))
  {
    forall i, j | 0 <= i < j < |tasks| - 1
      ensures Urls(tasks[1..])[i] != Urls(tasks[1..])[j]
    {
      assert Urls(tasks[1..])[i] == Urls(tasks)[i + 1] && Urls(tasks[1..])[j] == Urls(tasks)[j + 1];
    }
  }

  lemma HeadNotInTail(tasks: seq<Task>, i: int)
    requires 0 < i < |tasks| && NoDuplicates(Urls(tasks))
    ensures tasks[i].url != tasks[0].url
  {
    assert Urls(tasks)[0] != Urls(tasks)[i];
  }

  lemma FlaggedInCons(tasks: seq<Task>, flags: seq<bool>, u: string)
    requires |tasks| > 0 && |flags| == |tasks|
    ensures FlaggedIn(tasks, flags, u) <==>
              (tasks[0].url == u && flags[0]) || FlaggedIn(tasks[1..], flags[1..], u)
  {
    if FlaggedIn(tasks, flags, u) {
      var i :| 0 <= i < |tasks| && tasks[i].url == u && flags[i];
      if i > 0 {
        assert tasks[1..][i - 1] == tasks[i] && flags[1..][i - 1] == flags[i];
      }
    }
    if FlaggedIn(tasks[1..], flags[1..], u) {
      var i :| 0 <= i < |tasks[1..]| && tasks[1..][i].url == u && flags[1..][i];
      assert tasks[i + 1] == tasks[1..][i] && flags[i + 1] == flags[1..][i];
    }
  }

  /** What `_read_urls` returns, with the store as the scrapes left it, the stored
      pages to write back, and the batches it gathered, in order. */
  datatype ReadResult = ReadResult(
    results: map<string, UrlsContent>,
    store: map<string, UrlsContent>,
    updated: seq<string>,
    batches: seq<seq<string>>)

  /** Gathers the pending tasks into the results and the store. */
  method Flush(tasks: seq<Task>, r: ReadResult, web: Web) returns (r': ReadResult)
    requires |tasks| > 0
    requires forall i :: 0 <= i < |tasks| && tasks[i].cached ==> tasks[i].url in r.store
    ensures forall u :: u in r'.results <==> u in r.results || u in Urls(tasks)
    ensures forall k :: k in r.results && k !in Urls(tasks) ==> r'.results[k] == r.results[k]
    ensures r'.store.Keys == r.store.Keys
    ensures forall k :: k in r.store && k !in Urls(tasks) ==> r'.store[k] == r.store[k]
    ensures forall u :: u in r'.updated ==> u in r.updated || (u in r.store && u in Urls(tasks))
    ensures r'.batches == r.batches + [Urls(tasks)]
    ensures var g := GatherBatch(tasks, r.store, web);
            r'.results == r.results + g.0 && r'.store == g.1 && r'.updated == r.updated + g.2
  {
    GatherBatchSpec(tasks, r.store, web);
    var (got, after, up) := GatherBatch(tasks, r.store, web);
    r' := ReadResult(r.results + got, after, r.updated + up, r.batches + [Urls(tasks)]);
  }

  /** What holds of the partial result after the URLs `done` are read, apart from
      the bound on the pending tasks. */
  ghost predicate ReadSoFar(done: seq<string>, store: map<string, UrlsContent>, validate: bool,
                      batchSize: int, r: ReadResult, tasks: seq<Task>) {
    && r.store.Keys == store.Keys
    && (forall j :: 0 <= j < |tasks| && tasks[j].cached ==> tasks[j].url in r.store)
    && (forall u :: u in r.results || u in Urls(tasks) <==> u in done)
    && (!validate ==> forall u :: HasContent(store, u) ==> r.store[u] == store[u])
    && (!validate ==> forall u :: u in done && HasContent(store, u) ==> u in r.results && r.results[u] == store[u])
    && (!validate ==> forall u :: u in Urls(tasks) ==> !HasContent(store, u))
    && (forall u :: u in r.updated ==> u in store && u in done)
    && (forall k :: 0 <= k < |r.batches| ==> |r.batches[k]| == batchSize && batchSize > 0)
    && (batchSize <= 0 ==> r.batches == [])
  }

  /** A URL with stored content is answered from the store. */
  lemma AnswerStep(done: seq<string>, u: string, store: map<string, UrlsContent>, validate: bool,
                   batchSize: int, r: ReadResult, tasks: seq<Task>)
    requires ReadSoFar(done, store, validate, batchSize, r, tasks)
    requires !validate && HasContent(r.store, u)
    ensures ReadSoFar(done + [u], store, validate, batchSize, r.(results := r.results[u := r.store[u]]), tasks)
  {
  }

  /** Any other URL becomes a pending scrape. */
  lemma EnqueueStep(done: seq<string>, u: string, store: map<string, UrlsContent>, validate: bool,
                    batchSize: int, r: ReadResult, tasks: seq<Task>)
    requires ReadSoFar(done, store, validate, batchSize, r, tasks)
    requires validate || !HasContent(r.store, u)
    ensures ReadSoFar(done + [u], store, validate, batchSize, r,
                      tasks + [Task(u, validate && HasContent(r.store, u))])
  {
    var t := tasks + [Task(u, validate && HasContent(r.store, u))];
    assert Urls(t) == Urls(tasks) + [u];
  }

  /** Gathering the pending scrapes keeps what holds of the partial result. */
  method FlushStep(done: seq<string>, store: map<string, UrlsContent>, validate: bool,
                   batchSize: int, r: ReadResult, tasks: seq<Task>, web: Web) returns (r': ReadResult)
    requires ReadSoFar(done, store, validate, batchSize, r, tasks)
    requires |tasks| > 0
    ensures r'.batches == r.batches + [Urls(tasks)]
    ensures |tasks| == batchSize ==> ReadSoFar(done, store, validate, batchSize, r', [])
    ensures forall u :: u in r'.results <==> u in done
    ensures !validate ==> forall u :: u in done && HasContent(store, u) ==> r'.results[u] == store[u]
    ensures forall u :: u in r'.updated ==> u in store && u in done
    ensures ReadOnce(store, validate, r, tasks, web) ==> ReadOnce(store, validate, r', [], web)
  {
    r' := Flush(tasks, r, web);
    FlushSoFar(done, store, validate, batchSize, r, tasks, r');
    if ReadOnce(store, validate, r, tasks, web) {
      FlushOnce(store, validate, r, tasks, web, r');
    }
  }

  /** What `Flush` promises keeps what holds of the partial result. */
  lemma FlushSoFar(done: seq<string>, store: map<string, UrlsContent>, validate: bool,
                   batchSize: int, r: ReadResult, tasks: seq<Task>, r': ReadResult)
    requires ReadSoFar(done, store, validate, batchSize, r, tasks)
    requires |tasks| > 0
    requires forall u :: u in r'.results <==> u in r.results || u in Urls(tasks)
    requires forall k :: k in r.results && k !in Urls(tasks) ==> r'.results[k] == r.results[k]
    requires r'.store.Keys == r.store.Keys
    requires forall k :: k in r.store && k !in Urls(tasks) ==> r'.store[k] == r.store[k]
    requires forall u :: u in r'.updated ==> u in r.updated || (u in r.store && u in Urls(tasks))
    requires r'.batches == r.batches + [Urls(tasks)]
    ensures |tasks| == batchSize ==> ReadSoFar(done, store, validate, batchSize, r', [])
    ensures forall u :: u in r'.results <==> u in done
    ensures !validate ==> forall u :: u in done && HasContent(store, u) ==> r'.results[u] == store[u]
    ensures forall u :: u in r'.updated ==> u in store && u in done
  {
    assert Urls([]) == [];
    assert |r'.batches[|r.batches|]| == |tasks|;
  }

  /** Whether `_read_urls` answers `u` straight from the store. */
  predicate FromStore(u: string, store: map<string, UrlsContent>, validate: bool) {
    !validate && HasContent(store, u)
  }

  /** The task `_read_urls` makes of a URL it does not answer from the store: a scrape
      conditional on the stored page exactly when validating a stored page with content. */
  function TaskFor(u: string, store: map<string, UrlsContent>, validate: bool): (t: Task)
    ensures t.url == u && (t.cached <==> validate && HasContent(store, u))
    ensures t.cached ==> t.url in store
  {
    Task(u, validate && HasContent(store, u))
  }

  /** The page `_read_urls` returns for a URL that occurs once among its URLs. */
  function Answer(u: string, store: map<string, UrlsContent>, validate: bool, web: Web): UrlsContent {
    if FromStore(u, store, validate) then store[u] else GatherOne(TaskFor(u, store, validate), store, web).page
  }

  /** Whether the stored page of a URL that occurs once is written back. */
  predicate Rewritten(u: string, store: map<string, UrlsContent>, validate: bool, web: Web) {
    !FromStore(u, store, validate) && Changes(TaskFor(u, store, validate), store, web)
  }

  /** What holds of the partial result when no URL read so far repeats: every answer
      and every pending task is computed from the original store, pages not yet
      answered are untouched, and exactly the rewritten answered pages are listed. */
  ghost predicate ReadOnce(store: map<string, UrlsContent>, validate: bool, r: ReadResult,
                           tasks: seq<Task>, web: Web) {
    && r.store.Keys == store.Keys
    && PendingOnce(store, validate, r.results, tasks)
    && AnsweredOnce(store, validate, r.results, web)
    && UntouchedOnce(store, r.results, r.store)
    && UpdatedOnce(store, validate, r.results, r.updated, web)
  }

  /** The pending tasks are for distinct, unanswered URLs that the store does not answer. */
  ghost predicate PendingOnce(store: map<string, UrlsContent>, validate: bool,
                              results: map<string, UrlsContent>, tasks: seq<Task>) {
    && NoDuplicates(Urls(tasks))
    && (forall j :: 0 <= j < |tasks| ==> tasks[j].url !in results)
    && (forall j :: 0 <= j < |tasks| ==> tasks[j] == TaskFor(tasks[j].url, store, validate))
    && (forall j :: 0 <= j < |tasks| ==> !FromStore(tasks[j].url, store, validate))
  }

  ghost predicate AnsweredOnce(store: map<string, UrlsContent>, validate: bool,
                               results: map<string, UrlsContent>, web: Web) {
    forall u :: u in results ==> results[u] == Answer(u, store, validate, web)
  }

  ghost predicate UntouchedOnce(store: map<string, UrlsContent>, results: map<string, UrlsContent>,
                                now: map<string, UrlsContent>) {
    forall u :: u in store && u in now && u !in results ==> now[u] == store[u]
  }

  ghost predicate UpdatedOnce(store: map<string, UrlsContent>, validate: bool,
                              results: map<string, UrlsContent>, updated: seq<string>, web: Web) {
    forall u :: u in updated <==> u in results && Rewritten(u, store, validate, web)
  }

  /** A URL read for the first time and answered from the store. */
  lemma AnswerOnce(u: string, store: map<string, UrlsContent>, validate: bool,
                   r: ReadResult, tasks: seq<Task>, web: Web)
    requires ReadOnce(store, validate, r, tasks, web)
    requires u !in r.results && u !in Urls(tasks) && !validate && HasContent(r.store, u)
    ensures ReadOnce(store, validate, r.(results := r.results[u := r.store[u]]), tasks, web)
  {
    var results := r.results[u := r.store[u]];
    assert r.store[u] == store[u];
    assert Answer(u, store, validate, web) == r.store[u];
    forall j | 0 <= j < |tasks|
      ensures tasks[j].url != u
    {
      assert Urls(tasks)[j] == tasks[j].url;
    }
    assert PendingOnce(store, validate, results, tasks);
    assert !Rewritten(u, store, validate, web);
    assert UpdatedOnce(store, validate, results, r.updated, web);
  }

  /** A URL read for the first time and queued. */
  lemma EnqueueOnce(u: string, store: map<string, UrlsContent>, validate: bool,
                    r: ReadResult, tasks: seq<Task>, web: Web)
    requires ReadOnce(store, validate, r, tasks, web)
    requires u !in r.results && u !in Urls(tasks) && (validate || !HasContent(r.store, u))
    ensures ReadOnce(store, validate, r, tasks + [Task(u, validate && HasContent(r.store, u))], web)
  {
    assert HasContent(r.store, u) == HasContent(store, u);
    PendingAppend(store, validate, r.results, tasks, u);
  }

  lemma PendingAppend(store: map<string, UrlsContent>, validate: bool,
                      results: map<string, UrlsContent>, tasks: seq<Task>, u: string)
    requires PendingOnce(store, validate, results, tasks)
    requires u !in results && u !in Urls(tasks) && !FromStore(u, store, validate)
    ensures PendingOnce(store, validate, results, tasks + [TaskFor(u, store, validate)])
  {
    var t := tasks + [TaskFor(u, store, validate)];
    assert Urls(t) == Urls(tasks) + [u];
    AppendNoDuplicates(Urls(tasks), u);
    assert forall j :: 0 <= j < |tasks| ==> t[j] == tasks[j];
  }

  lemma AppendNoDuplicates(s: seq<string>, u: string)
    requires NoDuplicates(s) && u !in s
    ensures NoDuplicates(s + [u])
  {
    var t := s + [u];
    forall i, j | 0 <= i < j < |t|
      ensures t[i] != t[j]
    {
      assert t[i] == s[i];
      if j < |s| {
        assert t[j] == s[j];
      }
    }
  }

  /** Gathering the pending tasks of URLs read once answers each of them as `Answer`
      does and lists exactly the rewritten ones. */
  lemma FlushOnce(store: map<string, UrlsContent>, validate: bool, r: ReadResult, tasks: seq<Task>,
                  web: Web, r': ReadResult)
    requires ReadOnce(store, validate, r, tasks, web)
    requires forall i :: 0 <= i < |tasks| && tasks[i].cached ==> tasks[i].url in r.store
    requires var g := GatherBatch(tasks, r.store, web);
             r'.results == r.results + g.0 && r'.store == g.1 && r'.updated == r.updated + g.2
    ensures ReadOnce(store, validate, r', [], web)
  {
    var g := GatherBatch(tasks, r.store, web);
    GatherBatchSpec(tasks, r.store, web);
    GatherBatchDistinct(tasks, r.store, web);
    BatchAgainstStore(store, validate, r, tasks, web);
    FlushAnswered(store, validate, r.results, tasks, g.0, web);
    FlushUntouched(store, r.results, r.store, tasks, g.0, g.1);
    forall u
      ensures u in g.2 <==> u in g.0 && Rewritten(u, store, validate, web)
    {
      ChangedInRewritten(store, validate, r.store, tasks, web, u);
    }
    assert PendingOnce(store, validate, r'.results, []);
  }

  /** Each pending task gathers against the current store what it would against the
      original one. */
  lemma BatchAgainstStore(store: map<string, UrlsContent>, validate: bool, r: ReadResult,
                          tasks: seq<Task>, web: Web)
    requires ReadOnce(store, validate, r, tasks, web)
    ensures forall i :: 0 <= i < |tasks| && tasks[i].cached ==> tasks[i].url in r.store
    ensures forall i :: 0 <= i < |tasks| ==>
              GatherOne(tasks[i], r.store, web).page == Answer(tasks[i].url, store, validate, web)
    ensures forall i :: 0 <= i < |tasks| ==>
              Changes(tasks[i], r.store, web) == Rewritten(tasks[i].url, store, validate, web)
  {
    forall i | 0 <= i < |tasks|
      ensures tasks[i].cached ==> tasks[i].url in r.store
      ensures GatherOne(tasks[i], r.store, web).page == Answer(tasks[i].url, store, validate, web)
      ensures Changes(tasks[i], r.store, web) == Rewritten(tasks[i].url, store, validate, web)
    {
      GatherOneLocal(tasks[i], r.store, store, web);
    }
  }

  /** Within one batch of URLs read once, a URL is listed exactly when it is rewritten. */
  lemma ChangedInRewritten(store: map<string, UrlsContent>, validate: bool, now: map<string, UrlsContent>,
                           tasks: seq<Task>, web: Web, u: string)
    requires forall i :: 0 <= i < |tasks| && tasks[i].cached ==> tasks[i].url in now
    requires forall i :: 0 <= i < |tasks| ==>
               Changes(tasks[i], now, web) == Rewritten(tasks[i].url, store, validate, web)
    ensures ChangedIn(tasks, now, web, u) <==> u in Urls(tasks) && Rewritten(u, store, validate, web)
  {
    var flags := ChangeFlags(tasks, now, web);
    if u in Urls(tasks) && Rewritten(u, store, validate, web) {
      var i :| 0 <= i < |Urls(tasks)| && Urls(tasks)[i] == u;
      FlagsAt(tasks, now, web, i);
      assert tasks[i].url == u && flags[i];
    }
    if ChangedIn(tasks, now, web, u) {
      var i :| 0 <= i < |tasks| && tasks[i].url == u && flags[i];
      FlagsAt(tasks, now, web, i);
      assert Urls(tasks)[i] == u;
    }
  }

  lemma FlushAnswered(store: map<string, UrlsContent>, validate: bool, results: map<string, UrlsContent>,
                      tasks: seq<Task>, got: map<string, UrlsContent>, web: Web)
    requires AnsweredOnce(store, validate, results, web)
    requires forall u :: u in got <==> u in Urls(tasks)
    requires forall i :: 0 <= i < |tasks| ==> got[tasks[i].url] == Answer(tasks[i].url, store, validate, web)
    ensures AnsweredOnce(store, validate, results + got, web)
  {
    forall u | u in got
      ensures got[u] == Answer(u, store, validate, web)
    {
      var i :| 0 <= i < |Urls(tasks)| && Urls(tasks)[i] == u;
      assert tasks[i].url == u;
    }
  }

  lemma FlushUntouched(store: map<string, UrlsContent>, results: map<string, UrlsContent>,
                       now: map<string, UrlsContent>, tasks: seq<Task>,
                       got: map<string, UrlsContent>, after: map<string, UrlsContent>)
    requires UntouchedOnce(store, results, now)
    requires forall u :: u in got <==> u in Urls(tasks)
    requires after.Keys == now.Keys
    requires forall k :: k in now && k !in Urls(tasks) ==> after[k] == now[k]
    ensures UntouchedOnce(store, results + got, after)
  {
  }

  /** One URL of the loop: answered from the store, or queued, with the queue
      gathered once it holds `batchSize` scrapes. */
  method ReadOne(done: seq<string>, u: string, store: map<string, UrlsContent>, validate: bool,
                 batchSize: int, r: ReadResult, tasks: seq<Task>, web: Web)
    returns (r': ReadResult, tasks': seq<Task>)
    requires ReadSoFar(done, store, validate, batchSize, r, tasks)
    requires batchSize > 0 ==> |tasks| < batchSize
    ensures ReadSoFar(done + [u], store, validate, batchSize, r', tasks')
    ensures batchSize > 0 ==> |tasks'| < batchSize
    ensures u !in done && ReadOnce(store, validate, r, tasks, web) ==> ReadOnce(store, validate, r', tasks', web)
  {
    if !validate && HasContent(r.store, u) {
      AnswerStep(done, u, store, validate, batchSize, r, tasks);
      if u !in done && ReadOnce(store, validate, r, tasks, web) {
        AnswerOnce(u, store, validate, r, tasks, web);
      }
      r' := r.(results := r.results[u := r.store[u]]);
      tasks' := tasks;
    } else {
      EnqueueStep(done, u, store, validate, batchSize, r, tasks);
      if u !in done && ReadOnce(store, validate, r, tasks, web) {
        EnqueueOnce(u, store, validate, r, tasks, web);
      }
      r', tasks' := r, tasks + [Task(u, validate && HasContent(r.store, u))];
      if |tasks'| == batchSize {
        r' := FlushStep(done + [u], store, validate, batchSize, r', tasks', web);
        tasks' := [];
      }
    }
  }

  /** `_read_urls`: without validation a URL with stored content is answered from the
      store; otherwise a URL with stored content is scraped conditionally and any
      other URL plainly. A batch is gathered whenever exactly `batchSize` scrapes are
      pending, and the remainder at the end. */
  method ReadUrls(urls: seq<string>, store: map<string, UrlsContent>, validate: bool,
                  batchSize: int, web: Web) returns (r: ReadResult)
    ensures forall u :: u in r.results <==> u in urls
    ensures !validate ==> forall u :: u in urls && HasContent(store, u) ==> r.results[u] == store[u]
    ensures forall u :: u in r.updated ==> u in store && u in urls
    ensures forall k :: 0 <= k < |r.batches| ==> |r.batches[k]| > 0
    ensures forall k :: 0 <= k < |r.batches| - 1 ==> |r.batches[k]| == batchSize
    ensures batchSize > 0 ==> forall k :: 0 <= k < |r.batches| ==> |r.batches[k]| <= batchSize
    ensures batchSize <= 0 ==> |r.batches| <= 1
    ensures NoDuplicates(urls) ==> forall u :: u in urls ==> r.results[u] == Answer(u, store, validate, web)
    ensures NoDuplicates(urls) ==> forall u :: u in r.updated <==> u in urls && Rewritten(u, store, validate, web)
  {
    r := ReadResult(map[], store, [], []);
    var tasks: seq<Task> := [];
    var i := 0;
    while i < |urls|
      invariant 0 <= i <= |urls|
      invariant ReadSoFar(urls[..i], store, validate, batchSize, r, tasks)
      invariant batchSize > 0 ==> |tasks| < batchSize
      invariant NoDuplicates(urls) ==> ReadOnce(store, validate, r, tasks, web)
    {
      assert urls[..i + 1] == urls[..i] + [urls[i]];
      NotInPrefix(urls, i);
      r, tasks := ReadOne(urls[..i], urls[i], store, validate, batchSize, r, tasks, web);
      i := i + 1;
    }
    assert urls[..i] == urls;
    if |tasks| > 0 {
      r := FlushStep(urls, store, validate, batchSize, r, tasks, web);
    }
    if NoDuplicates(urls) {
      ReadOnceDone(urls, store, validate, r, web);
    }
  }

  lemma NotInPrefix(urls: seq<string>, i: int)
    requires 0 <= i < |urls|
    ensures NoDuplicates(urls) ==> urls[i] !in urls[..i]
  {
    assert forall j :: 0 <= j < i ==> urls[..i][j] == urls[j];
  }

  /** Once every URL is answered and nothing is pending, the answers are `Answer`'s and
      the listed pages are the rewritten ones. */
  lemma ReadOnceDone(urls: seq<string>, store: map<string, UrlsContent>, validate: bool,
                     r: ReadResult, web: Web)
    requires ReadOnce(store, validate, r, [], web)
    requires forall u :: u in r.results <==> u in urls
    ensures forall u :: u in urls ==> r.results[u] == Answer(u, store, validate, web)
    ensures forall u :: u in r.updated <==> u in urls && Rewritten(u, store, validate, web)
  {
  }

  /** `fetch_urls_content`: every URL read, with its content. A URL the store answers
      gets its stored content; when no URL repeats, every other URL gets what its own
      scrape returned (conditional on the stored copy when validating a stored page). */
  method FetchUrlsContent(urls: seq<string>, store: map<string, UrlsContent>, validate: bool,
                          batchSize: int, web: Web) returns (r: map<string, Option<string>>)
    ensures r.Keys == set u | u in urls
    ensures !validate ==> forall u :: u in urls && HasContent(store, u) ==> r[u] == store[u].content
    ensures NoDuplicates(urls) ==> forall u :: u in urls && !FromStore(u, store, validate) ==>
              r[u] == TaskScrape(TaskFor(u, store, validate), store, web).content
  {
    var read := ReadUrls(urls, store, validate, batchSize, web);
    r := map u | u in read.results :: read.results[u].content;
    if NoDuplicates(urls) {
      forall u | u in urls && !FromStore(u, store, validate)
        ensures r[u] == TaskScrape(TaskFor(u, store, validate), store, web).content
      {
        GatherOneSpec(TaskFor(u, store, validate), store, web);
      }
    }
  }
}
