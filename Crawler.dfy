/** The plain-HTTP branch of `crawl_website` (ingest.py 215-219, 304-340): a
    breadth-first crawl over a FIFO queue `to_visit`, a set `visited` of
    normalized URLs and a page budget `max_pages`. Fetching a page and
    `normalize_url` are parameters; `get_base_domain(start_url)` is given as
    `baseDomain`. */
module Crawler {
  import opened Wrappers
  import opened Text
  import opened Documents

  /** What `extract_page_content` returns: `(text, title)` or None, and the
      page's normalized links. */
  datatype Page = Page(result: Option<(string, string)>, links: seq<string>)

  /** Links whose lower-cased form contains one of these are never queued. */
  const BlockedExtensions: seq<string> := [".pdf", ".jpg", ".png", ".gif", ".zip", ".mp4", ".mp3", ".hwp"]

  /** A page yields a document only when its stripped text is longer than this. */
  const MinTextLength: nat := 100

  /** `title[:50]`. */
  const TitleLength: nat := 50

  predicate Blocked(link: string) {
    exists i :: 0 <= i < |BlockedExtensions| && Contains(Lower(link), BlockedExtensions[i])
  }

  /** The tests on a link that do not look at the queue. The visited set holds
      `normalize_url` results, which may be None, so a link is visited when
      `Some(link)` is in it. */
  predicate Admissible(link: string, baseDomain: string, visited: set<Option<string>>) {
    StartsWith(link, baseDomain) && Some(link) !in visited && !Blocked(link)
  }

  /** The normalized forms of a list of URLs: the visited set they produce. */
  function Seen(urls: seq<string>, normalize: string -> Option<string>): set<Option<string>> {
    set u | u in urls :: normalize(u)
  }

  lemma SeenSnoc(urls: seq<string>, u: string, normalize: string -> Option<string>)
    ensures Seen(urls + [u], normalize) == Seen(urls, normalize) + {normalize(u)}
  {
    assert forall v :: v in urls + [u] <==> v in urls || v == u;
  }

  // ---- the document a page yields ----

  function WebDocument(url: string, text: string, title: string): Document {
    var filename := if title == "" then url
      else if |title| <= TitleLength then title else title[..TitleLength];
    Document(text, map["source" := url, "title" := title, "type" := "website", "filename" := filename])
  }

  function PageDocs(url: string, page: Page): seq<Document> {
    match page.result
      case None => []
      case Some(r) => if |Strip(r.0)| > MinTextLength then [WebDocument(url, r.0, r.1)] else []
  }

  /** A page gives at most one document, exactly when it has a result whose
      stripped text is longer than 100 characters; the document is a website
      document of that page whose filename is the title cut to 50 characters,
      or the URL when the title is empty. */
  lemma PageDocsShape(url: string, page: Page)
    ensures |PageDocs(url, page)| <= 1
    ensures PageDocs(url, page) != [] <==> page.result.Some? && |Strip(page.result.value.0)| > MinTextLength
    ensures PageDocs(url, page) != [] ==> (
      var d := PageDocs(url, page)[0];
      var title := page.result.value.1;
      d.content == page.result.value.0
      && d.metadata.Keys == {"source", "title", "type", "filename"}
      && d.metadata["source"] == url && d.metadata["title"] == title
      && d.metadata["type"] == "website"
      && (title == "" ==> d.metadata["filename"] == url)
      && (title != "" ==> (StartsWith(title, d.metadata["filename"])
            && |d.metadata["filename"]| == (if |title| <= TitleLength then |title| else TitleLength))))
  {
  }

  /** The documents of the processed pages, in processing order. */
  function Harvest(urls: seq<string>, fetch: string -> Page): seq<Document>
    decreases |urls|
  {
    if urls == [] then []
    else Harvest(urls[..|urls| - 1], fetch) + PageDocs(urls[|urls| - 1], fetch(urls[|urls| - 1]))
  }

  /** The document step of the crawl loop for one fetched page. */
  method PageDocuments(url: string, page: Page) returns (docs: seq<Document>)
    ensures docs == PageDocs(url, page)
  {
    docs := [];
    if page.result.Some? {
      var (text, title) := page.result.value;
      if |Strip(text)| > MinTextLength {
        docs := [WebDocument(url, text, title)];
      }
    }
  }

  /** Every harvested document comes from one processed page, at most one per page. */
  lemma {:induction false} HarvestFrom(urls: seq<string>, fetch: string -> Page)
    ensures |Harvest(urls, fetch)| <= |urls|
    ensures forall d :: d in Harvest(urls, fetch) ==>
      exists i :: 0 <= i < |urls| && d in PageDocs(urls[i], fetch(urls[i]))
    decreases |urls|
  {
    if urls != [] {
      var init := urls[..|urls| - 1];
      var last := urls[|urls| - 1];
      HarvestFrom(init, fetch);
      PageDocsShape(last, fetch(last));
      forall d | d in Harvest(urls, fetch)
        ensures exists i :: 0 <= i < |urls| && d in PageDocs(urls[i], fetch(urls[i]))
      {
        if d in Harvest(init, fetch) {
          var i :| 0 <= i < |init| && d in PageDocs(init[i], fetch(init[i]));
          assert urls[i] == init[i];
        } else {
          assert d in PageDocs(urls[|urls| - 1], fetch(urls[|urls| - 1]));
        }
      }
    }
  }

  // ---- the link loop ----

  /** The links the loop over `links` appends to the queue, in link order. */
  function NewLinks(queue: seq<string>, links: seq<string>, baseDomain: string,
                    visited: set<Option<string>>): seq<string>
    decreases |links|
  {
    if links == [] then []
    else if Admissible(links[0], baseDomain, visited) && links[0] !in queue then
      [links[0]] + NewLinks(queue + [links[0]], links[1..], baseDomain, visited)
    else NewLinks(queue, links[1..], baseDomain, visited)
  }

  /** A link is appended only when it is admissible and not yet queued, each
      admissible link ends up queued, and a duplicate-free queue stays
      duplicate-free. */
  lemma {:induction false} NewLinksProps(queue: seq<string>, links: seq<string>, baseDomain: string,
                                         visited: set<Option<string>>)
    ensures forall l :: l in NewLinks(queue, links, baseDomain, visited) ==>
      l in links && Admissible(l, baseDomain, visited) && l !in queue
    ensures forall l :: l in links && Admissible(l, baseDomain, visited) ==>
      l in queue + NewLinks(queue, links, baseDomain, visited)
    ensures NoDuplicates(queue) ==> NoDuplicates(queue + NewLinks(queue, links, baseDomain, visited))
    decreases |links|
  {
    if links != [] {
      var l := links[0];
      if Admissible(l, baseDomain, visited) && l !in queue {
        var q := queue + [l];
        NewLinksProps(q, links[1..], baseDomain, visited);
        var rest := NewLinks(q, links[1..], baseDomain, visited);
        assert queue + NewLinks(queue, links, baseDomain, visited) == q + rest;
        if NoDuplicates(queue) {
          assert NoDuplicates(q);
        }
      } else {
        NewLinksProps(queue, links[1..], baseDomain, visited);
      }
      assert forall x :: x in links <==> x == l || x in links[1..];
    }
  }

  /** The loop `for link in links` that appends links to `to_visit`. */
  method EnqueueLinks(queue: seq<string>, links: seq<string>, baseDomain: string,
                      visited: set<Option<string>>) returns (q: seq<string>)
    ensures q == queue + NewLinks(queue, links, baseDomain, visited)
  {
    q := queue;
    for j := 0 to |links|
      invariant q + NewLinks(q, links[j..], baseDomain, visited) == queue + NewLinks(queue, links, baseDomain, visited)
    {
      assert links[j..][1..] == links[j + 1..];
      var link := links[j];
      if StartsWith(link, baseDomain) && Some(link) !in visited {
        if !Blocked(link) {
          if link !in q {
            q := q + [link];
          }
        }
      }
    }
  }

  // ---- the crawl ----

  /** The URLs popped from the queue whose normalized form was not yet
      visited: the ones the crawl processes. */
  function NewlySeen(popped: seq<string>, normalize: string -> Option<string>): seq<string>
    decreases |popped|
  {
    if popped == [] then []
    else
      var init := popped[..|popped| - 1];
      var u := popped[|popped| - 1];
      NewlySeen(init, normalize) + (if normalize(u) in Seen(init, normalize) then [] else [u])
  }

  /** Skipping already-visited URLs loses no normalized form: the processed
      URLs cover exactly the normal forms of all popped URLs, each once. */
  lemma {:induction false} NewlySeenCovers(popped: seq<string>, normalize: string -> Option<string>)
    ensures Seen(NewlySeen(popped, normalize), normalize) == Seen(popped, normalize)
    ensures var r := NewlySeen(popped, normalize);
      forall i, j :: 0 <= i < j < |r| ==> normalize(r[i]) != normalize(r[j])
    decreases |popped|
  {
    if popped != [] {
      var init := popped[..|popped| - 1];
      var u := popped[|popped| - 1];
      NewlySeenCovers(init, normalize);
      assert popped == init + [u];
      SeenSnoc(init, u, normalize);
      var r0 := NewlySeen(init, normalize);
      if normalize(u) !in Seen(init, normalize) {
        SeenSnoc(r0, u, normalize);
        var r := r0 + [u];
        forall i, j | 0 <= i < j < |r| ensures normalize(r[i]) != normalize(r[j]) {
          if j == |r0| {
            assert r[i] in r0;
          } else {
            assert r[i] == r0[i] && r[j] == r0[j];
          }
        }
      }
    }
  }

  /** The link `link`, queued while processing `processed[j]`, was on that
      page, passed the domain and extension tests, and was not visited then. */
  ghost predicate Introduced(link: string, j: nat, processed: seq<string>, baseDomain: string,
                             normalize: string -> Option<string>, fetch: string -> Page) {
    j < |processed| && link in fetch(processed[j]).links
    && Admissible(link, baseDomain, Seen(processed[..j + 1], normalize))
  }

  lemma IntroducedStable(link: string, j: nat, processed: seq<string>, u: string, baseDomain: string,
                         normalize: string -> Option<string>, fetch: string -> Page)
    requires Introduced(link, j, processed, baseDomain, normalize, fetch)
    ensures Introduced(link, j, processed + [u], baseDomain, normalize, fetch)
  {
    assert (processed + [u])[..j + 1] == processed[..j + 1];
  }

  /** `n` copies of `x`. */
  function Repeat(n: nat, x: nat): (r: seq<nat>)
    ensures |r| == n && forall i :: 0 <= i < n ==> r[i] == x
  {
    if n == 0 then [] else Repeat(n - 1, x) + [x]
  }

  /** What the crawl loop keeps: the visited set is the normal forms of the
      processed URLs and of the popped ones; the processed URLs are the newly
      seen popped ones, with distinct normal forms; the queue is the part of
      the enqueue history not yet popped, without duplicates; every queued
      link was introduced by a processed page, and every link a processed
      page introduced was queued; the documents are the harvest of the
      processed pages. */
  ghost predicate CrawlInv(visited: set<Option<string>>, toVisit: seq<string>, documents: seq<Document>,
                           processed: seq<string>, popped: seq<string>, enqueued: seq<string>,
                           origin: seq<nat>, startUrl: string, baseDomain: string,
                           normalize: string -> Option<string>, fetch: string -> Page) {
    SeenInv(visited, processed, popped, normalize)
    && QueueInv(toVisit, popped, enqueued, startUrl)
    && OriginInv(enqueued, origin, processed, baseDomain, normalize, fetch)
    && documents == Harvest(processed, fetch)
  }

  ghost predicate FullCrawlInv(visited: set<Option<string>>, toVisit: seq<string>, documents: seq<Document>,
                               processed: seq<string>, popped: seq<string>, enqueued: seq<string>,
                               origin: seq<nat>, startUrl: string, baseDomain: string,
                               normalize: string -> Option<string>, fetch: string -> Page) {
    CrawlInv(visited, toVisit, documents, processed, popped, enqueued, origin, startUrl, baseDomain, normalize, fetch)
    && LinksQueued(enqueued, processed, baseDomain, normalize, fetch)
  }

  /** Every link that passed the tests on a processed page is in the enqueue history. */
  ghost predicate LinksQueued(enqueued: seq<string>, processed: seq<string>, baseDomain: string,
                              normalize: string -> Option<string>, fetch: string -> Page) {
    forall l, j: nat :: Introduced(l, j, processed, baseDomain, normalize, fetch) ==> l in enqueued
  }

  /** The completeness part of processing a fresh URL `u`: the links it
      introduces are either already queued or among those the link loop adds. */
  lemma LinksQueuedStep(enqueued: seq<string>, queue: seq<string>, processed: seq<string>, u: string,
                        added: seq<string>, baseDomain: string,
                        normalize: string -> Option<string>, fetch: string -> Page)
    requires LinksQueued(enqueued, processed, baseDomain, normalize, fetch)
    requires forall l :: l in queue ==> l in enqueued
    requires forall l :: l in fetch(u).links && Admissible(l, baseDomain, Seen(processed + [u], normalize)) ==>
      l in queue + added
    ensures LinksQueued(enqueued + added, processed + [u], baseDomain, normalize, fetch)
  {
    var ps := processed + [u];
    forall l, j: nat | Introduced(l, j, ps, baseDomain, normalize, fetch) ensures l in enqueued + added {
      if j < |processed| {
        assert ps[..j + 1] == processed[..j + 1];
        assert ps[j] == processed[j];
        assert Introduced(l, j, processed, baseDomain, normalize, fetch);
      } else {
        assert ps[..j + 1] == ps;
        assert l in queue + added;
      }
    }
  }

  ghost predicate SeenInv(visited: set<Option<string>>, processed: seq<string>, popped: seq<string>,
                          normalize: string -> Option<string>) {
    visited == Seen(processed, normalize) == Seen(popped, normalize)
    && |visited| == |processed|
    && (forall i, j :: 0 <= i < j < |processed| ==> normalize(processed[i]) != normalize(processed[j]))
    && processed == NewlySeen(popped, normalize)
  }

  ghost predicate QueueInv(toVisit: seq<string>, popped: seq<string>, enqueued: seq<string>, startUrl: string) {
    |enqueued| >= 1 && enqueued[0] == startUrl
    && |popped| <= |enqueued| && popped == enqueued[..|popped|] && toVisit == enqueued[|popped|..]
    && NoDuplicates(toVisit)
  }

  ghost predicate OriginInv(enqueued: seq<string>, origin: seq<nat>, processed: seq<string>, baseDomain: string,
                            normalize: string -> Option<string>, fetch: string -> Page) {
    |origin| == |enqueued|
    && forall i :: 1 <= i < |enqueued| ==>
         Introduced(enqueued[i], origin[i], processed, baseDomain, normalize, fetch)
  }

  /** Popping a URL that is already visited keeps the visited set. */
  lemma SeenSkip(visited: set<Option<string>>, processed: seq<string>, popped: seq<string>, u: string,
                 normalize: string -> Option<string>)
    requires SeenInv(visited, processed, popped, normalize) && normalize(u) in visited
    ensures SeenInv(visited, processed, popped + [u], normalize)
  {
    var p := popped + [u];
    assert p[..|popped|] == popped;
    SeenSnoc(popped, u, normalize);
  }

  /** Popping the head of the queue moves it to the popped URLs. */
  lemma QueuePop(toVisit: seq<string>, popped: seq<string>, enqueued: seq<string>, startUrl: string)
    requires QueueInv(toVisit, popped, enqueued, startUrl) && toVisit != []
    ensures QueueInv(toVisit[1..], popped + [toVisit[0]], enqueued, startUrl)
  {
    var p := popped + [toVisit[0]];
    assert enqueued[..|p|] == enqueued[..|popped|] + [enqueued[|popped|]];
    assert toVisit[1..] == enqueued[|p|..];
  }

  /** Popping a URL that is already visited keeps the invariant. */
  lemma SkipStep(visited: set<Option<string>>, toVisit: seq<string>, documents: seq<Document>,
                 processed: seq<string>, popped: seq<string>, enqueued: seq<string>,
                 origin: seq<nat>, startUrl: string, baseDomain: string,
                 normalize: string -> Option<string>, fetch: string -> Page)
    requires CrawlInv(visited, toVisit, documents, processed, popped, enqueued, origin,
                      startUrl, baseDomain, normalize, fetch)
    requires toVisit != [] && normalize(toVisit[0]) in visited
    ensures CrawlInv(visited, toVisit[1..], documents, processed, popped + [toVisit[0]], enqueued, origin,
                     startUrl, baseDomain, normalize, fetch)
  {
    SeenSkip(visited, processed, popped, toVisit[0], normalize);
    QueuePop(toVisit, popped, enqueued, startUrl);
  }

  /** The queue part of processing a fresh URL. */
  lemma QueueStep(toVisit: seq<string>, popped: seq<string>, enqueued: seq<string>, added: seq<string>)
    requires toVisit != [] && |popped| < |enqueued| && popped == enqueued[..|popped|]
    requires toVisit == enqueued[|popped|..]
    requires NoDuplicates(toVisit[1..] + added)
    ensures var p := popped + [toVisit[0]];
      var e := enqueued + added;
      |p| <= |e| && p == e[..|p|] && toVisit[1..] + added == e[|p|..]
  {
    var p := popped + [toVisit[0]];
    var e := enqueued + added;
    assert e[..|p|] == enqueued[..|p|];
    assert enqueued[..|p|] == enqueued[..|popped|] + [enqueued[|popped|]];
  }

  /** The origin part of processing a fresh URL. */
  lemma OriginStep(processed: seq<string>, u: string, enqueued: seq<string>, origin: seq<nat>,
                   added: seq<string>, baseDomain: string,
                   normalize: string -> Option<string>, fetch: string -> Page)
    requires |origin| == |enqueued|
    requires forall i :: 1 <= i < |enqueued| ==>
      Introduced(enqueued[i], origin[i], processed, baseDomain, normalize, fetch)
    requires forall l :: l in added ==>
      l in fetch(u).links && Admissible(l, baseDomain, Seen(processed + [u], normalize))
    ensures var e := enqueued + added;
      var o := origin + Repeat(|added|, |processed|);
      |o| == |e| && forall i :: 1 <= i < |e| ==>
        Introduced(e[i], o[i], processed + [u], baseDomain, normalize, fetch)
  {
    var e := enqueued + added;
    var o := origin + Repeat(|added|, |processed|);
    var ps := processed + [u];
    assert ps[..|processed| + 1] == ps;
    forall i | 1 <= i < |e| ensures Introduced(e[i], o[i], ps, baseDomain, normalize, fetch) {
      if i < |enqueued| {
        IntroducedStable(enqueued[i], origin[i], processed, u, baseDomain, normalize, fetch);
      } else {
        assert e[i] == added[i - |enqueued|] && o[i] == |processed|;
      }
    }
  }

  /** Processing a URL whose normal form is not yet visited keeps the invariant. */
  lemma ProcessStep(visited: set<Option<string>>, toVisit: seq<string>, documents: seq<Document>,
                    processed: seq<string>, popped: seq<string>, enqueued: seq<string>,
                    origin: seq<nat>, startUrl: string, baseDomain: string,
                    normalize: string -> Option<string>, fetch: string -> Page)
    requires CrawlInv(visited, toVisit, documents, processed, popped, enqueued, origin,
                      startUrl, baseDomain, normalize, fetch)
    requires toVisit != [] && normalize(toVisit[0]) !in visited
    ensures var u := toVisit[0];
      var v := visited + {normalize(u)};
      var added := NewLinks(toVisit[1..], fetch(u).links, baseDomain, v);
      CrawlInv(v, toVisit[1..] + added, documents + PageDocs(u, fetch(u)), processed + [u],
               popped + [u], enqueued + added, origin + Repeat(|added|, |processed|),
               startUrl, baseDomain, normalize, fetch)
  {
    var u := toVisit[0];
    var v := visited + {normalize(u)};
    var links := fetch(u).links;
    var added := NewLinks(toVisit[1..], links, baseDomain, v);
    var ps := processed + [u];
    var pp := popped + [u];
    SeenSnoc(processed, u, normalize);
    SeenSnoc(popped, u, normalize);
    assert pp[..|popped|] == popped;
    assert ps[..|processed|] == processed;
    assert NewlySeen(pp, normalize) == ps;
    assert Harvest(ps, fetch) == documents + PageDocs(u, fetch(u));
    forall i, j | 0 <= i < j < |ps| ensures normalize(ps[i]) != normalize(ps[j]) {
      if j == |processed| {
        assert ps[i] in processed;
      } else {
        assert ps[i] == processed[i] && ps[j] == processed[j];
      }
    }
    NewLinksProps(toVisit[1..], links, baseDomain, v);
    QueueStep(toVisit, popped, enqueued, added);
    OriginStep(processed, u, enqueued, origin, added, baseDomain, normalize, fetch);
  }

  /** Processing a fresh URL keeps the invariant together with the
      completeness of the enqueue history. */
  lemma FullProcessStep(visited: set<Option<string>>, toVisit: seq<string>, documents: seq<Document>,
                        processed: seq<string>, popped: seq<string>, enqueued: seq<string>,
                        origin: seq<nat>, startUrl: string, baseDomain: string,
                        normalize: string -> Option<string>, fetch: string -> Page)
    requires FullCrawlInv(visited, toVisit, documents, processed, popped, enqueued, origin,
                          startUrl, baseDomain, normalize, fetch)
    requires toVisit != [] && normalize(toVisit[0]) !in visited
    ensures var u := toVisit[0];
      var v := visited + {normalize(u)};
      var added := NewLinks(toVisit[1..], fetch(u).links, baseDomain, v);
      FullCrawlInv(v, toVisit[1..] + added, documents + PageDocs(u, fetch(u)), processed + [u],
                   popped + [u], enqueued + added, origin + Repeat(|added|, |processed|),
                   startUrl, baseDomain, normalize, fetch)
  {
    ProcessStep(visited, toVisit, documents, processed, popped, enqueued, origin,
                startUrl, baseDomain, normalize, fetch);
    var u := toVisit[0];
    var v := visited + {normalize(u)};
    var added := NewLinks(toVisit[1..], fetch(u).links, baseDomain, v);
    SeenSnoc(processed, u, normalize);
    assert v == Seen(processed + [u], normalize);
    NewLinksProps(toVisit[1..], fetch(u).links, baseDomain, v);
    forall l | l in toVisit[1..] ensures l in enqueued {
      assert l in toVisit;
    }
    LinksQueuedStep(enqueued, toVisit[1..], processed, u, added, baseDomain, normalize, fetch);
  }

  /** Reference definition of the breadth-first crawl: the pages processed
      from the queue `toVisit` with the visited set `visited`. The head of
      the queue is popped; a URL whose normal form is already visited is
      skipped; otherwise it is processed and the admissible links of its page
      that are not queued yet are appended, in link order, behind the rest
      of the queue. The crawl ends when the queue is empty or the visited
      set has reached the page budget. */
  function CrawlRun(toVisit: seq<string>, visited: set<Option<string>>, maxPages: int,
                    baseDomain: string, normalize: string -> Option<string>,
                    fetch: string -> Page): seq<string>
    decreases maxPages - |visited|, |toVisit|
  {
    if toVisit == [] || |visited| >= maxPages then []
    else if normalize(toVisit[0]) in visited then
      CrawlRun(toVisit[1..], visited, maxPages, baseDomain, normalize, fetch)
    else
      var v := visited + {normalize(toVisit[0])};
      var added := NewLinks(toVisit[1..], fetch(toVisit[0]).links, baseDomain, v);
      [toVisit[0]] + CrawlRun(toVisit[1..] + added, v, maxPages, baseDomain, normalize, fetch)
  }

  /** The crawl run so far followed by the rest of the run from the current
      queue and visited set is the whole run from the start URL. */
  ghost predicate RunInv(total: seq<string>, processed: seq<string>, toVisit: seq<string>,
                         visited: set<Option<string>>, maxPages: int, baseDomain: string,
                         normalize: string -> Option<string>, fetch: string -> Page) {
    total == processed + CrawlRun(toVisit, visited, maxPages, baseDomain, normalize, fetch)
  }

  /** Skipping a URL whose normal form is already visited does not change the rest of the run. */
  lemma RunSkip(total: seq<string>, processed: seq<string>, toVisit: seq<string>,
                visited: set<Option<string>>, maxPages: int, baseDomain: string,
                normalize: string -> Option<string>, fetch: string -> Page)
    requires RunInv(total, processed, toVisit, visited, maxPages, baseDomain, normalize, fetch)
    requires toVisit != [] && |visited| < maxPages && normalize(toVisit[0]) in visited
    ensures RunInv(total, processed, toVisit[1..], visited, maxPages, baseDomain, normalize, fetch)
  {
  }

  /** Processing a fresh URL moves it from the rest of the run to the run so far. */
  lemma RunProcess(total: seq<string>, processed: seq<string>, toVisit: seq<string>,
                   visited: set<Option<string>>, maxPages: int, baseDomain: string,
                   normalize: string -> Option<string>, fetch: string -> Page)
    requires RunInv(total, processed, toVisit, visited, maxPages, baseDomain, normalize, fetch)
    requires toVisit != [] && |visited| < maxPages && normalize(toVisit[0]) !in visited
    ensures var v := visited + {normalize(toVisit[0])};
      RunInv(total, processed + [toVisit[0]],
             toVisit[1..] + NewLinks(toVisit[1..], fetch(toVisit[0]).links, baseDomain, v),
             v, maxPages, baseDomain, normalize, fetch)
  {
    RunUnfold(processed, toVisit, visited, maxPages, baseDomain, normalize, fetch);
  }

  /** One processing step of the reference run, with the pages processed before it. */
  lemma RunUnfold(processed: seq<string>, toVisit: seq<string>, visited: set<Option<string>>,
                  maxPages: int, baseDomain: string,
                  normalize: string -> Option<string>, fetch: string -> Page)
    requires toVisit != [] && |visited| < maxPages && normalize(toVisit[0]) !in visited
    ensures var v := visited + {normalize(toVisit[0])};
      processed + CrawlRun(toVisit, visited, maxPages, baseDomain, normalize, fetch)
      == (processed + [toVisit[0]])
         + CrawlRun(toVisit[1..] + NewLinks(toVisit[1..], fetch(toVisit[0]).links, baseDomain, v),
                    v, maxPages, baseDomain, normalize, fetch)
  {
  }

  /** Once the queue is empty or the budget reached, the run so far is the whole run. */
  lemma RunEnd(total: seq<string>, processed: seq<string>, toVisit: seq<string>,
               visited: set<Option<string>>, maxPages: int, baseDomain: string,
               normalize: string -> Option<string>, fetch: string -> Page)
    requires RunInv(total, processed, toVisit, visited, maxPages, baseDomain, normalize, fetch)
    requires toVisit == [] || |visited| >= maxPages
    ensures total == processed
  {
  }

  /** Breadth-first order under the budget: a start page linking to `a` and
      then `b`, with a budget of two pages, processes the start page and
      `a`, never `b`, whatever `a` links to. */
  lemma BudgetKeepsLinkOrder(s: string, a: string, b: string, maxPages: int, baseDomain: string,
                             normalize: string -> Option<string>, fetch: string -> Page)
    requires maxPages == 2
    requires normalize(s) == Some(s) && normalize(a) == Some(a)
    requires s != a && s != b && a != b
    requires fetch(s).links == [a, b]
    requires StartsWith(a, baseDomain) && !Blocked(a)
    requires StartsWith(b, baseDomain) && !Blocked(b)
    ensures CrawlRun([s], {}, maxPages, baseDomain, normalize, fetch) == [s, a]
  {
    var v1: set<Option<string>> := {Some(s)};
    var ab := fetch(s).links;
    FreshLinksKept([], a, b, baseDomain, v1);
    var start: seq<string> := [s];
    assert start[1..] + NewLinks(start[1..], ab, baseDomain, v1) == ab;
    RunUnfold([], start, {}, maxPages, baseDomain, normalize, fetch);
    var v2 := v1 + {Some(a)};
    assert |v2| == 2;
    RunUnfold([], ab, v1, maxPages, baseDomain, normalize, fetch);
    assert ab[1..] == [b];
  }

  /** Two distinct admissible links, neither queued, are both appended in order. */
  lemma FreshLinksKept(queue: seq<string>, a: string, b: string, baseDomain: string,
                       visited: set<Option<string>>)
    requires a != b && a !in queue && b !in queue
    requires Admissible(a, baseDomain, visited) && Admissible(b, baseDomain, visited)
    ensures NewLinks(queue, [a, b], baseDomain, visited) == [a, b]
  {
    var ab: seq<string> := [a, b];
    assert ab[0] == a && ab[1..] == [b];
    var bs: seq<string> := [b];
    assert bs[0] == b && bs[1..] == [];
    assert b !in queue + [a];
    assert NewLinks(queue + [a], bs, baseDomain, visited) == [b];
  }

  /** The state invariant holds all along the reference run: from a state
      that satisfies it, the run ends in a state that satisfies it for the
      processed pages extended by the run, within the page budget, with the
      queue empty or the budget reached. The results are the final visited
      set and queue and the final pop, enqueue and origin histories. */
  lemma {:induction false} RunKeepsInv(visited: set<Option<string>>, toVisit: seq<string>,
                                       documents: seq<Document>, processed: seq<string>,
                                       popped: seq<string>, enqueued: seq<string>, origin: seq<nat>,
                                       startUrl: string, maxPages: int, baseDomain: string,
                                       normalize: string -> Option<string>, fetch: string -> Page)
    returns (visitedF: set<Option<string>>, toVisitF: seq<string>,
             poppedF: seq<string>, enqueuedF: seq<string>, originF: seq<nat>)
    requires FullCrawlInv(visited, toVisit, documents, processed, popped, enqueued, origin,
                          startUrl, baseDomain, normalize, fetch)
    requires maxPages <= 0 ==> processed == []
    requires maxPages > 0 ==> |processed| <= maxPages
    ensures var ps := processed + CrawlRun(toVisit, visited, maxPages, baseDomain, normalize, fetch);
      FullCrawlInv(visitedF, toVisitF, Harvest(ps, fetch), ps, poppedF, enqueuedF, originF,
                   startUrl, baseDomain, normalize, fetch)
      && (maxPages <= 0 ==> ps == [])
      && (maxPages > 0 ==> |ps| <= maxPages)
      && (toVisitF == [] || |visitedF| >= maxPages)
    decreases maxPages - |visited|, |toVisit|
  {
    if toVisit == [] || |visited| >= maxPages {
      assert processed + CrawlRun(toVisit, visited, maxPages, baseDomain, normalize, fetch) == processed;
      visitedF, toVisitF, poppedF, enqueuedF, originF := visited, toVisit, popped, enqueued, origin;
    } else if normalize(toVisit[0]) in visited {
      SkipStep(visited, toVisit, documents, processed, popped, enqueued, origin,
               startUrl, baseDomain, normalize, fetch);
      visitedF, toVisitF, poppedF, enqueuedF, originF :=
        RunKeepsInv(visited, toVisit[1..], documents, processed, popped + [toVisit[0]], enqueued, origin,
                    startUrl, maxPages, baseDomain, normalize, fetch);
    } else {
      var u := toVisit[0];
      var v := visited + {normalize(u)};
      var added := NewLinks(toVisit[1..], fetch(u).links, baseDomain, v);
      FullProcessStep(visited, toVisit, documents, processed, popped, enqueued, origin,
                      startUrl, baseDomain, normalize, fetch);
      visitedF, toVisitF, poppedF, enqueuedF, originF :=
        RunKeepsInv(v, toVisit[1..] + added, documents + PageDocs(u, fetch(u)), processed + [u],
                    popped + [u], enqueued + added, origin + Repeat(|added|, |processed|),
                    startUrl, maxPages, baseDomain, normalize, fetch);
      RunUnfold(processed, toVisit, visited, maxPages, baseDomain, normalize, fetch);
    }
  }

  /** What the reference run from the start URL keeps, with the histories
      of that run: every URL popped, every URL ever queued (the start URL
      first) and, for each queued link, the processed page it was found on.
      The run stays within the budget, processes URLs with distinct normal
      forms in the order they were first popped, and pops the queue in the
      order it was filled; every queued link was introduced by a processed
      page and every link a processed page introduced was queued; and when
      the budget is not used up the whole queue was popped. */
  lemma CrawlRunFacts(startUrl: string, maxPages: int, baseDomain: string,
                      normalize: string -> Option<string>, fetch: string -> Page)
    returns (popped: seq<string>, enqueued: seq<string>, origin: seq<nat>)
    ensures var processed := CrawlRun([startUrl], {}, maxPages, baseDomain, normalize, fetch);
      && (maxPages <= 0 ==> processed == [])
      && (maxPages > 0 ==> |processed| <= maxPages)
      && (forall i, j :: 0 <= i < j < |processed| ==> normalize(processed[i]) != normalize(processed[j]))
      && processed == NewlySeen(popped, normalize)
      && |enqueued| >= 1 && enqueued[0] == startUrl
      && |popped| <= |enqueued| && popped == enqueued[..|popped|]
      && NoDuplicates(enqueued[|popped|..])
      && |origin| == |enqueued|
      && (forall i :: 1 <= i < |enqueued| ==>
            Introduced(enqueued[i], origin[i], processed, baseDomain, normalize, fetch))
      && (forall l, j: nat :: Introduced(l, j, processed, baseDomain, normalize, fetch) ==> l in enqueued)
      && (|processed| < maxPages ==> |popped| == |enqueued|)
  {
    ghost var visitedF, toVisitF;
    visitedF, toVisitF, popped, enqueued, origin :=
      RunKeepsInv({}, [startUrl], [], [], [], [startUrl], [0], startUrl, maxPages, baseDomain, normalize, fetch);
    assert [] + CrawlRun([startUrl], {}, maxPages, baseDomain, normalize, fetch)
      == CrawlRun([startUrl], {}, maxPages, baseDomain, normalize, fetch);
  }

  /** Reach of the reference run from the start URL: with a positive
      budget the start URL is visited, and unless the budget is used up every
      link a processed page introduced is visited too (up to normalization),
      so the crawl is closed under following admissible links. */
  lemma CrawlReach(startUrl: string, maxPages: int, baseDomain: string,
                   normalize: string -> Option<string>, fetch: string -> Page)
    ensures var processed := CrawlRun([startUrl], {}, maxPages, baseDomain, normalize, fetch);
      && (maxPages > 0 ==> normalize(startUrl) in Seen(processed, normalize))
      && (|processed| < maxPages ==> forall l, j: nat ::
            Introduced(l, j, processed, baseDomain, normalize, fetch) ==> normalize(l) in Seen(processed, normalize))
  {
    var popped, enqueued, origin := CrawlRunFacts(startUrl, maxPages, baseDomain, normalize, fetch);
    NewlySeenCovers(popped, normalize);
    if maxPages > 0 {
      // An empty pop history would leave nothing processed, below the budget.
      assert popped != [] && popped[0] == startUrl;
    }
    if |CrawlRun([startUrl], {}, maxPages, baseDomain, normalize, fetch)| < maxPages {
      assert popped == enqueued;
    }
  }

  /** The HTTP crawl loop. Besides the documents it returns the URLs reported
      to the progress callback (one per processed page), which are exactly
      the reference run from the start URL, and as ghost results the
      histories of that run: every URL popped, every URL ever queued (the
      start URL first) and, for each queued link, the processed page it was
      found on. */
  method CrawlHttp(startUrl: string, maxPages: int, baseDomain: string,
                   normalize: string -> Option<string>, fetch: string -> Page)
    returns (documents: seq<Document>, processed: seq<string>,
             ghost popped: seq<string>, ghost enqueued: seq<string>, ghost origin: seq<nat>)
    ensures maxPages <= 0 ==> processed == []
    ensures maxPages > 0 ==> |processed| <= maxPages
    ensures forall i, j :: 0 <= i < j < |processed| ==> normalize(processed[i]) != normalize(processed[j])
    ensures processed == NewlySeen(popped, normalize)
    ensures |enqueued| >= 1 && enqueued[0] == startUrl
    ensures |popped| <= |enqueued| && popped == enqueued[..|popped|]
    ensures NoDuplicates(enqueued[|popped|..])
    ensures |origin| == |enqueued|
    ensures forall i :: 1 <= i < |enqueued| ==>
      Introduced(enqueued[i], origin[i], processed, baseDomain, normalize, fetch)
    ensures forall l, j: nat :: Introduced(l, j, processed, baseDomain, normalize, fetch) ==> l in enqueued
    ensures |processed| < maxPages ==> |popped| == |enqueued|
    ensures documents == Harvest(processed, fetch)
    ensures processed == CrawlRun([startUrl], {}, maxPages, baseDomain, normalize, fetch)
  {
    var visited: set<Option<string>> := {};
    var toVisit := [startUrl];
    documents := [];
    processed := [];
    ghost var total := CrawlRun(toVisit, visited, maxPages, baseDomain, normalize, fetch);
    while toVisit != [] && |visited| < maxPages
      invariant documents == Harvest(processed, fetch)
      invariant RunInv(total, processed, toVisit, visited, maxPages, baseDomain, normalize, fetch)
      decreases maxPages - |visited|, |toVisit|
    {
      var currentUrl := toVisit[0];
      var normalizedCurrent := normalize(currentUrl);
      if normalizedCurrent in visited {
        RunSkip(total, processed, toVisit, visited, maxPages, baseDomain, normalize, fetch);
        toVisit := toVisit[1..];
        continue;
      }
      RunProcess(total, processed, toVisit, visited, maxPages, baseDomain, normalize, fetch);
      toVisit := toVisit[1..];
      visited := visited + {normalizedCurrent};
      ghost var done := processed;
      processed := processed + [currentUrl];
      assert processed[..|done|] == done;

      var page := fetch(currentUrl);
      var pageDocs := PageDocuments(currentUrl, page);
      documents := documents + pageDocs;

      toVisit := EnqueueLinks(toVisit, page.links, baseDomain, visited);
    }
    RunEnd(total, processed, toVisit, visited, maxPages, baseDomain, normalize, fetch);
    popped, enqueued, origin := CrawlRunFacts(startUrl, maxPages, baseDomain, normalize, fetch);
  }
}
