/** Collecting an account's Mipped threads from the links on its recent-content pages, and what an import makes
    of them. Which links a page shows, in document order, is up to the server. */
module MippedList {
  import opened Types
  import opened Tables
  import opened Text
  import opened MippedRef
  import opened Importing
  import Lolz

  datatype Link = Link(href: string, text: string)

  datatype Page = Failed | Answer(status: int, links: seq<Link>)

  type Server = nat -> Page

  /** A thread found, before its address is put together. */
  datatype Hit = Hit(ref: Ref, title: string)

  function Ids(hits: seq<Hit>): set<string> {
    set h | h in hits :: h.ref.id
  }

  /** Links with a text shorter than two characters are counters and icons. */
  predicate Named(l: Link) {
    |Trim(l.text)| >= 2
  }

  function TakeLink(hits: seq<Hit>, l: Link): seq<Hit> {
    match Scrape(l.href)
    case None => hits
    case Some(r) => if r.id in Ids(hits) || !Named(l) then hits else hits + [Hit(r, Trim(l.text))]
  }

  /** The hits on top of `hits` after one page. */
  function TakeLinks(links: seq<Link>, hits: seq<Hit>): seq<Hit> {
    if links == [] then hits else TakeLink(TakeLinks(links[..|links| - 1], hits), links[|links| - 1])
  }

  function Listing(hits: seq<Hit>): (out: seq<Lolz.Discovered>)
    ensures |out| == |hits|
    ensures forall k :: 0 <= k < |hits| ==> out[k] == Lolz.Discovered(Emit(hits[k].ref), hits[k].title)
  {
    seq(|hits|, k requires 0 <= k < |hits| => Lolz.Discovered(Emit(hits[k].ref), hits[k].title))
  }

  method ScrapeThreadLinks(links: seq<Link>, seen: set<string>, out: seq<Lolz.Discovered>, ghost hits: seq<Hit>)
    returns (seen': set<string>, out': seq<Lolz.Discovered>, added: nat)
    requires seen == Ids(hits) && out == Listing(hits)
    ensures out' == Listing(TakeLinks(links, hits)) && seen' == Ids(TakeLinks(links, hits))
    ensures added == |out'| - |out|
  {
    seen', out', added := seen, out, 0;
    for i := 0 to |links|
      invariant out' == Listing(TakeLinks(links[..i], hits)) && seen' == Ids(TakeLinks(links[..i], hits))
      invariant added == |out'| - |out|
    {
      assert links[..i + 1][..i] == links[..i];
      ghost var before := TakeLinks(links[..i], hits);
      var m := Scrape(links[i].href);
      if m.None? {
        continue;
      }
      if m.value.id in seen' {
        continue;
      }
      var title := Trim(links[i].text);
      if |title| < 2 {
        continue;
      }
      IdsAppend(before, Hit(m.value, title));
      seen' := seen' + {m.value.id};
      out' := out' + [Lolz.Discovered(Emit(m.value), title)];
      added := added + 1;
    }
    assert links[..|links|] == links;
  }

  lemma IdsAppend(hits: seq<Hit>, h: Hit)
    ensures Ids(hits + [h]) == Ids(hits) + {h.ref.id}
  {
    assert forall x :: x in hits + [h] <==> x in hits || x == h;
  }

  /** The hits once the crawl is over, and whether it ended without a transport error. */
  function Crawl(server: Server, page: nat, hits: seq<Hit>): (seq<Hit>, bool)
    decreases 21 - page
  {
    if page > 20 then (hits, true)
    else
      var a := server(page);
      if a.Failed? then (hits, false)
      else if a.status >= 400 then (hits, true)
      else
        var kept := TakeLinks(a.links, hits);
        if |kept| == |hits| then (kept, true) else Crawl(server, page + 1, kept)
  }

  method MyThreads(server: Server) returns (result: Lolz.Outcome, fetches: nat)
    ensures var (hits, whole) := Crawl(server, 1, []);
      result == if whole then Lolz.Listed(Listing(hits)) else Lolz.Broken(Listing(hits))
    ensures fetches <= 20
  {
    ghost var hits: seq<Hit> := [];
    var out: seq<Lolz.Discovered> := [];
    var seen: set<string> := {};
    fetches := 0;
    var page := 1;
    while page <= 20
      invariant 1 <= page <= 21 && fetches == page - 1
      invariant seen == Ids(hits) && out == Listing(hits)
      invariant Crawl(server, page, hits) == Crawl(server, 1, [])
    {
      var a := server(page);
      fetches := fetches + 1;
      if a.Failed? {
        return Lolz.Broken(out), fetches;
      }
      if a.status >= 400 {
        break;
      }
      ghost var before := hits;
      var added;
      seen, out, added := ScrapeThreadLinks(a.links, seen, out, hits);
      hits := TakeLinks(a.links, hits);
      if added == 0 {
        break;
      }
      page := page + 1;
    }
    result := Lolz.Listed(out);
  }

  // ----- what is found -----

  /** Ids differ pairwise, and every address put together reads back as its thread. */
  ghost predicate Sane(hits: seq<Hit>) {
    && (forall k :: 0 <= k < |hits| ==> ParseRef(Emit(hits[k].ref)) == Some(hits[k].ref)
                                        && CanonicalRef(MIPPED, Emit(hits[k].ref)) == "m:" + hits[k].ref.id)
    && (forall j, k :: 0 <= j < k < |hits| ==> hits[j].ref.id != hits[k].ref.id)
  }

  lemma {:induction false} TakeLinksSane(links: seq<Link>, hits: seq<Hit>)
    requires Sane(hits)
    ensures Sane(TakeLinks(links, hits))
  {
    if links == [] {
    } else {
      TakeLinksSane(links[..|links| - 1], hits);
      TakeLinkSane(TakeLinks(links[..|links| - 1], hits), links[|links| - 1]);
    }
  }

  lemma TakeLinkSane(hits: seq<Hit>, l: Link)
    requires Sane(hits)
    ensures Sane(TakeLink(hits, l))
  {
    if Scrape(l.href).Some? {
      ScrapedLinkRoundTrips(l.href);
      assert forall k :: 0 <= k < |hits| ==> hits[k] in hits;
    }
  }

  lemma {:induction false} CrawlSane(server: Server, page: nat, hits: seq<Hit>)
    requires Sane(hits)
    ensures Sane(Crawl(server, page, hits).0)
    decreases 21 - page
  {
    if page > 20 || server(page).Failed? || server(page).status >= 400 {
    } else {
      TakeLinksSane(server(page).links, hits);
      CrawlSane(server, page + 1, TakeLinks(server(page).links, hits));
    }
  }

  /** Some link with a text leads to the thread of this id. */
  ghost predicate Leads(links: seq<Link>, id: string) {
    exists k :: 0 <= k < |links| && Named(links[k]) && Scrape(links[k].href).Some? && Scrape(links[k].href).value.id == id
  }

  /** One page, exactly: a thread is among the hits afterwards if and only if it was before or a link with
      a text leads to it. */
  lemma {:induction false} PageIsComplete(links: seq<Link>, hits: seq<Hit>, id: string)
    ensures id in Ids(TakeLinks(links, hits)) <==> id in Ids(hits) || Leads(links, id)
  {
    if links == [] {
    } else {
      var front, l := links[..|links| - 1], links[|links| - 1];
      var before := TakeLinks(front, hits);
      PageIsComplete(front, hits, id);
      LeadsAppend(front, l, id);
      assert links == front + [l];
      if Scrape(l.href).Some? {
        IdsAppend(before, Hit(Scrape(l.href).value, Trim(l.text)));
      }
    }
  }

  lemma LeadsAppend(front: seq<Link>, l: Link, id: string)
    ensures Leads(front + [l], id) <==>
              Leads(front, id) || (Named(l) && Scrape(l.href).Some? && Scrape(l.href).value.id == id)
  {
    var links := front + [l];
    assert links[|front|] == l;
    assert forall k :: 0 <= k < |front| ==> links[k] == front[k];
  }

  /** The threads a page leads to. */
  function LedTo(links: seq<Link>): set<string> {
    set k | 0 <= k < |links| && Named(links[k]) && Scrape(links[k].href).Some? :: Scrape(links[k].href).value.id
  }

  lemma LedToIsLeads(links: seq<Link>, id: string)
    ensures id in LedTo(links) <==> Leads(links, id)
  {
  }

  lemma IdsAfterPage(links: seq<Link>, hits: seq<Hit>)
    ensures Ids(TakeLinks(links, hits)) == Ids(hits) + LedTo(links)
  {
    forall id ensures id in Ids(TakeLinks(links, hits)) <==> id in Ids(hits) || id in LedTo(links) {
      PageIsComplete(links, hits, id);
      LedToIsLeads(links, id);
    }
  }

  lemma {:induction false} PageKeepsHits(links: seq<Link>, hits: seq<Hit>)
    ensures hits <= TakeLinks(links, hits)
    ensures LedTo(links) <= Ids(hits) ==> TakeLinks(links, hits) == hits
  {
    if links == [] {
    } else {
      var front, l := links[..|links| - 1], links[|links| - 1];
      PageKeepsHits(front, hits);
      forall id | id in LedTo(front) ensures id in LedTo(links) {
        var k :| 0 <= k < |front| && Named(front[k]) && Scrape(front[k].href).Some? && Scrape(front[k].href).value.id == id;
        assert links[k] == front[k];
      }
      assert Named(l) && Scrape(l.href).Some? ==> Scrape(l.href).value.id in LedTo(links);
    }
  }

  /** A page adds nothing exactly when every thread it leads to was found before. */
  lemma BarrenPage(links: seq<Link>, hits: seq<Hit>)
    ensures hits <= TakeLinks(links, hits)
    ensures |TakeLinks(links, hits)| == |hits| <==> LedTo(links) <= Ids(hits)
    ensures |TakeLinks(links, hits)| == |hits| ==> TakeLinks(links, hits) == hits
  {
    PageKeepsHits(links, hits);
    IdsAfterPage(links, hits);
    if |TakeLinks(links, hits)| == |hits| {
      assert TakeLinks(links, hits)[..|hits|] == TakeLinks(links, hits);
    }
  }

  // ----- when the crawl finds everything -----

  function AllLed(pages: seq<seq<Link>>): set<string> {
    if pages == [] then {} else LedTo(pages[0]) + AllLed(pages[1..])
  }

  /** These pages are shown from `page` on, at most up to the twentieth, and an error after them. */
  ghost predicate Serves(server: Server, pages: seq<seq<Link>>, page: nat) {
    && page + |pages| <= 21
    && (forall p :: page <= p < page + |pages| ==>
          server(p).Answer? && server(p).status < 400 && server(p).links == pages[p - page])
    && (page + |pages| <= 20 ==> server(page + |pages|).Answer? && server(page + |pages|).status >= 400)
  }

  /** The p-th page leads to no thread that is not known or on a page before it. */
  ghost predicate Barren(pages: seq<seq<Link>>, known: set<string>, p: nat)
    requires p < |pages|
  {
    LedTo(pages[p]) <= known + AllLed(pages[..p])
  }

  /** No page without a new thread stands before a page with one. */
  ghost predicate NewsFirst(pages: seq<seq<Link>>, known: set<string>) {
    forall p, q :: 0 <= p < q < |pages| && Barren(pages, known, p) ==> Barren(pages, known, q)
  }

  lemma BarrenShift(pages: seq<seq<Link>>, known: set<string>, p: nat)
    requires 0 < p < |pages|
    ensures Barren(pages, known, p) <==> Barren(pages[1..], known + LedTo(pages[0]), p - 1)
  {
    assert pages[..p][1..] == pages[1..][..p - 1];
    assert known + (LedTo(pages[0]) + AllLed(pages[..p][1..])) == known + LedTo(pages[0]) + AllLed(pages[1..][..p - 1]);
  }

  lemma {:induction false} AllBarren(pages: seq<seq<Link>>, known: set<string>)
    ensures AllLed(pages) <= known <==> forall p :: 0 <= p < |pages| ==> Barren(pages, known, p)
  {
    if pages == [] {
    } else {
      assert pages[..0] == [];
      if LedTo(pages[0]) <= known {
        assert known + LedTo(pages[0]) == known;
        AllBarren(pages[1..], known);
        forall p | 0 < p < |pages| ensures Barren(pages, known, p) <==> Barren(pages[1..], known, p - 1) {
          BarrenShift(pages, known, p);
        }
        BarrenTail(pages, known);
      } else {
        assert !Barren(pages, known, 0);
      }
    }
  }

  lemma BarrenTail(pages: seq<seq<Link>>, known: set<string>)
    requires pages != [] && Barren(pages, known, 0)
    requires forall p :: 0 < p < |pages| ==> (Barren(pages, known, p) <==> Barren(pages[1..], known, p - 1))
    ensures (forall p :: 0 <= p < |pages| ==> Barren(pages, known, p)) <==>
            forall p :: 0 <= p < |pages[1..]| ==> Barren(pages[1..], known, p)
  {
    if forall p :: 0 <= p < |pages| ==> Barren(pages, known, p) {
      forall p | 0 <= p < |pages[1..]| ensures Barren(pages[1..], known, p) {
        assert Barren(pages, known, p + 1);
      }
    }
  }

  lemma NewsFirstAfterBarren(pages: seq<seq<Link>>, known: set<string>)
    requires pages != [] && LedTo(pages[0]) <= known
    ensures NewsFirst(pages, known) <==> AllLed(pages) <= known
  {
    AllBarren(pages, known);
    assert pages[..0] == [];
    assert Barren(pages, known, 0);
  }

  lemma NewsFirstAfterNews(pages: seq<seq<Link>>, known: set<string>)
    requires pages != [] && !(LedTo(pages[0]) <= known)
    ensures NewsFirst(pages, known) <==> NewsFirst(pages[1..], known + LedTo(pages[0]))
  {
    var rest, more := pages[1..], known + LedTo(pages[0]);
    assert pages[..0] == [] && !Barren(pages, known, 0);
    forall p | 0 < p < |pages| ensures Barren(pages, known, p) <==> Barren(rest, more, p - 1) {
      BarrenShift(pages, known, p);
    }
    if NewsFirst(pages, known) {
      forall p, q | 0 <= p < q < |rest| && Barren(rest, more, p) ensures Barren(rest, more, q) {
        assert Barren(pages, known, p + 1) && Barren(pages, known, q + 1);
      }
    }
  }

  lemma CrawlStep(server: Server, pages: seq<seq<Link>>, page: nat, hits: seq<Hit>)
    requires Serves(server, pages, page) && pages != []
    ensures Serves(server, pages[1..], page + 1)
    ensures var kept := TakeLinks(pages[0], hits);
      && Ids(kept) == Ids(hits) + LedTo(pages[0])
      && Crawl(server, page, hits) == if LedTo(pages[0]) <= Ids(hits) then (hits, true) else Crawl(server, page + 1, kept)
  {
    assert server(page).links == pages[page - page];
    BarrenPage(pages[0], hits);
    IdsAfterPage(pages[0], hits);
  }

  /** The crawl from this page on adds every thread that the pages lead to. */
  ghost predicate FindsAll(server: Server, pages: seq<seq<Link>>, page: nat, hits: seq<Hit>) {
    Ids(Crawl(server, page, hits).0) == Ids(hits) + AllLed(pages)
  }

  lemma StopsAtBarren(server: Server, pages: seq<seq<Link>>, page: nat, hits: seq<Hit>)
    requires Serves(server, pages, page) && pages != [] && LedTo(pages[0]) <= Ids(hits)
    ensures FindsAll(server, pages, page, hits) <==> AllLed(pages) <= Ids(hits)
  {
    CrawlStep(server, pages, page, hits);
    SetLaws(Ids(hits), LedTo(pages[0]), AllLed(pages[1..]));
  }

  lemma GoesOnAfterNews(server: Server, pages: seq<seq<Link>>, page: nat, hits: seq<Hit>)
    requires Serves(server, pages, page) && pages != [] && !(LedTo(pages[0]) <= Ids(hits))
    ensures FindsAll(server, pages, page, hits) <==> FindsAll(server, pages[1..], page + 1, TakeLinks(pages[0], hits))
  {
    CrawlStep(server, pages, page, hits);
    SetLaws(Ids(hits), LedTo(pages[0]), AllLed(pages[1..]));
  }

  lemma {:induction false} CrawlFindsAllIff(server: Server, pages: seq<seq<Link>>, page: nat, hits: seq<Hit>)
    requires Serves(server, pages, page)
    ensures FindsAll(server, pages, page, hits) <==> NewsFirst(pages, Ids(hits))
    decreases |pages|
  {
    if pages == [] {
      NoPages(server, pages, page, hits);
    } else if LedTo(pages[0]) <= Ids(hits) {
      StopsAtBarren(server, pages, page, hits);
      NewsFirstAfterBarren(pages, Ids(hits));
    } else {
      var rest, kept := pages[1..], TakeLinks(pages[0], hits);
      RestIsServed(server, pages, page);
      CrawlFindsAllIff(server, rest, page + 1, kept);
      GoesOnAfterNews(server, pages, page, hits);
      NewsFirstAfterNews(pages, Ids(hits));
      IdsAfterPage(pages[0], hits);
    }
  }

  lemma NoPages(server: Server, pages: seq<seq<Link>>, page: nat, hits: seq<Hit>)
    requires Serves(server, pages, page) && pages == []
    ensures FindsAll(server, pages, page, hits) && NewsFirst(pages, Ids(hits))
  {
    assert Crawl(server, page, hits).0 == hits;
  }

  lemma RestIsServed(server: Server, pages: seq<seq<Link>>, page: nat)
    requires Serves(server, pages, page) && pages != []
    ensures Serves(server, pages[1..], page + 1)
  {
  }

  lemma SetLaws(known: set<string>, here: set<string>, later: set<string>)
    ensures known + (here + later) == known + here + later
    ensures known == known + (here + later) <==> here + later <= known
  {
  }

  /** The exact condition: among at most 20 pages shown, the crawl finds every thread a page leads to if and only
      if no page without a new thread stands before one that has one. */
  lemma FindsAllIff(server: Server, pages: seq<seq<Link>>)
    requires Serves(server, pages, 1)
    ensures Ids(Crawl(server, 1, []).0) == AllLed(pages) <==> NewsFirst(pages, {})
  {
    CrawlFindsAllIff(server, pages, 1, []);
    assert Ids([]) == {};
    assert {} + AllLed(pages) == AllLed(pages);
  }

  // ----- what an import makes of it -----

  lemma HitsHaveDistinctKeys(hits: seq<Hit>, job: Job, j: nat, k: nat)
    requires Sane(hits) && job == JobFor(job.accountId, MIPPED, job.interval) && j < k < |hits|
    ensures job.key(Listing(hits)[j].ref) != job.key(Listing(hits)[k].ref)
  {
    var a, b := hits[j].ref.id, hits[k].ref.id;
    assert ("m:" + a)[2..] == a && ("m:" + b)[2..] == b;
  }

  /** Importing what was scraped adds exactly one thread per hit whose thread the account does not have yet,
      whatever the server showed. */
  lemma ScrapedThreadsAreAllAdded(server: Server, db: Db, job: Job, io: nat -> bool)
    requires Sound(db) && job.accountId in db.accounts && (forall i :: io(i))
    requires job == JobFor(job.accountId, MIPPED, job.interval)
    ensures var found := Listing(Crawl(server, 1, []).0);
      Merge(db, job, found, io, |found|).added == Unknown(found, job, Keys(db, job), |found|)
  {
    var hits := Crawl(server, 1, []).0;
    CrawlSane(server, 1, []);
    forall j, k | 0 <= j < k < |hits| ensures job.key(Listing(hits)[j].ref) != job.key(Listing(hits)[k].ref) {
      HitsHaveDistinctKeys(hits, job, j, k);
    }
    DistinctThreadsAreAllAdded(db, job, Listing(hits), io);
  }

  // ----- in plain characters -----

  /** A link of the forum to a new thread, with a title of two characters or more, is taken with the title and stored
      under the thread's full address; with a shorter text, or to a thread found before, it is passed over. */
  lemma LinkTaken(hits: seq<Hit>, pre: string, slug: string, id: string, rest: string, a: string, title: string, b: string)
    requires pre in {"", "/f", "https://mipped.com/f"} && Slug(slug) && Digits(id) && (rest == "" || !('0' <= rest[0] <= '9'))
    requires forall k :: 0 <= k < |slug| ==> slug[k] != '\"' && (slug[k] == '.' && 0 < k < |slug| - 1 ==> !('0' <= slug[k + 1] <= '9'))
    requires White(a) && White(b) && (title == "" || (!White(title[..1]) && !White(title[|title| - 1..])))
    ensures var l := Link(pre + ("/threads/" + (slug + ("." + (id + rest)))), a + title + b);
      if |title| >= 2 && (forall k :: 0 <= k < |hits| ==> hits[k].ref.id != id) then
        && Listing(TakeLink(hits, l)) ==
           Listing(hits) + [Lolz.Discovered("https://mipped.com/f/threads/" + slug + "." + id + "/", title)]
      else TakeLink(hits, l) == hits
  {
    var href := pre + ("/threads/" + (slug + ("." + (id + rest))));
    SiteLinksInPlain(pre, slug, id, rest);
    assert Scrape(href) == Some(Ref(slug, id));
    TrimStrips(a, title, b);
    assert id in Ids(hits) <==> exists k :: 0 <= k < |hits| && hits[k].ref.id == id by {
      if id in Ids(hits) {
        var h :| h in hits && h.ref.id == id;
      }
      if k :| 0 <= k < |hits| && hits[k].ref.id == id {
        assert hits[k] in hits;
      }
    }
  }

  /** How the crawl ends before page 20: on a transport error as broken, on an error status as it is. */
  lemma HowCrawlEnds(server: Server, page: nat, hits: seq<Hit>)
    requires page <= 20
    ensures server(page).Failed? ==> Crawl(server, page, hits) == (hits, false)
    ensures server(page).Answer? && server(page).status >= 400 ==> Crawl(server, page, hits) == (hits, true)
  {
  }

  /** An added row holds the full address of a hit and its title, disabled, for Mipped. */
  lemma {:induction false} AddedScrapedRow(db: Db, job: Job, hits: seq<Hit>, io: nat -> bool, id: nat)
    requires Sound(db) && job == JobFor(job.accountId, "mipped", job.interval)
    requires id in Merge(db, job, Listing(hits), io, |hits|).db.threads && id !in db.threads
    ensures exists k :: 0 <= k < |hits| && Merge(db, job, Listing(hits), io, |hits|).db.threads[id] ==
              Thread(id, job.accountId, "mipped", "https://mipped.com/f/threads/" + hits[k].ref.slug + "." + hits[k].ref.id + "/",
                     hits[k].title, job.interval, false, None, None)
  {
    AddedRowsStemFromFound(db, job, Listing(hits), io, |hits|, id);
  }
}
