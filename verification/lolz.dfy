/** Enumerating an account's own Lolzteam threads page by page, newest first, with an age limit that lets the
    loop stop early. The server is arbitrary: each page is asked for at most once with and once without an
    order, so a function of both says all there is to say about its answers. */
module Lolz {
  import opened Types
  import opened Seqs

  /** A row of the listing; `created` is None when the date does not read as an integer. */
  datatype Row = Row(threadId: string, id: string, created: Option<int>, threadTitle: string, title: string)

  datatype Page = Failed | Answer(status: int, rows: seq<Row>, pages: int, next: string)

  datatype Discovered = Discovered(ref: string, title: string)

  /** Broken: a transport error, with what had been found. Refused: the token may not list threads. */
  datatype Outcome = Listed(out: seq<Discovered>) | Broken(out: seq<Discovered>) | Refused

  type Server = (nat, bool) -> Page

  function FirstNonEmpty(a: string, b: string): string {
    if a != "" then a else b
  }

  function RefOf(r: Row): string {
    FirstNonEmpty(r.threadId, r.id)
  }

  function Found(r: Row): Discovered {
    Discovered(RefOf(r), FirstNonEmpty(r.threadTitle, r.title))
  }

  predicate TooOld(r: Row, cutoff: Option<Time>) {
    cutoff.Some? && r.created.Some? && r.created.value > 0 && r.created.value * SECOND < cutoff.value
  }

  function Refs(out: seq<Discovered>): set<string> {
    set d | d in out :: d.ref
  }

  function Add(r: Row, cutoff: Option<Time>, out: seq<Discovered>): seq<Discovered> {
    if RefOf(r) == "" || RefOf(r) == "0" || RefOf(r) in Refs(out) || TooOld(r, cutoff) then out else out + [Found(r)]
  }

  /** Everything worth keeping among the rows, on top of what was found before. */
  function Take(rows: seq<Row>, cutoff: Option<Time>, out: seq<Discovered>): seq<Discovered> {
    if rows == [] then out else Take(rows[1..], cutoff, Add(rows[0], cutoff, out))
  }

  /** Whether the answer for this page leads on to another page. */
  predicate More(a: Page, page: nat)
    requires a.Answer?
  {
    if a.pages > 0 then page < a.pages else a.next != ""
  }

  function Crawl(server: Server, cutoff: Option<Time>, page: nat, useOrder: bool, out: seq<Discovered>): Outcome
    decreases 51 - page
  {
    if page > 50 then Listed(out)
    else
      var first := server(page, useOrder);
      var retry := first.Answer? && first.status == 400 && useOrder;
      var a := if retry then server(page, false) else first;
      var order := useOrder && !retry;
      if a.Failed? then Broken(out)
      else if a.status == 401 || a.status == 403 then if out != [] then Listed(out) else Refused
      else if a.status >= 400 || a.rows == [] then Listed(out)
      else
        var kept := Take(a.rows, cutoff, out);
        if (cutoff.Some? && order && kept == out) || !More(a, page) then Listed(kept)
        else Crawl(server, cutoff, page + 1, order, kept)
  }

  ghost predicate Sane(out: seq<Discovered>) {
    && (forall k :: 0 <= k < |out| ==> out[k].ref != "" && out[k].ref != "0")
    && (forall j, k :: 0 <= j < k < |out| ==> out[j].ref != out[k].ref)
  }

  /** For every server whatever: the result is the crawl's, its refs are distinct and never "" or "0", and
      at most 51 pages are fetched. */
  method MyThreads(server: Server, cutoff: Option<Time>) returns (result: Outcome, fetches: nat)
    ensures result == Crawl(server, cutoff, 1, true, [])
    ensures !result.Refused? ==> Sane(result.out)
    ensures fetches <= 51
  {
    var out: seq<Discovered> := [];
    var seen: set<string> := {};
    var useOrder := true;
    var page := 1;
    fetches := 0;
    while page <= 50
      invariant 1 <= page <= 51
      invariant Crawl(server, cutoff, page, useOrder, out) == Crawl(server, cutoff, 1, true, [])
      invariant Sane(out) && seen == Refs(out)
      invariant fetches == page - 1 + if useOrder then 0 else 1
    {
      var a := server(page, useOrder);
      fetches := fetches + 1;
      if a.Failed? {
        return Broken(out), fetches;
      }
      ghost var ordered := useOrder;
      if a.status == 400 && useOrder {
        useOrder := false;
        a := server(page, useOrder);
        fetches := fetches + 1;
        if a.Failed? {
          return Broken(out), fetches;
        }
      }
      if a.status == 401 || a.status == 403 {
        if |out| > 0 {
          return Listed(out), fetches;
        }
        return Refused, fetches;
      }
      if a.status >= 400 || |a.rows| == 0 {
        return Listed(out), fetches;
      }
      ghost var before := out;
      var pageHadFresh;
      out, seen, pageHadFresh := TakeRows(a.rows, cutoff, out, seen);
      if cutoff.Some? && useOrder && !pageHadFresh {
        return Listed(out), fetches;
      }
      if a.pages > 0 {
        if page >= a.pages {
          return Listed(out), fetches;
        }
      } else if a.next == "" {
        return Listed(out), fetches;
      }
      page := page + 1;
    }
    result := Listed(out);
  }

  method TakeRows(rows: seq<Row>, cutoff: Option<Time>, found: seq<Discovered>, had: set<string>)
    returns (out: seq<Discovered>, seen: set<string>, grew: bool)
    requires Sane(found) && had == Refs(found)
    ensures out == Take(rows, cutoff, found) && Sane(out) && seen == Refs(out)
    ensures grew <==> out != found
  {
    out, seen, grew := found, had, false;
    for i := 0 to |rows|
      invariant Take(rows[i..], cutoff, out) == Take(rows, cutoff, found)
      invariant Sane(out) && seen == Refs(out)
      invariant |out| >= |found| && (grew <==> |out| > |found|) && (!grew ==> out == found)
    {
      var th := rows[i];
      assert rows[i..][1..] == rows[i + 1..];
      var ref := FirstNonEmpty(th.threadId, th.id);
      if ref == "" || ref == "0" || ref in seen {
        continue;
      }
      if TooOld(th, cutoff) {
        continue;
      }
      seen := seen + {ref};
      grew := true;
      RefsAppend(out, Found(th));
      out := out + [Discovered(ref, FirstNonEmpty(th.threadTitle, th.title))];
    }
  }

  lemma RefsAppend(out: seq<Discovered>, d: Discovered)
    ensures Refs(out + [d]) == Refs(out) + {d.ref}
    ensures Sane(out) && d.ref != "" && d.ref != "0" && d.ref !in Refs(out) ==> Sane(out + [d])
  {
    assert forall x :: x in out + [d] <==> x in out || x == d;
    forall k | 0 <= k < |out| ensures out[k].ref in Refs(out) {
      assert out[k] in out;
    }
  }

  // ----- what the loop returns -----

  function Flat(pages: seq<seq<Row>>): seq<Row> {
    if pages == [] then [] else pages[0] + Flat(pages[1..])
  }

  ghost predicate Shows(a: Page, page: nat, rows: seq<Row>, more: bool) {
    && a.Answer? && a.status < 400 && a.rows == rows && rows != []
    && if a.pages > 0 then page < a.pages <==> more else a.next != "" <==> more
  }

  lemma ShowsMore(a: Page, page: nat, rows: seq<Row>, more: bool)
    requires Shows(a, page, rows, more)
    ensures More(a, page) <==> more
  {
  }

  /** The server shows this listing, split into these pages from `page` on. */
  ghost predicate Serves(server: Server, pages: seq<seq<Row>>, page: nat, order: bool) {
    forall p :: page <= p < page + |pages| ==>
      Shows(server(p, order), p, pages[p - page], p + 1 < page + |pages|)
  }

  ghost predicate Distinct(rows: seq<Row>) {
    && (forall k :: 0 <= k < |rows| ==> RefOf(rows[k]) != "" && RefOf(rows[k]) != "0")
    && (forall j, k :: 0 <= j < k < |rows| ==> RefOf(rows[j]) != RefOf(rows[k]))
  }

  ghost predicate NewestFirst(rows: seq<Row>) {
    && (forall k :: 0 <= k < |rows| ==> rows[k].created.Some? && rows[k].created.value > 0)
    && (forall j, k :: 0 <= j < k < |rows| ==> rows[j].created.value >= rows[k].created.value)
  }

  /** The plain filter by age. */
  function Filtered(rows: seq<Row>, cutoff: Option<Time>): seq<Discovered> {
    if rows == [] then []
    else (if TooOld(rows[0], cutoff) then [] else [Found(rows[0])]) + Filtered(rows[1..], cutoff)
  }

  lemma {:induction false} TakeAppend(a: seq<Row>, b: seq<Row>, cutoff: Option<Time>, out: seq<Discovered>)
    ensures Take(a + b, cutoff, out) == Take(b, cutoff, Take(a, cutoff, out))
    decreases |a|
  {
    if a == [] {
      assert a + b == b;
    } else {
      assert (a + b)[1..] == a[1..] + b;
      TakeAppend(a[1..], b, cutoff, Add(a[0], cutoff, out));
    }
  }

  lemma {:induction false} TakeNothing(rows: seq<Row>, cutoff: Option<Time>, out: seq<Discovered>)
    requires forall k :: 0 <= k < |rows| ==> TooOld(rows[k], cutoff)
    ensures Take(rows, cutoff, out) == out
    decreases |rows|
  {
    if rows == [] {
    } else {
      TakeNothing(rows[1..], cutoff, out);
    }
  }

  /** Distinct valid refs never meet what was already found, so taking them is filtering them by age. */
  lemma {:induction false} TakeIsFilter(rows: seq<Row>, cutoff: Option<Time>, out: seq<Discovered>)
    requires Distinct(rows) && forall k :: 0 <= k < |rows| ==> RefOf(rows[k]) !in Refs(out)
    ensures Take(rows, cutoff, out) == out + Filtered(rows, cutoff)
    decreases |rows|
  {
    if rows == [] {
    } else {
      var next, later := Add(rows[0], cutoff, out), rows[1..];
      TailStaysNew(rows, cutoff, out);
      TakeIsFilter(later, cutoff, next);
      AddIsFilter(rows, cutoff, out);
    }
  }

  lemma TailStaysNew(rows: seq<Row>, cutoff: Option<Time>, out: seq<Discovered>)
    requires rows != [] && Distinct(rows) && forall k :: 0 <= k < |rows| ==> RefOf(rows[k]) !in Refs(out)
    ensures Distinct(rows[1..])
    ensures forall k :: 0 <= k < |rows[1..]| ==> RefOf(rows[1..][k]) !in Refs(Add(rows[0], cutoff, out))
  {
    RefsAppend(out, Found(rows[0]));
  }

  lemma AddIsFilter(rows: seq<Row>, cutoff: Option<Time>, out: seq<Discovered>)
    requires rows != [] && RefOf(rows[0]) !in Refs(out) && RefOf(rows[0]) != "" && RefOf(rows[0]) != "0"
    ensures Add(rows[0], cutoff, out) + Filtered(rows[1..], cutoff) == out + Filtered(rows, cutoff)
  {
    var rest := Filtered(rows[1..], cutoff);
    if TooOld(rows[0], cutoff) {
      assert Filtered(rows, cutoff) == [] + rest == rest;
    } else {
      assert out + ([Found(rows[0])] + rest) == (out + [Found(rows[0])]) + rest;
    }
  }

  /** Without an order, or without an age limit, the loop reads every page and keeps all there is. */
  lemma {:induction false} UnorderedCrawl(
      server: Server, cutoff: Option<Time>, pages: seq<seq<Row>>, page: nat, order: bool, out: seq<Discovered>)
    requires Serves(server, pages, page, order) && pages != [] && page + |pages| <= 51
    requires !order || cutoff.None?
    ensures Crawl(server, cutoff, page, order, out) == Listed(Take(Flat(pages), cutoff, out))
    decreases |pages|
  {
    assert Shows(server(page, order), page, pages[0], 1 < |pages|);
    ShowsMore(server(page, order), page, pages[0], 1 < |pages|);
    TakeAppend(pages[0], Flat(pages[1..]), cutoff, out);
    if |pages| > 1 {
      UnorderedCrawl(server, cutoff, pages[1..], page + 1, order, Take(pages[0], cutoff, out));
    } else {
      assert Flat(pages[1..]) == [];
    }
  }

  // ----- when the early stop loses nothing -----

  predicate AllOld(rows: seq<Row>, cutoff: Option<Time>) {
    forall k :: 0 <= k < |rows| ==> TooOld(rows[k], cutoff)
  }

  /** No page of old threads stands before a page with a recent one. */
  ghost predicate OldPagesLast(pages: seq<seq<Row>>, cutoff: Option<Time>) {
    forall p, q :: 0 <= p < q < |pages| && AllOld(pages[p], cutoff) ==> AllOld(pages[q], cutoff)
  }

  lemma {:induction false} FilteredAppend(a: seq<Row>, b: seq<Row>, cutoff: Option<Time>)
    ensures Filtered(a + b, cutoff) == Filtered(a, cutoff) + Filtered(b, cutoff)
    decreases |a|
  {
    if a == [] {
      assert a + b == b;
    } else {
      var kept := if TooOld(a[0], cutoff) then [] else [Found(a[0])];
      FilteredAppend(a[1..], b, cutoff);
      assert (a + b)[0] == a[0] && (a + b)[1..] == a[1..] + b;
      Regroup(kept, Filtered(a[1..], cutoff), Filtered(b, cutoff));
    }
  }

  lemma {:induction false} NothingKeptIffAllOld(rows: seq<Row>, cutoff: Option<Time>)
    ensures Filtered(rows, cutoff) == [] <==> AllOld(rows, cutoff)
    decreases |rows|
  {
    if rows == [] {
    } else {
      NothingKeptIffAllOld(rows[1..], cutoff);
      assert forall k :: 1 <= k < |rows| ==> rows[k] == rows[1..][k - 1];
    }
  }

  lemma {:induction false} AllOldPages(pages: seq<seq<Row>>, cutoff: Option<Time>)
    ensures AllOld(Flat(pages), cutoff) <==> forall p :: 0 <= p < |pages| ==> AllOld(pages[p], cutoff)
  {
    if pages == [] {
    } else {
      AllOldPages(pages[1..], cutoff);
      AllOldAppend(pages[0], Flat(pages[1..]), cutoff);
      assert forall p :: 1 <= p < |pages| ==> pages[p] == pages[1..][p - 1];
    }
  }

  lemma AllOldAppend(a: seq<Row>, b: seq<Row>, cutoff: Option<Time>)
    ensures AllOld(a + b, cutoff) <==> AllOld(a, cutoff) && AllOld(b, cutoff)
  {
    assert forall k :: 0 <= k < |b| ==> (a + b)[|a| + k] == b[k];
    assert forall k :: 0 <= k < |a| ==> (a + b)[k] == a[k];
  }

  lemma OldFirstPage(pages: seq<seq<Row>>, cutoff: Option<Time>)
    requires pages != [] && AllOld(pages[0], cutoff)
    ensures OldPagesLast(pages, cutoff) <==> AllOld(Flat(pages[1..]), cutoff)
  {
    var rest := pages[1..];
    AllOldPages(rest, cutoff);
    assert forall p :: 0 <= p < |rest| ==> rest[p] == pages[p + 1];
    assert forall p :: 1 <= p < |pages| ==> pages[p] == rest[p - 1];
  }

  lemma RecentFirstPage(pages: seq<seq<Row>>, cutoff: Option<Time>)
    requires pages != [] && !AllOld(pages[0], cutoff)
    ensures OldPagesLast(pages, cutoff) <==> OldPagesLast(pages[1..], cutoff)
  {
    var rest := pages[1..];
    assert forall p :: 0 <= p < |rest| ==> rest[p] == pages[p + 1];
    assert forall p :: 1 <= p < |pages| ==> pages[p] == rest[p - 1];
  }

  lemma SuffixKeeps(rows: seq<Row>, later: seq<Row>)
    requires Distinct(rows + later)
    ensures Distinct(rows) && Distinct(later)
    ensures forall j, k :: 0 <= j < |rows| && 0 <= k < |later| ==> RefOf(rows[j]) != RefOf(later[k])
  {
    var all := rows + later;
    assert forall k :: 0 <= k < |later| ==> all[|rows| + k] == later[k];
    assert forall k :: 0 <= k < |rows| ==> all[k] == rows[k];
  }

  /** What is found comes from the rows, or was there before. */
  lemma {:induction false} TakeFromRows(rows: seq<Row>, cutoff: Option<Time>, out: seq<Discovered>, ref: string)
    requires ref in Refs(Take(rows, cutoff, out))
    ensures ref in Refs(out) || exists k :: 0 <= k < |rows| && RefOf(rows[k]) == ref
    decreases |rows|
  {
    if rows == [] {
    } else {
      TakeFromRows(rows[1..], cutoff, Add(rows[0], cutoff, out), ref);
      RefsAppend(out, Found(rows[0]));
      if ref in Refs(Add(rows[0], cutoff, out)) {
        assert ref in Refs(out) || ref == RefOf(rows[0]);
      } else {
        var k :| 0 <= k < |rows[1..]| && RefOf(rows[1..][k]) == ref;
        assert rows[k + 1] == rows[1..][k];
      }
    }
  }

  /** No row of these has been found yet. */
  ghost predicate AllNew(rows: seq<Row>, out: seq<Discovered>) {
    forall k :: 0 <= k < |rows| ==> RefOf(rows[k]) !in Refs(out)
  }

  lemma StillNew(rows: seq<Row>, later: seq<Row>, cutoff: Option<Time>, out: seq<Discovered>)
    requires Distinct(rows + later) && AllNew(rows + later, out)
    ensures AllNew(rows, out) && AllNew(later, Take(rows, cutoff, out))
  {
    SuffixKeeps(rows, later);
    assert forall k :: 0 <= k < |rows| ==> (rows + later)[k] == rows[k];
    forall k | 0 <= k < |later| ensures RefOf(later[k]) !in Refs(Take(rows, cutoff, out)) {
      assert (rows + later)[|rows| + k] == later[k];
      if RefOf(later[k]) in Refs(Take(rows, cutoff, out)) {
        TakeFromRows(rows, cutoff, out, RefOf(later[k]));
      }
    }
  }

  /** One page of an ordered listing: its recent threads are taken; the loop ends when there are none, or no
      more pages. */
  lemma CrawlStep(server: Server, cutoff: Option<Time>, pages: seq<seq<Row>>, page: nat, out: seq<Discovered>)
    requires Serves(server, pages, page, true) && pages != [] && page + |pages| <= 51 && cutoff.Some?
    requires Distinct(Flat(pages)) && AllNew(Flat(pages), out)
    ensures var kept := out + Filtered(pages[0], cutoff);
      && AllNew(Flat(pages[1..]), kept) && Distinct(Flat(pages[1..]))
      && Crawl(server, cutoff, page, true, out) ==
         if AllOld(pages[0], cutoff) || |pages| == 1 then Listed(kept) else Crawl(server, cutoff, page + 1, true, kept)
  {
    var rows, later := pages[0], Flat(pages[1..]);
    assert Flat(pages) == rows + later;
    SuffixKeeps(rows, later);
    StillNew(rows, later, cutoff, out);
    TakeIsFilter(rows, cutoff, out);
    KeptIffRecent(rows, cutoff, out);
    PageStep(server, cutoff, pages, page, out);
  }

  /** One page of an ordered listing, in terms of what it takes. */
  lemma PageStep(server: Server, cutoff: Option<Time>, pages: seq<seq<Row>>, page: nat, out: seq<Discovered>)
    requires Serves(server, pages, page, true) && pages != [] && page + |pages| <= 51 && cutoff.Some?
    ensures var kept := Take(pages[0], cutoff, out);
      Crawl(server, cutoff, page, true, out) ==
      if kept == out || |pages| == 1 then Listed(kept) else Crawl(server, cutoff, page + 1, true, kept)
  {
    assert Shows(server(page, true), page, pages[0], 1 < |pages|);
    ShowsMore(server(page, true), page, pages[0], 1 < |pages|);
  }

  lemma KeptIffRecent(rows: seq<Row>, cutoff: Option<Time>, out: seq<Discovered>)
    ensures out + Filtered(rows, cutoff) == out <==> AllOld(rows, cutoff)
  {
    NothingKeptIffAllOld(rows, cutoff);
    assert |out + Filtered(rows, cutoff)| == |out| + |Filtered(rows, cutoff)|;
    assert out + [] == out;
  }

  /** The crawl from this page on adds every recent thread of the pages. */
  ghost predicate KeepsAll(server: Server, cutoff: Option<Time>, pages: seq<seq<Row>>, page: nat, out: seq<Discovered>) {
    Crawl(server, cutoff, page, true, out) == Listed(out + Filtered(Flat(pages), cutoff))
  }

  lemma FlatFiltered(pages: seq<seq<Row>>, cutoff: Option<Time>, out: seq<Discovered>)
    requires pages != []
    ensures out + Filtered(Flat(pages), cutoff) ==
            (out + Filtered(pages[0], cutoff)) + Filtered(Flat(pages[1..]), cutoff)
  {
    FilteredAppend(pages[0], Flat(pages[1..]), cutoff);
    Regroup(out, Filtered(pages[0], cutoff), Filtered(Flat(pages[1..]), cutoff));
  }

  lemma StopsAtOldPage(server: Server, cutoff: Option<Time>, pages: seq<seq<Row>>, page: nat, out: seq<Discovered>)
    requires Serves(server, pages, page, true) && pages != [] && page + |pages| <= 51 && cutoff.Some?
    requires Distinct(Flat(pages)) && AllNew(Flat(pages), out) && AllOld(pages[0], cutoff)
    ensures KeepsAll(server, cutoff, pages, page, out) <==> OldPagesLast(pages, cutoff)
  {
    CrawlStep(server, cutoff, pages, page, out);
    FlatFiltered(pages, cutoff, out);
    OldFirstPage(pages, cutoff);
    KeptIffRecent(Flat(pages[1..]), cutoff, out + Filtered(pages[0], cutoff));
  }

  lemma LastPageKept(server: Server, cutoff: Option<Time>, pages: seq<seq<Row>>, page: nat, out: seq<Discovered>)
    requires Serves(server, pages, page, true) && |pages| == 1 && page + |pages| <= 51 && cutoff.Some?
    requires Distinct(Flat(pages)) && AllNew(Flat(pages), out)
    ensures KeepsAll(server, cutoff, pages, page, out) && OldPagesLast(pages, cutoff)
  {
    CrawlStep(server, cutoff, pages, page, out);
    FlatFiltered(pages, cutoff, out);
    assert Flat(pages[1..]) == [];
    KeptIffRecent([], cutoff, out + Filtered(pages[0], cutoff));
  }

  lemma GoesOnAfterRecentPage(server: Server, cutoff: Option<Time>, pages: seq<seq<Row>>, page: nat, out: seq<Discovered>)
    requires Serves(server, pages, page, true) && |pages| > 1 && page + |pages| <= 51 && cutoff.Some?
    requires Distinct(Flat(pages)) && AllNew(Flat(pages), out) && !AllOld(pages[0], cutoff)
    ensures KeepsAll(server, cutoff, pages, page, out) <==>
              KeepsAll(server, cutoff, pages[1..], page + 1, out + Filtered(pages[0], cutoff))
  {
    CrawlStep(server, cutoff, pages, page, out);
    FlatFiltered(pages, cutoff, out);
  }

  lemma RestIsServed(server: Server, pages: seq<seq<Row>>, page: nat)
    requires Serves(server, pages, page, true) && pages != []
    ensures Serves(server, pages[1..], page + 1, true)
  {
  }

  /** The crawl from a page on keeps everything recent if and only if old pages come last. */
  lemma {:induction false} CrawlKeepsAllIff(
      server: Server, cutoff: Option<Time>, pages: seq<seq<Row>>, page: nat, out: seq<Discovered>)
    requires Serves(server, pages, page, true) && pages != [] && page + |pages| <= 51 && cutoff.Some?
    requires Distinct(Flat(pages)) && AllNew(Flat(pages), out)
    ensures KeepsAll(server, cutoff, pages, page, out) <==> OldPagesLast(pages, cutoff)
    decreases |pages|
  {
    if |pages| == 1 {
      LastPageKept(server, cutoff, pages, page, out);
    } else if AllOld(pages[0], cutoff) {
      StopsAtOldPage(server, cutoff, pages, page, out);
    } else {
      RestIsServed(server, pages, page);
      CrawlStep(server, cutoff, pages, page, out);
      CrawlKeepsAllIff(server, cutoff, pages[1..], page + 1, out + Filtered(pages[0], cutoff));
      GoesOnAfterRecentPage(server, cutoff, pages, page, out);
      RecentFirstPage(pages, cutoff);
    }
  }

  /** The exact condition: over a listing of distinct valid refs on at most 50 pages, dates known or not, the loop
      returns the plain filter by age of the full listing, in order, if and only if no page of old threads only
      stands before a page with a recent one. */
  lemma EarlyStopIsLosslessIff(server: Server, cutoff: Option<Time>, pages: seq<seq<Row>>)
    requires cutoff.Some? && Serves(server, pages, 1, true) && 1 <= |pages| <= 50 && Distinct(Flat(pages))
    ensures Crawl(server, cutoff, 1, true, []) == Listed(Filtered(Flat(pages), cutoff)) <==> OldPagesLast(pages, cutoff)
  {
    NothingFoundYet(Flat(pages));
    CrawlKeepsAllIff(server, cutoff, pages, 1, []);
    KeptFromStart(server, cutoff, pages);
  }

  lemma NothingFoundYet(rows: seq<Row>)
    ensures AllNew(rows, [])
  {
    assert Refs([]) == {};
  }

  lemma KeptFromStart(server: Server, cutoff: Option<Time>, pages: seq<seq<Row>>)
    ensures KeepsAll(server, cutoff, pages, 1, []) <==>
              Crawl(server, cutoff, 1, true, []) == Listed(Filtered(Flat(pages), cutoff))
  {
    var kept := Filtered(Flat(pages), cutoff);
    assert [] + kept == kept;
  }

  /** Without an age limit nothing is lost, whatever the order of the listing. */
  lemma NoLimitIsLossless(server: Server, pages: seq<seq<Row>>)
    requires Serves(server, pages, 1, true) && 1 <= |pages| <= 50 && Distinct(Flat(pages))
    ensures Crawl(server, None, 1, true, []) == Listed(Filtered(Flat(pages), None))
  {
    UnorderedCrawl(server, None, pages, 1, true, []);
    AllIsFilter(Flat(pages), None);
  }

  lemma NewestFirstSuffix(rows: seq<Row>, later: seq<Row>)
    requires NewestFirst(rows + later)
    ensures NewestFirst(later)
  {
    var all := rows + later;
    assert forall k :: 0 <= k < |later| ==> all[|rows| + k] == later[k];
  }

  lemma OldThenOlder(rows: seq<Row>, later: seq<Row>, cutoff: Option<Time>)
    requires NewestFirst(rows + later) && rows != [] && AllOld(rows, cutoff)
    ensures AllOld(later, cutoff)
  {
    var all := rows + later;
    assert all[0] == rows[0] && TooOld(rows[0], cutoff);
    forall k | 0 <= k < |later| ensures TooOld(later[k], cutoff) {
      assert all[|rows| + k] == later[k] && all[|rows| + k].created.value <= all[0].created.value;
    }
  }

  /** Newest first, old pages come last. */
  lemma {:induction false} NewestFirstPages(pages: seq<seq<Row>>, cutoff: Option<Time>)
    requires NewestFirst(Flat(pages)) && forall p :: 0 <= p < |pages| ==> pages[p] != []
    ensures OldPagesLast(pages, cutoff)
  {
    if pages == [] {
    } else {
      NewestFirstSuffix(pages[0], Flat(pages[1..]));
      NewestFirstPages(pages[1..], cutoff);
      if AllOld(pages[0], cutoff) {
        OldThenOlder(pages[0], Flat(pages[1..]), cutoff);
        OldFirstPage(pages, cutoff);
      } else {
        RecentFirstPage(pages, cutoff);
      }
    }
  }

  /** Early stop is lossless: over a newest-first listing of distinct valid refs with known dates, on at most
      50 pages, the loop returns exactly the plain filter by age of the full listing, in order. */
  lemma EarlyStopIsLossless(server: Server, cutoff: Option<Time>, pages: seq<seq<Row>>)
    requires Serves(server, pages, 1, true) && 1 <= |pages| <= 50
    requires Distinct(Flat(pages)) && NewestFirst(Flat(pages))
    ensures Crawl(server, cutoff, 1, true, []) == Listed(Filtered(Flat(pages), cutoff))
  {
    if cutoff.None? {
      NoLimitIsLossless(server, pages);
    } else {
      forall p | 0 <= p < |pages| ensures pages[p] != [] {
        assert Shows(server(p + 1, true), p + 1, pages[p + 1 - 1], p + 2 < 1 + |pages|);
      }
      NewestFirstPages(pages, cutoff);
      EarlyStopIsLosslessIff(server, cutoff, pages);
    }
  }

  lemma AllIsFilter(rows: seq<Row>, cutoff: Option<Time>)
    requires Distinct(rows)
    ensures Take(rows, cutoff, []) == Filtered(rows, cutoff)
  {
    assert Refs([]) == {};
    TakeIsFilter(rows, cutoff, []);
    assert [] + Filtered(rows, cutoff) == Filtered(rows, cutoff);
  }

  /** A server that rejects the order is asked without it, and then nothing is lost whatever the order. */
  lemma FallbackIsLossless(server: Server, cutoff: Option<Time>, pages: seq<seq<Row>>)
    requires server(1, true).Answer? && server(1, true).status == 400
    requires Serves(server, pages, 1, false) && 1 <= |pages| <= 50
    ensures Crawl(server, cutoff, 1, true, []) == Listed(Take(Flat(pages), cutoff, []))
    ensures Distinct(Flat(pages)) ==> Crawl(server, cutoff, 1, true, []) == Listed(Filtered(Flat(pages), cutoff))
  {
    assert Shows(server(1, false), 1, pages[0], 1 < |pages|);
    assert Crawl(server, cutoff, 1, true, []) == Crawl(server, cutoff, 1, false, []);
    UnorderedCrawl(server, cutoff, pages, 1, false, []);
    if Distinct(Flat(pages)) {
      AllIsFilter(Flat(pages), cutoff);
    }
  }

  /** The order matters: one page of old threads hides a recent one on the page after it. */
  lemma UnsortedListingLosesThreads(stale: Row, recent: Row, cutoff: Time, server: Server)
    requires Distinct([stale, recent]) && TooOld(stale, Some(cutoff)) && !TooOld(recent, Some(cutoff))
    requires Serves(server, [[stale], [recent]], 1, true)
    ensures Crawl(server, Some(cutoff), 1, true, []) == Listed([])
    ensures Filtered(Flat([[stale], [recent]]), Some(cutoff)) == [Found(recent)]
  {
    assert Shows(server(1, true), 1, [stale], true);
    TakeNothing([stale], Some(cutoff), []);
    var pages := [[stale], [recent]];
    assert pages[1..] == [[recent]];
    assert Flat([[recent]]) == [recent] by {
      assert [[recent]][1..] == [];
      assert [recent] + [] == [recent];
    }
    assert Flat(pages) == [stale, recent];
    assert [stale, recent][1..] == [recent] && [recent][1..] == [];
    assert Filtered([recent], Some(cutoff)) == [Found(recent)];
  }

  // ----- the columns of the rows -----

  /** The rows that are not too old, by their date in seconds; a date that is unknown or not positive is no
      reason to drop a row. */
  function Recent(rows: seq<Row>, cutoff: Option<Time>): seq<Row> {
    if rows == [] then []
    else
      var date := rows[0].created;
      var dropped := date.Some? && date.value > 0 && cutoff.Some? && date.value * 1_000_000_000 < cutoff.value;
      (if dropped then [] else [rows[0]]) + Recent(rows[1..], cutoff)
  }

  /** A row is read as its thread_id, or its id when it has none, with its thread_title, or its title. */
  ghost predicate ReadAs(out: seq<Discovered>, rows: seq<Row>) {
    && |out| == |rows|
    && forall k :: 0 <= k < |rows| ==>
         && out[k].ref == (if rows[k].threadId != "" then rows[k].threadId else rows[k].id)
         && out[k].title == (if rows[k].threadTitle != "" then rows[k].threadTitle else rows[k].title)
  }

  lemma {:induction false} FilteredColumns(rows: seq<Row>, cutoff: Option<Time>)
    ensures ReadAs(Filtered(rows, cutoff), Recent(rows, cutoff))
    decreases |rows|
  {
    if rows == [] {
    } else {
      FilteredColumns(rows[1..], cutoff);
      ReadAsCons(rows[0], Filtered(rows[1..], cutoff), Recent(rows[1..], cutoff));
    }
  }

  lemma ReadAsCons(r: Row, out: seq<Discovered>, rows: seq<Row>)
    requires ReadAs(out, rows)
    ensures ReadAs([Found(r)] + out, [r] + rows) && ReadAs([] + out, [] + rows)
  {
    assert [] + out == out && [] + rows == rows;
  }

  /** Every row has a thread_id of its own. */
  ghost predicate OwnThreadIds(rows: seq<Row>) {
    && (forall k :: 0 <= k < |rows| ==> rows[k].threadId != "" && rows[k].threadId != "0")
    && (forall j, k :: 0 <= j < k < |rows| ==> rows[j].threadId != rows[k].threadId)
  }

  lemma OwnThreadIdsAreDistinct(rows: seq<Row>)
    requires OwnThreadIds(rows)
    ensures Distinct(rows)
  {
  }

  /** The listing, told from the columns: over newest-first rows with thread_ids of their own, on at most 50 pages, the
      refs returned are the thread_ids of the recent rows, in order, with the rows' titles. */
  lemma ThreadIdsAreListed(server: Server, cutoff: Option<Time>, pages: seq<seq<Row>>) returns (out: seq<Discovered>)
    requires Serves(server, pages, 1, true) && 1 <= |pages| <= 50
    requires OwnThreadIds(Flat(pages)) && NewestFirst(Flat(pages))
    ensures Crawl(server, cutoff, 1, true, []) == Listed(out) && ReadAs(out, Recent(Flat(pages), cutoff))
    ensures forall k :: 0 <= k < |out| ==> out[k].ref == Recent(Flat(pages), cutoff)[k].threadId
  {
    OwnThreadIdsAreDistinct(Flat(pages));
    EarlyStopIsLossless(server, cutoff, pages);
    out := Filtered(Flat(pages), cutoff);
    FilteredColumns(Flat(pages), cutoff);
    RecentFrom(Flat(pages), cutoff);
  }

  lemma {:induction false} RecentFrom(rows: seq<Row>, cutoff: Option<Time>)
    ensures forall r :: r in Recent(rows, cutoff) <==>
              r in rows && match r.created
                           case None => true
                           case Some(seconds) => seconds <= 0 || cutoff.None? || seconds * 1_000_000_000 >= cutoff.value
    decreases |rows|
  {
    if rows == [] {
    } else {
      RecentFrom(rows[1..], cutoff);
    }
  }

  /** For any rows whatever, with repetitions and rows without a reference: a ref is among what is taken if and only
      if it is not "" or "0" and some recent row has it. */
  lemma {:induction false} TakenIff(rows: seq<Row>, cutoff: Option<Time>, out: seq<Discovered>, ref: string)
    ensures ref in Refs(Take(rows, cutoff, out)) <==>
              || ref in Refs(out)
              || (ref != "" && ref != "0" && exists r :: r in Recent(rows, cutoff) && ref == if r.threadId != "" then r.threadId else r.id)
    decreases |rows|
  {
    if rows == [] {
    } else {
      var r := rows[0];
      RefsAppend(out, Found(r));
      TakenIff(rows[1..], cutoff, Add(r, cutoff, out), ref);
      assert forall x :: x in Recent(rows, cutoff) <==> (x in Recent(rows, cutoff)[..|Recent(rows, cutoff)| - |Recent(rows[1..], cutoff)|] || x in Recent(rows[1..], cutoff));
    }
  }

  /** How a crawl ends: on a transport error with what it has; refused when the token may not list and nothing was
      found; with what it has on any other error status and on an empty page. */
  lemma HowCrawlEnds(server: Server, cutoff: Option<Time>, page: nat, order: bool, out: seq<Discovered>)
    requires page <= 50 && (order && server(page, order).Answer? ==> server(page, order).status != 400)
    ensures var a, r := server(page, order), Crawl(server, cutoff, page, order, out);
      && (a.Failed? ==> r == Broken(out))
      && (a.Answer? && (a.status == 401 || a.status == 403) ==> r == if out == [] then Refused else Listed(out))
      && (a.Answer? && a.status >= 400 && a.status != 401 && a.status != 403 ==> r == Listed(out))
      && (a.Answer? && a.status < 400 && a.rows == [] ==> r == Listed(out))
  {
  }

  /** A rejected order is dropped for the rest of the crawl. */
  lemma AskedAgainWithoutOrder(server: Server, cutoff: Option<Time>, page: nat, out: seq<Discovered>)
    requires page <= 50 && server(page, true).Answer? && server(page, true).status == 400
    ensures Crawl(server, cutoff, page, true, out) == Crawl(server, cutoff, page, false, out)
  {
  }

  lemma {:induction false} TakeSane(rows: seq<Row>, cutoff: Option<Time>, out: seq<Discovered>)
    requires Sane(out)
    ensures Sane(Take(rows, cutoff, out))
    decreases |rows|
  {
    if rows == [] {
    } else {
      RefsAppend(out, Found(rows[0]));
      TakeSane(rows[1..], cutoff, Add(rows[0], cutoff, out));
    }
  }

  /** For every server the refs found are distinct and never "" or "0". */
  lemma {:induction false} CrawlSane(server: Server, cutoff: Option<Time>, page: nat, order: bool, out: seq<Discovered>)
    requires Sane(out)
    ensures var r := Crawl(server, cutoff, page, order, out);
      !r.Refused? ==> Sane(r.out)
    decreases 51 - page
  {
    if page > 50 {
    } else {
      var retry := server(page, order).Answer? && server(page, order).status == 400 && order;
      var a := if retry then server(page, false) else server(page, order);
      if a.Answer? {
        TakeSane(a.rows, cutoff, out);
        CrawlSane(server, cutoff, page + 1, order && !retry, Take(a.rows, cutoff, out));
      }
    }
  }
}
