/** What the two run modes promise, proved about their specification functions: which pages are
    requested and in what order, which checks every repository receives, what happens to the stored
    rows, how check mode's counters add up, and that both modes always close their ports. */
module PipelineProps {
  import opened Wrappers
  import opened Products
  import opened ProductChecks
  import opened Store
  import opened Scraper
  import opened Reconciliation
  import opened PipelineSpec

  /** The urls requested with `scrapeProductPage`, in call order. */
  function Fetches(t: seq<Call>): seq<string>
    decreases |t|
  {
    if t == [] then [] else (if t[0].ScrapeProductPage? then [t[0].url] else []) + Fetches(t[1..])
  }

  /** The urls of a homepage snapshot, in page order. */
  function ItemUrls(items: seq<ScrapedProduct>): seq<string>
    decreases |items|
  {
    if items == [] then [] else [items[0].url] + ItemUrls(items[1..])
  }

  /** The urls of the available products of a listing, in listing order: the ones check mode visits. */
  function AvailableUrlSeq(ps: seq<Product>): seq<string>
    decreases |ps|
  {
    if ps == [] then [] else (if ps[0].IsAvailable() then [ps[0].url] else []) + AvailableUrlSeq(ps[1..])
  }

  /** The page outcomes left after `n` requests. */
  function Drop(pages: seq<PageOutcome>, n: nat): seq<PageOutcome>
    decreases n
  {
    if n == 0 || pages == [] then pages else Drop(pages[1..], n - 1)
  }

  /** The checks a run of requests for `urls` produces, one per successful page, in request order:
      a failed request contributes nothing and does not shift the outcomes of the later ones. */
  function Observations(urls: seq<string>, pages: seq<PageOutcome>, now: Timestamp): seq<ProductCheck>
    decreases |urls|
  {
    if urls == [] then []
    else
      var (page, rest) := NextPage(pages);
      (if page.Some? then [NewProductCheck(urls[0], page.value.data, now)] else []) + Observations(urls[1..], rest, now)
  }

  /** Each repository's row set only grows. */
  ghost predicate RowsGrow(before: seq<TableState>, after: seq<TableState>) {
    |before| == |after| && forall k :: 0 <= k < |before| ==> before[k].rows.Keys <= after[k].rows.Keys
  }

  /** A row is available exactly when its url is in `snapshot`. */
  ghost predicate MirrorsSnapshot(rows: map<string, Row>, snapshot: set<string>) {
    forall u :: u in rows ==> (rows[u].removedAt.None? <==> u in snapshot)
  }

  /** Every stored check points at a stored product. */
  ghost predicate ChecksReferToRows(t: TableState) {
    forall i :: 0 <= i < |t.checks| ==> t.checks[i].productUrl in t.rows
  }

  lemma {:induction false} FetchesAppend(a: seq<Call>, b: seq<Call>)
    ensures Fetches(a + b) == Fetches(a) + Fetches(b)
    decreases |a|
  {
    if a == [] {
      assert a + b == b;
    } else {
      assert (a + b)[1..] == a[1..] + b;
      FetchesAppend(a[1..], b);
    }
  }

  /** A stretch of calls with no page request fetches nothing. */
  lemma {:induction false} NoFetches(t: seq<Call>)
    requires forall i :: 0 <= i < |t| ==> !t[i].ScrapeProductPage?
    ensures Fetches(t) == []
    decreases |t|
  {
    if t != [] {
      NoFetches(t[1..]);
    }
  }

  lemma BulkCallsFetchNothing(n: nat, u: string)
    ensures Fetches(SaveCalls(n, u)) == [] && Fetches(CheckCalls(n, u)) == [] && Fetches(CloseCalls(n)) == []
  {
    NoFetches(SaveCalls(n, u));
    NoFetches(CheckCalls(n, u));
    NoFetches(CloseCalls(n));
  }

  /** One product-page request: one more fetch of `u`, one outcome consumed, and every repository
      receives the check of a successful page and nothing else. */
  lemma FetchEffect(w: World, u: string, now: Timestamp)
    ensures var r := Fetch(w, u, now);
      && Fetches(r.trace) == Fetches(w.trace) + [u]
      && r.pages == Drop(w.pages, 1)
      && |r.tables| == |w.tables|
      && (forall k :: 0 <= k < |w.tables| ==>
            r.tables[k].rows == w.tables[k].rows
            && r.tables[k].checks == w.tables[k].checks + Observations([u], w.pages, now))
  {
    var r := Fetch(w, u, now);
    var t := w.trace + [ScrapeProductPage(u, 0)];
    FetchesAppend(w.trace, [ScrapeProductPage(u, 0)]);
    assert Fetches([ScrapeProductPage(u, 0)]) == [u];
    BulkCallsFetchNothing(|w.tables|, u);
    FetchesAppend(t, CheckCalls(|w.tables|, u));
    assert [u][1..] == [];
  }

  /** A url the checked repository lacks is saved to every repository; one it has is saved to none.
      Saving requests no page. */
  lemma SaveIfNewEffect(w: World, ci: nat, item: ScrapedProduct, now: Timestamp)
    requires ci < |w.tables|
    ensures var r := SaveIfNew(w, ci, item, now);
      && Fetches(r.trace) == Fetches(w.trace)
      && r.pages == w.pages
      && (forall k :: 0 <= k < |w.tables| ==>
            r.tables[k].checks == w.tables[k].checks
            && r.tables[k].rows == if item.url in w.tables[ci].rows then w.tables[k].rows
                                   else Upsert(w.tables[k].rows, FromScrapedData(item), now))
  {
    BulkCallsFetchNothing(|w.tables|, item.url);
    FetchesAppend(w.trace, SaveCalls(|w.tables|, item.url));
  }

  /** The calls one homepage item makes: for a new url, `saveProduct` on every repository, then the
      page request, then (on success) `saveProductCheck` on every repository; for a stored url, no
      `saveProduct` at all. */
  lemma ItemStepCallOrder(w: World, ci: nat, item: ScrapedProduct, now: Timestamp)
    requires ci < |w.tables|
    ensures var r, n, m, u := ItemStep(w, ci, item, now), |w.tables|, |w.trace|, item.url;
      && (u !in w.tables[ci].rows ==>
            |r.trace| > m + n
            && (forall k :: 0 <= k < n ==> r.trace[m + k] == SaveProduct(k, u))
            && r.trace[m + n] == ScrapeProductPage(u, 0)
            && (forall i :: m <= i < |r.trace| && r.trace[i].SaveProductCheck? ==> m + n < i))
      && (u in w.tables[ci].rows ==>
            |r.trace| > m
            && r.trace[m] == ScrapeProductPage(u, 0)
            && (forall i :: m <= i < |r.trace| ==> !r.trace[i].SaveProduct?))
  {
    var s := SaveIfNew(w, ci, item, now);
    var r := ItemStep(w, ci, item, now);
    assert r == Fetch(s, item.url, now);
    assert r.trace[..|s.trace| + 1] == s.trace + [ScrapeProductPage(item.url, 0)];
    assert r.trace[|s.trace|] == ScrapeProductPage(item.url, 0);
  }

  /** One homepage item, in the terms of the whole loop. */
  lemma ItemStepEffect(w: World, ci: nat, item: ScrapedProduct, now: Timestamp)
    requires ci < |w.tables|
    ensures var r := ItemStep(w, ci, item, now);
      && Fetches(r.trace) == Fetches(w.trace) + [item.url]
      && r.pages == Drop(w.pages, 1)
      && (forall k :: 0 <= k < |w.tables| ==>
            r.tables[k].checks == w.tables[k].checks + Observations([item.url], w.pages, now)
            && r.tables[k].rows == if item.url in w.tables[ci].rows then w.tables[k].rows
                                   else Upsert(w.tables[k].rows, FromScrapedData(item), now))
  {
    SaveIfNewEffect(w, ci, item, now);
    FetchEffect(SaveIfNew(w, ci, item, now), item.url, now);
  }

  /** One homepage item requests its page and consumes one outcome. */
  lemma ItemStepRequests(w: World, ci: nat, item: ScrapedProduct, now: Timestamp)
    requires ci < |w.tables|
    ensures var r := ItemStep(w, ci, item, now);
      Fetches(r.trace) == Fetches(w.trace) + [item.url] && r.pages == Drop(w.pages, 1)
  {
    var s := SaveIfNew(w, ci, item, now);
    BulkCallsFetchNothing(|w.tables|, item.url);
    FetchesAppend(w.trace, SaveCalls(|w.tables|, item.url));
    FetchEffect(s, item.url, now);
  }

  lemma ObservationsCons(u: string, us: seq<string>, pages: seq<PageOutcome>, now: Timestamp)
    ensures Observations([u] + us, pages, now) == Observations([u], pages, now) + Observations(us, Drop(pages, 1), now)
  {
    assert ([u] + us)[1..] == us;
    assert [u][1..] == [];
  }

  lemma DropDrop(pages: seq<PageOutcome>, n: nat)
    ensures Drop(Drop(pages, 1), n) == Drop(pages, n + 1)
  {
  }

  /** The homepage loop requests every item's page, in page order, and consumes one outcome per
      item. */
  lemma {:induction false} ItemsFoldRequests(w: World, ci: nat, items: seq<ScrapedProduct>, now: Timestamp)
    requires ci < |w.tables|
    ensures var r := ItemsFold(w, ci, items, now);
      Fetches(r.trace) == Fetches(w.trace) + ItemUrls(items) && r.pages == Drop(w.pages, |items|)
    decreases |items|
  {
    if items != [] {
      ItemStepRequests(w, ci, items[0], now);
      ItemsFoldRequests(ItemStep(w, ci, items[0], now), ci, items[1..], now);
      DropDrop(w.pages, |items| - 1);
    }
  }

  /** The homepage loop gives every repository the same checks: one per successful page, in order.
      A failed item leaves the later items' outcomes where they were. */
  lemma {:induction false} ItemsFoldChecks(w: World, ci: nat, items: seq<ScrapedProduct>, now: Timestamp)
    requires ci < |w.tables|
    ensures var r := ItemsFold(w, ci, items, now);
      forall k :: 0 <= k < |w.tables| ==>
        r.tables[k].checks == w.tables[k].checks + Observations(ItemUrls(items), w.pages, now)
    decreases |items|
  {
    if items != [] {
      ItemStepEffect(w, ci, items[0], now);
      ItemsFoldChecks(ItemStep(w, ci, items[0], now), ci, items[1..], now);
      ObservationsCons(items[0].url, ItemUrls(items[1..]), w.pages, now);
    }
  }

  /** Both halves of the homepage loop's effect on the requests and the checks. */
  lemma ItemsFoldEffect(w: World, ci: nat, items: seq<ScrapedProduct>, now: Timestamp)
    requires ci < |w.tables|
    ensures var r := ItemsFold(w, ci, items, now);
      && Fetches(r.trace) == Fetches(w.trace) + ItemUrls(items)
      && r.pages == Drop(w.pages, |items|)
      && (forall k :: 0 <= k < |w.tables| ==>
            r.tables[k].checks == w.tables[k].checks + Observations(ItemUrls(items), w.pages, now))
  {
    ItemsFoldRequests(w, ci, items, now);
    ItemsFoldChecks(w, ci, items, now);
  }

  lemma UrlsCons(items: seq<ScrapedProduct>)
    requires items != []
    ensures Urls(items) == {items[0].url} + Urls(items[1..])
  {
    var tail := items[1..];
    forall u | u in Urls(items) ensures u in {items[0].url} + Urls(tail) {
      var i :| 0 <= i < |items| && items[i].url == u;
      if i > 0 { assert tail[i - 1].url == u; }
    }
    forall u | u in Urls(tail) ensures u in Urls(items) {
      var i :| 0 <= i < |tail| && tail[i].url == u;
      assert items[i + 1].url == u;
    }
    assert items[0].url in Urls(items);
  }

  /** One homepage item drops no row anywhere, adds its url to the checked repository as an
      available row when it was missing there, and changes no stored row's availability there. */
  lemma ItemStepRows(w: World, ci: nat, item: ScrapedProduct, now: Timestamp)
    requires ci < |w.tables|
    ensures var r := ItemStep(w, ci, item, now);
      && RowsGrow(w.tables, r.tables)
      && r.tables[ci].rows.Keys == w.tables[ci].rows.Keys + {item.url}
      && (forall u :: u in w.tables[ci].rows ==> r.tables[ci].rows[u].removedAt == w.tables[ci].rows[u].removedAt)
      && (item.url !in w.tables[ci].rows ==> r.tables[ci].rows[item.url].removedAt == None)
  {
    ItemStepEffect(w, ci, item, now);
  }

  /** The homepage loop drops no row anywhere and adds to the checked repository exactly the
      homepage urls it lacked. */
  lemma {:induction false} ItemsFoldKeys(w: World, ci: nat, items: seq<ScrapedProduct>, now: Timestamp)
    requires ci < |w.tables|
    ensures var r := ItemsFold(w, ci, items, now);
      && RowsGrow(w.tables, r.tables)
      && r.tables[ci].rows.Keys == w.tables[ci].rows.Keys + Urls(items)
    decreases |items|
  {
    if items == [] {
      assert Urls(items) == {};
    } else {
      var w1 := ItemStep(w, ci, items[0], now);
      ItemStepRows(w, ci, items[0], now);
      ItemsFoldKeys(w1, ci, items[1..], now);
      UrlsCons(items);
    }
  }

  /** In the checked repository the homepage loop leaves every stored row's availability as it was
      and adds new urls as available rows, so when that repository's availability mirrored a snapshot
      containing the homepage, it still does. */
  lemma {:induction false} ItemsFoldAvailability(w: World, ci: nat, items: seq<ScrapedProduct>, snapshot: set<string>, now: Timestamp)
    requires ci < |w.tables|
    ensures var r := ItemsFold(w, ci, items, now);
      && (forall u :: u in w.tables[ci].rows ==> u in r.tables[ci].rows && r.tables[ci].rows[u].removedAt == w.tables[ci].rows[u].removedAt)
      && (Urls(items) <= snapshot && MirrorsSnapshot(w.tables[ci].rows, snapshot) ==> MirrorsSnapshot(r.tables[ci].rows, snapshot))
    decreases |items|
  {
    if items != [] {
      var w1 := ItemStep(w, ci, items[0], now);
      ItemStepRows(w, ci, items[0], now);
      ItemsFoldAvailability(w1, ci, items[1..], snapshot, now);
      UrlsCons(items);
    }
  }

  /** Every check the homepage loop saves in the checked repository points at a stored product. */
  lemma {:induction false} ItemsFoldIntegrity(w: World, ci: nat, items: seq<ScrapedProduct>, now: Timestamp)
    requires ci < |w.tables| && ChecksReferToRows(w.tables[ci])
    ensures ChecksReferToRows(ItemsFold(w, ci, items, now).tables[ci])
    decreases |items|
  {
    if items != [] {
      var w1 := ItemStep(w, ci, items[0], now);
      ItemStepEffect(w, ci, items[0], now);
      ItemStepRows(w, ci, items[0], now);
      var extra := Observations([items[0].url], w.pages, now);
      assert forall i :: 0 <= i < |extra| ==> extra[i].productUrl == items[0].url;
      assert w1.tables[ci].checks == w.tables[ci].checks + extra;
      ItemsFoldIntegrity(w1, ci, items[1..], now);
    }
  }

  /** The `finally` block changes no table, consumes no page outcome and requests no page; it only
      appends the closing calls. */
  lemma FinalizeEffect(b: World)
    ensures var r := Finalize(b);
      && r.tables == b.tables && r.pages == b.pages
      && Fetches(r.trace) == Fetches(b.trace)
      && r.trace[..|b.trace|] == b.trace
      && r.trace[|b.trace|..] == [CloseScraper] + CloseCalls(|b.tables|)
  {
    BulkCallsFetchNothing(|b.tables|, "");
    FetchesAppend(b.trace, [CloseScraper]);
    FetchesAppend(b.trace + [CloseScraper], CloseCalls(|b.tables|));
    assert Fetches([CloseScraper]) == [];
    assert b.trace + [CloseScraper] + CloseCalls(|b.tables|) == b.trace + ([CloseScraper] + CloseCalls(|b.tables|));
  }

  /** Calls other than page requests, appended to the trace, fetch nothing. */
  lemma SetupCallsFetchNothing(t: seq<Call>, limit: int)
    ensures Fetches(t + [Initialize]) == Fetches(t)
    ensures Fetches(t + [Initialize] + [GoToHomepage]) == Fetches(t)
    ensures Fetches(t + [Initialize] + [GoToHomepage] + [GetInitialProducts(limit)]) == Fetches(t)
  {
    FetchesAppend(t, [Initialize]);
    FetchesAppend(t + [Initialize], [GoToHomepage]);
    FetchesAppend(t + [Initialize] + [GoToHomepage], [GetInitialProducts(limit)]);
    assert Fetches([Initialize]) == [] && Fetches([GoToHomepage]) == [] && Fetches([GetInitialProducts(limit)]) == [];
  }

  /** Scrap mode after the listing: it reports every item as processed, requests every item's page in
      page order, consumes one outcome per item, gives every repository the same checks, and drops
      no row. */
  lemma ScrapListingEffect(w: World, items: seq<ScrapedProduct>, total: int, now: Timestamp)
    requires |w.tables| > 0
    ensures var (o, r) := ScrapListing(w, items, total, now);
      && o.ScrapDone? && o.processed == total + |items|
      && Fetches(r.trace) == Fetches(w.trace) + ItemUrls(items)
      && r.pages == Drop(w.pages, |items|)
      && RowsGrow(w.tables, r.tables)
      && (forall k :: 0 <= k < |w.tables| ==>
            r.tables[k].checks == w.tables[k].checks + Observations(ItemUrls(items), w.pages, now))
  {
    var ci := CheckIndex(|w.tables|);
    var rows := w.tables[ci].rows;
    var snapshot := Urls(items);
    var w2 := w.(tables := w.tables[ci := w.tables[ci].(rows := Reconcile(rows, snapshot, now))]);
    ItemsFoldEffect(w2, ci, items, now);
    ItemsFoldKeys(w2, ci, items, now);
    ReconcileCorrect(rows, snapshot, now);
  }

  /** Scrap mode either runs to the end or fails, and it fails exactly when a scraper step before the
      loop throws or there is no repository. A failed run writes nothing, consumes no page outcome
      and requests no page. A complete run requests every homepage item's page in order, consumes
      one outcome per item, gives every repository the same checks, and drops no row. */
  lemma ScrapModeEffect(w: World, s: ScraperSetup, limit: int, total: int, now: Timestamp)
    ensures var (o, r) := ScrapMode(w, s, limit, total, now);
      var items := SliceTo(s.listing, limit);
      && (o.Failed? || o.ScrapDone?)
      && (o.ScrapDone? <==> s.initOk && s.homepageOk && s.listingOk && |w.tables| > 0)
      && (o.Failed? ==> r.tables == w.tables && r.pages == w.pages && Fetches(r.trace) == Fetches(w.trace))
      && (o.ScrapDone? ==>
            o.processed == total + |items|
            && Fetches(r.trace) == Fetches(w.trace) + ItemUrls(items)
            && r.pages == Drop(w.pages, |items|)
            && RowsGrow(w.tables, r.tables)
            && (forall k :: 0 <= k < |w.tables| ==>
                  r.tables[k].checks == w.tables[k].checks + Observations(ItemUrls(items), w.pages, now)))
  {
    var b := ScrapBody(w, s, limit, total, now);
    FinalizeEffect(b.1);
    SetupCallsFetchNothing(w.trace, limit);
    if s.initOk && s.homepageOk && s.listingOk && |w.tables| > 0 {
      var w2 := w.(trace := w.trace + [Initialize] + [GoToHomepage] + [GetInitialProducts(limit)]);
      assert b == ScrapListing(w2, SliceTo(s.listing, limit), total, now);
      ScrapListingEffect(w2, SliceTo(s.listing, limit), total, now);
    }
  }

  /** After a complete scrap run, the checked repository's availability mirrors the homepage: it holds
      every url it held before plus every homepage url, and a row is available exactly when its url is
      on the homepage. Rows that disappeared carry this run's removal time. */
  lemma ScrapMirrorsHomepage(w: World, s: ScraperSetup, limit: int, total: int, now: Timestamp)
    ensures var (o, r) := ScrapMode(w, s, limit, total, now);
      var items, ci := SliceTo(s.listing, limit), CheckIndex(|w.tables|);
      o.ScrapDone? ==>
        && r.tables[ci].rows.Keys == w.tables[ci].rows.Keys + Urls(items)
        && MirrorsSnapshot(r.tables[ci].rows, Urls(items))
        && (forall u :: u in Disappeared(w.tables[ci].rows, Urls(items)) ==> r.tables[ci].rows[u].removedAt == Some(now))
  {
    if s.initOk && s.homepageOk && s.listingOk && |w.tables| > 0 {
      var items := SliceTo(s.listing, limit);
      var ci := CheckIndex(|w.tables|);
      var rows := w.tables[ci].rows;
      var snapshot := Urls(items);
      var rec := Reconcile(rows, snapshot, now);
      var w1 := w.(trace := w.trace + [Initialize] + [GoToHomepage] + [GetInitialProducts(limit)]);
      var w2 := w1.(tables := w.tables[ci := w.tables[ci].(rows := rec)]);
      assert ScrapBody(w, s, limit, total, now) == ScrapListing(w1, items, total, now);
      assert ScrapListing(w1, items, total, now).1 == ItemsFold(w2, ci, items, now);
      ReconcileCorrect(rows, snapshot, now);
      assert MirrorsSnapshot(rec, snapshot) by {
        forall u | u in rec ensures rec[u].removedAt.None? <==> u in snapshot {
          if u in Disappeared(rows, snapshot) {
          } else if u in Reappeared(rows, snapshot) {
          } else {
            assert rec[u] == rows[u];
          }
        }
      }
      ItemsFoldKeys(w2, ci, items, now);
      ItemsFoldAvailability(w2, ci, items, snapshot, now);
      FinalizeEffect(ItemsFold(w2, ci, items, now));
    }
  }

  /** Scrap mode keeps the checked repository's checks pointing at stored products. */
  lemma ScrapKeepsChecksReferring(w: World, s: ScraperSetup, limit: int, total: int, now: Timestamp)
    requires |w.tables| > 0 && ChecksReferToRows(w.tables[CheckIndex(|w.tables|)])
    ensures var (o, r) := ScrapMode(w, s, limit, total, now);
      ChecksReferToRows(r.tables[CheckIndex(|w.tables|)])
  {
    var (o, r) := ScrapMode(w, s, limit, total, now);
    if o.ScrapDone? {
      var items := SliceTo(s.listing, limit);
      var ci := CheckIndex(|w.tables|);
      var rows := w.tables[ci].rows;
      var snapshot := Urls(items);
      var diffed := w.tables[ci := w.tables[ci].(rows := Reconcile(rows, snapshot, now))];
      var w2 := World(diffed, w.pages, w.trace + [Initialize] + [GoToHomepage] + [GetInitialProducts(limit)]);
      ReconcileCorrect(rows, snapshot, now);
      ItemsFoldIntegrity(w2, ci, items, now);
    }
  }

  /** A removed product is skipped with no call; an available one is fetched and counted once, as
      updated when its page succeeds and as an error otherwise. */
  lemma CheckStepRequests(acc: CheckAcc, p: Product, now: Timestamp)
    ensures var r := CheckStep(acc, p, now);
      var visited := if p.IsAvailable() then [p.url] else [];
      && Fetches(r.w.trace) == Fetches(acc.w.trace) + visited
      && r.w.pages == Drop(acc.w.pages, |visited|)
      && r.updated == acc.updated + |Observations(visited, acc.w.pages, now)|
      && r.updated + r.errors == acc.updated + acc.errors + |visited|
  {
    if p.IsAvailable() {
      FetchEffect(acc.w, p.url, now);
    }
  }

  /** One product of the refresh loop gives every repository the check of a successful page and
      writes no product row. */
  lemma CheckStepTables(acc: CheckAcc, p: Product, now: Timestamp)
    ensures var r := CheckStep(acc, p, now);
      var visited := if p.IsAvailable() then [p.url] else [];
      forall k :: 0 <= k < |acc.w.tables| ==>
        r.w.tables[k].rows == acc.w.tables[k].rows
        && r.w.tables[k].checks == acc.w.tables[k].checks + Observations(visited, acc.w.pages, now)
  {
    if p.IsAvailable() {
      FetchEffect(acc.w, p.url, now);
    }
  }

  /** The refresh loop requests exactly the available products' pages, in listing order, skipping the
      removed ones. */
  lemma {:induction false} CheckFoldRequests(acc: CheckAcc, ps: seq<Product>, now: Timestamp)
    ensures var r, visited := CheckFold(acc, ps, now), AvailableUrlSeq(ps);
      Fetches(r.w.trace) == Fetches(acc.w.trace) + visited && r.w.pages == Drop(acc.w.pages, |visited|)
    decreases |ps|
  {
    if ps != [] {
      CheckStepRequests(acc, ps[0], now);
      CheckFoldRequests(CheckStep(acc, ps[0], now), ps[1..], now);
      if ps[0].IsAvailable() {
        DropDrop(acc.w.pages, |AvailableUrlSeq(ps[1..])|);
      }
    }
  }

  /** `updated` counts the successful pages, and every available product adds to exactly one of the
      two counters. */
  lemma {:induction false} CheckFoldCounts(acc: CheckAcc, ps: seq<Product>, now: Timestamp)
    ensures var r, visited := CheckFold(acc, ps, now), AvailableUrlSeq(ps);
      && r.updated == acc.updated + |Observations(visited, acc.w.pages, now)|
      && r.updated + r.errors == acc.updated + acc.errors + |visited|
    decreases |ps|
  {
    if ps != [] {
      CheckStepRequests(acc, ps[0], now);
      CheckFoldCounts(CheckStep(acc, ps[0], now), ps[1..], now);
      var rest := AvailableUrlSeq(ps[1..]);
      if ps[0].IsAvailable() {
        ObservationsCons(ps[0].url, rest, acc.w.pages, now);
      } else {
        assert [] + rest == rest;
      }
    }
  }

  /** Every repository receives the same checks, one per successful page in request order; no
      product row is written. */
  lemma {:induction false} CheckFoldTables(acc: CheckAcc, ps: seq<Product>, now: Timestamp)
    ensures var r, visited := CheckFold(acc, ps, now), AvailableUrlSeq(ps);
      forall k :: 0 <= k < |acc.w.tables| ==>
        r.w.tables[k].rows == acc.w.tables[k].rows
        && r.w.tables[k].checks == acc.w.tables[k].checks + Observations(visited, acc.w.pages, now)
    decreases |ps|
  {
    if ps != [] {
      CheckStepTables(acc, ps[0], now);
      CheckFoldTables(CheckStep(acc, ps[0], now), ps[1..], now);
      var rest := AvailableUrlSeq(ps[1..]);
      if ps[0].IsAvailable() {
        ObservationsCons(ps[0].url, rest, acc.w.pages, now);
      } else {
        assert [] + rest == rest;
      }
    }
  }

  /** A listing splits into the available products check mode visits and the removed ones it skips. */
  lemma {:induction false} VisitedPlusSkipped(ps: seq<Product>)
    ensures |AvailableUrlSeq(ps)| + |RemovedOnly(ps)| == |ps|
    decreases |ps|
  {
    if ps != [] {
      VisitedPlusSkipped(ps[1..]);
    }
  }

  /** Check mode fails exactly when `initialize` throws or there is no repository, and stops early
      exactly when the listing is empty; neither requests a page or writes anything. A complete run
      reports the listing's length as the total, skips exactly the removed products (so the skipped
      count is never negative), requests exactly the available products' pages in listing order,
      counts each of them once as updated or as an error, saves the same checks to every repository,
      and never writes a product row. */
  lemma CheckModeEffect(w: World, initOk: bool, listed: seq<Product>, now: Timestamp)
    ensures var (o, r) := CheckMode(w, initOk, listed, now);
      var visited := AvailableUrlSeq(listed);
      && (o.Failed? || o.EmptyStore? || o.CheckDone?)
      && (o.Failed? <==> !initOk || |w.tables| == 0)
      && (o.EmptyStore? <==> initOk && |w.tables| > 0 && listed == [])
      && (!o.CheckDone? ==> r.tables == w.tables && r.pages == w.pages && Fetches(r.trace) == Fetches(w.trace))
      && (forall k :: 0 <= k < |w.tables| ==> r.tables[k].rows == w.tables[k].rows)
      && (o.CheckDone? ==>
            o.total == |listed|
            && o.skipped == |RemovedOnly(listed)| && o.skipped >= 0
            && o.updated + o.errors == |visited|
            && o.updated == |Observations(visited, w.pages, now)|
            && Fetches(r.trace) == Fetches(w.trace) + visited
            && r.pages == Drop(w.pages, |visited|)
            && (forall k :: 0 <= k < |w.tables| ==>
                  r.tables[k].checks == w.tables[k].checks + Observations(visited, w.pages, now)))
  {
    var b := CheckBody(w, initOk, listed, now);
    FinalizeEffect(b.1);
    SetupCallsFetchNothing(w.trace, 0);
    if initOk && |w.tables| > 0 && listed != [] {
      var acc := CheckAcc(w.(trace := w.trace + [Initialize]), 0, 0);
      CheckFoldRequests(acc, listed, now);
      CheckFoldCounts(acc, listed, now);
      CheckFoldTables(acc, listed, now);
      VisitedPlusSkipped(listed);
    }
  }

  /** Whatever happens in scrap mode, the run ends with `close` on the scraper and then `close` on
      every repository, in list order, after every call the run made before; the calls already
      recorded stay in front. */
  lemma ScrapAlwaysCloses(w: World, s: ScraperSetup, limit: int, total: int, now: Timestamp)
    ensures var r, n := ScrapMode(w, s, limit, total, now).1, |w.tables|;
      && |r.tables| == n && w.trace <= r.trace && |r.trace| >= |w.trace| + n + 1
      && r.trace[|r.trace| - (n + 1)..] == [CloseScraper] + CloseCalls(n)
  {
    var b := ScrapBody(w, s, limit, total, now).1;
    assert |b.tables| == |w.tables| && w.trace <= b.trace;
    FinalizeEffect(b);
  }

  /** The same for check mode, including the early return on an empty store. */
  lemma CheckAlwaysCloses(w: World, initOk: bool, listed: seq<Product>, now: Timestamp)
    ensures var r, n := CheckMode(w, initOk, listed, now).1, |w.tables|;
      && |r.tables| == n && w.trace <= r.trace && |r.trace| >= |w.trace| + n + 1
      && r.trace[|r.trace| - (n + 1)..] == [CloseScraper] + CloseCalls(n)
  {
    var b := CheckBody(w, initOk, listed, now).1;
    assert |b.tables| == |w.tables| && w.trace <= b.trace;
    FinalizeEffect(b);
  }

  /** Requesting as many pages as are scripted consumes them all. */
  lemma {:induction false} DropAll(pages: seq<PageOutcome>)
    ensures Drop(pages, |pages|) == []
    decreases |pages|
  {
    if pages != [] {
      DropAll(pages[1..]);
    }
  }

  lemma ThreeItemUrls(a: ScrapedProduct, b: ScrapedProduct, c: ScrapedProduct)
    ensures ItemUrls([a, b, c]) == [a.url, b.url, c.url]
  {
    assert [a, b, c][1..] == [b, c] && [b, c][1..] == [c] && [c][1..] == [];
    assert ItemUrls([c]) == [c.url];
    assert ItemUrls([b, c]) == [b.url, c.url];
  }

  lemma MiddleFailureObservations(u1: string, u2: string, u3: string, d1: ScrapedProductDetails,
                                  d3: ScrapedProductDetails, now: Timestamp)
    ensures Observations([u1, u2, u3], [Some(d1), None, Some(d3)], now)
         == [NewProductCheck(u1, d1.data, now), NewProductCheck(u3, d3.data, now)]
  {
    assert [u1, u2, u3][1..] == [u2, u3] && [u2, u3][1..] == [u3] && [u3][1..] == [];
    assert Observations([u3], [Some(d3)], now) == [NewProductCheck(u3, d3.data, now)];
    assert Observations([u2, u3], [None, Some(d3)], now) == [NewProductCheck(u3, d3.data, now)];
  }

  /** Three stored homepage items whose second page request fails: every repository receives the
      checks of the first and the third, in that order, and the third is built from the third
      outcome. */
  lemma MiddleFailureIsolated(w: World, ci: nat, a: ScrapedProduct, b: ScrapedProduct, c: ScrapedProduct,
                              d1: ScrapedProductDetails, d3: ScrapedProductDetails, now: Timestamp)
    requires ci < |w.tables| && w.pages == [Some(d1), None, Some(d3)]
    ensures var r := ItemsFold(w, ci, [a, b, c], now);
      && Fetches(r.trace) == Fetches(w.trace) + [a.url, b.url, c.url]
      && r.pages == []
      && forall k :: 0 <= k < |w.tables| ==>
           r.tables[k].checks == w.tables[k].checks + [NewProductCheck(a.url, d1.data, now), NewProductCheck(c.url, d3.data, now)]
  {
    ItemsFoldEffect(w, ci, [a, b, c], now);
    ThreeItemUrls(a, b, c);
    MiddleFailureObservations(a.url, b.url, c.url, d1, d3, now);
    DropAll(w.pages);
  }
}
