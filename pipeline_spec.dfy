/** What the two run modes of ProductScraperService (scrapper/src/services/ProductScraperService.ts)
    do to the stores, to the scraper's queue of page outcomes and to the sequence of port calls,
    stated as functions of the state before the run. */
module PipelineSpec {
  import opened Wrappers
  import opened Products
  import opened ProductChecks
  import opened Store
  import opened Scraper
  import opened Reconciliation

  /** The port calls whose order the model records. `repo` is an index into the service's
      list of repositories. */
  datatype Call =
    | Initialize
    | GoToHomepage
    | GetInitialProducts(limit: int)
    | ScrapeProductPage(url: string, maxRecommended: int)
    | SaveProduct(repo: nat, url: string)
    | SaveProductCheck(repo: nat, url: string)
    | CloseScraper
    | CloseRepository(repo: nat)

  /** Everything a run can change: every repository's tables, the page outcomes not yet consumed,
      and the calls made so far. */
  datatype World = World(tables: seq<TableState>, pages: seq<PageOutcome>, trace: seq<Call>)

  /** Why a run stops with an exception. `NoRepository` is the TypeError of calling a method on
      `repositories[0]` when the list is empty. */
  datatype Fault = InitFailed | HomepageFailed | ListingFailed | NoRepository

  /** How a run ends, with the counts it reports. */
  datatype RunOutcome =
    | ScrapDone(processed: int, removed: nat, returned: nat)
    | CheckDone(total: nat, updated: nat, skipped: int, errors: nat)
    | EmptyStore
    | Failed(fault: Fault)

  /** The repository both modes read and diff against (`repoToCheck`, lines 30 and 121). */
  function CheckIndex(n: nat): (i: nat)
    ensures 0 < n ==> i < n
    ensures 1 < n <==> i == 1
  {
    if n > 1 then 1 else 0
  }

  /** `saveProduct(p)` on every repository. */
  function SaveAll(ts: seq<TableState>, p: Product, now: Timestamp): (r: seq<TableState>)
    ensures |r| == |ts|
  {
    seq(|ts|, k requires 0 <= k < |ts| => ts[k].(rows := Upsert(ts[k].rows, p, now)))
  }

  /** `saveProductCheck(c)` on every repository. */
  function CheckAll(ts: seq<TableState>, c: ProductCheck): (r: seq<TableState>)
    ensures |r| == |ts|
  {
    seq(|ts|, k requires 0 <= k < |ts| => ts[k].(checks := ts[k].checks + [c]))
  }

  function SaveCalls(n: nat, url: string): (r: seq<Call>)
    ensures |r| == n
  {
    seq(n, k requires 0 <= k < n => SaveProduct(k, url))
  }

  function CheckCalls(n: nat, url: string): (r: seq<Call>)
    ensures |r| == n
  {
    seq(n, k requires 0 <= k < n => SaveProductCheck(k, url))
  }

  function CloseCalls(n: nat): (r: seq<Call>)
    ensures |r| == n
  {
    seq(n, k requires 0 <= k < n => CloseRepository(k))
  }

  /** The `finally` block (lines 109-112, 176-179): the scraper, then every repository, is closed. */
  function Finalize(w: World): World {
    w.(trace := w.trace + [CloseScraper] + CloseCalls(|w.tables|))
  }

  /** The next product-page outcome and the queue after it; an exhausted queue fails. */
  function NextPage(pages: seq<PageOutcome>): (PageOutcome, seq<PageOutcome>) {
    if pages == [] then (None, []) else (pages[0], pages[1..])
  }

  /** Whether the next product-page request succeeds. */
  predicate NextSucceeds(pages: seq<PageOutcome>) {
    pages != [] && pages[0].Some?
  }

  /** One product-page request for `u` (lines 86-92 and 150-156): the next outcome is consumed and,
      when it is a success, the check built from it is saved to every repository. A failed request
      saves nothing. */
  function Fetch(w: World, u: string, now: Timestamp): (r: World)
    ensures |r.tables| == |w.tables| && w.trace <= r.trace
  {
    var (page, rest) := NextPage(w.pages);
    var trace := w.trace + [ScrapeProductPage(u, 0)];
    if page.Some? then
      World(CheckAll(w.tables, NewProductCheck(u, page.value.data, now)), rest, trace + CheckCalls(|w.tables|, u))
    else
      World(w.tables, rest, trace)
  }

  /** Lines 75-83: a url the checked repository lacks is saved to every repository. */
  function SaveIfNew(w: World, ci: nat, item: ScrapedProduct, now: Timestamp): (r: World)
    requires ci < |w.tables|
    ensures |r.tables| == |w.tables| && w.trace <= r.trace && r.pages == w.pages
  {
    if item.url in w.tables[ci].rows then w
    else World(SaveAll(w.tables, FromScrapedData(item), now), w.pages, w.trace + SaveCalls(|w.tables|, item.url))
  }

  /** One homepage item in scrap mode (lines 74-101): saved first when new, then fetched. A failed
      request is caught and leaves the rest of the run to go on. */
  function ItemStep(w: World, ci: nat, item: ScrapedProduct, now: Timestamp): (r: World)
    requires ci < |w.tables|
    ensures |r.tables| == |w.tables| && w.trace <= r.trace
  {
    Fetch(SaveIfNew(w, ci, item, now), item.url, now)
  }

  /** The homepage loop (lines 68-102): every item in snapshot order, one at a time. */
  function ItemsFold(w: World, ci: nat, items: seq<ScrapedProduct>, now: Timestamp): (r: World)
    requires ci < |w.tables|
    ensures |r.tables| == |w.tables| && w.trace <= r.trace
    decreases |items|
  {
    if items == [] then w else ItemsFold(ItemStep(w, ci, items[0], now), ci, items[1..], now)
  }

  /** The homepage loop after `i` items is the loop over the rest, started from the state the
      `i`-th item leaves. */
  lemma ItemsFoldAt(w: World, w': World, ci: nat, items: seq<ScrapedProduct>, i: nat, now: Timestamp)
    requires ci < |w.tables| && i < |items| && w' == ItemStep(w, ci, items[i], now)
    ensures ItemsFold(w', ci, items[i + 1..], now) == ItemsFold(w, ci, items[i..], now)
  {
    assert items[i..][0] == items[i] && items[i..][1..] == items[i + 1..];
  }

  /** The state of the refresh loop: the world and the two counters. */
  datatype CheckAcc = CheckAcc(w: World, updated: nat, errors: nat)

  /** One stored product in check mode (lines 137-167): a removed product is skipped with no call;
      an available one is fetched, and the success or the failure is counted. */
  function CheckStep(acc: CheckAcc, p: Product, now: Timestamp): (r: CheckAcc)
    ensures |r.w.tables| == |acc.w.tables| && acc.w.trace <= r.w.trace
  {
    if !p.IsAvailable() then acc
    else if NextSucceeds(acc.w.pages) then CheckAcc(Fetch(acc.w, p.url, now), acc.updated + 1, acc.errors)
    else CheckAcc(Fetch(acc.w, p.url, now), acc.updated, acc.errors + 1)
  }

  /** The refresh loop (lines 136-168) over the stored products in listing order. */
  function CheckFold(acc: CheckAcc, ps: seq<Product>, now: Timestamp): (r: CheckAcc)
    ensures |r.w.tables| == |acc.w.tables| && acc.w.trace <= r.w.trace
    decreases |ps|
  {
    if ps == [] then acc else CheckFold(CheckStep(acc, ps[0], now), ps[1..], now)
  }

  /** The refresh loop after `i` products is the loop over the rest, started from the state the
      `i`-th product leaves. */
  lemma CheckFoldAt(acc: CheckAcc, ps: seq<Product>, i: nat, now: Timestamp)
    requires i < |ps|
    ensures CheckFold(acc, ps[i..], now) == CheckFold(CheckStep(acc, ps[i], now), ps[i + 1..], now)
  {
    assert ps[i..][0] == ps[i] && ps[i..][1..] == ps[i + 1..];
  }

  /** The fixed behaviour of the scraper for one run. */
  datatype ScraperSetup = ScraperSetup(initOk: bool, homepageOk: bool, listingOk: bool, listing: seq<ScrapedProduct>)

  /** Scrap mode after `initialize` (lines 21-102): the homepage, its listing, and the rest. */
  function ScrapHomepage(w: World, s: ScraperSetup, limit: int, total: int, now: Timestamp): (RunOutcome, World) {
    var t1 := w.trace + [GoToHomepage];
    if !s.homepageOk then (Failed(HomepageFailed), w.(trace := t1))
    else
      var t2 := t1 + [GetInitialProducts(limit)];
      if !s.listingOk then (Failed(ListingFailed), w.(trace := t2))
      else if |w.tables| == 0 then (Failed(NoRepository), w.(trace := t2))
      else ScrapListing(w.(trace := t2), SliceTo(s.listing, limit), total, now)
  }

  /** The `try` block of `runScrapMode` (lines 17-107) as a function of the state before it, the
      scraper's behaviour, the configured product limit, the product counter and the clock. */
  function ScrapBody(w: World, s: ScraperSetup, limit: int, total: int, now: Timestamp): (RunOutcome, World) {
    var t0 := w.trace + [Initialize];
    if !s.initOk then (Failed(InitFailed), w.(trace := t0))
    else ScrapHomepage(w.(trace := t0), s, limit, total, now)
  }

  /** Scrap mode once the homepage listing is read (lines 30-102): the availability diff on the
      checked repository, then the homepage loop. */
  function ScrapListing(w: World, items: seq<ScrapedProduct>, total: int, now: Timestamp): (RunOutcome, World)
    requires |w.tables| > 0
  {
    var snapshot := Urls(items);
    var ci := CheckIndex(|w.tables|);
    var rows := w.tables[ci].rows;
    var diffed := w.tables[ci := w.tables[ci].(rows := Reconcile(rows, snapshot, now))];
    (ScrapDone(total + |items|, |Disappeared(rows, snapshot)|, |Reappeared(rows, snapshot)|),
     ItemsFold(w.(tables := diffed), ci, items, now))
  }

  /** `runScrapMode` (lines 16-113): the `try` block, then the `finally` block whatever happened. */
  function ScrapMode(w: World, s: ScraperSetup, limit: int, total: int, now: Timestamp): (RunOutcome, World) {
    var (outcome, w1) := ScrapBody(w, s, limit, total, now);
    (outcome, Finalize(w1))
  }

  /** The `try` block of `runCheckMode` after `initialize` (lines 121-174), given the order `listed`
      in which `getAllProducts` returned the checked repository's rows. */
  function CheckStored(w: World, listed: seq<Product>, now: Timestamp): (RunOutcome, World) {
    if |w.tables| == 0 then (Failed(NoRepository), w)
    else if |listed| == 0 then (EmptyStore, w)
    else
      var acc := CheckFold(CheckAcc(w, 0, 0), listed, now);
      (CheckDone(|listed|, acc.updated, |listed| - acc.updated - acc.errors, acc.errors), acc.w)
  }

  /** The `try` block of `runCheckMode` (lines 116-174). */
  function CheckBody(w: World, initOk: bool, listed: seq<Product>, now: Timestamp): (RunOutcome, World) {
    var t0 := w.trace + [Initialize];
    if !initOk then (Failed(InitFailed), w.(trace := t0))
    else CheckStored(w.(trace := t0), listed, now)
  }

  /** `runCheckMode` (lines 115-180): the `try` block, then the `finally` block whatever happened. */
  function CheckMode(w: World, initOk: bool, listed: seq<Product>, now: Timestamp): (RunOutcome, World) {
    var (outcome, w1) := CheckBody(w, initOk, listed, now);
    (outcome, Finalize(w1))
  }
}
