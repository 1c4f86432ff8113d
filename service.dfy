/** The orchestrator (scrapper/src/services/ProductScraperService.ts). */
module ScraperService {
  import opened Wrappers
  import opened Products
  import opened ProductChecks
  import opened Store
  import opened Scraper
  import opened Reconciliation
  import opened PipelineSpec

  /** Every repository's tables, in list order. */
  ghost function StatesOf(rs: seq<ProductTable>): (s: seq<TableState>)
    reads rs
    ensures |s| == |rs| && forall k :: 0 <= k < |rs| ==> s[k] == rs[k].State()
  {
    seq(|rs|, k requires 0 <= k < |rs| reads rs => rs[k].State())
  }

  /** Every count one higher. */
  function Bumped(cs: seq<nat>): (r: seq<nat>)
    ensures |r| == |cs| && forall k :: 0 <= k < |cs| ==> r[k] == cs[k] + 1
  {
    seq(|cs|, k requires 0 <= k < |cs| => cs[k] + 1)
  }

  class ProductScraperService {
    const scraper: ScriptedScraper
    const repositories: seq<ProductTable>
    /** `config.scraping.initialProductsLimit`. */
    const initialProductsLimit: int
    /** Items visited over the service's lifetime, by both modes. */
    var totalProductsScraped: int
    /** The port calls made so far, in order. */
    ghost var trace: seq<Call>

    /** Each repository appears once in the list. */
    ghost predicate Valid() {
      forall i, j :: 0 <= i < j < |repositories| ==> repositories[i] != repositories[j]
    }

    constructor (scraper: ScriptedScraper, repositories: seq<ProductTable>, initialProductsLimit: int)
      requires forall i, j :: 0 <= i < j < |repositories| ==> repositories[i] != repositories[j]
      ensures Valid()
      ensures this.scraper == scraper && this.repositories == repositories
      ensures this.initialProductsLimit == initialProductsLimit
      ensures totalProductsScraped == 0 && trace == []
    {
      this.scraper := scraper;
      this.repositories := repositories;
      this.initialProductsLimit := initialProductsLimit;
      totalProductsScraped := 0;
      trace := [];
    }

    ghost function States(): (s: seq<TableState>)
      reads repositories
      ensures |s| == |repositories|
    {
      StatesOf(repositories)
    }

    /** How many times each repository has been closed, in list order. */
    ghost function CloseCounts(): (s: seq<nat>)
      reads repositories
      ensures |s| == |repositories|
    {
      seq(|repositories|, k requires 0 <= k < |repositories| reads repositories => repositories[k].closeCount)
    }

    /** What a run can change, as one value. */
    ghost function Observed(): World
      reads this`trace, scraper`pages, repositories
    {
      World(States(), scraper.pages, trace)
    }

    /** The scraper's fixed behaviour. */
    function Setup(): ScraperSetup {
      ScraperSetup(scraper.initOk, scraper.homepageOk, scraper.listingOk, scraper.listing)
    }

    /** `saveToAllRepositories` (lines 182-186). */
    method SaveToAllRepositories(p: Product, now: Timestamp)
      requires Valid()
      modifies repositories, this`trace
      ensures States() == SaveAll(old(States()), p, now)
      ensures CloseCounts() == old(CloseCounts())
      ensures trace == old(trace) + SaveCalls(|repositories|, p.url)
    {
      ghost var states, counts := States(), CloseCounts();
      for k := 0 to |repositories|
        invariant forall j :: 0 <= j < |repositories| ==>
                    repositories[j].State() == if j < k then states[j].(rows := Upsert(states[j].rows, p, now))
                                               else states[j]
        invariant forall j :: 0 <= j < |repositories| ==> repositories[j].closeCount == counts[j]
        invariant trace == old(trace) + SaveCalls(k, p.url)
      {
        repositories[k].SaveProduct(p, now);
        trace := trace + [SaveProduct(k, p.url)];
      }
      assert forall j :: 0 <= j < |repositories| ==> States()[j] == SaveAll(states, p, now)[j] && CloseCounts()[j] == counts[j];
    }

    /** The loop that saves one check to every repository (lines 90-92 and 154-156). */
    method SaveCheckToAll(c: ProductCheck)
      requires Valid()
      modifies repositories, this`trace
      ensures States() == CheckAll(old(States()), c)
      ensures CloseCounts() == old(CloseCounts())
      ensures trace == old(trace) + CheckCalls(|repositories|, c.productUrl)
    {
      ghost var states, counts := States(), CloseCounts();
      for k := 0 to |repositories|
        invariant forall j :: 0 <= j < |repositories| ==>
                    repositories[j].State() == if j < k then states[j].(checks := states[j].checks + [c])
                                               else states[j]
        invariant forall j :: 0 <= j < |repositories| ==> repositories[j].closeCount == counts[j]
        invariant trace == old(trace) + CheckCalls(k, c.productUrl)
      {
        repositories[k].SaveProductCheck(c);
        trace := trace + [SaveProductCheck(k, c.productUrl)];
      }
      assert forall j :: 0 <= j < |repositories| ==> States()[j] == CheckAll(states, c)[j] && CloseCounts()[j] == counts[j];
    }

    /** `closeAllRepositories` (lines 188-192). */
    method CloseAllRepositories()
      requires Valid()
      modifies repositories, this`trace
      ensures States() == old(States())
      ensures CloseCounts() == Bumped(old(CloseCounts()))
      ensures trace == old(trace) + CloseCalls(|repositories|)
    {
      ghost var counts := CloseCounts();
      for k := 0 to |repositories|
        invariant forall j :: 0 <= j < |repositories| ==> repositories[j].State() == old(repositories[j].State())
        invariant forall j :: 0 <= j < |repositories| ==>
                    repositories[j].closeCount == counts[j] + (if j < k then 1 else 0)
        invariant trace == old(trace) + CloseCalls(k)
      {
        repositories[k].Close();
        trace := trace + [CloseRepository(k)];
      }
      assert forall j :: 0 <= j < |repositories| ==> CloseCounts()[j] == Bumped(counts)[j];
    }

    /** The removal loop (lines 33-45): the repository's available products are listed, and every one
        the snapshot lacks is marked removed, and counted. */
    method RemovalPass(repo: ProductTable, snapshot: set<string>, now: Timestamp) returns (removedCount: nat)
      modifies repo
      ensures repo.rows == Reconciliation.RemovalPass(old(repo.rows), snapshot, now)
      ensures repo.checks == old(repo.checks) && repo.closeCount == old(repo.closeCount)
      ensures removedCount == |Disappeared(old(repo.rows), snapshot)|
    {
      ghost var rows0 := repo.rows;
      var available := repo.GetAvailableProducts();
      DisappearedFromListing(available, rows0, snapshot);
      RemoveAbsentMarksAll(rows0, available, snapshot, now);
      CountAbsentIsSize(available, snapshot);
      removedCount := MarkAbsentRemoved(repo, available, snapshot, now);
    }

    /** The body of the removal loop (lines 39-45) over a listing of stored products. */
    method MarkAbsentRemoved(repo: ProductTable, ps: seq<Product>, snapshot: set<string>, now: Timestamp)
      returns (removedCount: nat)
      modifies repo
      ensures repo.rows == RemoveAbsent(old(repo.rows), ps, snapshot, now)
      ensures repo.checks == old(repo.checks) && repo.closeCount == old(repo.closeCount)
      ensures removedCount == CountAbsent(ps, snapshot)
    {
      ghost var rows0 := repo.rows;
      removedCount := 0;
      for i := 0 to |ps|
        invariant repo.rows == RemoveAbsent(rows0, ps[..i], snapshot, now)
        invariant repo.checks == old(repo.checks) && repo.closeCount == old(repo.closeCount)
        invariant removedCount == CountAbsent(ps[..i], snapshot)
      {
        assert ps[..i + 1][..i] == ps[..i];
        var url := ps[i].url;
        if url !in snapshot {
          repo.MarkAsRemoved(url, now);
          removedCount := removedCount + 1;
        }
      }
      assert ps[..|ps|] == ps;
    }

    /** The return loop (lines 52-61): the repository is read again, and every removed
        product the snapshot shows is marked available, and counted. */
    method ReturnPass(repo: ProductTable, snapshot: set<string>, now: Timestamp) returns (returnedCount: nat)
      modifies repo
      ensures repo.rows == Reconciliation.ReturnPass(old(repo.rows), snapshot, now)
      ensures repo.checks == old(repo.checks) && repo.closeCount == old(repo.closeCount)
      ensures returnedCount == |Reappeared(old(repo.rows), snapshot)|
    {
      ghost var rows0 := repo.rows;
      var all := repo.GetAllProducts();
      var removed := RemovedOnly(all);
      RemovedOnlyLists(all, rows0, rows0.Keys);
      ReappearedFromListing(removed, rows0, snapshot);
      RestorePresentMarksAll(rows0, removed, snapshot, now);
      CountPresentIsSize(removed, snapshot);
      returnedCount := MarkPresentAvailable(repo, removed, snapshot, now);
    }

    /** The body of the return loop (lines 55-61) over a listing of stored products. */
    method MarkPresentAvailable(repo: ProductTable, ps: seq<Product>, snapshot: set<string>, now: Timestamp)
      returns (returnedCount: nat)
      modifies repo
      ensures repo.rows == RestorePresent(old(repo.rows), ps, snapshot, now)
      ensures repo.checks == old(repo.checks) && repo.closeCount == old(repo.closeCount)
      ensures returnedCount == CountPresent(ps, snapshot)
    {
      ghost var rows0 := repo.rows;
      returnedCount := 0;
      for i := 0 to |ps|
        invariant repo.rows == RestorePresent(rows0, ps[..i], snapshot, now)
        invariant repo.checks == old(repo.checks) && repo.closeCount == old(repo.closeCount)
        invariant returnedCount == CountPresent(ps[..i], snapshot)
      {
        assert ps[..i + 1][..i] == ps[..i];
        var url := ps[i].url;
        if url in snapshot {
          repo.MarkAsAvailable(url, now);
          returnedCount := returnedCount + 1;
        }
      }
      assert ps[..|ps|] == ps;
    }

    /** One product-page request and, on success, the check saved to every repository
        (lines 86-92 and 150-156). `ok` says whether the request succeeded. */
    method FetchAndSave(url: string, now: Timestamp) returns (ok: bool)
      requires Valid() && scraper.initialized
      modifies repositories, scraper`pages, this`trace
      ensures Observed() == Fetch(old(Observed()), url, now)
      ensures ok == NextSucceeds(old(scraper.pages))
      ensures CloseCounts() == old(CloseCounts())
    {
      ghost var w0 := Observed();
      var details := scraper.ScrapeProductPage(url, 0);
      trace := trace + [ScrapeProductPage(url, 0)];
      ok := details.Some?;
      if ok {
        SaveCheckToAll(NewProductCheck(url, details.value.data, now));
      }
      assert States() == Fetch(w0, url, now).tables;
    }

    /** One homepage item (lines 74-101): saved to every repository when the checked one lacks it,
        then fetched. */
    method ProcessItem(ci: nat, item: ScrapedProduct, now: Timestamp)
      requires Valid() && ci < |repositories| && scraper.initialized
      modifies repositories, scraper`pages, this`trace
      ensures CloseCounts() == old(CloseCounts())
      ensures Observed() == ItemStep(old(Observed()), ci, item, now)
    {
      ghost var w0 := Observed();
      var existsInDb := repositories[ci].ProductExists(item.url);
      assert existsInDb == (item.url in w0.tables[ci].rows);
      if !existsInDb {
        SaveToAllRepositories(FromScrapedData(item), now);
        assert Observed() == World(SaveAll(w0.tables, FromScrapedData(item), now), w0.pages, w0.trace + SaveCalls(|w0.tables|, item.url));
      }
      ghost var w1 := Observed();
      assert w1 == SaveIfNew(w0, ci, item, now);
      var _ := FetchAndSave(item.url, now);
      assert Observed() == Fetch(w1, item.url, now);
    }

    /** The homepage loop (lines 68-102): every item in order, each counted in `totalProductsScraped`. */
    method ProcessHomepage(ci: nat, items: seq<ScrapedProduct>, now: Timestamp)
      requires Valid() && ci < |repositories| && scraper.initialized
      modifies repositories, scraper`pages, this`trace, this`totalProductsScraped
      ensures Observed() == ItemsFold(old(Observed()), ci, items, now)
      ensures totalProductsScraped == old(totalProductsScraped) + |items|
      ensures CloseCounts() == old(CloseCounts())
    {
      ghost var w0 := Observed();
      for i := 0 to |items|
        invariant ItemsFold(Observed(), ci, items[i..], now) == ItemsFold(w0, ci, items, now)
        invariant totalProductsScraped == old(totalProductsScraped) + i
        invariant CloseCounts() == old(CloseCounts())
      {
        ghost var w := Observed();
        totalProductsScraped := totalProductsScraped + 1;
        assert Observed() == w;
        ProcessItem(ci, items[i], now);
        ItemsFoldAt(w, Observed(), ci, items, i, now);
      }
      assert items[|items|..] == [];
    }

    /** The refresh loop (lines 136-168): removed products are skipped; every available one has its
        page requested, and a success saves a check to every repository. */
    method CheckProducts(ps: seq<Product>, now: Timestamp) returns (updatedCount: nat, errorCount: nat)
      requires Valid() && scraper.initialized
      modifies repositories, scraper`pages, this`trace, this`totalProductsScraped
      ensures CheckAcc(Observed(), updatedCount, errorCount) == CheckFold(CheckAcc(old(Observed()), 0, 0), ps, now)
      ensures totalProductsScraped == old(totalProductsScraped) + |ps|
      ensures CloseCounts() == old(CloseCounts())
    {
      ghost var w0 := Observed();
      updatedCount, errorCount := 0, 0;
      for i := 0 to |ps|
        invariant CheckFold(CheckAcc(Observed(), updatedCount, errorCount), ps[i..], now)
                  == CheckFold(CheckAcc(w0, 0, 0), ps, now)
        invariant totalProductsScraped == old(totalProductsScraped) + i
        invariant CloseCounts() == old(CloseCounts())
      {
        var product := ps[i];
        totalProductsScraped := totalProductsScraped + 1;
        CheckFoldAt(CheckAcc(Observed(), updatedCount, errorCount), ps, i, now);
        if !product.IsAvailable() {
          continue;
        }
        var ok := FetchAndSave(product.url, now);
        if ok {
          updatedCount := updatedCount + 1;
        } else {
          errorCount := errorCount + 1;
        }
      }
    }

    /** The `finally` block: the scraper, then every repository, is closed. */
    method CloseAll()
      requires Valid()
      modifies repositories, scraper`closeCount, this`trace
      ensures Observed() == Finalize(old(Observed()))
      ensures scraper.closeCount == old(scraper.closeCount) + 1
      ensures CloseCounts() == Bumped(old(CloseCounts()))
    {
      scraper.Close();
      trace := trace + [CloseScraper];
      CloseAllRepositories();
    }

    /** Both availability passes on the checked repository (lines 30-64); the other repositories,
        the scraper and the calls recorded are untouched. */
    method ReconcileChecked(ci: nat, snapshot: set<string>, now: Timestamp) returns (removedCount: nat, returnedCount: nat)
      requires Valid() && ci < |repositories|
      modifies repositories[ci]
      ensures States() == old(States())[ci := old(States()[ci]).(rows := Reconcile(old(repositories[ci].rows), snapshot, now))]
      ensures removedCount == |Disappeared(old(repositories[ci].rows), snapshot)|
      ensures returnedCount == |Reappeared(old(repositories[ci].rows), snapshot)|
      ensures CloseCounts() == old(CloseCounts())
    {
      ghost var rows0 := repositories[ci].rows;
      removedCount := RemovalPass(repositories[ci], snapshot, now);
      returnedCount := ReturnPass(repositories[ci], snapshot, now);
      JustRemovedNotReturned(rows0, snapshot, now);
    }

    /** Scrap mode once the homepage listing is read (lines 30-102). */
    method ProcessListing(items: seq<ScrapedProduct>, now: Timestamp) returns (outcome: RunOutcome)
      requires Valid() && |repositories| > 0 && scraper.initialized
      modifies repositories, scraper`pages, this`trace, this`totalProductsScraped
      ensures (outcome, Observed()) == ScrapListing(old(Observed()), items, old(totalProductsScraped), now)
      ensures totalProductsScraped == old(totalProductsScraped) + |items|
      ensures CloseCounts() == old(CloseCounts())
    {
      var currentProductUrls := Urls(items);
      var ci := CheckIndex(|repositories|);
      var removedCount, returnedCount := ReconcileChecked(ci, currentProductUrls, now);
      ProcessHomepage(ci, items, now);
      outcome := ScrapDone(totalProductsScraped, removedCount, returnedCount);
    }

    /** The `try` block of `runScrapMode` (lines 17-107). */
    method ScrapSteps(now: Timestamp) returns (outcome: RunOutcome)
      requires Valid()
      modifies repositories, scraper`pages, scraper`initialized, this`trace, this`totalProductsScraped
      ensures (outcome, Observed()) == ScrapBody(old(Observed()), Setup(), initialProductsLimit, old(totalProductsScraped), now)
      ensures totalProductsScraped == if outcome.ScrapDone? then outcome.processed else old(totalProductsScraped)
      ensures CloseCounts() == old(CloseCounts())
    {
      ghost var w0 := Observed();
      var ok := scraper.Initialize();
      trace := trace + [Initialize];
      assert Observed() == w0.(trace := w0.trace + [Initialize]);
      if !ok {
        return Failed(InitFailed);
      }
      outcome := ScrapFromHomepage(now);
    }

    /** Scrap mode after `initialize` (lines 21-102): the homepage, the listing cut to
        `initialProductsLimit`, and the listing's processing. */
    method ScrapFromHomepage(now: Timestamp) returns (outcome: RunOutcome)
      requires Valid() && scraper.initialized
      modifies repositories, scraper`pages, this`trace, this`totalProductsScraped
      ensures (outcome, Observed()) == ScrapHomepage(old(Observed()), Setup(), initialProductsLimit, old(totalProductsScraped), now)
      ensures totalProductsScraped == if outcome.ScrapDone? then outcome.processed else old(totalProductsScraped)
      ensures CloseCounts() == old(CloseCounts())
    {
      ghost var w0 := Observed();
      var ok := scraper.GoToHomepage();
      trace := trace + [GoToHomepage];
      if !ok {
        return Failed(HomepageFailed);
      }
      var currentProducts := scraper.GetInitialProducts(initialProductsLimit);
      trace := trace + [GetInitialProducts(initialProductsLimit)];
      if currentProducts.None? {
        return Failed(ListingFailed);
      }
      if |repositories| == 0 {
        return Failed(NoRepository);
      }
      ghost var w2 := Observed();
      assert w2 == w0.(trace := w0.trace + [GoToHomepage] + [GetInitialProducts(initialProductsLimit)]);
      outcome := ProcessListing(currentProducts.value, now);
    }

    /** `runScrapMode` (lines 16-113). */
    method RunScrapMode(now: Timestamp) returns (outcome: RunOutcome)
      requires Valid()
      modifies repositories, scraper, this`trace, this`totalProductsScraped
      ensures (outcome, Observed()) == ScrapMode(old(Observed()), Setup(), initialProductsLimit, old(totalProductsScraped), now)
      ensures totalProductsScraped == if outcome.ScrapDone? then outcome.processed else old(totalProductsScraped)
      ensures scraper.closeCount == old(scraper.closeCount) + 1
      ensures CloseCounts() == Bumped(old(CloseCounts()))
    {
      outcome := ScrapSteps(now);
      CloseAll();
    }

    /** The `try` block of `runCheckMode` (lines 116-174). `listed` is the order in which
        `getAllProducts` returned the checked repository's rows. */
    method CheckSteps(now: Timestamp) returns (outcome: RunOutcome, ghost listed: seq<Product>)
      requires Valid()
      modifies repositories, scraper`pages, scraper`initialized, this`trace, this`totalProductsScraped
      ensures scraper.initOk && |repositories| > 0 ==>
                ListsRows(listed, old(repositories[CheckIndex(|repositories|)].rows), old(repositories[CheckIndex(|repositories|)].rows).Keys)
      ensures (outcome, Observed()) == CheckBody(old(Observed()), scraper.initOk, listed, now)
      ensures totalProductsScraped == if outcome.CheckDone? then old(totalProductsScraped) + outcome.total else old(totalProductsScraped)
      ensures CloseCounts() == old(CloseCounts())
    {
      ghost var w0 := Observed();
      var ok := scraper.Initialize();
      trace := trace + [Initialize];
      assert Observed() == w0.(trace := w0.trace + [Initialize]);
      if !ok {
        return Failed(InitFailed), [];
      }
      outcome, listed := CheckStoredProducts(now);
    }

    /** The part of check mode after `initialize` (lines 121-174): the checked repository is listed,
        and an empty listing stops the run before any request. */
    method CheckStoredProducts(now: Timestamp) returns (outcome: RunOutcome, ghost listed: seq<Product>)
      requires Valid() && scraper.initialized
      modifies repositories, scraper`pages, this`trace, this`totalProductsScraped
      ensures |repositories| > 0 ==>
                ListsRows(listed, old(repositories[CheckIndex(|repositories|)].rows), old(repositories[CheckIndex(|repositories|)].rows).Keys)
      ensures (outcome, Observed()) == CheckStored(old(Observed()), listed, now)
      ensures totalProductsScraped == if outcome.CheckDone? then old(totalProductsScraped) + outcome.total else old(totalProductsScraped)
      ensures CloseCounts() == old(CloseCounts())
    {
      listed := [];
      if |repositories| == 0 {
        return Failed(NoRepository), listed;
      }
      ghost var w0 := Observed();
      var allProducts := repositories[CheckIndex(|repositories|)].GetAllProducts();
      listed := allProducts;
      if |allProducts| == 0 {
        return EmptyStore, listed;
      }
      var updatedCount, errorCount := CheckProducts(allProducts, now);
      ghost var acc := CheckFold(CheckAcc(w0, 0, 0), allProducts, now);
      assert Observed() == acc.w && updatedCount == acc.updated && errorCount == acc.errors;
      outcome := CheckDone(|allProducts|, updatedCount, |allProducts| - updatedCount - errorCount, errorCount);
    }

    /** `runCheckMode` (lines 115-180). */
    method RunCheckMode(now: Timestamp) returns (outcome: RunOutcome, ghost listed: seq<Product>)
      requires Valid()
      modifies repositories, scraper, this`trace, this`totalProductsScraped
      ensures scraper.initOk && |repositories| > 0 ==>
                ListsRows(listed, old(repositories[CheckIndex(|repositories|)].rows), old(repositories[CheckIndex(|repositories|)].rows).Keys)
      ensures (outcome, Observed()) == CheckMode(old(Observed()), scraper.initOk, listed, now)
      ensures totalProductsScraped == if outcome.CheckDone? then old(totalProductsScraped) + outcome.total else old(totalProductsScraped)
      ensures scraper.closeCount == old(scraper.closeCount) + 1
      ensures CloseCounts() == Bumped(old(CloseCounts()))
    {
      outcome, listed := CheckSteps(now);
      CloseAll();
    }
  }
}
