# Product catalog scraper — a Dafny model

This project models the core of a price-tracking scraper for an online shop. The program has two modes.

**Scrap mode** (`runScrapMode`):
- It reads the homepage listing, cut to a configured limit.
- It diffs the stored catalog against that listing. Stored products that left the homepage are marked removed. Removed products that came back are marked available.
- It then walks the listing in page order. A url the store lacks is saved first as a new product. Each product page is requested, and the observation built from it is saved.

**Check mode** (`runCheckMode`):
- It walks every stored product.
- It skips the removed ones.
- It requests each available product's page and saves the observation.
- It counts updates and errors.

Both modes close the scraper and every repository, however the run ends.

The model is spread over these modules:

- `Products` (product.dfy): the immutable product record with its availability and JSON form (`Product.ts`).
- `ProductChecks` (product_check.dfy): the observation record. The model covers its derived promotion flag and discount percentage, with JavaScript truthiness and `Math.round`, and its JSON form (`ProductCheck.ts`).
- `Store` (store.dfy): the effect of PostgresProductRepository's statements on the `products` and `product_checks` tables.
  - Pure functions on a `map` of rows say what each statement does.
  - The class `ProductTable` holds the tables as fields and changes them in place.
  - It covers the batch upsert's equivalence with one-by-one upserts and the idempotence of the availability marks.
- `Scraper` (scraper.dfy): the WebScraper port as a class whose outcomes are fixed when it is built: whether launch, homepage and listing succeed, the listing, and the queue of product-page outcomes.
- `Reconciliation` (reconcile.dfy): scrap mode's availability diff. Set-level functions say which rows are disappeared or reappeared. Listing-order functions specify the two loops. Lemmas connect the two.
- `PipelineSpec` (pipeline_spec.dfy): both modes as functions of the state before the run. The state is a `World`: every repository's tables, the unconsumed page outcomes, and the ordered log of port calls.
- `ScraperService` (service.dfy): the class `ProductScraperService`. Its methods use loops over the repositories and the listings. Each method is proved to change the world exactly as its `PipelineSpec` function says.
- `PipelineProps` (pipeline_props.dfy): what the two modes promise, proved about the specification functions:
  - requests in order;
  - the same checks in every repository;
  - per-item failure isolation;
  - rows never dropped;
  - the checked repository mirrors the homepage after a scrap run;
  - check mode's counters add up;
  - every run closes its ports.
- `Cli` (cli.dfy): `getTypeFromArgs`, the normalisation of the interactive answer, and `main`'s dispatch and exit status (`index.ts`).

The source's clock readings (`NOW()`, `new Date()`) become a `now` parameter, read once per run. The browser (PuppeteerScraper) is replaced by the scripted scraper. The configuration's `initialProductsLimit` is a constructor parameter of the service.

The model follows the code where its behaviour is easy to misread:

- **Marks go to one repository.** `markAsRemoved`, `markAsAvailable`, `productExists` and both listings go only to the checked repository: `repositories[1]` when there are several, otherwise `repositories[0]`. They are not sent to every repository. Only `saveProduct` and `saveProductCheck` are sent to all.
- **Scrap mode counts no errors.** It reports processed, removed and returned counts. A failed item is only logged.
- **An empty repository list fails.** Both modes then fail with a `TypeError` once the scraper steps before the first repository call have run (`Failed(NoRepository)`).
- **A batch upsert rejects repeated urls.** PostgreSQL refuses an `ON CONFLICT DO UPDATE` that touches one row twice, so such a batch fails and writes nothing. An empty batch is a no-op. A batch is order-independent only over distinct urls.
- **Marking removed twice can change the timestamp.** `markAsRemoved` writes `NOW()` again, so a second call with a later clock changes `removed_at`. Availability is still idempotent, and the row is identical when the clock has not moved.
- **A check can lack its product row when there are several repositories.** A new url is detected on the checked repository only. Another repository that lacks the url gets the check without the row. The model proves that every check refers to a stored product for the checked repository only.
- **Existing titles are never refreshed.** A stored url is never saved again by the homepage loop.

## Model

| member | source | states |
|---|---|---|
| Products.FromScrapedData | scrapper/src/domain/Product.ts:8-10 | the product keeps the listing's url and title and is available |
| Products.DefaultIsAvailable | scrapper/src/domain/Product.ts:2-6 | a product built without `removedAt` has it null and is available |
| Products.Product.IsAvailable | scrapper/src/domain/Product.ts:20-22 | available exactly when `removedAt` is null; never both available and removed |
| Products.Product.ToJson | scrapper/src/domain/Product.ts:12-18 | an object with exactly the keys url, title, removedAt in that order, from which the product reads back unchanged |
| ProductChecks.JsRound | scrapper/src/domain/ProductCheck.ts:39 | `Math.round`: the integer r with r − 0.5 ≤ x < r + 0.5, so halves round up |
| ProductChecks.CalculateDiscountPercentage | scrapper/src/domain/ProductCheck.ts:35-40 | a discount exists iff there is a promotion and both prices are truthy, and it is the percentage saving rounded to the nearest integer |
| ProductChecks.NewProductCheck | scrapper/src/domain/ProductCheck.ts:22-33 | url and clock reading kept; price, original price, rating and review count are null exactly when absent; `inStock` is true unless data says false; `additionalData` defaults to the empty map |
| ProductChecks.PromotionDerived | scrapper/src/domain/ProductCheck.ts:26-39 | promotion iff both prices are present, non-zero and price < original price; no promotion means a null discount; a promotion's discount is round((original − price) / original · 100) |
| ProductChecks.DiscountWithinPercentRange | scrapper/src/domain/ProductCheck.ts:26-39 | with a positive price, a promotion's discount lies in [0, 100] |
| ProductChecks.NoOriginalPriceNoPromotion | scrapper/src/domain/ProductCheck.ts:26-38 | without an original price there is no promotion and the discount is null |
| ProductChecks.EightyOfHundredIsTwentyPercent | scrapper/src/domain/ProductCheck.ts:26-39 | price 80 against original 100 is a promotion with discount 20 |
| ProductChecks.PriceAboveOriginalIsNoPromotion | scrapper/src/domain/ProductCheck.ts:26-38 | price 100 against original 80 is no promotion and a null discount |
| ProductChecks.Defaults | scrapper/src/domain/ProductCheck.ts:28-31 | absent stock and extra data give `inStock` true and an empty map |
| ProductChecks.CheckToJson | scrapper/src/domain/ProductCheck.ts:42-55 | an object with exactly the ten fields, in the order of `toJSON`'s object literal (`checkedAt` second, although the class declares it last) |
| ProductChecks.PromotionFlag | scrapper/src/domain/ProductCheck.ts:26 | a promotion exactly when both prices are present and non-zero and the price is below the original price |
| ProductChecks.CheckJsonRoundTrip | scrapper/src/domain/ProductCheck.ts:42-55 | reading `toJSON`'s object back gives the same observation: every field reproduced unchanged |
| Store.Upsert | scrapper/src/adapters/PostgresProductRepository.ts:22-33 | the url's row is inserted or overwritten with the title, removal time and clock; every other row is unchanged |
| Store.BatchRows | scrapper/src/adapters/PostgresProductRepository.ts:35-57 | a batch of distinct urls writes exactly one row per member, as a single upsert would |
| Store.BatchIsSequential | scrapper/src/adapters/PostgresProductRepository.ts:35-57 | for distinct urls the batch upsert leaves the same rows as `saveProduct` on each member in turn |
| Store.BatchOrderIndependent | scrapper/src/adapters/PostgresProductRepository.ts:38-56 | for distinct urls, any reordering of the batch leaves the same rows |
| Store.MarkRemoved | scrapper/src/adapters/PostgresProductRepository.ts:106-111 | the url's row gets this run's removal time and keeps its title; a missing url changes nothing; other rows unchanged |
| Store.MarkAvailable | scrapper/src/adapters/PostgresProductRepository.ts:113-118 | the url's row has a null removal time and keeps its title; a missing url changes nothing; other rows unchanged |
| Store.MarkRemovedIdempotent | scrapper/src/adapters/PostgresProductRepository.ts:106-111 | marking removed twice leaves the availability of marking once, and the same rows when the clock is the same |
| Store.MarkAvailableIdempotent | scrapper/src/adapters/PostgresProductRepository.ts:113-118 | marking available twice leaves the availability of marking once, and the same rows when the clock is the same |
| Store.ProductTable.constructor | scrapper/src/adapters/PostgresProductRepository.ts:12-20 | a repository over the tables the database already holds, not yet closed |
| Store.ProductTable.SaveProduct | scrapper/src/adapters/PostgresProductRepository.ts:22-33 | the rows become the upsert of the product; checks unchanged |
| Store.ProductTable.SaveProducts | scrapper/src/adapters/PostgresProductRepository.ts:35-57 | succeeds iff the batch is empty or its urls are distinct; an empty or failed batch changes nothing; otherwise the batch rows are written; checks unchanged |
| Store.ProductTable.SaveProductCheck | scrapper/src/adapters/PostgresProductRepository.ts:59-86 | exactly one check appended; existing checks and all rows unchanged |
| Store.ProductTable.ProductExists | scrapper/src/adapters/PostgresProductRepository.ts:88-94 | true iff a row is keyed by the url |
| Store.ProductTable.GetAllProducts | scrapper/src/adapters/PostgresProductRepository.ts:96-99 | every row exactly once, as a product with its stored title and removal time, in some order |
| Store.ProductTable.GetAvailableProducts | scrapper/src/adapters/PostgresProductRepository.ts:101-104 | exactly the rows with a null removal time, each once, all available |
| Store.ProductTable.MarkAsRemoved | scrapper/src/adapters/PostgresProductRepository.ts:106-111 | the rows become `MarkRemoved` of the url; checks unchanged |
| Store.ProductTable.MarkAsAvailable | scrapper/src/adapters/PostgresProductRepository.ts:113-118 | the rows become `MarkAvailable` of the url; checks unchanged |
| Store.ProductTable.Close | scrapper/src/adapters/PostgresProductRepository.ts:120-122 | the pool is ended once more; the tables are unchanged |
| Scraper.SliceTo | scrapper/src/adapters/PuppeteerScraper.ts:179 | `slice(0, end)`: a prefix of the input, of length `end` capped at the input's length, counting back from the end for a negative `end` |
| Scraper.ScriptedScraper.constructor | scrapper/src/ports/WebScraper.ts:12-18 | a scraper with the given outcomes, no page open, never closed |
| Scraper.ScriptedScraper.Initialize | scrapper/src/adapters/PuppeteerScraper.ts:48-66 | succeeds as scripted and then leaves a page open |
| Scraper.ScriptedScraper.GoToHomepage | scrapper/src/adapters/PuppeteerScraper.ts:68-84 | succeeds iff a page is open and the homepage loads |
| Scraper.ScriptedScraper.GetInitialProducts | scrapper/src/adapters/PuppeteerScraper.ts:141-180 | succeeds iff a page is open and the listing loads; then it is the listing cut to `limit`, at most `limit` long |
| Scraper.ScriptedScraper.ScrapeProductPage | scrapper/src/adapters/PuppeteerScraper.ts:182-267 | without a page, or with no outcome left, it fails and consumes nothing; otherwise it consumes exactly the next outcome, fails when that one is a failure, and keeps the page's data and exactly `recommendedProducts.slice(0, maxRecommended)` of its related items (line 261) |
| Scraper.ScriptedScraper.Close | scrapper/src/adapters/PuppeteerScraper.ts:269-274 | one more close |
| Reconciliation.RemoveAbsentMarksAll | scrapper/src/services/ProductScraperService.ts:39-45 | over a listing of distinct stored urls, the removal loop marks exactly the listed urls the snapshot lacks, whatever the listing order |
| Reconciliation.CountAbsentIsSize | scrapper/src/services/ProductScraperService.ts:38-45 | `removedCount` is the number of distinct listed urls the snapshot lacks |
| Reconciliation.RestorePresentMarksAll | scrapper/src/services/ProductScraperService.ts:54-61 | over a listing of distinct stored urls, the return loop marks available exactly the listed urls the snapshot shows, whatever the listing order |
| Reconciliation.CountPresentIsSize | scrapper/src/services/ProductScraperService.ts:54-61 | `returnedCount` is the number of distinct listed urls the snapshot shows |
| Reconciliation.DisappearedFromListing | scrapper/src/services/ProductScraperService.ts:33-40 | the available listing minus the snapshot is exactly the set of available rows missing from the homepage |
| Reconciliation.ReappearedFromListing | scrapper/src/services/ProductScraperService.ts:52-56 | the removed listing within the snapshot is exactly the set of removed rows back on the homepage |
| Reconciliation.RemovedOnly | scrapper/src/services/ProductScraperService.ts:53 | the filter keeps exactly the listing's removed products |
| Reconciliation.RemovedOnlyLists | scrapper/src/services/ProductScraperService.ts:52-53 | filtering a listing of all rows gives a listing of exactly the removed rows, each once |
| Reconciliation.ReconcileCorrect | scrapper/src/services/ProductScraperService.ts:33-61 | after both passes no row is added or dropped; disappeared rows are removed now with their titles kept; reappeared rows are available with their titles kept; every other row, in particular an available one still on the homepage, is unchanged |
| Reconciliation.JustRemovedNotReturned | scrapper/src/services/ProductScraperService.ts:52-61 | although the return pass re-reads the rows, it returns exactly the rows removed before this run that are on the homepage; a row removed in this run is never re-marked |
| Reconciliation.DiffPartition | scrapper/src/services/ProductScraperService.ts:33-45 | every available row is either on the homepage or disappeared, so the removal count is at most the number of available rows |
| PipelineSpec.CheckIndex | scrapper/src/services/ProductScraperService.ts:30 | the checked repository is index 1 exactly when there are several, and always a valid index when there is one |
| PipelineProps.FetchEffect | scrapper/src/services/ProductScraperService.ts:86-92 | one request: one more fetch of the url, one outcome consumed, rows unchanged, and every repository gets the check of a successful page and nothing for a failed one |
| PipelineProps.SaveIfNewEffect | scrapper/src/services/ProductScraperService.ts:75-83 | a url the checked repository lacks is upserted as available in every repository; a stored url in none; no request, no check |
| PipelineProps.ItemStepCallOrder | scrapper/src/services/ProductScraperService.ts:75-92 | for a new url, `saveProduct` on every repository in order, then the page request, and every `saveProductCheck` after it; for a stored url the request comes first and no `saveProduct` is made |
| PipelineProps.ItemStepEffect | scrapper/src/services/ProductScraperService.ts:74-101 | one homepage item: one fetch, one outcome consumed, its check (if any) in every repository, and the upsert exactly when it is new |
| PipelineProps.ItemStepRequests | scrapper/src/services/ProductScraperService.ts:86 | one homepage item requests its page and consumes one outcome |
| PipelineProps.ItemStepRows | scrapper/src/services/ProductScraperService.ts:75-83 | one homepage item drops no row, adds its url to the checked repository as an available row if missing, and changes no stored row's availability there |
| PipelineProps.ItemsFoldRequests | scrapper/src/services/ProductScraperService.ts:68-102 | the homepage loop requests every item's page in page order, consuming one outcome per item |
| PipelineProps.ItemsFoldChecks | scrapper/src/services/ProductScraperService.ts:68-102 | every repository gets the same checks: one per successful page, in order; a failed item does not shift the later items' outcomes |
| PipelineProps.ItemsFoldEffect | scrapper/src/services/ProductScraperService.ts:68-102 | requests and checks of the homepage loop together |
| PipelineProps.ItemsFoldKeys | scrapper/src/services/ProductScraperService.ts:68-102 | the loop drops no row in any repository and adds to the checked one exactly the homepage urls it lacked |
| PipelineProps.ItemsFoldAvailability | scrapper/src/services/ProductScraperService.ts:68-102 | the loop keeps every stored row's availability in the checked repository, so an availability that mirrored the snapshot still does |
| PipelineProps.ItemsFoldIntegrity | scrapper/src/services/ProductScraperService.ts:75-92 | every check in the checked repository keeps pointing at a stored product (new before observation) |
| PipelineProps.MiddleFailureIsolated | scrapper/src/services/ProductScraperService.ts:74-101 | three stored items whose second request fails: all three are requested, every repository gets the checks of the first and third, the third built from the third outcome |
| PipelineProps.FinalizeEffect | scrapper/src/services/ProductScraperService.ts:109-112 | the `finally` block changes no table, consumes no outcome, requests nothing, and appends scraper close then every repository close |
| PipelineProps.ScrapListingEffect | scrapper/src/services/ProductScraperService.ts:30-102 | after the listing: all items counted as processed, requested in order, one outcome each, the same checks in every repository, no row dropped |
| PipelineProps.ScrapModeEffect | scrapper/src/services/ProductScraperService.ts:16-113 | scrap mode completes iff launch, homepage and listing succeed and a repository exists; a failed run writes nothing, consumes nothing, requests nothing; a complete run has the effect of `ScrapListingEffect` on the limited listing |
| PipelineProps.ScrapMirrorsHomepage | scrapper/src/services/ProductScraperService.ts:30-102 | after a complete run the checked repository holds its old urls plus the homepage's, a row is available exactly when on the homepage, and disappeared rows carry this run's removal time |
| PipelineProps.ScrapKeepsChecksReferring | scrapper/src/services/ProductScraperService.ts:16-113 | scrap mode keeps every check of the checked repository pointing at a stored product |
| PipelineProps.CheckStepRequests | scrapper/src/services/ProductScraperService.ts:137-167 | a removed product makes no call and no count; an available one is requested once and counted once, as updated iff its page succeeds |
| PipelineProps.CheckStepTables | scrapper/src/services/ProductScraperService.ts:143-156 | one stored product writes no row and gives every repository the check of a successful page |
| PipelineProps.CheckFoldRequests | scrapper/src/services/ProductScraperService.ts:136-168 | the refresh loop requests exactly the available products' pages, in listing order |
| PipelineProps.CheckFoldCounts | scrapper/src/services/ProductScraperService.ts:133-168 | `updatedCount` is the number of successful pages; every available product adds to exactly one counter |
| PipelineProps.CheckFoldTables | scrapper/src/services/ProductScraperService.ts:136-168 | every repository gets the same checks, one per successful page; no row written |
| PipelineProps.VisitedPlusSkipped | scrapper/src/services/ProductScraperService.ts:143-146 | a listing splits into the available products visited and the removed ones skipped |
| PipelineProps.CheckModeEffect | scrapper/src/services/ProductScraperService.ts:115-180 | fails iff launch fails or no repository; stops early iff the listing is empty; neither requests a page; no row ever written; a complete run has total = listing length, skipped = removed count ≥ 0, updated + errors = available count, requests in listing order, the same checks everywhere |
| PipelineProps.ScrapAlwaysCloses | scrapper/src/services/ProductScraperService.ts:109-112 | every scrap run, failed or not, ends with scraper close then every repository close in list order, after all its other calls |
| PipelineProps.CheckAlwaysCloses | scrapper/src/services/ProductScraperService.ts:176-179 | the same for check mode, including the early return on an empty store |
| ScraperService.ProductScraperService.constructor | scrapper/src/services/ProductScraperService.ts:8-14 | the given scraper, repositories and limit, no product counted, no call made |
| ScraperService.ProductScraperService.SaveToAllRepositories | scrapper/src/services/ProductScraperService.ts:182-186 | every repository's rows become the upsert of the product, in list order; nothing else changes, none is closed |
| ScraperService.ProductScraperService.SaveCheckToAll | scrapper/src/services/ProductScraperService.ts:90-92 | every repository gets the check appended, in list order; nothing else changes |
| ScraperService.ProductScraperService.CloseAllRepositories | scrapper/src/services/ProductScraperService.ts:188-192 | every repository is closed exactly once more, in list order; no table changes |
| ScraperService.ProductScraperService.RemovalPass | scrapper/src/services/ProductScraperService.ts:33-45 | the checked rows become the removal pass (every disappeared row marked removed, nothing else), and `removedCount` is the number of disappeared rows |
| ScraperService.ProductScraperService.MarkAbsentRemoved | scrapper/src/services/ProductScraperService.ts:39-45 | the loop marks removed, in listing order, each listed url the snapshot lacks and counts them |
| ScraperService.ProductScraperService.ReturnPass | scrapper/src/services/ProductScraperService.ts:52-61 | the rows are re-read; the checked rows become the return pass (every reappeared row marked available, nothing else), and `returnedCount` is the number of reappeared rows |
| ScraperService.ProductScraperService.MarkPresentAvailable | scrapper/src/services/ProductScraperService.ts:55-61 | the loop marks available, in listing order, each listed url the snapshot shows and counts them |
| ScraperService.ProductScraperService.ReconcileChecked | scrapper/src/services/ProductScraperService.ts:30-64 | only the checked repository's rows change, to `Reconcile` of the old rows; the counts are the disappeared and reappeared sizes |
| ScraperService.ProductScraperService.FetchAndSave | scrapper/src/services/ProductScraperService.ts:86-92 | the world changes exactly as `Fetch`; `ok` iff the next outcome is a success |
| ScraperService.ProductScraperService.ProcessItem | scrapper/src/services/ProductScraperService.ts:74-101 | the world changes exactly as `ItemStep` (upsert when new, then fetch); the failure of the request is caught |
| ScraperService.ProductScraperService.ProcessHomepage | scrapper/src/services/ProductScraperService.ts:68-102 | the world changes exactly as the fold of `ItemStep` over the items in order, and `totalProductsScraped` grows by exactly the number of items |
| ScraperService.ProductScraperService.CheckProducts | scrapper/src/services/ProductScraperService.ts:136-168 | the world and both counters are exactly the fold of `CheckStep` over the listing; `totalProductsScraped` grows by the listing's length, removed products included |
| ScraperService.ProductScraperService.CloseAll | scrapper/src/services/ProductScraperService.ts:109-112 | the world changes as `Finalize`: the scraper and every repository are closed once more |
| ScraperService.ProductScraperService.ProcessListing | scrapper/src/services/ProductScraperService.ts:30-102 | the outcome and the world are exactly `ScrapListing`: the diff and then the homepage loop |
| ScraperService.ProductScraperService.ScrapFromHomepage | scrapper/src/services/ProductScraperService.ts:21-102 | outcome and world as `ScrapHomepage`: homepage and listing failures stop the run, an empty repository list fails |
| ScraperService.ProductScraperService.ScrapSteps | scrapper/src/services/ProductScraperService.ts:17-108 | outcome and world as `ScrapBody`; `totalProductsScraped` is the reported processed count after a complete run and unchanged after a failed one |
| ScraperService.ProductScraperService.RunScrapMode | scrapper/src/services/ProductScraperService.ts:16-113 | outcome and world as `ScrapMode`, the scraper and every repository closed exactly once |
| ScraperService.ProductScraperService.CheckStoredProducts | scrapper/src/services/ProductScraperService.ts:121-174 | `listed` lists every checked row once; outcome and world as `CheckStored`; the counter grows by the total only after a complete run |
| ScraperService.ProductScraperService.CheckSteps | scrapper/src/services/ProductScraperService.ts:116-175 | outcome and world as `CheckBody` |
| ScraperService.ProductScraperService.RunCheckMode | scrapper/src/services/ProductScraperService.ts:115-180 | outcome and world as `CheckMode`, the scraper and every repository closed exactly once |
| Cli.LowerHasNoCapital | scrapper/src/index.ts:14 | a lower-cased text holds no ASCII capital |
| Cli.LowerIdempotent | scrapper/src/index.ts:14 | lower-casing twice is lower-casing once |
| Cli.LowerIgnoresCase | scrapper/src/index.ts:14 | two texts lower-case to the same text exactly when they differ only in the case of ASCII letters |
| Cli.TrimStart | scrapper/src/index.ts:37 | a suffix of the input whose dropped prefix is all white space and which does not start with white space |
| Cli.TrimEnd | scrapper/src/index.ts:37 | a prefix of the input whose dropped suffix is all white space and which does not end with white space |
| Cli.TrimPadded | scrapper/src/index.ts:37 | trimming white space around a text that neither starts nor ends with white space gives that text |
| Cli.Trim | scrapper/src/index.ts:37 | an infix of the input whose dropped margins are all white space and which neither starts nor ends with white space |
| Cli.SecondField | scrapper/src/index.ts:14 | undefined exactly when there is no `=` |
| Cli.UpTo | scrapper/src/index.ts:14 | the longest prefix without the separator |
| Cli.FirstTypeArg | scrapper/src/index.ts:11 | the index of the first argument starting with `type=`; none before it does |
| Cli.FindTypeArg | scrapper/src/index.ts:11 | none exactly when no argument starts with `type=`; otherwise the first argument that does |
| Cli.GetTypeFromArgs | scrapper/src/index.ts:9-21 | no mode without a `type=` argument; otherwise scrap exactly when the first such argument's text after `type=` up to the next `=`, lower-cased, is `scrap`, and check exactly when it is `check` |
| Cli.NoTypeArgNoMode | scrapper/src/index.ts:11-20 | with no `type=` argument there is no mode |
| Cli.FirstTypeArgWins | scrapper/src/index.ts:11 | only the first `type=` argument counts; arguments around it are ignored |
| Cli.SecondFieldSkips | scrapper/src/index.ts:14 | text before the first `=` does not affect the split |
| Cli.UpToStopsAtSeparator | scrapper/src/index.ts:14 | the field ends at the next `=` |
| Cli.TypeArgValue | scrapper/src/index.ts:14-17 | the mode is the text between the first and the second `=`, lower-cased, if it reads `scrap` or `check` |
| Cli.UpperCaseValueAccepted | scrapper/src/index.ts:14-17 | `type=CHECK` gives check |
| Cli.UnknownValueRejected | scrapper/src/index.ts:14-20 | `type=foo` gives no mode |
| Cli.LaterFieldsIgnored | scrapper/src/index.ts:14-17 | `type=check=now` gives check |
| Cli.ScrapValueAccepted | scrapper/src/index.ts:14-17 | `type=scrap` gives scrap |
| Cli.AnswerMode | scrapper/src/index.ts:37-44 | check exactly when the lower-cased, trimmed answer is `check`; anything else is scrap |
| Cli.PaddedUpperCaseAnswer | scrapper/src/index.ts:37-40 | the answer `  CHECK` followed by a newline selects check |
| Cli.UnknownAnswerFallsBackToScrap | scrapper/src/index.ts:41-44 | the answers `2` and the empty answer select scrap |
| Cli.SelectModeChoice | scrapper/src/index.ts:50-54 | when the first `type=` argument's lower-cased second field is `scrap` or `check` that mode runs for every answer; otherwise (no `type=` argument, another value, no `=`) the answer's mode runs |
| Cli.SelectModeFallbacks | scrapper/src/index.ts:50-54 | `type=foo` and a bare `type` leave the choice to the answer |
| Cli.SelectModeFirstArgument | scrapper/src/index.ts:11-17 | with `type=Scrap` before `type=check`, scrap runs whatever the answer |
| Cli.Dispatch | scrapper/src/index.ts:72-81 | scrap runs scrap mode and check runs check mode, with the run's exact effect, and in check mode (once initialised, with a repository) over a listing of exactly the checked repository's stored rows, each once; the exit status is 0 or 1, and 1 exactly when the run failed: in scrap mode exactly when initialisation, the homepage or the listing fails or there is no repository (ProductScraperService.ts lines 20-30), in check mode exactly when initialisation fails or there is no repository (lines 119-121) |

## Left out

- Store failures: every repository call succeeds, so connectivity and constraint errors of the database are not modelled. The only failing calls are the scraper's (launch, homepage, listing, product page).
- Store.ProductTable.SaveProducts: the batch insert names only url, title and removed_at, so a new row's `last_checked` takes the column default. The database schema is not part of this model, and the model writes the clock reading there.
- Repository aliasing: the service requires each repository to appear once in its list (`Valid`). The same connection listed twice is not modelled.
- The WebScraper and ProductRepository ports are classes here, not interfaces: `Scraper.ScriptedScraper` and `Store.ProductTable` are their only implementations.
- PuppeteerScraper's browser automation is replaced by scripted outcomes: page navigation, time-outs, cookie banners, scrolling, DOM extraction, de-duplication of related items and HTML snapshots. Only the truncation to `limit` and `maxRecommended` is kept.
- Clocks: `NOW()` and `new Date()` are one `now` parameter per run; timestamps are natural numbers; `toISOString` is an opaque JSON time value.
- Floating point: prices and ratings are real numbers, so NaN, infinities and rounding of IEEE doubles are not modelled.
- ProductChecks.JsRound: `Math.round` is exact rounding of a real number, not of a double.
- Cli.Lower and Cli.LowerChar: lower-case only ASCII letters; JavaScript's full Unicode case mapping is not modelled.
- Logging, `async`/`await`, the `readline` prompt and `process.argv` are left out. Console output has no effect on behaviour. The awaited calls run in sequence. The prompt's answer and the arguments are parameters.
- Configuration (`config.ts`, environment variables, `parseInt`) is left out: `initialProductsLimit` is a parameter.
- `$pool.end()` and `JSON.stringify` of `additionalData` are left out; closing only counts closes.
- The call log (`trace`) records scraper calls and repository writes and closes. The repository reads and marks are described by the resulting rows instead.
- Check mode's listing order: `getAllProducts` has no `ORDER BY`, so the order is whatever the method picks. The run modes are specified for the order returned, given as a ghost out-parameter `listed`.
