/** The WebScraper port (scrapper/src/ports/WebScraper.ts). The browser-driven adapter is replaced by a
    scraper whose outcomes are fixed when it is built: whether the session opens, whether the homepage
    loads, what it lists, and what each successive product-page request returns. */
module Scraper {
  import opened Wrappers
  import opened Products
  import opened ProductChecks

  /** What one product page yields: the observation's raw fields and the related items it shows. */
  datatype ScrapedProductDetails = ScrapedProductDetails(data: ProductCheckData, recommendedProducts: seq<ScrapedProduct>)

  /** The result of one `scrapeProductPage` request; None when the request throws
      (navigation timeout, page error). */
  type PageOutcome = Option<ScrapedProductDetails>

  /** `s.slice(0, end)`: a negative end counts back from the end of `s`. */
  function SliceTo<T>(s: seq<T>, end: int): (r: seq<T>)
    ensures r <= s
    ensures 0 <= end ==> |r| == (if end < |s| then end else |s|)
    ensures end < 0 ==> |r| == (if -end < |s| then |s| + end else 0)
  {
    if 0 <= end then (if end < |s| then s[..end] else s)
    else if -end < |s| then s[..|s| + end] else []
  }

  class ScriptedScraper {
    /** Whether launching the browser succeeds. */
    const initOk: bool
    /** Whether navigating to the homepage succeeds. */
    const homepageOk: bool
    /** Whether reading the homepage listing succeeds. */
    const listingOk: bool
    /** The products the homepage shows, in page order, before truncation. */
    const listing: seq<ScrapedProduct>
    /** The outcomes of the product-page requests still to come, in request order. */
    var pages: seq<PageOutcome>
    /** Whether a page is open (`this.page !== null`). */
    var initialized: bool
    /** How many times `close` has been called. */
    var closeCount: nat

    constructor (initOk: bool, homepageOk: bool, listingOk: bool, listing: seq<ScrapedProduct>, pages: seq<PageOutcome>)
      ensures this.initOk == initOk && this.homepageOk == homepageOk && this.listingOk == listingOk
      ensures this.listing == listing && this.pages == pages
      ensures !initialized && closeCount == 0
    {
      this.initOk := initOk;
      this.homepageOk := homepageOk;
      this.listingOk := listingOk;
      this.listing := listing;
      this.pages := pages;
      initialized := false;
      closeCount := 0;
    }

    /** Launches the browser and opens a page; `ok` is false when that throws. */
    method Initialize() returns (ok: bool)
      modifies this`initialized
      ensures ok == initOk
      ensures initialized == (old(initialized) || initOk)
    {
      ok := initOk;
      initialized := initialized || initOk;
    }

    /** Loads the homepage; throws without an open page. */
    method GoToHomepage() returns (ok: bool)
      ensures ok <==> initialized && homepageOk
    {
      ok := initialized && homepageOk;
    }

    /** The homepage's products, cut to `limit`; None when there is no page or the listing fails. */
    method GetInitialProducts(limit: int) returns (r: Option<seq<ScrapedProduct>>)
      ensures r.Some? <==> initialized && listingOk
      ensures r.Some? ==> r.value == SliceTo(listing, limit) && r.value <= listing
      ensures r.Some? && 0 <= limit ==> |r.value| == (if limit < |listing| then limit else |listing|)
    {
      if !initialized || !listingOk {
        return None;
      }
      r := Some(SliceTo(listing, limit));
    }

    /** Requests one product page: consumes the next scripted outcome and keeps at most
        `maxRecommended` related items. Without an open page it throws and consumes nothing. */
    method ScrapeProductPage(url: string, maxRecommended: int) returns (r: PageOutcome)
      modifies this`pages
      ensures !old(initialized) || old(pages) == [] ==> r == None && pages == old(pages)
      ensures old(initialized) && old(pages) != [] ==>
                pages == old(pages)[1..]
                && (old(pages)[0].None? ==> r.None?)
                && (old(pages)[0].Some? ==>
                      r.Some? && r.value.data == old(pages)[0].value.data
                      && r.value.recommendedProducts == SliceTo(old(pages)[0].value.recommendedProducts, maxRecommended))
    {
      if !initialized || pages == [] {
        return None;
      }
      r := pages[0];
      pages := pages[1..];
      if r.Some? {
        r := Some(r.value.(recommendedProducts := SliceTo(r.value.recommendedProducts, maxRecommended)));
      }
    }

    /** Closes the browser if one was launched. */
    method Close()
      modifies this`closeCount
      ensures closeCount == old(closeCount) + 1
    {
      closeCount := closeCount + 1;
    }
  }
}
