/** The `products` / `product_checks` tables as PostgresProductRepository uses them
    (scrapper/src/adapters/PostgresProductRepository.ts), held in memory. */
module Store {
  import opened Wrappers
  import opened Products
  import opened ProductChecks

  /** A row of `products`, keyed by url: `title`, `removed_at` and `last_checked`. */
  datatype Row = Row(title: string, removedAt: Option<Timestamp>, lastChecked: Timestamp)

  /** The contents of both tables. */
  datatype TableState = TableState(rows: map<string, Row>, checks: seq<ProductCheck>)

  /** The row an upsert of `p` writes at time `now`. */
  function RowOf(p: Product, now: Timestamp): Row {
    Row(p.title, p.removedAt, now)
  }

  /** The product a `SELECT url, title, removed_at` yields for a row. */
  function ProductOf(url: string, r: Row): Product {
    Product(url, r.title, r.removedAt)
  }

  /** `INSERT ... ON CONFLICT (url) DO UPDATE SET title, removed_at, last_checked`. */
  function Upsert(rows: map<string, Row>, p: Product, now: Timestamp): (r: map<string, Row>)
    ensures r.Keys == rows.Keys + {p.url}
    ensures r[p.url] == RowOf(p, now)
    ensures forall u :: u in rows && u != p.url ==> r[u] == rows[u]
  {
    rows[p.url := RowOf(p, now)]
  }

  /** One `saveProduct` call after another, in order. */
  function UpsertSeq(rows: map<string, Row>, ps: seq<Product>, now: Timestamp): map<string, Row>
    decreases |ps|
  {
    if ps == [] then rows else UpsertSeq(Upsert(rows, ps[0], now), ps[1..], now)
  }

  /** No two products share a url. */
  predicate DistinctUrls(ps: seq<Product>) {
    forall i, j :: 0 <= i < j < |ps| ==> ps[i].url != ps[j].url
  }

  /** The urls of a list of products. */
  function UrlSet(ps: seq<Product>): set<string> {
    set i | 0 <= i < |ps| :: ps[i].url
  }

  /** The rows a single multi-row `INSERT` writes: one per product. */
  function BatchRows(ps: seq<Product>, now: Timestamp): (b: map<string, Row>)
    requires DistinctUrls(ps)
    ensures b.Keys == UrlSet(ps)
    ensures forall i :: 0 <= i < |ps| ==> b[ps[i].url] == RowOf(ps[i], now)
  {
    map i | 0 <= i < |ps| :: ps[i].url := RowOf(ps[i], now)
  }

  /** `UPDATE products SET removed_at = NOW(), last_checked = NOW() WHERE url = $1`. */
  function MarkRemoved(rows: map<string, Row>, url: string, now: Timestamp): (r: map<string, Row>)
    ensures r.Keys == rows.Keys
    ensures url in rows ==> r[url].removedAt == Some(now) && r[url].title == rows[url].title
    ensures forall u :: u in rows && u != url ==> r[u] == rows[u]
  {
    if url in rows then rows[url := rows[url].(removedAt := Some(now), lastChecked := now)] else rows
  }

  /** `UPDATE products SET removed_at = NULL, last_checked = NOW() WHERE url = $1`. */
  function MarkAvailable(rows: map<string, Row>, url: string, now: Timestamp): (r: map<string, Row>)
    ensures r.Keys == rows.Keys
    ensures url in rows ==> r[url].removedAt == None && r[url].title == rows[url].title
    ensures forall u :: u in rows && u != url ==> r[u] == rows[u]
  {
    if url in rows then rows[url := rows[url].(removedAt := None, lastChecked := now)] else rows
  }

  /** Which rows are available: the part of the state the availability marks decide. */
  function Availability(rows: map<string, Row>): map<string, bool> {
    map u | u in rows :: rows[u].removedAt.None?
  }

  /** The urls whose `removed_at` is null. */
  function AvailableUrls(rows: map<string, Row>): set<string> {
    set u | u in rows && rows[u].removedAt.None?
  }

  /** `ps` is a listing of exactly the rows whose urls are in `keys`, each url once, in some order. */
  predicate ListsRows(ps: seq<Product>, rows: map<string, Row>, keys: set<string>) {
    && DistinctUrls(ps)
    && UrlSet(ps) == keys
    && forall i :: 0 <= i < |ps| ==> ps[i].url in rows && ps[i] == ProductOf(ps[i].url, rows[ps[i].url])
  }

  lemma UrlSetSnoc(ps: seq<Product>, p: Product)
    ensures UrlSet(ps + [p]) == UrlSet(ps) + {p.url}
  {
    var qs := ps + [p];
    forall u | u in UrlSet(qs) ensures u in UrlSet(ps) + {p.url} {
      var i :| 0 <= i < |qs| && qs[i].url == u;
      if i < |ps| { assert ps[i].url == u; }
    }
    forall u | u in UrlSet(ps) ensures u in UrlSet(qs) {
      var i :| 0 <= i < |ps| && ps[i].url == u;
      assert qs[i].url == u;
    }
    assert qs[|ps|].url == p.url;
  }

  /** In a list of distinct urls, an element's url is not among those before it. */
  lemma FreshUrl(ps: seq<Product>, i: nat)
    requires DistinctUrls(ps) && i < |ps|
    ensures ps[i].url !in UrlSet(ps[..i])
    ensures UrlSet(ps[..i + 1]) == UrlSet(ps[..i]) + {ps[i].url}
  {
    assert ps[..i + 1] == ps[..i] + [ps[i]];
    UrlSetSnoc(ps[..i], ps[i]);
  }

  /** A batch upsert of distinct urls writes the same rows as upserting them one by one. */
  lemma {:induction false} BatchIsSequential(rows: map<string, Row>, ps: seq<Product>, now: Timestamp)
    requires DistinctUrls(ps)
    ensures rows + BatchRows(ps, now) == UpsertSeq(rows, ps, now)
    decreases |ps|
  {
    if ps != [] {
      var tail := ps[1..];
      assert DistinctUrls(tail) by {
        forall i, j | 0 <= i < j < |tail| ensures tail[i].url != tail[j].url {
          assert tail[i] == ps[i + 1] && tail[j] == ps[j + 1];
        }
      }
      BatchIsSequential(Upsert(rows, ps[0], now), tail, now);
      var lhs := rows + BatchRows(ps, now);
      var rhs := Upsert(rows, ps[0], now) + BatchRows(tail, now);
      assert lhs == rhs;
    }
  }

  /** The row a batch writes for one of its members. */
  lemma BatchRowsAt(ps: seq<Product>, p: Product, now: Timestamp)
    requires DistinctUrls(ps) && p in ps
    ensures p.url in BatchRows(ps, now) && BatchRows(ps, now)[p.url] == RowOf(p, now)
  {
    var i :| 0 <= i < |ps| && ps[i] == p;
  }

  /** Two batches holding the same products write the same rows. */
  lemma SameBatchRows(ps: seq<Product>, qs: seq<Product>, now: Timestamp)
    requires DistinctUrls(ps) && DistinctUrls(qs)
    requires forall p :: p in ps <==> p in qs
    ensures BatchRows(ps, now) == BatchRows(qs, now)
  {
    var bp, bq := BatchRows(ps, now), BatchRows(qs, now);
    forall u | u in bp ensures u in bq && bq[u] == bp[u] {
      var i :| 0 <= i < |ps| && ps[i].url == u;
      BatchRowsAt(qs, ps[i], now);
    }
    forall u | u in bq ensures u in bp {
      var j :| 0 <= j < |qs| && qs[j].url == u;
      BatchRowsAt(ps, qs[j], now);
    }
  }

  /** For distinct urls the batch upsert does not depend on the order of the batch. */
  lemma BatchOrderIndependent(rows: map<string, Row>, ps: seq<Product>, qs: seq<Product>, now: Timestamp)
    requires DistinctUrls(ps) && DistinctUrls(qs)
    requires multiset(ps) == multiset(qs)
    ensures UpsertSeq(rows, ps, now) == UpsertSeq(rows, qs, now)
  {
    BatchIsSequential(rows, ps, now);
    BatchIsSequential(rows, qs, now);
    forall p ensures p in ps <==> p in qs {
      assert p in ps <==> p in multiset(ps);
      assert p in qs <==> p in multiset(qs);
    }
    SameBatchRows(ps, qs, now);
  }

  /** Marking a row removed twice leaves the same availability as marking it once. */
  lemma MarkRemovedIdempotent(rows: map<string, Row>, url: string, t1: Timestamp, t2: Timestamp)
    ensures Availability(MarkRemoved(MarkRemoved(rows, url, t1), url, t2)) == Availability(MarkRemoved(rows, url, t1))
    ensures MarkRemoved(MarkRemoved(rows, url, t1), url, t1) == MarkRemoved(rows, url, t1)
  {
  }

  /** Marking a row available twice leaves the same availability as marking it once. */
  lemma MarkAvailableIdempotent(rows: map<string, Row>, url: string, t1: Timestamp, t2: Timestamp)
    ensures Availability(MarkAvailable(MarkAvailable(rows, url, t1), url, t2)) == Availability(MarkAvailable(rows, url, t1))
    ensures MarkAvailable(MarkAvailable(rows, url, t1), url, t1) == MarkAvailable(rows, url, t1)
  {
  }

  /** PostgresProductRepository over an in-memory copy of its two tables. */
  class ProductTable {
    var rows: map<string, Row>
    var checks: seq<ProductCheck>
    /** How many times the connection pool has been ended. */
    var closeCount: nat

    /** A repository connected to a database that already holds `rows` and `checks`. */
    constructor (rows: map<string, Row>, checks: seq<ProductCheck>)
      ensures this.rows == rows && this.checks == checks && closeCount == 0
    {
      this.rows := rows;
      this.checks := checks;
      closeCount := 0;
    }

    /** Both tables' contents. */
    function State(): TableState
      reads this
    {
      TableState(rows, checks)
    }

    method SaveProduct(p: Product, now: Timestamp)
      modifies this
      ensures rows == Upsert(old(rows), p, now)
      ensures checks == old(checks) && closeCount == old(closeCount)
    {
      rows := Upsert(rows, p, now);
    }

    /** One multi-row upsert. PostgreSQL refuses an `ON CONFLICT DO UPDATE` that would touch the
        same row twice, so a batch that repeats a url fails and writes nothing. */
    method SaveProducts(ps: seq<Product>, now: Timestamp) returns (ok: bool)
      modifies this
      ensures ok <==> |ps| == 0 || DistinctUrls(ps)
      ensures rows == if ok && |ps| > 0 then old(rows) + BatchRows(ps, now) else old(rows)
      ensures checks == old(checks) && closeCount == old(closeCount)
    {
      if |ps| == 0 {
        return true;
      }
      ok := forall i, j :: 0 <= i < j < |ps| ==> ps[i].url != ps[j].url;
      if ok {
        rows := rows + BatchRows(ps, now);
      }
    }

    /** A plain insert into `product_checks`. */
    method SaveProductCheck(c: ProductCheck)
      modifies this
      ensures checks == old(checks) + [c]
      ensures rows == old(rows) && closeCount == old(closeCount)
    {
      checks := checks + [c];
    }

    method ProductExists(url: string) returns (b: bool)
      ensures b <==> url in rows
    {
      b := url in rows;
    }

    /** `SELECT url, title, removed_at FROM products`, in no particular order. */
    method GetAllProducts() returns (ps: seq<Product>)
      ensures ListsRows(ps, rows, rows.Keys)
    {
      ps := [];
      var rest := rows.Keys;
      while rest != {}
        invariant rest <= rows.Keys
        invariant UrlSet(ps) + rest == rows.Keys && UrlSet(ps) !! rest
        invariant ListsRows(ps, rows, UrlSet(ps))
        decreases rest
      {
        var u :| u in rest;
        UrlSetSnoc(ps, ProductOf(u, rows[u]));
        ps := ps + [ProductOf(u, rows[u])];
        rest := rest - {u};
      }
    }

    /** `SELECT ... WHERE removed_at IS NULL`, in no particular order. */
    method GetAvailableProducts() returns (ps: seq<Product>)
      ensures ListsRows(ps, rows, AvailableUrls(rows))
      ensures forall i :: 0 <= i < |ps| ==> ps[i].IsAvailable()
    {
      ps := [];
      var rest := AvailableUrls(rows);
      while rest != {}
        invariant rest <= AvailableUrls(rows)
        invariant UrlSet(ps) + rest == AvailableUrls(rows) && UrlSet(ps) !! rest
        invariant ListsRows(ps, rows, UrlSet(ps))
        invariant forall i :: 0 <= i < |ps| ==> ps[i].IsAvailable()
        decreases rest
      {
        var u :| u in rest;
        UrlSetSnoc(ps, Product(u, rows[u].title, None));
        ps := ps + [Product(u, rows[u].title, None)];
        rest := rest - {u};
      }
    }

    method MarkAsRemoved(url: string, now: Timestamp)
      modifies this
      ensures rows == MarkRemoved(old(rows), url, now)
      ensures checks == old(checks) && closeCount == old(closeCount)
    {
      rows := MarkRemoved(rows, url, now);
    }

    method MarkAsAvailable(url: string, now: Timestamp)
      modifies this
      ensures rows == MarkAvailable(old(rows), url, now)
      ensures checks == old(checks) && closeCount == old(closeCount)
    {
      rows := MarkAvailable(rows, url, now);
    }

    /** Ends the connection pool; the tables stay as they are. */
    method Close()
      modifies this
      ensures closeCount == old(closeCount) + 1
      ensures rows == old(rows) && checks == old(checks)
    {
      closeCount := closeCount + 1;
    }
  }
}
