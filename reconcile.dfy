/** The availability diff of scrap mode (scrapper/src/services/ProductScraperService.ts, lines 30-64):
    the stored catalog against a homepage snapshot. */
module Reconciliation {
  import opened Wrappers
  import opened Products
  import opened Store

  /** The urls of a homepage snapshot (`new Set(currentProducts.map(p => p.url))`). */
  function Urls(items: seq<ScrapedProduct>): set<string> {
    set i | 0 <= i < |items| :: items[i].url
  }

  /** Available rows whose url the snapshot lacks. */
  function Disappeared(rows: map<string, Row>, snapshot: set<string>): set<string> {
    set u | u in rows && rows[u].removedAt.None? && u !in snapshot
  }

  /** Removed rows whose url the snapshot shows. */
  function Reappeared(rows: map<string, Row>, snapshot: set<string>): set<string> {
    set u | u in rows && rows[u].removedAt.Some? && u in snapshot
  }

  /** `markAsRemoved` applied to every url of `s`, in any order. */
  function MarkAllRemoved(rows: map<string, Row>, s: set<string>, now: Timestamp): (r: map<string, Row>)
    ensures r.Keys == rows.Keys
  {
    map u | u in rows :: if u in s then rows[u].(removedAt := Some(now), lastChecked := now) else rows[u]
  }

  /** `markAsAvailable` applied to every url of `s`, in any order. */
  function MarkAllAvailable(rows: map<string, Row>, s: set<string>, now: Timestamp): (r: map<string, Row>)
    ensures r.Keys == rows.Keys
  {
    map u | u in rows :: if u in s then rows[u].(removedAt := None, lastChecked := now) else rows[u]
  }

  /** The rows after the removal loop (lines 39-45). */
  function RemovalPass(rows: map<string, Row>, snapshot: set<string>, now: Timestamp): map<string, Row> {
    MarkAllRemoved(rows, Disappeared(rows, snapshot), now)
  }

  /** The rows after the return loop (lines 52-61), run on the rows the removal loop left. */
  function ReturnPass(rows: map<string, Row>, snapshot: set<string>, now: Timestamp): map<string, Row> {
    MarkAllAvailable(rows, Reappeared(rows, snapshot), now)
  }

  /** Both passes, in the order scrap mode runs them. */
  function Reconcile(rows: map<string, Row>, snapshot: set<string>, now: Timestamp): map<string, Row> {
    ReturnPass(RemovalPass(rows, snapshot, now), snapshot, now)
  }

  /** One more `markAsRemoved` extends the set of urls already marked. */
  lemma MarkRemovedStep(rows: map<string, Row>, s: set<string>, u: string, now: Timestamp)
    requires u in rows && u !in s
    ensures MarkRemoved(MarkAllRemoved(rows, s, now), u, now) == MarkAllRemoved(rows, s + {u}, now)
  {
  }

  /** One more `markAsAvailable` extends the set of urls already marked. */
  lemma MarkAvailableStep(rows: map<string, Row>, s: set<string>, u: string, now: Timestamp)
    requires u in rows && u !in s
    ensures MarkAvailable(MarkAllAvailable(rows, s, now), u, now) == MarkAllAvailable(rows, s + {u}, now)
  {
  }

  /** The rows after the removal loop's `markAsRemoved` on each url of `ps` the snapshot lacks, in
      listing order. */
  function RemoveAbsent(rows: map<string, Row>, ps: seq<Product>, snapshot: set<string>, now: Timestamp): map<string, Row>
    decreases |ps|
  {
    if ps == [] then rows
    else
      var r := RemoveAbsent(rows, ps[..|ps| - 1], snapshot, now);
      var u := ps[|ps| - 1].url;
      if u in snapshot then r else MarkRemoved(r, u, now)
  }

  /** How many urls of `ps` the snapshot lacks: the removal loop's `removedCount`. */
  function CountAbsent(ps: seq<Product>, snapshot: set<string>): nat
    decreases |ps|
  {
    if ps == [] then 0
    else CountAbsent(ps[..|ps| - 1], snapshot) + (if ps[|ps| - 1].url in snapshot then 0 else 1)
  }

  /** The rows after the return loop's `markAsAvailable` on each url of `ps` the snapshot shows, in
      listing order. */
  function RestorePresent(rows: map<string, Row>, ps: seq<Product>, snapshot: set<string>, now: Timestamp): map<string, Row>
    decreases |ps|
  {
    if ps == [] then rows
    else
      var r := RestorePresent(rows, ps[..|ps| - 1], snapshot, now);
      var u := ps[|ps| - 1].url;
      if u in snapshot then MarkAvailable(r, u, now) else r
  }

  /** How many urls of `ps` the snapshot shows: the return loop's `returnedCount`. */
  function CountPresent(ps: seq<Product>, snapshot: set<string>): nat
    decreases |ps|
  {
    if ps == [] then 0
    else CountPresent(ps[..|ps| - 1], snapshot) + (if ps[|ps| - 1].url in snapshot then 1 else 0)
  }

  /** Over a listing of distinct stored urls, the removal loop marks exactly the listed urls the
      snapshot lacks, whatever the listing order. */
  lemma {:induction false} RemoveAbsentMarksAll(rows: map<string, Row>, ps: seq<Product>, snapshot: set<string>, now: Timestamp)
    requires DistinctUrls(ps) && forall i :: 0 <= i < |ps| ==> ps[i].url in rows
    ensures RemoveAbsent(rows, ps, snapshot, now) == MarkAllRemoved(rows, UrlSet(ps) - snapshot, now)
    decreases |ps|
  {
    if ps != [] {
      var n, u := |ps| - 1, ps[|ps| - 1].url;
      var before := UrlSet(ps[..n]) - snapshot;
      RemoveAbsentMarksAll(rows, ps[..n], snapshot, now);
      FreshUrl(ps, n);
      assert ps[..n + 1] == ps;
      if u in snapshot {
        assert UrlSet(ps) - snapshot == before;
      } else {
        assert UrlSet(ps) - snapshot == before + {u} && u !in before;
        MarkRemovedStep(rows, before, u, now);
      }
    }
  }

  /** Over a listing of distinct urls, the removal loop counts each url the snapshot lacks once. */
  lemma {:induction false} CountAbsentIsSize(ps: seq<Product>, snapshot: set<string>)
    requires DistinctUrls(ps)
    ensures CountAbsent(ps, snapshot) == |UrlSet(ps) - snapshot|
    decreases |ps|
  {
    if ps != [] {
      var n, u := |ps| - 1, ps[|ps| - 1].url;
      var before := UrlSet(ps[..n]) - snapshot;
      CountAbsentIsSize(ps[..n], snapshot);
      FreshUrl(ps, n);
      assert ps[..n + 1] == ps;
      if u in snapshot {
        assert UrlSet(ps) - snapshot == before;
      } else {
        assert UrlSet(ps) - snapshot == before + {u} && u !in before;
      }
    }
  }

  /** Over a listing of distinct stored urls, the return loop marks exactly the listed urls the
      snapshot shows, whatever the listing order. */
  lemma {:induction false} RestorePresentMarksAll(rows: map<string, Row>, ps: seq<Product>, snapshot: set<string>, now: Timestamp)
    requires DistinctUrls(ps) && forall i :: 0 <= i < |ps| ==> ps[i].url in rows
    ensures RestorePresent(rows, ps, snapshot, now) == MarkAllAvailable(rows, UrlSet(ps) * snapshot, now)
    decreases |ps|
  {
    if ps != [] {
      var n, u := |ps| - 1, ps[|ps| - 1].url;
      var before := UrlSet(ps[..n]) * snapshot;
      RestorePresentMarksAll(rows, ps[..n], snapshot, now);
      FreshUrl(ps, n);
      assert ps[..n + 1] == ps;
      if u in snapshot {
        assert UrlSet(ps) * snapshot == before + {u} && u !in before;
        MarkAvailableStep(rows, before, u, now);
      } else {
        assert UrlSet(ps) * snapshot == before;
      }
    }
  }

  /** Over a listing of distinct urls, the return loop counts each url the snapshot shows once. */
  lemma {:induction false} CountPresentIsSize(ps: seq<Product>, snapshot: set<string>)
    requires DistinctUrls(ps)
    ensures CountPresent(ps, snapshot) == |UrlSet(ps) * snapshot|
    decreases |ps|
  {
    if ps != [] {
      var n, u := |ps| - 1, ps[|ps| - 1].url;
      var before := UrlSet(ps[..n]) * snapshot;
      CountPresentIsSize(ps[..n], snapshot);
      FreshUrl(ps, n);
      assert ps[..n + 1] == ps;
      if u in snapshot {
        assert UrlSet(ps) * snapshot == before + {u} && u !in before;
      } else {
        assert UrlSet(ps) * snapshot == before;
      }
    }
  }

  /** Listing the available rows and dropping the snapshot's urls gives the disappeared rows. */
  lemma DisappearedFromListing(ps: seq<Product>, rows: map<string, Row>, snapshot: set<string>)
    requires ListsRows(ps, rows, AvailableUrls(rows))
    ensures UrlSet(ps) - snapshot == Disappeared(rows, snapshot)
  {
  }

  /** Listing the removed rows and keeping the snapshot's urls gives the reappeared rows. */
  lemma ReappearedFromListing(ps: seq<Product>, rows: map<string, Row>, snapshot: set<string>)
    requires ListsRows(ps, rows, set u | u in rows && rows[u].removedAt.Some?)
    ensures UrlSet(ps) * snapshot == Reappeared(rows, snapshot)
  {
  }

  /** The removed products of a listing, in listing order (`allProductsInDb.filter(p => !p.isAvailable())`). */
  function RemovedOnly(ps: seq<Product>): (r: seq<Product>)
    ensures forall p :: p in r <==> p in ps && !p.IsAvailable()
    ensures |r| <= |ps|
  {
    if ps == [] then []
    else (if ps[0].IsAvailable() then [] else [ps[0]]) + RemovedOnly(ps[1..])
  }

  /** The tail of a listing lists the rest of its urls, and the head's url is not among them. */
  lemma ListsRowsTail(ps: seq<Product>, rows: map<string, Row>, keys: set<string>)
    requires ListsRows(ps, rows, keys) && ps != []
    ensures ListsRows(ps[1..], rows, UrlSet(ps[1..]))
    ensures keys == UrlSet(ps[1..]) + {ps[0].url} && ps[0].url !in UrlSet(ps[1..])
  {
    var tail := ps[1..];
    forall i, j | 0 <= i < j < |tail| ensures tail[i].url != tail[j].url {
      assert tail[i] == ps[i + 1] && tail[j] == ps[j + 1];
    }
    assert ps == [ps[0]] + tail;
    UrlSetCons(ps[0], tail);
    forall i | 0 <= i < |tail| ensures tail[i].url != ps[0].url {
      assert tail[i] == ps[i + 1];
    }
  }

  lemma UrlSetCons(p: Product, ps: seq<Product>)
    ensures UrlSet([p] + ps) == {p.url} + UrlSet(ps)
  {
    var qs := [p] + ps;
    forall u | u in UrlSet(qs) ensures u in {p.url} + UrlSet(ps) {
      var i :| 0 <= i < |qs| && qs[i].url == u;
      if i > 0 { assert ps[i - 1].url == u; }
    }
    forall u | u in UrlSet(ps) ensures u in UrlSet(qs) {
      var i :| 0 <= i < |ps| && ps[i].url == u;
      assert qs[i + 1].url == u;
    }
    assert qs[0].url == p.url;
  }

  /** Putting a stored product with a new url in front of a listing lists one url more. */
  lemma ListsRowsCons(p: Product, ps: seq<Product>, rows: map<string, Row>, keys: set<string>)
    requires ListsRows(ps, rows, keys) && p.url !in keys
    requires p.url in rows && p == ProductOf(p.url, rows[p.url])
    ensures ListsRows([p] + ps, rows, keys + {p.url})
  {
    var qs := [p] + ps;
    forall i, j | 0 <= i < j < |qs| ensures qs[i].url != qs[j].url {
      assert qs[j] == ps[j - 1];
      if i == 0 {
        assert ps[j - 1].url in UrlSet(ps);
      } else {
        assert qs[i] == ps[i - 1];
      }
    }
    UrlSetCons(p, ps);
    forall i | 0 <= i < |qs| ensures qs[i].url in rows && qs[i] == ProductOf(qs[i].url, rows[qs[i].url]) {
      if i > 0 { assert qs[i] == ps[i - 1]; }
    }
  }

  /** Filtering a listing of `keys` keeps the removed rows among them, each once. */
  lemma {:induction false} RemovedOnlyLists(ps: seq<Product>, rows: map<string, Row>, keys: set<string>)
    requires ListsRows(ps, rows, keys)
    ensures ListsRows(RemovedOnly(ps), rows, set u | u in keys && rows[u].removedAt.Some?)
    decreases |ps|
  {
    if ps != [] {
      var tailKeys := UrlSet(ps[1..]);
      ListsRowsTail(ps, rows, keys);
      RemovedOnlyLists(ps[1..], rows, tailKeys);
      var rt := RemovedOnly(ps[1..]);
      var kt := set u | u in tailKeys && rows[u].removedAt.Some?;
      if !ps[0].IsAvailable() {
        ListsRowsCons(ps[0], rt, rows, kt);
        assert (set u | u in keys && rows[u].removedAt.Some?) == kt + {ps[0].url};
      } else {
        assert (set u | u in keys && rows[u].removedAt.Some?) == kt;
      }
    }
  }

  /** The diff as one function of the stored rows: disappeared rows become removed, reappeared rows
      become available, and every other row, in particular one that is available and still on the
      homepage, is left exactly as it was. No row is added or dropped. */
  lemma ReconcileCorrect(rows: map<string, Row>, snapshot: set<string>, now: Timestamp)
    ensures var r := Reconcile(rows, snapshot, now);
      && r.Keys == rows.Keys
      && (forall u :: u in Disappeared(rows, snapshot) ==> r[u].removedAt == Some(now) && r[u].title == rows[u].title)
      && (forall u :: u in Reappeared(rows, snapshot) ==> r[u].removedAt == None && r[u].title == rows[u].title)
      && (forall u :: u in rows && u !in Disappeared(rows, snapshot) && u !in Reappeared(rows, snapshot) ==> r[u] == rows[u])
  {
    JustRemovedNotReturned(rows, snapshot, now);
  }

  /** The return pass re-reads the rows after the removal pass, yet returns exactly the rows that were
      removed before this run and are on the homepage: a row removed in this run is never re-marked. */
  lemma JustRemovedNotReturned(rows: map<string, Row>, snapshot: set<string>, now: Timestamp)
    ensures Reappeared(RemovalPass(rows, snapshot, now), snapshot) == Reappeared(rows, snapshot)
    ensures Disappeared(rows, snapshot) !! Reappeared(rows, snapshot)
  {
    var r1 := RemovalPass(rows, snapshot, now);
    forall u | u in Reappeared(r1, snapshot) ensures u in Reappeared(rows, snapshot) {
      assert u !in Disappeared(rows, snapshot);
    }
  }

  /** Every available row is either still on the homepage or counted as disappeared, so the removal
      count never exceeds the number of available rows. */
  lemma DiffPartition(rows: map<string, Row>, snapshot: set<string>)
    ensures AvailableUrls(rows) == Disappeared(rows, snapshot) + (AvailableUrls(rows) * snapshot)
    ensures |Disappeared(rows, snapshot)| <= |AvailableUrls(rows)|
  {
    assert Disappeared(rows, snapshot) <= AvailableUrls(rows);
  }
}
