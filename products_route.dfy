/** The GET `/` handler of the products route: split the rows read into
    stale and fresh ones, refresh every stale row from the two sites,
    write back the rows whose two prices were both found, and answer with
    the fresh rows followed by the refreshed ones. */
module ProductsRoute {
  import opened Js
  import opened CachePolicy
  import opened WebModel
  import opened SiteA
  import opened SiteB
  import opened ProductStore

  /** The rows read whose staleness is `stale`, in the order they were
      read. */
  function Select(read: seq<Row>, now: Row -> int, stale: bool): seq<Row>
  {
    if read == [] then []
    else
      var last := read[|read| - 1];
      Select(read[..|read| - 1], now, stale) + (if IsStale(last.cachedAt, now(last)) == stale then [last] else [])
  }

  /** `products2update`: the stale rows. */
  function StaleRows(read: seq<Row>, now: Row -> int): seq<Row> {
    Select(read, now, true)
  }

  /** `latest_products`: the fresh rows. */
  function FreshRows(read: seq<Row>, now: Row -> int): seq<Row> {
    Select(read, now, false)
  }

  /** The `for ... of` loop that pushes each row onto one of the two
      lists. */
  method Partition(read: seq<Row>, now: Row -> int) returns (stale: seq<Row>, latest: seq<Row>)
    ensures stale == StaleRows(read, now) && latest == FreshRows(read, now)
  {
    stale, latest := [], [];
    for i := 0 to |read|
      invariant stale == StaleRows(read[..i], now) && latest == FreshRows(read[..i], now)
    {
      assert read[..i + 1][..i] == read[..i];
      if IsStale(read[i].cachedAt, now(read[i])) {
        stale := stale + [read[i]];
      } else {
        latest := latest + [read[i]];
      }
    }
    assert read[..|read|] == read;
  }

  /** What the two getters returned for one row. */
  datatype Quote = Quote(com: PriceResult, kakaku: PriceResult)

  /** The getters of the two sites, asked about a row's two URLs. */
  function SiteQuotes(web: Web): Row -> Quote {
    (row: Row) => Quote(AmazonPrice(web, row.urlCom), KakakuPrice(web, row.urlKakaku))
  }

  /** The row after its refresh: each price is overwritten by what its
      getter returned, unless the getter returned an `Error`; nothing else
      of the row changes, its in-memory `cached_at` included. */
  function Refreshed(row: Row, q: Quote): (r: Row)
    ensures r.(priceCom := row.priceCom, priceKakaku := row.priceKakaku) == row
    ensures q.com.Error? ==> r.priceCom == row.priceCom
    ensures q.com.Price? ==> r.priceCom == q.com.value
    ensures q.kakaku.Error? ==> r.priceKakaku == row.priceKakaku
    ensures q.kakaku.Price? ==> r.priceKakaku == q.kakaku.value
  {
    row.(priceCom := if q.com.Price? then q.com.value else row.priceCom,
         priceKakaku := if q.kakaku.Price? then q.kakaku.value else row.priceKakaku)
  }

  /** Whether neither getter returned an `Error`, the condition of the
      UPDATE. */
  predicate BothFound(q: Quote) {
    q.com.Price? && q.kakaku.Price?
  }

  /** `updated_products`: every stale row refreshed, in order. */
  function RefreshAll(stale: seq<Row>, quote: Row -> Quote): seq<Row>
  {
    if stale == [] then []
    else
      var last := stale[|stale| - 1];
      RefreshAll(stale[..|stale| - 1], quote) + [Refreshed(last, quote(last))]
  }

  /** The UPDATE issued for one refreshed row, if both of its getters
      succeeded: it writes that row's two new prices and the database time,
      under that row's id, and touches nothing else. */
  function Written(rows: map<int, Row>, row: Row, q: Quote, dbNow: int): (r: map<int, Row>)
    ensures r.Keys == rows.Keys
    ensures forall id :: id in rows && id != row.id ==> r[id] == rows[id]
    ensures row.id in rows && !BothFound(q) ==> r[row.id] == rows[row.id]
    ensures row.id in rows && BothFound(q) ==>
      r[row.id] == rows[row.id].(priceCom := q.com.value, priceKakaku := q.kakaku.value, cachedAt := dbNow)
  {
    if BothFound(q) then
      var updated := Refreshed(row, q);
      Repriced(rows, updated.id, updated.priceCom, updated.priceKakaku, dbNow)
    else rows
  }

  /** The table after the UPDATEs the refresh issues, one stale row after
      the other. */
  function Persisted(rows: map<int, Row>, stale: seq<Row>, quote: Row -> Quote, dbNow: Row -> int): map<int, Row>
  {
    if stale == [] then rows
    else
      var last := stale[|stale| - 1];
      Written(Persisted(rows, stale[..|stale| - 1], quote, dbNow), last, quote(last), dbNow(last))
  }

  /** The response body `latest_products.concat(updated_products)`. */
  function Response(read: seq<Row>, now: Row -> int, quote: Row -> Quote): seq<Row>
  {
    FreshRows(read, now) + RefreshAll(StaleRows(read, now), quote)
  }

  /** The body of `products2update.map(...)`, run for one row after the
      other: Amazon first, then Kakaku, then the UPDATE when both
      succeeded, stamped with the database time `dbNow(row)` of that
      statement. */
  method RefreshStale(db: Store, stale: seq<Row>, web: Web, dbNow: Row -> int) returns (updated: seq<Row>)
    requires db.Valid()
    modifies db
    ensures db.Valid() && db.lastId == old(db.lastId)
    ensures updated == RefreshAll(stale, SiteQuotes(web))
    ensures db.rows == Persisted(old(db.rows), stale, SiteQuotes(web), dbNow)
  {
    updated := [];
    for i := 0 to |stale|
      invariant db.Valid() && db.lastId == old(db.lastId)
      invariant updated == RefreshAll(stale[..i], SiteQuotes(web))
      invariant db.rows == Persisted(old(db.rows), stale[..i], SiteQuotes(web), dbNow)
    {
      assert stale[..i + 1][..i] == stale[..i];
      var product := stale[i];
      var priceCom := GetAmazonPrice(web, product.urlCom);
      if priceCom.Price? {
        product := product.(priceCom := priceCom.value);
      }
      var priceKakaku := KakakuPrice(web, product.urlKakaku);
      if priceKakaku.Price? {
        product := product.(priceKakaku := priceKakaku.value);
      }
      assert SiteQuotes(web)(stale[i]) == Quote(priceCom, priceKakaku);
      if !(priceCom.Error? || priceKakaku.Error?) {
        db.SetPrices(product.id, product.priceCom, product.priceKakaku, dbNow(stale[i]));
      }
      updated := updated + [product];
    }
    assert stale[..|stale|] == stale;
  }

  /** GET `/`: `read` is what `SELECT * FROM products` returned. The clocks
      are read once per row: `now(row)` is what `dayjs()` gives when that
      row is tested, and `dbNow(row)` is the database's `NOW()` when that
      row's UPDATE runs. */
  method GetProducts(db: Store, read: seq<Row>, now: Row -> int, dbNow: Row -> int, web: Web) returns (response: seq<Row>)
    requires db.Valid()
    modifies db
    ensures db.Valid() && db.lastId == old(db.lastId)
    ensures response == Response(read, now, SiteQuotes(web))
    ensures db.rows == Persisted(old(db.rows), StaleRows(read, now), SiteQuotes(web), dbNow)
  {
    var stale, latest := Partition(read, now);
    var updated := RefreshStale(db, stale, web, dbNow);
    response := latest + updated;
  }

  // ---- properties ---------------------------------------------------------

  /** Where the selected rows come from: they are the rows at the
      increasing positions `idx` of `read`, and a position is among them
      exactly when its row has the staleness asked for. */
  lemma {:induction false} SelectPositions(read: seq<Row>, now: Row -> int, stale: bool) returns (idx: seq<nat>)
    ensures |idx| == |Select(read, now, stale)|
    ensures forall a, b :: 0 <= a < b < |idx| ==> idx[a] < idx[b]
    ensures forall k :: 0 <= k < |idx| ==> idx[k] < |read| && Select(read, now, stale)[k] == read[idx[k]]
    ensures forall i :: 0 <= i < |read| ==> ((IsStale(read[i].cachedAt, now(read[i])) == stale) <==> i in idx)
  {
    if read == [] {
      idx := [];
    } else {
      var n := |read| - 1;
      var init := read[..n];
      var before := SelectPositions(init, now, stale);
      assert forall i :: 0 <= i < n ==> init[i] == read[i];
      if IsStale(read[n].cachedAt, now(read[n])) == stale {
        idx := before + [n];
      } else {
        idx := before;
      }
    }
  }

  /** Each row read lands in exactly one of the two lists: together they
      hold every row read, once. */
  lemma {:induction false} PartitionCounts(read: seq<Row>, now: Row -> int)
    ensures multiset(StaleRows(read, now)) + multiset(FreshRows(read, now)) == multiset(read)
    ensures |StaleRows(read, now)| + |FreshRows(read, now)| == |read|
  {
    if read != [] {
      var n := |read| - 1;
      PartitionCounts(read[..n], now);
      assert read == read[..n] + [read[n]];
      assert multiset(read) == multiset(read[..n]) + multiset{read[n]};
    }
  }

  /** A row is in `products2update` exactly when it is stale, and in
      `latest_products` exactly when it is not. */
  lemma PartitionMembers(read: seq<Row>, now: Row -> int)
    ensures forall r :: r in StaleRows(read, now) <==> r in read && IsStale(r.cachedAt, now(r))
    ensures forall r :: r in FreshRows(read, now) <==> r in read && !IsStale(r.cachedAt, now(r))
  {
    var s := SelectPositions(read, now, true);
    var f := SelectPositions(read, now, false);
    forall r | r in read
      ensures IsStale(r.cachedAt, now(r)) ==> r in StaleRows(read, now)
      ensures !IsStale(r.cachedAt, now(r)) ==> r in FreshRows(read, now)
    {
      var i :| 0 <= i < |read| && read[i] == r;
      if IsStale(r.cachedAt, now(r)) {
        var k :| 0 <= k < |s| && s[k] == i;
        assert StaleRows(read, now)[k] == r;
      } else {
        var k :| 0 <= k < |f| && f[k] == i;
        assert FreshRows(read, now)[k] == r;
      }
    }
  }

  /** `updated_products` has one refreshed row per stale row, in the same
      order. */
  lemma {:induction false} RefreshAllInOrder(stale: seq<Row>, quote: Row -> Quote)
    ensures |RefreshAll(stale, quote)| == |stale|
    ensures forall k :: 0 <= k < |stale| ==> RefreshAll(stale, quote)[k] == Refreshed(stale[k], quote(stale[k]))
  {
    if stale != [] {
      var n := |stale| - 1;
      RefreshAllInOrder(stale[..n], quote);
      assert forall k :: 0 <= k < n ==> stale[..n][k] == stale[k];
    }
  }

  /** The response is every fresh row, unchanged and in order, followed by
      every stale row refreshed, in order: as many rows as were read. */
  lemma ResponseShape(read: seq<Row>, now: Row -> int, quote: Row -> Quote)
    ensures |Response(read, now, quote)| == |read| == |FreshRows(read, now)| + |StaleRows(read, now)|
    ensures Response(read, now, quote)[..|FreshRows(read, now)|] == FreshRows(read, now)
    ensures forall k :: 0 <= k < |StaleRows(read, now)| ==>
      Response(read, now, quote)[|FreshRows(read, now)| + k] == Refreshed(StaleRows(read, now)[k], quote(StaleRows(read, now)[k]))
  {
    PartitionCounts(read, now);
    RefreshAllInOrder(StaleRows(read, now), quote);
  }

  /** The refresh adds no row and removes none. */
  lemma {:induction false} PersistedKeys(rows: map<int, Row>, stale: seq<Row>, quote: Row -> Quote, dbNow: Row -> int)
    ensures Persisted(rows, stale, quote, dbNow).Keys == rows.Keys
  {
    if stale != [] {
      PersistedKeys(rows, stale[..|stale| - 1], quote, dbNow);
    }
  }

  /** A row that is not among the stale rows is not written. */
  lemma {:induction false} PersistedUntouched(rows: map<int, Row>, stale: seq<Row>, quote: Row -> Quote, dbNow: Row -> int, id: int)
    requires id in rows && forall k :: 0 <= k < |stale| ==> stale[k].id != id
    ensures id in Persisted(rows, stale, quote, dbNow) && Persisted(rows, stale, quote, dbNow)[id] == rows[id]
  {
    if stale != [] {
      var n := |stale| - 1;
      assert forall k :: 0 <= k < n ==> stale[..n][k] == stale[k];
      PersistedUntouched(rows, stale[..n], quote, dbNow, id);
    }
  }

  /** A stale row gets its two new prices and the database time exactly
      when both of its getters succeeded, and keeps its stored row
      otherwise. Stale rows have distinct ids, as the rows of one table
      do. */
  lemma {:induction false} PersistedStale(rows: map<int, Row>, stale: seq<Row>, quote: Row -> Quote, dbNow: Row -> int, k: nat)
    requires forall a, b :: 0 <= a < b < |stale| ==> stale[a].id != stale[b].id
    requires k < |stale| && stale[k].id in rows
    ensures stale[k].id in Persisted(rows, stale, quote, dbNow)
    ensures Persisted(rows, stale, quote, dbNow)[stale[k].id] ==
      var q := quote(stale[k]);
      if BothFound(q)
      then rows[stale[k].id].(priceCom := q.com.value, priceKakaku := q.kakaku.value, cachedAt := dbNow(stale[k]))
      else rows[stale[k].id]
  {
    var n := |stale| - 1;
    var init := stale[..n];
    assert forall j :: 0 <= j < n ==> init[j] == stale[j];
    if k == n {
      PersistedUntouched(rows, init, quote, dbNow, stale[k].id);
    } else {
      PersistedStale(rows, init, quote, dbNow, k);
      PersistedKeys(rows, init, quote, dbNow);
    }
  }

  /** Over one GET, with the rows read having distinct ids: the stored row
      of a row read gets its two new prices and the database time exactly
      when it was stale and both of its getters succeeded; every other
      stored row is left as it was. */
  lemma RefreshWrites(rows: map<int, Row>, read: seq<Row>, now: Row -> int, quote: Row -> Quote, dbNow: Row -> int, i: nat)
    requires forall a, b :: 0 <= a < b < |read| ==> read[a].id != read[b].id
    requires i < |read| && read[i].id in rows
    ensures read[i].id in Persisted(rows, StaleRows(read, now), quote, dbNow)
    ensures Persisted(rows, StaleRows(read, now), quote, dbNow)[read[i].id] ==
      var q := quote(read[i]);
      if IsStale(read[i].cachedAt, now(read[i])) && BothFound(q)
      then rows[read[i].id].(priceCom := q.com.value, priceKakaku := q.kakaku.value, cachedAt := dbNow(read[i]))
      else rows[read[i].id]
  {
    var stale := StaleRows(read, now);
    var idx := SelectPositions(read, now, true);
    assert forall a, b :: 0 <= a < b < |stale| ==> stale[a].id != stale[b].id by {
      forall a, b | 0 <= a < b < |stale| ensures stale[a].id != stale[b].id {
        assert stale[a] == read[idx[a]] && stale[b] == read[idx[b]] && idx[a] < idx[b];
      }
    }
    if IsStale(read[i].cachedAt, now(read[i])) {
      var k :| 0 <= k < |idx| && idx[k] == i;
      PersistedStale(rows, stale, quote, dbNow, k);
    } else {
      forall k | 0 <= k < |stale| ensures stale[k].id != read[i].id {
        assert stale[k] == read[idx[k]] && idx[k] != i;
      }
      PersistedUntouched(rows, stale, quote, dbNow, read[i].id);
    }
  }

  /** A yen text with no digit after its first character (`"¥"`, say)
      reads as NaN, which is not an `Error`: with an Amazon price found,
      the row is written with a NaN Kakaku price and the new `cached_at`,
      and so is not refreshed again for 24 hours. */
  lemma NaNYenIsWritten(rows: map<int, Row>, row: Row, com: Number, dbNow: int)
    requires row.id in rows
    ensures BothFound(Quote(Price(com), Price(NaN)))
    ensures Written(rows, row, Quote(Price(com), Price(NaN)), dbNow)[row.id]
      == rows[row.id].(priceCom := com, priceKakaku := NaN, cachedAt := dbNow)
  {
  }
}
