/** The `products` table and the effect of each SQL statement the routes
    issue on it: the INSERT of POST, the UPDATE of PUT, the DELETE, and the
    price UPDATE of the refresh. The table is a map from id to row with an
    AUTO_INCREMENT counter. */
module ProductStore {
  import opened Js
  import opened CachePolicy

  /** A row of `products` (`DbProduct`); `kind` is the `type` column. */
  datatype Row = Row(
    id: int, name: string, kind: string, urlCom: string, urlKakaku: string,
    priceCom: Number, priceKakaku: Number, cachedAt: int)

  /** The row `INSERT IGNORE products VALUES (NULL, ?, ?, ?, ?, 0, 0,
      '1990-10-10')` creates under the id the counter hands out. */
  function NewRow(id: int, name: string, kind: string, urlCom: string, urlKakaku: string): Row
  {
    Row(id, name, kind, urlCom, urlKakaku, Finite(0.0), Finite(0.0), NEVER_CACHED)
  }

  /** `UPDATE products SET name=?, type=?, url_com=?, url_kakaku=? WHERE
      id=?`: a missing id matches no row. */
  function Edited(rows: map<int, Row>, id: int, name: string, kind: string, urlCom: string, urlKakaku: string): (r: map<int, Row>)
    ensures r.Keys == rows.Keys
    ensures forall k :: k in rows && k != id ==> r[k] == rows[k]
    ensures id in rows ==>
      && r[id].name == name && r[id].kind == kind && r[id].urlCom == urlCom && r[id].urlKakaku == urlKakaku
      && r[id].id == rows[id].id && r[id].priceCom == rows[id].priceCom
      && r[id].priceKakaku == rows[id].priceKakaku && r[id].cachedAt == rows[id].cachedAt
  {
    if id in rows then rows[id := rows[id].(name := name, kind := kind, urlCom := urlCom, urlKakaku := urlKakaku)]
    else rows
  }

  /** `UPDATE products SET price_com=?, price_kakaku=?, cached_at=NOW()
      WHERE id=?`, with `dbNow` the database clock. */
  function Repriced(rows: map<int, Row>, id: int, priceCom: Number, priceKakaku: Number, dbNow: int): (r: map<int, Row>)
    ensures r.Keys == rows.Keys
    ensures forall k :: k in rows && k != id ==> r[k] == rows[k]
    ensures id in rows ==>
      && r[id].priceCom == priceCom && r[id].priceKakaku == priceKakaku && r[id].cachedAt == dbNow
      && r[id].id == rows[id].id && r[id].name == rows[id].name && r[id].kind == rows[id].kind
      && r[id].urlCom == rows[id].urlCom && r[id].urlKakaku == rows[id].urlKakaku
  {
    if id in rows then rows[id := rows[id].(priceCom := priceCom, priceKakaku := priceKakaku, cachedAt := dbNow)]
    else rows
  }

  class Store {
    var rows: map<int, Row>
    /** The AUTO_INCREMENT counter: the last id handed out. */
    var lastId: int

    /** Every row is stored under its own id, and no id is above the
        counter. */
    ghost predicate Valid()
      reads this
    {
      forall id :: id in rows ==> rows[id].id == id && id <= lastId
    }

    constructor ()
      ensures Valid() && rows == map[] && lastId == 0
    {
      rows := map[];
      lastId := 0;
    }

    /** POST: the INSERT, then `SELECT LAST_INSERT_ID()`. */
    method Insert(name: string, kind: string, urlCom: string, urlKakaku: string) returns (id: int)
      requires Valid()
      modifies this
      ensures Valid()
      ensures id == old(lastId) + 1 && lastId == id && id !in old(rows)
      ensures rows == old(rows)[id := NewRow(id, name, kind, urlCom, urlKakaku)]
    {
      lastId := lastId + 1;
      id := lastId;
      rows := rows[id := NewRow(id, name, kind, urlCom, urlKakaku)];
    }

    /** PUT `/:id`. */
    method Update(id: int, name: string, kind: string, urlCom: string, urlKakaku: string)
      requires Valid()
      modifies this
      ensures Valid() && lastId == old(lastId)
      ensures rows == Edited(old(rows), id, name, kind, urlCom, urlKakaku)
    {
      rows := Edited(rows, id, name, kind, urlCom, urlKakaku);
    }

    /** The UPDATE the refresh issues for a row whose two prices were
        both found. */
    method SetPrices(id: int, priceCom: Number, priceKakaku: Number, dbNow: int)
      requires Valid()
      modifies this
      ensures Valid() && lastId == old(lastId)
      ensures rows == Repriced(old(rows), id, priceCom, priceKakaku, dbNow)
    {
      rows := Repriced(rows, id, priceCom, priceKakaku, dbNow);
    }

    /** DELETE `/:id`. */
    method Delete(id: int)
      requires Valid()
      modifies this
      ensures Valid() && lastId == old(lastId)
      ensures rows == old(rows) - {id}
    {
      rows := rows - {id};
    }
  }

  // ---- properties ---------------------------------------------------------

  /** A freshly inserted row has both prices 0 and is due for a refresh on
      every GET after October 11, 1990. */
  lemma NewRowIsStale(id: int, name: string, kind: string, urlCom: string, urlKakaku: string, now: int)
    requires now > NEVER_CACHED + TTL_MS
    ensures IsStale(NewRow(id, name, kind, urlCom, urlKakaku).cachedAt, now)
    ensures NewRow(id, name, kind, urlCom, urlKakaku).priceCom == Finite(0.0)
    ensures NewRow(id, name, kind, urlCom, urlKakaku).priceKakaku == Finite(0.0)
  {
    NeverCachedIsStale(now);
  }

  /** Deleting an id removes that row only; deleting it again changes
      nothing. */
  lemma DeleteRemovesOnlyThatId(rows: map<int, Row>, id: int)
    ensures (rows - {id}).Keys == rows.Keys - {id}
    ensures forall k :: k in rows && k != id ==> (rows - {id})[k] == rows[k]
    ensures (rows - {id}) - {id} == rows - {id}
  {
  }
}
