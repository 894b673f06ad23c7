/** Crawler.save in app/crawler/crawler.py as a transition of the abstract
    tables: one transaction of four statements, which insert the batch's
    eshops, manufacturers and products where they are new and append one
    price observation per batch row that names a stored product. */
module Persist {
  import opened Wrappers
  import opened Distinct
  import opened Schema
  import opened Listings

  function EshopColumn(rows: seq<Listing>): (r: seq<string>)
    ensures |r| == |rows| && forall i :: 0 <= i < |rows| ==> r[i] == rows[i].eshop
  {
    if rows == [] then [] else [rows[0].eshop] + EshopColumn(rows[1..])
  }

  function ManufacturerColumn(rows: seq<Listing>): (r: seq<string>)
    ensures |r| == |rows| && forall i :: 0 <= i < |rows| ==> r[i] == rows[i].manufacturer
  {
    if rows == [] then [] else [rows[0].manufacturer] + ManufacturerColumn(rows[1..])
  }

  /** The names an `INSERT ... VALUES <column.unique()> ON CONFLICT (name) DO
      NOTHING` adds to a unique name column: every name of `names` not yet
      in `existing`, once, in order of first appearance. */
  function NewNames(existing: seq<string>, names: seq<string>): (r: seq<string>)
    ensures NoDuplicates(r)
    ensures forall i :: 0 <= i < |r| ==> r[i] in names && r[i] !in existing
    ensures forall i :: 0 <= i < |names| ==> names[i] in existing || names[i] in r
  {
    if names == [] then []
    else
      var r := NewNames(existing, names[..|names| - 1]);
      var x := names[|names| - 1];
      if x in existing || x in r then r else r + [x]
  }

  function AsEshops(names: seq<string>): (r: seq<Eshop>)
    ensures EshopNames(r) == names
  {
    if names == [] then []
    else
      var r := AsEshops(names[..|names| - 1]) + [Eshop(names[|names| - 1])];
      assert EshopNames(r) == names;
      r
  }

  function AsManufacturers(names: seq<string>): (r: seq<Manufacturer>)
    ensures ManufacturerNames(r) == names
  {
    if names == [] then []
    else
      var r := AsManufacturers(names[..|names| - 1]) + [Manufacturer(names[|names| - 1])];
      assert ManufacturerNames(r) == names;
      r
  }

  /** One row of the product statement: the row joins its eshop and its
      manufacturer by name and is inserted unless its name or its url is
      already taken, by an earlier product or an earlier row of the same
      statement (ON CONFLICT DO NOTHING on both unique columns). */
  function ProductStep(ps: seq<Product>, eshops: seq<string>, manufacturers: seq<string>, row: Listing): seq<Product> {
    var e := IdOf(eshops, row.eshop);
    var m := IdOf(manufacturers, row.manufacturer);
    if e.None? || m.None? || row.title in ProductNames(ps) || row.url in ProductUrls(ps) then ps
    else ps + [Product(row.title, row.url, m.value, e.value)]
  }

  /** The product statement over the whole batch, row by row. */
  function InsertProducts(ps: seq<Product>, eshops: seq<string>, manufacturers: seq<string>, rows: seq<Listing>)
    : seq<Product>
    decreases |rows|
  {
    if rows == [] then ps
    else InsertProducts(ProductStep(ps, eshops, manufacturers, rows[0]), eshops, manufacturers, rows[1..])
  }

  /** The observation one row of the store statement adds: the product
      with the row's title (the url plays no part), the row's price and the
      transaction time; None when the title names no product. */
  function Observation(ps: seq<Product>, row: Listing, now: Timestamp): (o: Option<Store>)
    ensures o.Some? <==> row.title in ProductNames(ps)
    ensures o.Some? ==> && o.value.price == row.price && o.value.date == now
                        && IsId(o.value.productId, |ps|) && ps[o.value.productId - 1].name == row.title
  {
    match IdOf(ProductNames(ps), row.title)
    case None => None
    case Some(id) => Some(Store(id, row.price, now))
  }

  /** What one row adds to the store: its observation when its title names
      a product, nothing otherwise. */
  function PriceRow(ps: seq<Product>, row: Listing, now: Timestamp): (r: seq<Store>)
    ensures row.title in ProductNames(ps) ==> r == [Observation(ps, row, now).value]
    ensures row.title !in ProductNames(ps) ==> r == []
  {
    match Observation(ps, row, now) case None => [] case Some(o) => [o]
  }

  /** The store statement: the observations of the rows, in order. */
  function PriceRows(ps: seq<Product>, rows: seq<Listing>, now: Timestamp): (r: seq<Store>)
    ensures |r| <= |rows|
    ensures forall i :: 0 <= i < |r| ==> r[i].date == now && IsId(r[i].productId, |ps|)
  {
    if rows == [] then []
    else PriceRow(ps, rows[0], now) + PriceRows(ps, rows[1..], now)
  }

  /** The store statement works row by row: the observations of a
      concatenation are those of each part, one after the other. */
  lemma {:induction false} PriceRowsAppend(ps: seq<Product>, a: seq<Listing>, b: seq<Listing>, now: Timestamp)
    ensures PriceRows(ps, a + b, now) == PriceRows(ps, a, now) + PriceRows(ps, b, now)
  {
    if a == [] {
      assert a + b == b;
    } else {
      var ab := a + b;
      assert ab[0] == a[0] && ab[1..] == a[1..] + b;
      PriceRowsAppend(ps, a[1..], b, now);
      ConsConcat(PriceRow(ps, a[0], now), PriceRows(ps, a[1..], now), PriceRows(ps, b, now),
                 PriceRows(ps, ab, now), PriceRows(ps, a, now), PriceRows(ps, ab[1..], now));
    }
  }

  /** Every row whose title names a product adds that product's
      observation. */
  lemma RowsAddObservations(ps: seq<Product>, rows: seq<Listing>, now: Timestamp)
    ensures forall i :: 0 <= i < |rows| && rows[i].title in ProductNames(ps) ==>
      Observation(ps, rows[i], now).value in PriceRows(ps, rows, now)
  {
    forall i | 0 <= i < |rows| && rows[i].title in ProductNames(ps)
      ensures Observation(ps, rows[i], now).value in PriceRows(ps, rows, now)
    {
      PriceRowsAt(ps, rows, i, now);
    }
  }

  /** Row `i` contributes its own observation, if any, between those of the
      rows before it and those of the rows after it. */
  lemma PriceRowsAt(ps: seq<Product>, rows: seq<Listing>, i: nat, now: Timestamp)
    requires i < |rows|
    ensures PriceRows(ps, rows, now)
         == PriceRows(ps, rows[..i], now) + PriceRow(ps, rows[i], now) + PriceRows(ps, rows[i + 1..], now)
  {
    assert rows == rows[..i] + ([rows[i]] + rows[i + 1..]);
    PriceRowsAppend(ps, rows[..i], [rows[i]] + rows[i + 1..], now);
    assert ([rows[i]] + rows[i + 1..])[1..] == rows[i + 1..];
  }

  /** The eshop table after the eshop statement. */
  function SavedEshops(es: seq<Eshop>, batch: seq<Listing>): seq<Eshop> {
    es + AsEshops(NewNames(EshopNames(es), EshopColumn(batch)))
  }

  /** The manufacturer table after the manufacturer statement. */
  function SavedManufacturers(ms: seq<Manufacturer>, batch: seq<Listing>): seq<Manufacturer> {
    ms + AsManufacturers(NewNames(ManufacturerNames(ms), ManufacturerColumn(batch)))
  }

  /** The tables after a committed save of a non-empty batch at time `now`. */
  function Saved(t: Tables, batch: seq<Listing>, now: Timestamp): Tables {
    var eshops := SavedEshops(t.eshops, batch);
    var manufacturers := SavedManufacturers(t.manufacturers, batch);
    var products := InsertProducts(t.products, EshopNames(eshops), ManufacturerNames(manufacturers), batch);
    Tables(manufacturers, eshops, products, t.store + PriceRows(products, batch, now), t.analogs)
  }

  /** The widths of the `VARCHAR` columns a save writes: eshop and
      manufacturer names, and product names and urls. */
  const NameWidth: nat := 64
  const ProductWidth: nat := 256

  /** PostgreSQL stores a string into a `VARCHAR(n)` column when it has at
      most `n` characters or everything past the `n`-th is a space (which
      it cuts off); any other value raises an error. */
  predicate FitsColumn(s: string, n: nat) {
    |s| <= n || forall k :: n <= k < |s| ==> s[k] == ' '
  }

  /** Every value the batch writes fits its column. */
  predicate Fits(batch: seq<Listing>) {
    forall i :: 0 <= i < |batch| ==>
      && FitsColumn(batch[i].eshop, NameWidth) && FitsColumn(batch[i].manufacturer, NameWidth)
      && FitsColumn(batch[i].title, ProductWidth) && FitsColumn(batch[i].url, ProductWidth)
  }

  /** Whether the save transaction commits: an empty batch makes every
      statement's VALUES list empty, a syntax error, and a value too wide
      for its column raises; either way the transaction rolls back. */
  predicate Commits(batch: seq<Listing>) {
    batch != [] && Fits(batch)
  }

  /** Crawler.save. When the transaction does not commit nothing changes. */
  method Save(db: Database, batch: seq<Listing>, now: Timestamp) returns (ok: bool)
    modifies db
    ensures ok <==> batch != [] && Fits(batch)
    ensures !ok ==> db.Snapshot() == old(db.Snapshot())
    ensures ok ==> db.Snapshot() == Saved(old(db.Snapshot()), batch, now)
  {
    if batch == [] || !Fits(batch) {
      return false;
    }
    var es, ms, ps, st := db.eshops, db.manufacturers, db.products, db.store;
    var eshops := es + AsEshops(NewNames(EshopNames(es), EshopColumn(batch)));
    var manufacturers := ms + AsManufacturers(NewNames(ManufacturerNames(ms), ManufacturerColumn(batch)));
    var products := InsertProducts(ps, EshopNames(eshops), ManufacturerNames(manufacturers), batch);
    var prices := PriceRows(products, batch, now);
    db.eshops, db.manufacturers, db.products, db.store := eshops, manufacturers, products, st + prices;
    return true;
  }

  // ------------------------------------------------------------------ properties

  lemma EshopNamesAppend(a: seq<Eshop>, b: seq<Eshop>)
    ensures EshopNames(a + b) == EshopNames(a) + EshopNames(b)
  {
    assert forall i :: 0 <= i < |a + b| ==> EshopNames(a + b)[i] == (EshopNames(a) + EshopNames(b))[i];
  }

  lemma ManufacturerNamesAppend(a: seq<Manufacturer>, b: seq<Manufacturer>)
    ensures ManufacturerNames(a + b) == ManufacturerNames(a) + ManufacturerNames(b)
  {
    assert forall i :: 0 <= i < |a + b| ==> ManufacturerNames(a + b)[i] == (ManufacturerNames(a) + ManufacturerNames(b))[i];
  }

  /** Adding the new names of a batch keeps the column unique and leaves it
      holding every name of the batch. */
  lemma NewNamesExtend(existing: seq<string>, names: seq<string>)
    requires NoDuplicates(existing)
    ensures NoDuplicates(existing + NewNames(existing, names))
    ensures forall i :: 0 <= i < |names| ==> names[i] in existing + NewNames(existing, names)
  {
    var r := NewNames(existing, names);
    forall i, j | 0 <= i < j < |existing + r| ensures (existing + r)[i] != (existing + r)[j] {
      if j >= |existing| && i < |existing| {
        assert (existing + r)[j] == r[j - |existing|];
      }
    }
  }

  /** A batch whose names are all stored adds none. */
  lemma NewNamesNone(existing: seq<string>, names: seq<string>)
    requires forall i :: 0 <= i < |names| ==> names[i] in existing
    ensures NewNames(existing, names) == []
  {
    var r := NewNames(existing, names);
    assert forall i :: 0 <= i < |r| ==> r[i] in existing && r[i] !in existing;
  }

  /** The product statement only appends: existing product rows are kept,
      in place. */
  lemma {:induction false} InsertProductsExtends(ps: seq<Product>, eshops: seq<string>, manufacturers: seq<string>,
                                                 rows: seq<Listing>)
    ensures |ps| <= |InsertProducts(ps, eshops, manufacturers, rows)|
    ensures InsertProducts(ps, eshops, manufacturers, rows)[..|ps|] == ps
    decreases |rows|
  {
    if rows != [] {
      var next := ProductStep(ps, eshops, manufacturers, rows[0]);
      InsertProductsExtends(next, eshops, manufacturers, rows[1..]);
      var r := InsertProducts(ps, eshops, manufacturers, rows);
      assert r[..|next|][..|ps|] == r[..|ps|];
    }
  }

  /** `row` is a batch row the product could have been inserted for: the
      same name and url, and the ids its eshop and manufacturer join to. */
  predicate InsertedFor(p: Product, row: Listing, eshops: seq<string>, manufacturers: seq<string>) {
    && row.title == p.name && row.url == p.url
    && IdOf(eshops, row.eshop) == Some(p.eshopId)
    && IdOf(manufacturers, row.manufacturer) == Some(p.manufacturerId)
  }

  /** Every product the statement adds has a name and a url that were both
      free before it, comes from a row of the batch, and refers to that
      row's eshop and manufacturer. */
  lemma {:induction false} InsertProductsOnlyNew(ps: seq<Product>, eshops: seq<string>, manufacturers: seq<string>,
                                                 rows: seq<Listing>)
    ensures var r := InsertProducts(ps, eshops, manufacturers, rows);
      forall j :: |ps| <= j < |r| ==>
        && r[j].name !in ProductNames(ps) && r[j].url !in ProductUrls(ps)
        && exists i :: 0 <= i < |rows| && InsertedFor(r[j], rows[i], eshops, manufacturers)
    decreases |rows|
  {
    if rows != [] {
      var next := ProductStep(ps, eshops, manufacturers, rows[0]);
      InsertProductsOnlyNew(next, eshops, manufacturers, rows[1..]);
      InsertProductsExtends(next, eshops, manufacturers, rows[1..]);
      ProductStepOnlyNew(ps, eshops, manufacturers, rows[0]);
      var r := InsertProducts(ps, eshops, manufacturers, rows);
      forall j | |ps| <= j < |r|
        ensures r[j].name !in ProductNames(ps) && r[j].url !in ProductUrls(ps)
        ensures exists i :: 0 <= i < |rows| && InsertedFor(r[j], rows[i], eshops, manufacturers)
      {
        if j < |next| {
          assert r[j] == r[..|next|][j];
          assert InsertedFor(r[j], rows[0], eshops, manufacturers);
        } else {
          var i :| 0 <= i < |rows[1..]| && InsertedFor(r[j], rows[1..][i], eshops, manufacturers);
          assert rows[i + 1] == rows[1..][i];
        }
      }
    }
  }

  /** One row of the product statement keeps the products in front, and
      adds at most the row's own product, with a name and url that were
      free. */
  lemma ProductStepOnlyNew(ps: seq<Product>, eshops: seq<string>, manufacturers: seq<string>, row: Listing)
    ensures var next := ProductStep(ps, eshops, manufacturers, row);
      && |ps| <= |next| <= |ps| + 1 && next[..|ps|] == ps
      && (forall j :: |ps| <= j < |next| ==>
            next[j].name !in ProductNames(ps) && next[j].url !in ProductUrls(ps)
            && InsertedFor(next[j], row, eshops, manufacturers))
      && ProductNames(next)[..|ps|] == ProductNames(ps) && ProductUrls(next)[..|ps|] == ProductUrls(ps)
  {
  }

  /** After the product statement, every batch row that joins its eshop and
      manufacturer has its name or its url taken by a product. */
  lemma {:induction false} InsertProductsCovers(ps: seq<Product>, eshops: seq<string>, manufacturers: seq<string>,
                                                rows: seq<Listing>)
    ensures var r := InsertProducts(ps, eshops, manufacturers, rows);
      forall i :: 0 <= i < |rows| && rows[i].eshop in eshops && rows[i].manufacturer in manufacturers ==>
        rows[i].title in ProductNames(r) || rows[i].url in ProductUrls(r)
    decreases |rows|
  {
    if rows != [] {
      var next := ProductStep(ps, eshops, manufacturers, rows[0]);
      InsertProductsCovers(next, eshops, manufacturers, rows[1..]);
      InsertProductsExtends(next, eshops, manufacturers, rows[1..]);
      var r := InsertProducts(ps, eshops, manufacturers, rows);
      assert ProductNames(r)[..|next|] == ProductNames(next) && ProductUrls(r)[..|next|] == ProductUrls(next);
      assert rows[0].title in ProductNames(next) || rows[0].url in ProductUrls(next) || rows[0].eshop !in eshops
             || rows[0].manufacturer !in manufacturers;
      forall i | 1 <= i < |rows| ensures rows[i] == rows[1..][i - 1] { }
    }
  }

  /** The product statement keeps product names and urls unique. */
  lemma {:induction false} InsertProductsUnique(ps: seq<Product>, eshops: seq<string>, manufacturers: seq<string>,
                                                rows: seq<Listing>)
    requires NoDuplicates(ProductNames(ps)) && NoDuplicates(ProductUrls(ps))
    ensures NoDuplicates(ProductNames(InsertProducts(ps, eshops, manufacturers, rows)))
    ensures NoDuplicates(ProductUrls(InsertProducts(ps, eshops, manufacturers, rows)))
    decreases |rows|
  {
    if rows != [] {
      var next := ProductStep(ps, eshops, manufacturers, rows[0]);
      if next != ps {
        assert ProductNames(next) == ProductNames(ps) + [rows[0].title];
        assert ProductUrls(next) == ProductUrls(ps) + [rows[0].url];
      }
      InsertProductsUnique(next, eshops, manufacturers, rows[1..]);
    }
  }

  /** A batch every row of which is already covered adds no product. */
  lemma {:induction false} InsertProductsNone(ps: seq<Product>, eshops: seq<string>, manufacturers: seq<string>,
                                              rows: seq<Listing>)
    requires forall i :: 0 <= i < |rows| ==>
      rows[i].eshop !in eshops || rows[i].manufacturer !in manufacturers
      || rows[i].title in ProductNames(ps) || rows[i].url in ProductUrls(ps)
    ensures InsertProducts(ps, eshops, manufacturers, rows) == ps
    decreases |rows|
  {
    if rows != [] {
      assert ProductStep(ps, eshops, manufacturers, rows[0]) == ps;
      assert forall i :: 0 <= i < |rows[1..]| ==> rows[1..][i] == rows[i + 1];
      InsertProductsNone(ps, eshops, manufacturers, rows[1..]);
    }
  }

  /** New products refer to stored eshops and manufacturers. */
  lemma {:induction false} InsertProductsKeys(ps: seq<Product>, eshops: seq<string>, manufacturers: seq<string>,
                                              rows: seq<Listing>)
    requires forall i :: 0 <= i < |ps| ==>
      IsId(ps[i].eshopId, |eshops|) && IsId(ps[i].manufacturerId, |manufacturers|)
    ensures forall i :: 0 <= i < |InsertProducts(ps, eshops, manufacturers, rows)| ==>
      && IsId(InsertProducts(ps, eshops, manufacturers, rows)[i].eshopId, |eshops|)
      && IsId(InsertProducts(ps, eshops, manufacturers, rows)[i].manufacturerId, |manufacturers|)
    decreases |rows|
  {
    if rows != [] {
      var next := ProductStep(ps, eshops, manufacturers, rows[0]);
      assert forall i :: 0 <= i < |next| ==> IsId(next[i].eshopId, |eshops|) && IsId(next[i].manufacturerId, |manufacturers|);
      InsertProductsKeys(next, eshops, manufacturers, rows[1..]);
    }
  }

  /** With every title resolved, the rows map one to one onto observations
      of the product of that name at the row's price. */
  lemma {:induction false} PriceRowsAllResolved(ps: seq<Product>, rows: seq<Listing>, now: Timestamp)
    requires forall i :: 0 <= i < |rows| ==> rows[i].title in ProductNames(ps)
    ensures |PriceRows(ps, rows, now)| == |rows|
    ensures forall i :: 0 <= i < |rows| ==>
      && ps[PriceRows(ps, rows, now)[i].productId - 1].name == rows[i].title
      && PriceRows(ps, rows, now)[i].price == rows[i].price
  {
    forall i | 0 <= i < |rows| ensures Observation(ps, rows[i], now).Some? {
      assert rows[i].title in ProductNames(ps);
    }
    PriceRowsResolved(ps, rows, now);
    var r := PriceRows(ps, rows, now);
    forall i | 0 <= i < |rows|
      ensures ps[r[i].productId - 1].name == rows[i].title && r[i].price == rows[i].price
    {
      assert Some(r[i]) == Observation(ps, rows[i], now);
    }
  }

  lemma {:induction false} PriceRowsResolved(ps: seq<Product>, rows: seq<Listing>, now: Timestamp)
    requires forall i :: 0 <= i < |rows| ==> Observation(ps, rows[i], now).Some?
    ensures |PriceRows(ps, rows, now)| == |rows|
    ensures forall i :: 0 <= i < |rows| ==> Some(PriceRows(ps, rows, now)[i]) == Observation(ps, rows[i], now)
  {
    if rows != [] {
      var rest := rows[1..];
      forall i | 0 <= i < |rest| ensures Observation(ps, rest[i], now).Some? {
        assert rest[i] == rows[i + 1];
      }
      PriceRowsResolved(ps, rest, now);
      PriceRowsFirst(ps, rows, now);
      var r, r' := PriceRows(ps, rows, now), PriceRows(ps, rest, now);
      forall i | 0 < i < |rows| ensures Some(r[i]) == Observation(ps, rows[i], now) {
        assert r[i] == r'[i - 1] && rows[i] == rest[i - 1];
      }
    }
  }

  /** A first row whose title names a product puts its observation first. */
  lemma PriceRowsFirst(ps: seq<Product>, rows: seq<Listing>, now: Timestamp)
    requires rows != [] && Observation(ps, rows[0], now).Some?
    ensures PriceRows(ps, rows, now) == [Observation(ps, rows[0], now).value] + PriceRows(ps, rows[1..], now)
  {
    assert PriceRow(ps, rows[0], now) == [Observation(ps, rows[0], now).value];
  }

  /** Rows whose titles name no product add nothing. */
  lemma {:induction false} PriceRowsUnresolved(ps: seq<Product>, rows: seq<Listing>, now: Timestamp)
    requires forall i :: 0 <= i < |rows| ==> rows[i].title !in ProductNames(ps)
    ensures PriceRows(ps, rows, now) == []
  {
    if rows != [] {
      assert forall i :: 0 <= i < |rows[1..]| ==> rows[1..][i] == rows[i + 1];
      PriceRowsUnresolved(ps, rows[1..], now);
    }
  }

  /** Save only appends: existing eshop, manufacturer, product and store rows
      keep their place and content, and analogs are untouched. */
  lemma SavedKeepsRows(t: Tables, batch: seq<Listing>, now: Timestamp)
    ensures var t' := Saved(t, batch, now);
      && |t.eshops| <= |t'.eshops| && t'.eshops[..|t.eshops|] == t.eshops
      && |t.manufacturers| <= |t'.manufacturers| && t'.manufacturers[..|t.manufacturers|] == t.manufacturers
      && |t.products| <= |t'.products| && t'.products[..|t.products|] == t.products
      && |t.store| <= |t'.store| && t'.store[..|t.store|] == t.store
      && t'.analogs == t.analogs
  {
    var t' := Saved(t, batch, now);
    InsertProductsExtends(t.products, EshopNames(t'.eshops), ManufacturerNames(t'.manufacturers), batch);
    assert t'.eshops[..|t.eshops|] == t.eshops;
    assert t'.manufacturers[..|t.manufacturers|] == t.manufacturers;
    assert t'.store[..|t.store|] == t.store;
  }

  /** The eshop statement keeps the name column unique, keeps the stored
      rows and leaves every eshop of the batch stored. */
  lemma SavedEshopsSpec(es: seq<Eshop>, batch: seq<Listing>)
    ensures |es| <= |SavedEshops(es, batch)| && SavedEshops(es, batch)[..|es|] == es
    ensures NoDuplicates(EshopNames(es)) ==> NoDuplicates(EshopNames(SavedEshops(es, batch)))
    ensures forall i :: 0 <= i < |batch| ==> batch[i].eshop in EshopNames(SavedEshops(es, batch))
  {
    var added := NewNames(EshopNames(es), EshopColumn(batch));
    EshopNamesAppend(es, AsEshops(added));
    assert SavedEshops(es, batch)[..|es|] == es;
    if NoDuplicates(EshopNames(es)) {
      NewNamesExtend(EshopNames(es), EshopColumn(batch));
    }
    forall i | 0 <= i < |batch| ensures batch[i].eshop in EshopNames(es) + added {
      assert EshopColumn(batch)[i] == batch[i].eshop;
    }
  }

  /** The manufacturer statement keeps the name column unique, keeps the
      stored rows and leaves every manufacturer of the batch stored. */
  lemma SavedManufacturersSpec(ms: seq<Manufacturer>, batch: seq<Listing>)
    ensures |ms| <= |SavedManufacturers(ms, batch)| && SavedManufacturers(ms, batch)[..|ms|] == ms
    ensures NoDuplicates(ManufacturerNames(ms)) ==> NoDuplicates(ManufacturerNames(SavedManufacturers(ms, batch)))
    ensures forall i :: 0 <= i < |batch| ==> batch[i].manufacturer in ManufacturerNames(SavedManufacturers(ms, batch))
  {
    var added := NewNames(ManufacturerNames(ms), ManufacturerColumn(batch));
    ManufacturerNamesAppend(ms, AsManufacturers(added));
    assert SavedManufacturers(ms, batch)[..|ms|] == ms;
    if NoDuplicates(ManufacturerNames(ms)) {
      NewNamesExtend(ManufacturerNames(ms), ManufacturerColumn(batch));
    }
    forall i | 0 <= i < |batch| ensures batch[i].manufacturer in ManufacturerNames(ms) + added {
      assert ManufacturerColumn(batch)[i] == batch[i].manufacturer;
    }
  }

  /** After a save, every eshop and manufacturer named by the batch is
      stored, and every batch row has its title or its url taken by a
      product. */
  lemma SavedCoversBatch(t: Tables, batch: seq<Listing>, now: Timestamp)
    ensures var t' := Saved(t, batch, now);
      forall i :: 0 <= i < |batch| ==>
        && batch[i].eshop in EshopNames(t'.eshops)
        && batch[i].manufacturer in ManufacturerNames(t'.manufacturers)
        && (batch[i].title in ProductNames(t'.products) || batch[i].url in ProductUrls(t'.products))
  {
    var t' := Saved(t, batch, now);
    SavedEshopsSpec(t.eshops, batch);
    SavedManufacturersSpec(t.manufacturers, batch);
    InsertProductsCovers(t.products, EshopNames(t'.eshops), ManufacturerNames(t'.manufacturers), batch);
  }

  /** A save keeps the schema's constraints: unique names and urls, and
      foreign keys that point at stored rows. */
  lemma SavedValid(t: Tables, batch: seq<Listing>, now: Timestamp)
    requires Valid(t)
    ensures Valid(Saved(t, batch, now))
  {
    var t' := Saved(t, batch, now);
    SavedKeepsRows(t, batch, now);
    SavedUnique(t, batch, now);
    SavedProductKeys(t, batch, now);
    SavedStoreKeys(t, batch, now);
    assert forall id :: id in t'.analogs ==>
      ValidEndpoint(t'.analogs[id].product1, |t'.products|) && ValidEndpoint(t'.analogs[id].product2, |t'.products|);
  }

  /** A save keeps the four unique columns unique. */
  lemma SavedUnique(t: Tables, batch: seq<Listing>, now: Timestamp)
    requires Valid(t)
    ensures var t' := Saved(t, batch, now);
      && NoDuplicates(ManufacturerNames(t'.manufacturers)) && NoDuplicates(EshopNames(t'.eshops))
      && NoDuplicates(ProductNames(t'.products)) && NoDuplicates(ProductUrls(t'.products))
  {
    var t' := Saved(t, batch, now);
    SavedEshopsSpec(t.eshops, batch);
    SavedManufacturersSpec(t.manufacturers, batch);
    InsertProductsUnique(t.products, EshopNames(t'.eshops), ManufacturerNames(t'.manufacturers), batch);
  }

  /** After a save every product's eshop and manufacturer are stored. */
  lemma SavedProductKeys(t: Tables, batch: seq<Listing>, now: Timestamp)
    requires Valid(t)
    ensures var t' := Saved(t, batch, now);
      forall i :: 0 <= i < |t'.products| ==>
        IsId(t'.products[i].manufacturerId, |t'.manufacturers|) && IsId(t'.products[i].eshopId, |t'.eshops|)
  {
    var es, ms := SavedEshops(t.eshops, batch), SavedManufacturers(t.manufacturers, batch);
    SavedEshopsSpec(t.eshops, batch);
    SavedManufacturersSpec(t.manufacturers, batch);
    var eshops, manufacturers := EshopNames(es), ManufacturerNames(ms);
    KeysWithin(t.products, |t.eshops|, |t.manufacturers|, |eshops|, |manufacturers|);
    InsertProductsKeys(t.products, eshops, manufacturers, batch);
    assert Saved(t, batch, now).products == InsertProducts(t.products, eshops, manufacturers, batch);
  }

  /** Keys within the stored rows stay within them as tables grow. */
  lemma KeysWithin(ps: seq<Product>, e: nat, m: nat, e': nat, m': nat)
    requires e <= e' && m <= m'
    requires forall i :: 0 <= i < |ps| ==> IsId(ps[i].manufacturerId, m) && IsId(ps[i].eshopId, e)
    ensures forall i :: 0 <= i < |ps| ==> IsId(ps[i].eshopId, e') && IsId(ps[i].manufacturerId, m')
  {
  }

  /** After a save every observation's product is stored. */
  lemma SavedStoreKeys(t: Tables, batch: seq<Listing>, now: Timestamp)
    requires Valid(t)
    ensures var t' := Saved(t, batch, now);
      forall i :: 0 <= i < |t'.store| ==> IsId(t'.store[i].productId, |t'.products|)
  {
    var t' := Saved(t, batch, now);
    SavedKeepsRows(t, batch, now);
    var added := PriceRows(t'.products, batch, now);
    assert t'.store == t.store + added;
    forall i | 0 <= i < |t'.store| ensures IsId(t'.store[i].productId, |t'.products|) {
      if i >= |t.store| {
        assert t'.store[i] == added[i - |t.store|];
      } else {
        assert t'.store[i] == t.store[i];
      }
    }
  }

  /** Saving the same batch a second time adds no eshop, manufacturer or
      product: only one more price observation per row whose title names a
      product. */
  lemma ResaveAddsOnlyPrices(t: Tables, batch: seq<Listing>, now1: Timestamp, now2: Timestamp)
    ensures var t1 := Saved(t, batch, now1);
      var t2 := Saved(t1, batch, now2);
      && t2.eshops == t1.eshops && t2.manufacturers == t1.manufacturers && t2.products == t1.products
      && t2.store == t1.store + PriceRows(t1.products, batch, now2)
      && |PriceRows(t1.products, batch, now2)| <= |batch|
      && forall i :: 0 <= i < |batch| && batch[i].title in ProductNames(t1.products) ==>
           Observation(t1.products, batch[i], now2).value in t2.store[|t1.store|..]
  {
    var t1 := Saved(t, batch, now1);
    SavedCoversBatch(t, batch, now1);
    SaveCoveredKeepsRows(t1, batch, now2);
    RowsAddObservations(t1.products, batch, now2);
  }

  /** Saving a batch whose eshops and manufacturers are all present, and each
      of whose rows already has a product of its title or url, only appends
      price rows. */
  lemma SaveCoveredKeepsRows(t: Tables, batch: seq<Listing>, now: Timestamp)
    requires forall i :: 0 <= i < |batch| ==>
      && batch[i].eshop in EshopNames(t.eshops)
      && batch[i].manufacturer in ManufacturerNames(t.manufacturers)
      && (batch[i].title in ProductNames(t.products) || batch[i].url in ProductUrls(t.products))
    ensures Saved(t, batch, now) == t.(store := t.store + PriceRows(t.products, batch, now))
  {
    var eshopColumn, manufacturerColumn := EshopColumn(batch), ManufacturerColumn(batch);
    NewNamesNone(EshopNames(t.eshops), eshopColumn);
    NewNamesNone(ManufacturerNames(t.manufacturers), manufacturerColumn);
    assert SavedEshops(t.eshops, batch) == t.eshops;
    assert SavedManufacturers(t.manufacturers, batch) == t.manufacturers;
    InsertProductsNone(t.products, EshopNames(t.eshops), ManufacturerNames(t.manufacturers), batch);
  }

  predicate Chronological(store: seq<Store>) {
    forall i, j :: 0 <= i < j < |store| ==> store[i].date <= store[j].date
  }

  /** Every observation a save adds is stamped with the transaction time,
      so a save at a time no earlier than any stored observation keeps the
      store in chronological order. */
  lemma SavedKeepsChronology(t: Tables, batch: seq<Listing>, now: Timestamp)
    requires Chronological(t.store)
    requires forall i :: 0 <= i < |t.store| ==> t.store[i].date <= now
    ensures var t' := Saved(t, batch, now);
      && Chronological(t'.store)
      && forall i :: |t.store| <= i < |t'.store| ==> t'.store[i].date == now
  {
    var t' := Saved(t, batch, now);
    var added := PriceRows(t'.products, batch, now);
    assert t'.store == t.store + added;
    StampedAppend(t.store, added, now);
  }

  lemma StampedAppend(store: seq<Store>, added: seq<Store>, now: Timestamp)
    requires Chronological(store)
    requires forall i :: 0 <= i < |store| ==> store[i].date <= now
    requires forall i :: 0 <= i < |added| ==> added[i].date == now
    ensures Chronological(store + added)
    ensures forall i :: |store| <= i < |store + added| ==> (store + added)[i].date == now
  {
    var s := store + added;
    forall i | |store| <= i < |s| ensures s[i].date == now {
      assert s[i] == added[i - |store|];
    }
  }
}
