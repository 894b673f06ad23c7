/** The relational schema of app/models.py as abstract tables, with the
    uniqueness, nullability and foreign-key constraints as one invariant.
    Manufacturer, eshop and product rows are only ever appended, and a row's
    id is modelled as its position plus one: the serial ids relabelled
    without the gaps that skipped inserts leave. */
module Schema {
  import opened Wrappers
  import opened Distinct

  /** A transaction timestamp, in seconds. */
  type Timestamp = int

  datatype Manufacturer = Manufacturer(name: string)

  datatype Eshop = Eshop(name: string)

  /** A product identity row; both foreign keys are non-null. */
  datatype Product = Product(name: string, url: string, manufacturerId: int, eshopId: int)

  /** A price observation: non-null product, price and date. */
  datatype Store = Store(productId: int, price: real, date: Timestamp)

  /** An analog link; both endpoints are nullable foreign keys. */
  datatype Analog = Analog(product1: Option<int>, product2: Option<int>)

  datatype Tables = Tables(
    manufacturers: seq<Manufacturer>,
    eshops: seq<Eshop>,
    products: seq<Product>,
    store: seq<Store>,
    analogs: map<int, Analog>)

  function ManufacturerNames(ms: seq<Manufacturer>): (r: seq<string>)
    ensures |r| == |ms| && forall i :: 0 <= i < |ms| ==> r[i] == ms[i].name
  {
    if ms == [] then [] else ManufacturerNames(ms[..|ms| - 1]) + [ms[|ms| - 1].name]
  }

  function EshopNames(es: seq<Eshop>): (r: seq<string>)
    ensures |r| == |es| && forall i :: 0 <= i < |es| ==> r[i] == es[i].name
  {
    if es == [] then [] else EshopNames(es[..|es| - 1]) + [es[|es| - 1].name]
  }

  function ProductNames(ps: seq<Product>): (r: seq<string>)
    ensures |r| == |ps| && forall i :: 0 <= i < |ps| ==> r[i] == ps[i].name
  {
    if ps == [] then [] else ProductNames(ps[..|ps| - 1]) + [ps[|ps| - 1].name]
  }

  function ProductUrls(ps: seq<Product>): (r: seq<string>)
    ensures |r| == |ps| && forall i :: 0 <= i < |ps| ==> r[i] == ps[i].url
  {
    if ps == [] then [] else ProductUrls(ps[..|ps| - 1]) + [ps[|ps| - 1].url]
  }

  /** The id of the row holding `key` in a column (an equality join on a
      unique column), or None when no row holds it. */
  function IdOf(column: seq<string>, key: string): (r: Option<int>)
    ensures r.None? <==> key !in column
    ensures r.Some? ==> 1 <= r.value <= |column| && column[r.value - 1] == key
  {
    if column == [] then None
    else if column[|column| - 1] == key && key !in column[..|column| - 1] then Some(|column|)
    else IdOf(column[..|column| - 1], key)
  }

  /** In a unique column, the id found for a key is the id of every row that
      holds it. */
  lemma IdOfUnique(column: seq<string>, i: nat)
    requires NoDuplicates(column) && i < |column|
    ensures IdOf(column, column[i]) == Some(i + 1)
  {
  }

  predicate IsId(id: int, n: nat) {
    1 <= id <= n
  }

  /** The inner joins of the dashboard queries: the product's manufacturer
      and eshop both exist. */
  predicate Joins(t: Tables, p: Product) {
    IsId(p.manufacturerId, |t.manufacturers|) && IsId(p.eshopId, |t.eshops|)
  }

  predicate ValidEndpoint(e: Option<int>, products: nat) {
    e.None? || IsId(e.value, products)
  }

  /** The constraints of app/models.py: unique non-null names for
      manufacturers and eshops; unique non-null product names and urls;
      non-null foreign keys from products to manufacturers and eshops and
      from store rows to products; nullable foreign keys from analogs to
      products. Store rows have no uniqueness constraint. */
  predicate Valid(t: Tables) {
    && NoDuplicates(ManufacturerNames(t.manufacturers))
    && NoDuplicates(EshopNames(t.eshops))
    && NoDuplicates(ProductNames(t.products))
    && NoDuplicates(ProductUrls(t.products))
    && (forall i :: 0 <= i < |t.products| ==>
          IsId(t.products[i].manufacturerId, |t.manufacturers|) && IsId(t.products[i].eshopId, |t.eshops|))
    && (forall i :: 0 <= i < |t.store| ==> IsId(t.store[i].productId, |t.products|))
    && (forall id :: id in t.analogs ==>
          ValidEndpoint(t.analogs[id].product1, |t.products|) && ValidEndpoint(t.analogs[id].product2, |t.products|))
  }

  /** The database the crawlers write and the dashboards read. */
  class Database {
    var manufacturers: seq<Manufacturer>
    var eshops: seq<Eshop>
    var products: seq<Product>
    var store: seq<Store>
    var analogs: map<int, Analog>

    function Snapshot(): Tables
      reads this
    {
      Tables(manufacturers, eshops, products, store, analogs)
    }

    constructor (t: Tables)
      ensures Snapshot() == t
    {
      manufacturers, eshops, products, store, analogs := t.manufacturers, t.eshops, t.products, t.store, t.analogs;
    }
  }
}
