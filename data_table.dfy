/** The product report of app/dash/data_table.py: every product whose
    manufacturer and eshop exist, with its last observed price and the day
    of that observation. */
module DataTable {
  import opened Wrappers
  import opened Distinct
  import opened Schema
  import opened Observations

  /** One record of the report, in the column order "Product Name", "Eshop",
      "Last Price", "URL", "Date"; the manufacturer is dropped. A product
      never observed has a NULL price and date. */
  datatype ReportRow = ReportRow(name: string, eshop: string, lastPrice: Option<real>, url: string, date: Option<int>)

  /** The observation the left join and `DISTINCT ON (product.id) ... ORDER
      BY product.id, date DESC` keep for product `product`. In that ORDER BY
      the bare name `date` is the output column `date::date`, so the query
      as written orders by calendar day (`asWritten`) and keeps some
      observation of the latest day; ordering by the timestamp keeps the
      latest observation. */
  function Kept(t: Tables, product: int, asWritten: bool): (r: Option<Store>)
    ensures r.None? <==> forall i :: 0 <= i < |t.store| ==> t.store[i].productId != product
    ensures r.Some? ==> r.value in t.store && r.value.productId == product
  {
    if asWritten then PickLatestDay(t.store, product) else Pick(t.store, product, true)
  }

  /** The record of the product at position `i` (id `i + 1`). */
  function RowOf(t: Tables, i: nat, asWritten: bool): ReportRow
    requires i < |t.products| && IsId(t.products[i].eshopId, |t.eshops|)
  {
    var p := t.products[i];
    var obs := Kept(t, i + 1, asWritten);
    ReportRow(p.name, t.eshops[p.eshopId - 1].name,
              if obs.Some? then Some(obs.value.price) else None,
              p.url,
              if obs.Some? then Some(Day(obs.value.date)) else None)
  }

  /** The records of the joined products among the first `n`, in id
      order. */
  function ReportRows(t: Tables, n: nat, asWritten: bool): seq<ReportRow>
    requires n <= |t.products|
  {
    if n == 0 then []
    else ReportRows(t, n - 1, asWritten) + (if Joins(t, t.products[n - 1]) then [RowOf(t, n - 1, asWritten)] else [])
  }

  /** get_products with the query as written: ordered by day. */
  function ReportAsWritten(t: Tables): seq<ReportRow> {
    ReportRows(t, |t.products|, true)
  }

  /** get_products with the order the report's "Last Price" calls for: by
      timestamp. */
  function Report(t: Tables): seq<ReportRow> {
    ReportRows(t, |t.products|, false)
  }

  /** Whatever the database holds, the report has at most one record per
      product, each the record of a joined product. */
  lemma {:induction false} ReportRowsSound(t: Tables, n: nat, asWritten: bool)
    requires n <= |t.products|
    ensures |ReportRows(t, n, asWritten)| <= n
    ensures forall i :: 0 <= i < |ReportRows(t, n, asWritten)| ==>
      exists k :: 0 <= k < n && Joins(t, t.products[k]) && ReportRows(t, n, asWritten)[i] == RowOf(t, k, asWritten)
  {
    if n > 0 {
      ReportRowsSound(t, n - 1, asWritten);
      var prev := ReportRows(t, n - 1, asWritten);
      var r := ReportRows(t, n, asWritten);
      forall i | 0 <= i < |r|
        ensures exists k :: 0 <= k < n && Joins(t, t.products[k]) && ReportRows(t, n, asWritten)[i] == RowOf(t, k, asWritten)
      {
        if i < |prev| {
          assert r[i] == prev[i];
          var k :| 0 <= k < n - 1 && Joins(t, t.products[k]) && prev[i] == RowOf(t, k, asWritten);
          assert 0 <= k < n && Joins(t, t.products[k]) && r[i] == RowOf(t, k, asWritten);
        } else {
          assert Joins(t, t.products[n - 1]) && r[i] == RowOf(t, n - 1, asWritten);
        }
      }
      assert |r| <= n;
    } else {
      assert ReportRows(t, n, asWritten) == [];
    }
  }

  /** When every product joins, the report has one record per product, in
      id order. */
  lemma {:induction false} ReportRowsTotal(t: Tables, n: nat, asWritten: bool)
    requires n <= |t.products|
    requires forall i :: 0 <= i < n ==> Joins(t, t.products[i])
    ensures |ReportRows(t, n, asWritten)| == n
    ensures forall i :: 0 <= i < n ==> Joins(t, t.products[i]) && ReportRows(t, n, asWritten)[i] == RowOf(t, i, asWritten)
  {
    if n > 0 {
      ReportRowsTotal(t, n - 1, asWritten);
      assert Joins(t, t.products[n - 1]);
    }
  }

  /** In a valid database the report lists every product once, in id order,
      with its own name, eshop and url; "Last Price" is the price of an
      observation of the product that no other observation of it
      postdates, NULL exactly when it was never observed, and "Date" is the
      day of that observation. */
  lemma ReportLatest(t: Tables)
    requires Valid(t)
    ensures |Report(t)| == |t.products|
    ensures forall i :: 0 <= i < |t.products| ==>
      && Report(t)[i].name == t.products[i].name
      && Report(t)[i].url == t.products[i].url
      && Report(t)[i].eshop == t.eshops[t.products[i].eshopId - 1].name
      && ExtremalPrice(t.store, i + 1, Report(t)[i].lastPrice, true)
      && (Report(t)[i].date.None? <==> Report(t)[i].lastPrice.None?)
  {
    ReportRowsTotal(t, |t.products|, false);
    forall i | 0 <= i < |t.products|
      ensures ExtremalPrice(t.store, i + 1, Report(t)[i].lastPrice, true)
    {
      PickedPriceExtremal(t.store, i + 1, true);
    }
  }

  /** "Date" is the day of an observation with the shown price and the
      latest date of the product. */
  lemma ReportDate(t: Tables, i: nat)
    requires Valid(t) && i < |t.products|
    ensures |Report(t)| == |t.products|
    ensures Report(t)[i].date.Some? ==>
      exists s :: && s in t.store && s.productId == i + 1
                  && Report(t)[i].lastPrice == Some(s.price) && Report(t)[i].date == Some(Day(s.date))
                  && forall j :: 0 <= j < |t.store| && t.store[j].productId == i + 1 ==> t.store[j].date <= s.date
  {
    ReportRowsTotal(t, |t.products|, false);
    var obs := Pick(t.store, i + 1, true);
    if obs.Some? {
      assert Report(t)[i] == RowOf(t, i, false);
      var s := obs.value;
      assert s in t.store && s.productId == i + 1;
    }
  }

  /** As written, the report still lists every product once with its own
      name, eshop and url, but "Last Price" is only the price of some
      observation on the product's latest day, and "Date" is that day. */
  lemma ReportAsWrittenLatestDay(t: Tables, i: nat)
    requires Valid(t) && i < |t.products|
    ensures |ReportAsWritten(t)| == |t.products|
    ensures && ReportAsWritten(t)[i].name == t.products[i].name
            && ReportAsWritten(t)[i].url == t.products[i].url
            && ReportAsWritten(t)[i].eshop == t.eshops[t.products[i].eshopId - 1].name
    ensures ReportAsWritten(t)[i].lastPrice.None? <==> forall j :: 0 <= j < |t.store| ==> t.store[j].productId != i + 1
    ensures ReportAsWritten(t)[i].date.None? <==> ReportAsWritten(t)[i].lastPrice.None?
    ensures ReportAsWritten(t)[i].date.Some? ==>
      exists s :: && s in t.store && s.productId == i + 1
                  && ReportAsWritten(t)[i].lastPrice == Some(s.price) && ReportAsWritten(t)[i].date == Some(Day(s.date))
                  && forall j :: 0 <= j < |t.store| && t.store[j].productId == i + 1 ==> Day(t.store[j].date) <= Day(s.date)
  {
    ReportRowsTotal(t, |t.products|, true);
    assert ReportAsWritten(t)[i] == RowOf(t, i, true);
    var obs := PickLatestDay(t.store, i + 1);
    if obs.Some? {
      var s := obs.value;
      assert s in t.store && s.productId == i + 1;
    }
  }

  /** One product observed twice on day 1, at 12.0 and then, earlier in
      the day but stored later, at 10.0. */
  function SameDayExample(): Tables {
    Tables([Manufacturer("Vichy")], [Eshop("Benu")], [Product("a", "u1", 1, 1)],
           [Store(1, 12.0, SecondsPerDay + 200), Store(1, 10.0, SecondsPerDay + 100)],
           map[])
  }

  /** As written, the report may show 10.0 as the "Last Price" of the
      example: that observation is on the latest day, as the query demands,
      but it is not the latest observation, whose price 12.0 the corrected
      report shows. */
  lemma AsWrittenShowsEarlierSameDayPrice()
    ensures |ReportAsWritten(SameDayExample())| == 1 && ReportAsWritten(SameDayExample())[0].lastPrice == Some(10.0)
    ensures |Report(SameDayExample())| == 1 && Report(SameDayExample())[0].lastPrice == Some(12.0)
    ensures !ExtremalPrice(SameDayExample().store, 1, Some(10.0), true)
  {
    var t := SameDayExample();
    assert Day(SecondsPerDay + 200) == 1 && Day(SecondsPerDay + 100) == 1;
    assert PickLatestDay(t.store[2..], 1) == None && Pick(t.store[2..], 1, true) == None;
    assert PickLatestDay(t.store[1..], 1) == Some(Store(1, 10.0, SecondsPerDay + 100));
    assert Pick(t.store[1..], 1, true) == Some(Store(1, 10.0, SecondsPerDay + 100));
    assert PickLatestDay(t.store, 1) == Some(Store(1, 10.0, SecondsPerDay + 100));
    assert Pick(t.store, 1, true) == Some(Store(1, 12.0, SecondsPerDay + 200));
    assert ReportAsWritten(t) == [RowOf(t, 0, true)];
    assert Report(t) == [RowOf(t, 0, false)];
    forall s | s in t.store && s.productId == 1 && s.price == 10.0
      ensures t.store[0].productId == 1 && t.store[0].date > s.date
    {
      assert s == t.store[1];
    }
  }

  /** In a valid database no two records have the same product name. */
  lemma ReportNamesDistinct(t: Tables, asWritten: bool)
    requires Valid(t)
    ensures forall i, j :: 0 <= i < j < |ReportRows(t, |t.products|, asWritten)| ==>
      ReportRows(t, |t.products|, asWritten)[i].name != ReportRows(t, |t.products|, asWritten)[j].name
  {
    ReportRowsTotal(t, |t.products|, asWritten);
    assert forall i :: 0 <= i < |t.products| ==> ReportRows(t, |t.products|, asWritten)[i].name == ProductNames(t.products)[i];
  }
}
