/** The selections the dashboard queries make from the store table: a
    `DISTINCT ON (product)` over rows ordered by date keeps one observation
    with the extremal date, `date::date` keeps the calendar day, and
    `ROUND(x, 2)` rounds to cents. */
module Observations {
  import opened Wrappers
  import opened Schema

  /** The observation of `product` that a `DISTINCT ON` keeps when the rows
      are ordered by date descending (`latest`) or ascending: one with the
      latest, or the earliest, date. Among observations with the same date
      the one stored last is kept. */
  function Pick(store: seq<Store>, product: int, latest: bool): (r: Option<Store>)
    ensures r.None? <==> forall i :: 0 <= i < |store| ==> store[i].productId != product
    ensures r.Some? ==> r.value in store && r.value.productId == product
    ensures r.Some? && latest ==>
      forall i :: 0 <= i < |store| && store[i].productId == product ==> store[i].date <= r.value.date
    ensures r.Some? && !latest ==>
      forall i :: 0 <= i < |store| && store[i].productId == product ==> r.value.date <= store[i].date
  {
    if store == [] then None
    else
      var rest := Pick(store[1..], product, latest);
      assert forall i :: 1 <= i < |store| ==> store[i] == store[1..][i - 1];
      if store[0].productId != product then rest
      else if rest.Some? && (if latest then store[0].date <= rest.value.date else rest.value.date <= store[0].date) then rest
      else Some(store[0])
  }

  /** The observation of `product` that a `DISTINCT ON` keeps when the rows
      are ordered by calendar day descending: one on the latest day. Among
      observations of the same day the one stored last is kept. */
  function PickLatestDay(store: seq<Store>, product: int): (r: Option<Store>)
    ensures r.None? <==> forall i :: 0 <= i < |store| ==> store[i].productId != product
    ensures r.Some? ==> r.value in store && r.value.productId == product
    ensures r.Some? ==>
      forall i :: 0 <= i < |store| && store[i].productId == product ==> Day(store[i].date) <= Day(r.value.date)
  {
    if store == [] then None
    else
      var rest := PickLatestDay(store[1..], product);
      assert forall i :: 1 <= i < |store| ==> store[i] == store[1..][i - 1];
      if store[0].productId != product then rest
      else if rest.Some? && Day(store[0].date) <= Day(rest.value.date) then rest
      else Some(store[0])
  }

  /** The price of the picked observation; a product with no observation
      gives the NULL of the left join. */
  function PickedPrice(store: seq<Store>, product: int, latest: bool): Option<real> {
    match Pick(store, product, latest)
    case None => None
    case Some(s) => Some(s.price)
  }

  /** `price` is the price of an observation of `product` with the latest
      (or the earliest) date, and None exactly when the product has no
      observation. */
  predicate ExtremalPrice(store: seq<Store>, product: int, price: Option<real>, latest: bool) {
    && (price.None? <==> forall i :: 0 <= i < |store| ==> store[i].productId != product)
    && (price.Some? ==>
          exists s :: s in store && s.productId == product && s.price == price.value
                      && forall i :: 0 <= i < |store| && store[i].productId == product ==>
                                     if latest then store[i].date <= s.date else s.date <= store[i].date)
  }

  lemma PickedPriceExtremal(store: seq<Store>, product: int, latest: bool)
    ensures ExtremalPrice(store, product, PickedPrice(store, product, latest), latest)
  {
    var p := Pick(store, product, latest);
    if p.Some? {
      var s := p.value;
      assert s in store && s.productId == product && s.price == PickedPrice(store, product, latest).value;
    }
  }

  const SecondsPerDay: int := 86400

  /** `date::date`: the calendar day of a timestamp, counted from the epoch
      (the session time zone is not modelled). */
  function Day(ts: Timestamp): (d: int)
    ensures d * SecondsPerDay <= ts < (d + 1) * SecondsPerDay
  {
    ts / SecondsPerDay
  }

  /** `ROUND(x, 2)` on a numeric: to the nearest cent, halves away from
      zero. */
  function Round2(x: real): (r: real)
    ensures r == RoundedCents(x) as real / 100.0
    ensures -0.005 <= r - x <= 0.005
    ensures x >= 0.0 ==> -0.005 < r - x
    ensures x < 0.0 ==> r - x < 0.005
  {
    var n := RoundedCents(x);
    assert n as real / 100.0 - x == (n as real - x * 100.0) / 100.0;
    n as real / 100.0
  }

  /** The whole number of cents `ROUND(x, 2)` gives: half a cent away from
      zero, then truncate toward zero. */
  function RoundedCents(x: real): (n: int)
    ensures -0.5 <= n as real - x * 100.0 <= 0.5
    ensures x >= 0.0 ==> -0.5 < n as real - x * 100.0
    ensures x < 0.0 ==> n as real - x * 100.0 < 0.5
    ensures x >= 0.0 ==> n >= 0
    ensures x <= 0.0 ==> n <= 0
  {
    if x >= 0.0 then (x * 100.0 + 0.5).Floor else -((-x) * 100.0 + 0.5).Floor
  }

  /** The half-open bounds of `RoundedCents` leave exactly one whole number:
      a half cent goes up for a positive amount and down for a negative one. */
  lemma RoundedCentsUnique(x: real, m: int)
    requires x >= 0.0 ==> -0.5 < m as real - x * 100.0 <= 0.5
    requires x < 0.0 ==> -0.5 <= m as real - x * 100.0 < 0.5
    ensures m == RoundedCents(x)
  {
    var n := RoundedCents(x);
    assert -1.0 < m as real - n as real < 1.0;
  }
}
