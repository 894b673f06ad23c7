/** The price-index page of app/dash/price_index.py: the Update button that
    re-crawls the three eshops into the database, and the two graphs of
    average prices by day, one per manufacturer within an eshop and one per
    eshop within a manufacturer. */
module PriceIndex {
  import opened Wrappers
  import opened Schema
  import opened Listings
  import opened Crawl
  import opened Persist
  import opened Observations

  // --------------------------------------------------------------- update_data

  /** The crawl outcomes of the three crawlers for the given response
      scripts. */
  function EurovaistineOutcome(script: seq<Response<seq<EuroCard>>>): Outcome {
    Paginate(ManufacturerKeys, 0, 1, [], script, ByElements(EuroStep), EuroFullPage)
  }

  function HerbaOutcome(script: seq<Response<HerbaDom>>): Outcome {
    Paginate(HerbaKeys, 0, 1, [], script, HerbaPage, HerbaFullPage)
  }

  function BenuOutcome(script: seq<Response<seq<BenuCard>>>): Outcome {
    BenuFrom(ManufacturerKeys, 0, [], script)
  }

  /** The tables during an update, and whether a crawl is still running (in
      which case no later source has started and the callback has not
      returned). */
  datatype Progress = Progress(tables: Tables, running: bool)

  /** One `try: crawler.save(crawler.crawl()) except Exception` block: a
      finished crawl is saved, an exception from the crawl or from a save
      that rolls back is swallowed, and a crawl that is still requesting pages
      holds up everything after it. */
  function Step(p: Progress, o: Outcome, now: Timestamp): Progress {
    if p.running then p
    else
      match o
      case Unfinished(_) => Progress(p.tables, true)
      case Raised(_) => p
      case Finished(rows) => if !Commits(rows) then p else Progress(Saved(p.tables, rows, now), false)
  }

  /** The three blocks in source order: Eurovaistine, Herba, Benu, each
      saved in its own transaction at its own time. */
  function Updated(t: Tables, euro: Outcome, herba: Outcome, benu: Outcome,
                   now1: Timestamp, now2: Timestamp, now3: Timestamp): Progress {
    Step(Step(Step(Progress(t, false), euro, now1), herba, now2), benu, now3)
  }

  /** What the callback gives Dash: `no_update`, nothing yet, or the values
      of the two placeholders that re-trigger the graphs. */
  datatype UpdateResult = NoUpdate | StillRunning | Placeholders(values: seq<int>)

  /** One source of update_data: crawl, then save what the crawl returned.
      Returns true when the crawl is still running. */
  method RunSource(db: Database, o: Outcome, now: Timestamp) returns (running: bool)
    modifies db
    ensures Progress(db.Snapshot(), running) == Step(Progress(old(db.Snapshot()), false), o, now)
  {
    if o.Unfinished? {
      return true;
    }
    if o.Finished? {
      var _ := Save(db, o.rows, now);
    }
    return false;
  }

  /** update_data. Without a click nothing happens. Otherwise the three
      sources run in order, each isolated from the others' exceptions, and
      the callback returns `[0, 0]` once all three are done. */
  method UpdateData(db: Database, nClicks: Option<int>,
                    euroScript: seq<Response<seq<EuroCard>>>, herbaScript: seq<Response<HerbaDom>>,
                    benuScript: seq<Response<seq<BenuCard>>>,
                    now1: Timestamp, now2: Timestamp, now3: Timestamp) returns (out: UpdateResult)
    modifies db
    ensures nClicks.None? || nClicks.value < 1 ==> out == NoUpdate && unchanged(db)
    ensures nClicks.Some? && nClicks.value >= 1 ==>
      var p := Updated(old(db.Snapshot()), EurovaistineOutcome(euroScript), HerbaOutcome(herbaScript),
                       BenuOutcome(benuScript), now1, now2, now3);
      && db.Snapshot() == p.tables
      && out == (if p.running then StillRunning else Placeholders([0, 0]))
  {
    if nClicks.None? || nClicks.value < 1 {
      return NoUpdate;
    }
    var euro := CrawlEurovaistine(euroScript);
    var running := RunSource(db, euro, now1);
    if running {
      return StillRunning;
    }
    var herba := CrawlHerba(herbaScript);
    running := RunSource(db, herba, now2);
    if running {
      return StillRunning;
    }
    var benu := CrawlBenu(benuScript);
    running := RunSource(db, benu, now3);
    if running {
      return StillRunning;
    }
    return Placeholders([0, 0]);
  }

  // ------------------------------------------------------ update properties

  /** `t2` holds every row of `t1` in its place, and the same analogs. */
  predicate Extends(t1: Tables, t2: Tables) {
    && |t1.eshops| <= |t2.eshops| && t2.eshops[..|t1.eshops|] == t1.eshops
    && |t1.manufacturers| <= |t2.manufacturers| && t2.manufacturers[..|t1.manufacturers|] == t1.manufacturers
    && |t1.products| <= |t2.products| && t2.products[..|t1.products|] == t1.products
    && |t1.store| <= |t2.store| && t2.store[..|t1.store|] == t1.store
    && t2.analogs == t1.analogs
  }

  lemma ExtendsTransitive(t1: Tables, t2: Tables, t3: Tables)
    requires Extends(t1, t2) && Extends(t2, t3)
    ensures Extends(t1, t3)
  {
    assert t3.eshops[..|t1.eshops|] == t3.eshops[..|t2.eshops|][..|t1.eshops|];
    assert t3.manufacturers[..|t1.manufacturers|] == t3.manufacturers[..|t2.manufacturers|][..|t1.manufacturers|];
    assert t3.products[..|t1.products|] == t3.products[..|t2.products|][..|t1.products|];
    assert t3.store[..|t1.store|] == t3.store[..|t2.store|][..|t1.store|];
  }

  /** A step keeps the constraints and only appends. */
  lemma StepSpec(p: Progress, o: Outcome, now: Timestamp)
    ensures Extends(p.tables, Step(p, o, now).tables)
    ensures Valid(p.tables) ==> Valid(Step(p, o, now).tables)
  {
    var q := Step(p, o, now);
    if !p.running && o.Finished? && Commits(o.rows) {
      SavedKeepsRows(p.tables, o.rows, now);
      if Valid(p.tables) {
        SavedValid(p.tables, o.rows, now);
      }
    } else {
      assert q.tables == p.tables;
      assert p.tables.eshops[..|p.tables.eshops|] == p.tables.eshops;
      assert p.tables.manufacturers[..|p.tables.manufacturers|] == p.tables.manufacturers;
      assert p.tables.products[..|p.tables.products|] == p.tables.products;
      assert p.tables.store[..|p.tables.store|] == p.tables.store;
    }
  }

  /** An update keeps the database's constraints, never deletes or rewrites
      a row and leaves the analogs alone. */
  lemma UpdatedSpec(t: Tables, euro: Outcome, herba: Outcome, benu: Outcome,
                    now1: Timestamp, now2: Timestamp, now3: Timestamp)
    ensures Extends(t, Updated(t, euro, herba, benu, now1, now2, now3).tables)
    ensures Valid(t) ==> Valid(Updated(t, euro, herba, benu, now1, now2, now3).tables)
  {
    var p0 := Progress(t, false);
    var p1 := Step(p0, euro, now1);
    var p2 := Step(p1, herba, now2);
    StepSpec(p0, euro, now1);
    StepSpec(p1, herba, now2);
    StepSpec(p2, benu, now3);
    ExtendsTransitive(t, p1.tables, p2.tables);
    ExtendsTransitive(t, p2.tables, Step(p2, benu, now3).tables);
  }

  /** Every row of `rows` is recorded in `t`: its eshop and manufacturer are
      stored, and a product has its title or its url. */
  predicate Records(t: Tables, rows: seq<Listing>) {
    forall i :: 0 <= i < |rows| ==>
      && rows[i].eshop in EshopNames(t.eshops)
      && rows[i].manufacturer in ManufacturerNames(t.manufacturers)
      && (rows[i].title in ProductNames(t.products) || rows[i].url in ProductUrls(t.products))
  }

  lemma RecordsExtends(t1: Tables, t2: Tables, rows: seq<Listing>)
    requires Records(t1, rows) && Extends(t1, t2)
    ensures Records(t2, rows)
  {
    forall i | 0 <= i < |rows|
      ensures && rows[i].eshop in EshopNames(t2.eshops)
              && rows[i].manufacturer in ManufacturerNames(t2.manufacturers)
              && (rows[i].title in ProductNames(t2.products) || rows[i].url in ProductUrls(t2.products))
    {
      var e :| 0 <= e < |t1.eshops| && EshopNames(t1.eshops)[e] == rows[i].eshop;
      assert t2.eshops[e] == t1.eshops[e];
      var m :| 0 <= m < |t1.manufacturers| && ManufacturerNames(t1.manufacturers)[m] == rows[i].manufacturer;
      assert t2.manufacturers[m] == t1.manufacturers[m];
      if rows[i].title in ProductNames(t1.products) {
        var k :| 0 <= k < |t1.products| && ProductNames(t1.products)[k] == rows[i].title;
        assert t2.products[k] == t1.products[k];
      } else {
        var k :| 0 <= k < |t1.products| && ProductUrls(t1.products)[k] == rows[i].url;
        assert t2.products[k] == t1.products[k];
      }
    }
  }

  /** A step that saves a finished crawl records its rows when every value
      fits its column; one too-wide value loses the whole crawl. */
  lemma StepRecords(p: Progress, rows: seq<Listing>, now: Timestamp)
    requires !p.running
    ensures Fits(rows) ==> Records(Step(p, Finished(rows), now).tables, rows)
    ensures !Fits(rows) ==> Step(p, Finished(rows), now) == p
  {
    if Commits(rows) {
      SavedCoversBatch(p.tables, rows, now);
    }
  }

  /** One source's failure loses no other source's rows: every crawl that
      finished with values that fit their columns, and was not held up by
      an earlier one still running, is recorded in the database at the end
      of the update. */
  lemma UpdatedRecordsFinished(t: Tables, euro: Outcome, herba: Outcome, benu: Outcome,
                               now1: Timestamp, now2: Timestamp, now3: Timestamp)
    ensures var r := Updated(t, euro, herba, benu, now1, now2, now3).tables;
      && (euro.Finished? && Fits(euro.rows) ==> Records(r, euro.rows))
      && (!euro.Unfinished? && herba.Finished? && Fits(herba.rows) ==> Records(r, herba.rows))
      && (!euro.Unfinished? && !herba.Unfinished? && benu.Finished? && Fits(benu.rows) ==> Records(r, benu.rows))
  {
    var p0 := Progress(t, false);
    var p1 := Step(p0, euro, now1);
    var p2 := Step(p1, herba, now2);
    var p3 := Step(p2, benu, now3);
    StepSpec(p1, herba, now2);
    StepSpec(p2, benu, now3);
    ExtendsTransitive(p1.tables, p2.tables, p3.tables);
    if euro.Finished? && Fits(euro.rows) {
      StepRecords(p0, euro.rows, now1);
      RecordsExtends(p1.tables, p3.tables, euro.rows);
    }
    if !euro.Unfinished? && herba.Finished? && Fits(herba.rows) {
      StepRecords(p1, herba.rows, now2);
      RecordsExtends(p2.tables, p3.tables, herba.rows);
    }
    if !euro.Unfinished? && !herba.Unfinished? && benu.Finished? && Fits(benu.rows) {
      StepRecords(p2, benu.rows, now3);
    }
  }

  /** A step at a time no earlier than any stored observation keeps the
      store chronological and stamps what it adds with its own time. */
  lemma StepChronology(p: Progress, o: Outcome, now: Timestamp)
    requires Chronological(p.tables.store)
    requires forall i :: 0 <= i < |p.tables.store| ==> p.tables.store[i].date <= now
    ensures var s := Step(p, o, now).tables.store;
      && Chronological(s)
      && |p.tables.store| <= |s|
      && forall i :: 0 <= i < |s| ==> s[i].date <= now
  {
    if !p.running && o.Finished? && Commits(o.rows) {
      SavedKeepsRows(p.tables, o.rows, now);
      SavedKeepsChronology(p.tables, o.rows, now);
      var s := Step(p, o, now).tables.store;
      forall i | 0 <= i < |s| ensures s[i].date <= now {
        if i < |p.tables.store| {
          assert s[i] == p.tables.store[i];
        }
      }
    }
  }

  /** With the three transaction times in order and no stored observation
      from the future, an update keeps the store in chronological order and
      dates every new observation no later than the last save. */
  lemma UpdatedChronology(t: Tables, euro: Outcome, herba: Outcome, benu: Outcome,
                          now1: Timestamp, now2: Timestamp, now3: Timestamp)
    requires Chronological(t.store)
    requires forall i :: 0 <= i < |t.store| ==> t.store[i].date <= now1
    requires now1 <= now2 <= now3
    ensures Chronological(Updated(t, euro, herba, benu, now1, now2, now3).tables.store)
    ensures forall i :: 0 <= i < |Updated(t, euro, herba, benu, now1, now2, now3).tables.store| ==>
      Updated(t, euro, herba, benu, now1, now2, now3).tables.store[i].date <= now3
  {
    var p0 := Progress(t, false);
    var p1 := Step(p0, euro, now1);
    var p2 := Step(p1, herba, now2);
    StepChronology(p0, euro, now1);
    StepChronology(p1, herba, now2);
    StepChronology(p2, benu, now3);
  }

  // -------------------------------------------------------------------- graphs

  /** One row of a graph query: the observation's day (`to_char(date,
      'YYYY-mm-dd')`), the name of the series it belongs to (the
      manufacturer in the first graph, the eshop in the second) and its
      price. */
  datatype Point = Point(day: int, series: string, price: real)

  /** The inner joins and the WHERE clause of both graph queries: the point
      an observation contributes, if its product, manufacturer and eshop
      exist and the eshop and manufacturer names are selected. */
  function PointOf(t: Tables, s: Store, eshops: seq<string>, manufacturers: seq<string>, byManufacturer: bool): Option<Point> {
    if !IsId(s.productId, |t.products|) then None
    else
      var p := t.products[s.productId - 1];
      if !Joins(t, p) then None
      else
        var e, m := t.eshops[p.eshopId - 1].name, t.manufacturers[p.manufacturerId - 1].name;
        if e in eshops && m in manufacturers then Some(Point(Day(s.date), if byManufacturer then m else e, s.price))
        else None
  }

  /** The points of the first `n` observations, in store order. */
  function Points(t: Tables, eshops: seq<string>, manufacturers: seq<string>, byManufacturer: bool, n: nat): (r: seq<Point>)
    requires n <= |t.store|
    ensures |r| <= n
  {
    if n == 0 then []
    else
      var rest := Points(t, eshops, manufacturers, byManufacturer, n - 1);
      match PointOf(t, t.store[n - 1], eshops, manufacturers, byManufacturer)
      case None => rest
      case Some(x) => rest + [x]
  }

  /** The plotted points are exactly those of the observations among the
      first `n` that give a point. */
  lemma {:induction false} PointsMembers(t: Tables, eshops: seq<string>, manufacturers: seq<string>, byManufacturer: bool, n: nat, x: Point)
    requires n <= |t.store|
    ensures x in Points(t, eshops, manufacturers, byManufacturer, n) <==>
      exists i :: 0 <= i < n && PointOf(t, t.store[i], eshops, manufacturers, byManufacturer) == Some(x)
  {
    if n > 0 {
      PointsLast(t, eshops, manufacturers, byManufacturer, n);
      PointsMembers(t, eshops, manufacturers, byManufacturer, n - 1, x);
    }
  }

  /** One step of `Points`: the last observation adds its point, if any. */
  lemma PointsLast(t: Tables, eshops: seq<string>, manufacturers: seq<string>, byManufacturer: bool, n: nat)
    requires 0 < n <= |t.store|
    ensures var o := PointOf(t, t.store[n - 1], eshops, manufacturers, byManufacturer);
      Points(t, eshops, manufacturers, byManufacturer, n)
        == Points(t, eshops, manufacturers, byManufacturer, n - 1) + (if o.Some? then [o.value] else [])
  {
  }

  /** For each observation, whether it gives the point `x`. */
  function Gives(t: Tables, eshops: seq<string>, manufacturers: seq<string>, byManufacturer: bool, x: Point): (g: seq<bool>)
    ensures |g| == |t.store|
    ensures forall i :: 0 <= i < |g| ==> g[i] == (PointOf(t, t.store[i], eshops, manufacturers, byManufacturer) == Some(x))
  {
    seq(|t.store|, i requires 0 <= i < |t.store| => PointOf(t, t.store[i], eshops, manufacturers, byManufacturer) == Some(x))
  }

  /** The positions below `n` that hold true. */
  function Positions(g: seq<bool>, n: nat): set<nat>
    requires n <= |g|
  {
    set i: nat | i < n && g[i]
  }

  /** One step of `Positions`: position `n - 1` counts when it holds true. */
  lemma PositionsLast(g: seq<bool>, n: nat)
    requires 0 < n <= |g|
    ensures |Positions(g, n)| == |Positions(g, n - 1)| + (if g[n - 1] then 1 else 0)
  {
    if g[n - 1] {
      assert Positions(g, n) == Positions(g, n - 1) + {n - 1};
    } else {
      assert Positions(g, n) == Positions(g, n - 1);
    }
  }

  /** Each point occurs in `Points` as often as there are observations
      among the first `n` that give it. */
  lemma PointsCount(t: Tables, eshops: seq<string>, manufacturers: seq<string>, byManufacturer: bool, n: nat, x: Point)
    requires n <= |t.store|
    ensures multiset(Points(t, eshops, manufacturers, byManufacturer, n))[x]
         == |Positions(Gives(t, eshops, manufacturers, byManufacturer, x), n)|
  {
    PointsCountTrue(t, eshops, manufacturers, byManufacturer, n, x);
    CountTruePositions(Gives(t, eshops, manufacturers, byManufacturer, x), n);
  }

  /** How many of the first `n` flags hold. */
  function CountTrue(g: seq<bool>, n: nat): nat
    requires n <= |g|
  {
    if n == 0 then 0 else CountTrue(g, n - 1) + (if g[n - 1] then 1 else 0)
  }

  /** Counting the flags that hold counts the positions that hold true. */
  lemma {:induction false} CountTruePositions(g: seq<bool>, n: nat)
    requires n <= |g|
    ensures CountTrue(g, n) == |Positions(g, n)|
  {
    if n > 0 {
      PositionsLast(g, n);
      CountTruePositions(g, n - 1);
    }
  }

  /** The induction behind `PointsCount`, counting flag by flag. */
  lemma {:induction false} PointsCountTrue(t: Tables, eshops: seq<string>, manufacturers: seq<string>, byManufacturer: bool, n: nat, x: Point)
    requires n <= |t.store|
    ensures multiset(Points(t, eshops, manufacturers, byManufacturer, n))[x]
         == CountTrue(Gives(t, eshops, manufacturers, byManufacturer, x), n)
  {
    if n > 0 {
      var o := PointOf(t, t.store[n - 1], eshops, manufacturers, byManufacturer);
      var g := Gives(t, eshops, manufacturers, byManufacturer, x);
      PointsLast(t, eshops, manufacturers, byManufacturer, n);
      PointsCountTrue(t, eshops, manufacturers, byManufacturer, n - 1, x);
      CountStep(Points(t, eshops, manufacturers, byManufacturer, n - 1), Points(t, eshops, manufacturers, byManufacturer, n),
                o, x, CountTrue(g, n - 1), CountTrue(g, n), g[n - 1]);
    }
  }

  /** One step of the count: appending an optional point adds one
      occurrence of `x` exactly when the point is `x`, as one more position
      that gives `x` does. */
  lemma CountStep(prev: seq<Point>, next: seq<Point>, o: Option<Point>, x: Point, before: nat, after: nat, gives: bool)
    requires next == prev + (if o.Some? then [o.value] else [])
    requires multiset(prev)[x] == before
    requires after == before + (if gives then 1 else 0) && gives == (o == Some(x))
    ensures multiset(next)[x] == after
  {
    if o.Some? {
      assert multiset(next) == multiset(prev) + multiset{o.value};
    } else {
      assert next == prev;
    }
  }

  /** Points keep store order: the points of an earlier prefix of the
      store come first among those of a longer one. */
  lemma {:induction false} PointsPrefix(t: Tables, eshops: seq<string>, manufacturers: seq<string>, byManufacturer: bool, n: nat, m: nat)
    requires n <= m <= |t.store|
    ensures Points(t, eshops, manufacturers, byManufacturer, n) <= Points(t, eshops, manufacturers, byManufacturer, m)
    decreases m
  {
    if n < m {
      PointsLast(t, eshops, manufacturers, byManufacturer, m);
      PointsPrefix(t, eshops, manufacturers, byManufacturer, n, m - 1);
    }
  }

  /** Python's truthiness of a checklist value: None and [] are false. */
  predicate Chosen<T>(v: Option<seq<T>>) {
    v.Some? && v.value != []
  }

  /** make_graph_1: without both a manufacturer selection and an eshop the
      figure is not updated; otherwise the points of the chosen eshop's
      observations of the chosen manufacturers, one series per
      manufacturer. */
  function Graph1(t: Tables, manufacturers: Option<seq<string>>, eshop: Option<string>): (r: Option<seq<Point>>)
    ensures r.Some? <==> Chosen(manufacturers) && Chosen(eshop)
  {
    if !(Chosen(manufacturers) && Chosen(eshop)) then None
    else Some(Points(t, [eshop.value], manufacturers.value, true, |t.store|))
  }

  /** make_graph_2: the same with the roles swapped, one series per eshop. */
  function Graph2(t: Tables, eshops: Option<seq<string>>, manufacturer: Option<string>): (r: Option<seq<Point>>)
    ensures r.Some? <==> Chosen(manufacturer) && Chosen(eshops)
  {
    if !(Chosen(manufacturer) && Chosen(eshops)) then None
    else Some(Points(t, eshops.value, [manufacturer.value], false, |t.store|))
  }

  /** The first graph shows exactly the observations of products of the
      chosen eshop and of a chosen manufacturer, each under its
      manufacturer's name. */
  lemma Graph1Selects(t: Tables, manufacturers: seq<string>, eshop: string, x: Point)
    requires manufacturers != [] && eshop != ""
    ensures x in Graph1(t, Some(manufacturers), Some(eshop)).value <==>
      exists i :: 0 <= i < |t.store| && Shown(t, t.store[i], eshop, manufacturers, true, x)
  {
    PointsMembers(t, [eshop], manufacturers, true, |t.store|, x);
    forall i | 0 <= i < |t.store|
      ensures PointOf(t, t.store[i], [eshop], manufacturers, true) == Some(x) <==> Shown(t, t.store[i], eshop, manufacturers, true, x)
    {
    }
  }

  /** The second graph shows exactly the observations of products of the
      chosen manufacturer and of a chosen eshop, each under its eshop's
      name. */
  lemma Graph2Selects(t: Tables, eshops: seq<string>, manufacturer: string, x: Point)
    requires eshops != [] && manufacturer != ""
    ensures x in Graph2(t, Some(eshops), Some(manufacturer)).value <==>
      exists i :: 0 <= i < |t.store| && Shown(t, t.store[i], manufacturer, eshops, false, x)
  {
    PointsMembers(t, eshops, [manufacturer], false, |t.store|, x);
    forall i | 0 <= i < |t.store|
      ensures PointOf(t, t.store[i], eshops, [manufacturer], false) == Some(x) <==> Shown(t, t.store[i], manufacturer, eshops, false, x)
    {
    }
  }

  /** Observation `s` is drawn as `x`: its product, manufacturer and eshop
      exist, the single choice (`one`) names its eshop in the first graph or
      its manufacturer in the second, the checklist (`many`) holds the other
      name, and `x` is its day, the checklist name and its price. */
  predicate Shown(t: Tables, s: Store, one: string, many: seq<string>, byManufacturer: bool, x: Point) {
    && IsId(s.productId, |t.products|)
    && Joins(t, t.products[s.productId - 1])
    && var e := t.eshops[t.products[s.productId - 1].eshopId - 1].name;
       var m := t.manufacturers[t.products[s.productId - 1].manufacturerId - 1].name;
       && (if byManufacturer then e == one && m in many else m == one && e in many)
       && x == Point(Day(s.date), if byManufacturer then m else e, s.price)
  }

  /** The number and the total price of the points of one (day, series)
      group. */
  function Count(points: seq<Point>, day: int, series: string): (c: nat)
    ensures c > 0 <==> exists i :: 0 <= i < |points| && points[i].day == day && points[i].series == series
  {
    if points == [] then 0
    else
      var last := points[|points| - 1];
      var rest := points[..|points| - 1];
      assert forall i :: 0 <= i < |rest| ==> rest[i] == points[i];
      Count(rest, day, series) + (if last.day == day && last.series == series then 1 else 0)
  }

  function Sum(points: seq<Point>, day: int, series: string): real {
    if points == [] then 0.0
    else
      var last := points[|points| - 1];
      Sum(points[..|points| - 1], day, series) + (if last.day == day && last.series == series then last.price else 0.0)
  }

  /** `df.groupby(["date", series]).price.mean()` for one group. */
  function Mean(points: seq<Point>, day: int, series: string): real
    requires Count(points, day, series) > 0
  {
    Sum(points, day, series) / Count(points, day, series) as real
  }

  /** `b` added up `n` times. */
  function Times(b: real, n: nat): real {
    if n == 0 then 0.0 else Times(b, n - 1) + b
  }

  lemma {:induction false} TimesIsProduct(b: real, n: nat)
    ensures Times(b, n) == b * n as real
  {
    if n > 0 {
      TimesIsProduct(b, n - 1);
      Distributes(b, n - 1);
    }
  }

  lemma Distributes(b: real, c: nat)
    ensures b * c as real + b == b * (c + 1) as real
  {
  }

  /** The total of a group lies between its count times a lower and an
      upper bound of its prices. */
  lemma {:induction false} SumWithin(points: seq<Point>, day: int, series: string, lo: real, hi: real)
    requires forall i :: 0 <= i < |points| && points[i].day == day && points[i].series == series ==>
      lo <= points[i].price <= hi
    ensures Times(lo, Count(points, day, series)) <= Sum(points, day, series) <= Times(hi, Count(points, day, series))
  {
    if points != [] {
      var rest := points[..|points| - 1];
      assert forall i :: 0 <= i < |rest| ==> rest[i] == points[i];
      SumWithin(rest, day, series, lo, hi);
    }
  }

  /** Dividing a total by a positive count keeps the bounds that count
      times a lower and an upper price give it. */
  lemma DivideBounds(total: real, n: nat, lo: real, hi: real)
    requires n > 0 && Times(lo, n) <= total <= Times(hi, n)
    ensures lo <= total / n as real <= hi
  {
    TimesIsProduct(lo, n);
    TimesIsProduct(hi, n);
    var c := n as real;
    var q := total / c;
    assert q * c == total;
    assert (q - lo) * c == total - lo * c;
    assert (hi - q) * c == hi * c - total;
  }

  /** The plotted average of a group lies between the smallest and the
      largest price in the group. */
  lemma MeanWithin(points: seq<Point>, day: int, series: string, lo: real, hi: real)
    requires Count(points, day, series) > 0
    requires forall i :: 0 <= i < |points| && points[i].day == day && points[i].series == series ==>
      lo <= points[i].price <= hi
    ensures lo <= Mean(points, day, series) <= hi
  {
    SumWithin(points, day, series, lo, hi);
    DivideBounds(Sum(points, day, series), Count(points, day, series), lo, hi);
  }
}
