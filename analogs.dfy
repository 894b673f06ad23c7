/** The analog curation page of app/dash/analogs.py: a grid of analog links,
    one row per link, which the user extends with blank rows, edits by
    choosing product display names, deletes rows from and saves back. The
    analog table is the `analogs` map of the abstract database; the grid is
    the table's `data` property. */
module Analogs {
  import opened Wrappers
  import opened Distinct
  import opened Text
  import opened Schema
  import opened Collect
  import opened Observations
  import opened Ordering

  /** A cell of the grid: the JSON values a Dash table holds. */
  datatype Cell = Str(s: string) | Num(x: real) | Null

  /** A grid row: its ID cell, where None is a blank ID, and the other cells
      by column id. */
  datatype GridRow = GridRow(id: Option<int>, cells: map<string, Cell>)

  const IdColumn: string := "ID"
  const Name1Column: string := "Product Name 1"
  const Price1Column: string := "Last Price 1"
  const Name2Column: string := "Product Name 2"
  const Price2Column: string := "Last Price 2"
  const DiffColumn: string := "Price Difference"

  /** The `data` property of the page's table, which the callbacks
      overwrite. */
  class Grid {
    var data: seq<GridRow>

    constructor (rows: seq<GridRow>)
      ensures data == rows
    {
      data := rows;
    }
  }

  // ------------------------------------------------------------ display names

  /** A product as the dropdowns and the grid show it: its eshop's name, a
      space, its own name. */
  function DisplayName(eshop: string, name: string): string {
    eshop + " " + name
  }

  function EshopOf(t: Tables, p: Product): Option<string> {
    if IsId(p.eshopId, |t.eshops|) then Some(t.eshops[p.eshopId - 1].name) else None
  }

  /** The display names of the joined products among `ps`, in order. */
  function Options(t: Tables, ps: seq<Product>): (r: seq<string>)
    ensures |r| <= |ps|
    ensures (forall i :: 0 <= i < |ps| ==> Joins(t, ps[i])) ==>
      && |r| == |ps|
      && forall i :: 0 <= i < |ps| ==> r[i] == DisplayName(t.eshops[ps[i].eshopId - 1].name, ps[i].name)
  {
    if ps == [] then []
    else
      var p := ps[|ps| - 1];
      Options(t, ps[..|ps| - 1]) + (if Joins(t, p) then [DisplayName(t.eshops[p.eshopId - 1].name, p.name)] else [])
  }

  /** get_products: the dropdown options of both product columns. */
  function ProductOptions(t: Tables): seq<string> {
    Options(t, t.products)
  }

  /** Choosing the option of a product and cutting the display name at its
      first space names that product again, provided its eshop's name has
      no space: the option resolves to the product's own id. */
  lemma OptionResolves(t: Tables, i: nat)
    requires Valid(t) && i < |t.products|
    requires ' ' !in t.eshops[t.products[i].eshopId - 1].name
    ensures |ProductOptions(t)| == |t.products|
    ensures AfterFirstSpace(ProductOptions(t)[i]) == Some(t.products[i].name)
    ensures IdOf(ProductNames(t.products), t.products[i].name) == Some(i + 1)
  {
    assert forall j :: 0 <= j < |t.products| ==> Joins(t, t.products[j]);
    var p := t.products[i];
    assert ProductOptions(t)[i] == DisplayName(t.eshops[p.eshopId - 1].name, p.name);
    AfterFirstSpaceOfJoin(t.eshops[p.eshopId - 1].name, p.name);
    assert ProductNames(t.products)[i] == p.name;
    IdOfUnique(ProductNames(t.products), i);
  }

  // ------------------------------------------------------------------ add_row

  predicate HasIds(rows: seq<GridRow>) {
    forall i :: 0 <= i < |rows| ==> rows[i].id.Some?
  }

  predicate IdsUnique(rows: seq<GridRow>) {
    forall i, j :: 0 <= i < j < |rows| ==> rows[i].id != rows[j].id
  }

  /** `max(row["ID"] for row in rows)`, 0 for no rows. */
  function MaxId(rows: seq<GridRow>): (m: int)
    requires HasIds(rows)
    ensures forall i :: 0 <= i < |rows| ==> rows[i].id.value <= m
    ensures rows != [] ==> exists i :: 0 <= i < |rows| && rows[i].id.value == m
    ensures rows == [] ==> m == 0
  {
    if rows == [] then 0
    else if |rows| == 1 then rows[0].id.value
    else
      var rest := MaxId(rows[1..]);
      assert forall i :: 1 <= i < |rows| ==> rows[i] == rows[1..][i - 1];
      if rows[0].id.value >= rest then rows[0].id.value else rest
  }

  /** The row add_row appends: every column blank, and the next id. */
  function BlankRow(columns: seq<string>, id: int): GridRow {
    GridRow(Some(id), map c | c in columns && c != IdColumn :: Str(""))
  }

  /** add_row. A click appends one blank row whose id is one more than the
      largest id in the grid; the grid's data is then the new row list. */
  method AddRow(grid: Grid, nClicks: int, rows: seq<GridRow>, columns: seq<string>) returns (out: seq<GridRow>)
    requires HasIds(rows)
    modifies grid
    ensures nClicks > 0 ==> out == rows + [BlankRow(columns, MaxId(rows) + 1)]
    ensures nClicks <= 0 ==> out == rows
    ensures grid.data == out
  {
    var maxId := MaxId(rows);
    out := rows;
    if nClicks > 0 {
      out := out + [BlankRow(columns, maxId + 1)];
    }
    grid.data := out;
  }

  /** The id of an added row is larger than every id in the grid, so a grid
      with distinct ids keeps them distinct. */
  lemma AddRowFresh(rows: seq<GridRow>, columns: seq<string>)
    requires HasIds(rows) && IdsUnique(rows)
    ensures var next := rows + [BlankRow(columns, MaxId(rows) + 1)];
      && HasIds(next) && IdsUnique(next)
      && MaxId(next) == MaxId(rows) + 1
      && next[..|rows|] == rows
  {
    var next := rows + [BlankRow(columns, MaxId(rows) + 1)];
    assert next[|rows|].id == Some(MaxId(rows) + 1);
    forall i, j | 0 <= i < j < |next| ensures next[i].id != next[j].id {
      if j == |rows| {
        assert next[i] == rows[i];
      }
    }
  }

  // --------------------------------------------------------- show_removed_rows

  /** The ids to delete: those of rows of the previous data that do not
      appear, identical, in the current data (so a row edited in place
      counts as removed); blank ids are dropped. */
  function RemovedIds(previous: seq<GridRow>, current: seq<GridRow>): (ids: seq<int>)
    ensures forall k :: k in ids <==>
      exists i :: 0 <= i < |previous| && previous[i] !in current && previous[i].id == Some(k)
  {
    if previous == [] then []
    else
      var rest := RemovedIds(previous[1..], current);
      assert forall i :: 1 <= i < |previous| ==> previous[i] == previous[1..][i - 1];
      var row := previous[0];
      if row !in current && row.id.Some? then [row.id.value] + rest else rest
  }

  /** `DELETE FROM analog WHERE analog.id IN (ids)`. */
  function DeleteLinks(analogs: map<int, Analog>, ids: seq<int>): map<int, Analog> {
    map k | k in analogs && k !in ids :: analogs[k]
  }

  /** show_removed_rows. Without previous data nothing happens; otherwise the
      analogs of the removed ids are deleted, every other analog is kept,
      and the grid's data becomes the current rows. An empty id list issues
      no statement. */
  method ShowRemovedRows(db: Database, grid: Grid, previous: Option<seq<GridRow>>, current: seq<GridRow>)
    modifies db, grid
    ensures previous.None? || RemovedIds(previous.value, current) == [] ==> unchanged(db, grid)
    ensures previous.Some? && RemovedIds(previous.value, current) != [] ==>
      var ids := RemovedIds(previous.value, current);
      && (forall k :: k in db.analogs <==> k in old(db.analogs) && k !in ids)
      && (forall k :: k in db.analogs ==> db.analogs[k] == old(db.analogs)[k])
      && db.Snapshot() == old(db.Snapshot()).(analogs := db.analogs)
      && grid.data == current
  {
    if previous.None? {
      return;
    }
    var ids := RemovedIds(previous.value, current);
    if ids != [] {
      db.analogs := DeleteLinks(db.analogs, ids);
      grid.data := current;
    }
  }

  // ------------------------------------------------------- update_analog_table

  /** Why a save fails: a name cell that is not text, a name without the
      eshop prefix, a blank id, no complete row (an empty VALUES list), or
      two resolved rows with the same id (an upsert that would touch a row
      twice). Each rolls the transaction back. */
  datatype SaveError = NotAName | NoEshopPrefix | BlankId | NoValues | IdTwice

  function NameCell(row: GridRow, column: string): Cell {
    if column in row.cells then row.cells[column] else Null
  }

  /** The rows the `empty` mask keeps: neither product name is the empty
      string. */
  predicate Complete(row: GridRow) {
    NameCell(row, Name1Column) != Str("") && NameCell(row, Name2Column) != Str("")
  }

  function CompleteRows(rows: seq<GridRow>): (r: seq<GridRow>)
    ensures forall i :: 0 <= i < |r| ==> Complete(r[i]) && r[i] in rows
    ensures forall i :: 0 <= i < |rows| && Complete(rows[i]) ==> rows[i] in r
    ensures (forall i :: 0 <= i < |rows| ==> Complete(rows[i])) ==> r == rows
  {
    if rows == [] then []
    else
      var last := rows[|rows| - 1];
      var rest := CompleteRows(rows[..|rows| - 1]);
      assert forall i :: 0 <= i < |rows| - 1 ==> rows[i] == rows[..|rows| - 1][i];
      assert rows == rows[..|rows| - 1] + [last];
      if Complete(last) then rest + [last] else rest
  }

  /** Dropping incomplete rows keeps the order: the complete rows of a
      concatenation are those of each part, one after the other. */
  lemma {:induction false} CompleteRowsAppend(a: seq<GridRow>, b: seq<GridRow>)
    ensures CompleteRows(a + b) == CompleteRows(a) + CompleteRows(b)
    decreases |b|
  {
    if b == [] {
      assert a + b == a;
    } else {
      var c, last := b[..|b| - 1], b[|b| - 1];
      var ab := a + b;
      assert ab[..|ab| - 1] == a + c;
      assert ab[|ab| - 1] == last;
      CompleteRowsAppend(a, c);
      CompleteRowsLast(ab);
      CompleteRowsLast(b);
    }
  }

  /** One step of `CompleteRows`: the last row is kept when it is complete. */
  lemma CompleteRowsLast(rows: seq<GridRow>)
    requires rows != []
    ensures CompleteRows(rows) == CompleteRows(rows[..|rows| - 1]) + (if Complete(rows[|rows| - 1]) then [rows[|rows| - 1]] else [])
  {
  }

  /** A single row is kept exactly when it is complete. */
  lemma CompleteRowsOne(row: GridRow)
    ensures CompleteRows([row]) == (if Complete(row) then [row] else [])
  {
    assert [row][..0] == [];
  }


  /** `cell.split(' ', 1)[1]`: the product name behind a display name. */
  function ProductNameOf(c: Cell): (r: Result<string, SaveError>)
    ensures r.Ok? <==> c.Str? && ' ' in c.s
  {
    match c
    case Str(s) => (match AfterFirstSpace(s) case None => Err(NoEshopPrefix) case Some(n) => Ok(n))
    case _ => Err(NotAName)
  }

  /** One `(id, product name 1, product name 2)` value of the upsert. */
  datatype Request = Request(id: int, name1: string, name2: string)

  function RequestOf(row: GridRow): (r: Result<Request, SaveError>)
    ensures r.Ok? <==> ProductNameOf(NameCell(row, Name1Column)).Ok? && ProductNameOf(NameCell(row, Name2Column)).Ok?
                       && row.id.Some?
  {
    match ProductNameOf(NameCell(row, Name1Column))
    case Err(e) => Err(e)
    case Ok(n1) =>
      match ProductNameOf(NameCell(row, Name2Column))
      case Err(e) => Err(e)
      case Ok(n2) => if row.id.None? then Err(BlankId) else Ok(Request(row.id.value, n1, n2))
  }

  datatype Link = Link(id: int, product1: int, product2: int)

  /** The subqueries `SELECT id FROM product WHERE name = ...` and the WHERE
      clause that drops a request with a NULL product id. */
  function ResolvedLink(names: seq<string>, q: Request): (r: Option<Link>)
    ensures r.Some? <==> q.name1 in names && q.name2 in names
    ensures r.Some? ==> && r.value.id == q.id
                        && IsId(r.value.product1, |names|) && names[r.value.product1 - 1] == q.name1
                        && IsId(r.value.product2, |names|) && names[r.value.product2 - 1] == q.name2
  {
    match (IdOf(names, q.name1), IdOf(names, q.name2))
    case (Some(p1), Some(p2)) => Some(Link(q.id, p1, p2))
    case _ => None
  }

  /** The links the upsert proposes, in request order. */
  function Links(names: seq<string>, requests: seq<Request>): seq<Link> {
    if requests == [] then []
    else
      (match ResolvedLink(names, requests[0]) case Some(l) => [l] case None => []) + Links(names, requests[1..])
  }

  function LinkIds(links: seq<Link>): (r: seq<int>)
    ensures |r| == |links| && forall i :: 0 <= i < |links| ==> r[i] == links[i].id
  {
    if links == [] then [] else [links[0].id] + LinkIds(links[1..])
  }

  /** `INSERT ... ON CONFLICT (id) DO UPDATE`: each link inserts its id or
      replaces both endpoints of the analog with that id. */
  function Upsert(analogs: map<int, Analog>, links: seq<Link>): map<int, Analog>
    decreases |links|
  {
    if links == [] then analogs
    else Upsert(analogs[links[0].id := Analog(Some(links[0].product1), Some(links[0].product2))], links[1..])
  }

  /** The analog table after saving the grid rows, or why the save fails. */
  function SaveGrid(t: Tables, rows: seq<GridRow>): Result<map<int, Analog>, SaveError> {
    match MapAll(RequestOf, CompleteRows(rows))
    case Err(e) => Err(e)
    case Ok(requests) =>
      if requests == [] then Err(NoValues)
      else
        var links := Links(ProductNames(t.products), requests);
        if !NoDuplicates(LinkIds(links)) then Err(IdTwice)
        else Ok(Upsert(t.analogs, links))
  }

  /** The grid's data after a save: the refreshed view. */
  datatype TableUpdate = NoUpdate | SaveFailed(error: SaveError) | Refreshed(rows: seq<GridRow>)

  /** update_analog_table. Without a click nothing happens. Otherwise the
      complete rows are upserted in one transaction; a failure leaves the
      tables and the grid as they were, and a success replaces only the
      analog table and reloads the grid from get_analogs as written. */
  method UpdateAnalogTable(db: Database, grid: Grid, nClicks: Option<int>, rows: seq<GridRow>) returns (out: TableUpdate)
    modifies db, grid
    ensures nClicks.None? || nClicks.value < 1 ==> out == NoUpdate && unchanged(db, grid)
    ensures nClicks.Some? && nClicks.value >= 1 && SaveGrid(old(db.Snapshot()), rows).Err? ==>
      out == SaveFailed(SaveGrid(old(db.Snapshot()), rows).error) && unchanged(db, grid)
    ensures nClicks.Some? && nClicks.value >= 1 && SaveGrid(old(db.Snapshot()), rows).Ok? ==>
      && db.Snapshot() == old(db.Snapshot()).(analogs := SaveGrid(old(db.Snapshot()), rows).value)
      && grid.data == AnalogGrid(db.Snapshot())
      && out == Refreshed(grid.data)
  {
    if nClicks.None? || nClicks.value < 1 {
      return NoUpdate;
    }
    var saved := SaveGrid(db.Snapshot(), rows);
    if saved.Err? {
      return SaveFailed(saved.error);
    }
    db.analogs := saved.value;
    grid.data := AnalogGrid(db.Snapshot());
    out := Refreshed(grid.data);
  }

  // --------------------------------------------------------------- get_analogs

  /** A row of the view: display names, the prices the joins pick, and
      their difference rounded to cents. */
  datatype AnalogRow = AnalogRow(id: int, name1: string, price1: Option<real>, name2: string, price2: Option<real>,
                                 diff: Option<real>)

  function Difference(p1: Option<real>, p2: Option<real>): Option<real> {
    if p1.Some? && p2.Some? then Some(Round2(p1.value - p2.value)) else None
  }

  /** `name` is how product `p` is displayed: the product and its eshop
      exist, and the name is the eshop's name, a space and the product's
      name. */
  predicate Shows(t: Tables, p: int, name: string) {
    && IsId(p, |t.products|) && IsId(t.products[p - 1].eshopId, |t.eshops|)
    && name == DisplayName(t.eshops[t.products[p - 1].eshopId - 1].name, t.products[p - 1].name)
  }

  /** The joined row of one analog, or None when an inner join drops it.
      `latestFirst` says whether product 1's observation is picked by the
      latest date or by the earliest; product 2's is always the latest. */
  function JoinAnalog(t: Tables, id: int, latestFirst: bool): (r: Option<AnalogRow>)
    requires id in t.analogs
    ensures r.Some? ==>
      && r.value.id == id
      && t.analogs[id].product1.Some? && t.analogs[id].product2.Some?
      && Shows(t, t.analogs[id].product1.value, r.value.name1)
      && Shows(t, t.analogs[id].product2.value, r.value.name2)
      && r.value.price1 == PickedPrice(t.store, t.analogs[id].product1.value, latestFirst)
      && r.value.price2 == PickedPrice(t.store, t.analogs[id].product2.value, true)
      && r.value.diff == Difference(r.value.price1, r.value.price2)
    ensures Valid(t) ==> (r.Some? <==> t.analogs[id].product1.Some? && t.analogs[id].product2.Some?)
  {
    var a := t.analogs[id];
    if a.product1.None? || a.product2.None? then None
    else
      var p1, p2 := a.product1.value, a.product2.value;
      if !IsId(p1, |t.products|) || !IsId(p2, |t.products|) then None
      else
        var e1, e2 := EshopOf(t, t.products[p1 - 1]), EshopOf(t, t.products[p2 - 1]);
        if e1.None? || e2.None? then None
        else
          var price1, price2 := PickedPrice(t.store, p1, latestFirst), PickedPrice(t.store, p2, true);
          Some(AnalogRow(id, DisplayName(e1.value, t.products[p1 - 1].name), price1,
                         DisplayName(e2.value, t.products[p2 - 1].name), price2, Difference(price1, price2)))
  }

  /** The rows `join` gives for `ids`, in order, skipping the ids it drops. */
  function RowsOf(ids: seq<int>, join: int -> Option<AnalogRow>): seq<AnalogRow> {
    if ids == [] then []
    else (match join(ids[0]) case None => [] case Some(row) => [row]) + RowsOf(ids[1..], join)
  }

  /** The view's join for every id, with ids absent from the table
      dropped. */
  function Joiner(t: Tables, latestFirst: bool): int -> Option<AnalogRow> {
    k => if k in t.analogs then JoinAnalog(t, k, latestFirst) else None
  }

  /** The view: one row per analog whose two products join, ordered by
      id, with product 1's observation picked by the latest date or by the
      earliest. */
  function View(t: Tables, latestFirst: bool): seq<AnalogRow> {
    RowsOf(SortedKeys(t.analogs.Keys), Joiner(t, latestFirst))
  }

  /** get_analogs as written: `ORDER BY analog.id, store_1.date,
      store_2.date DESC` makes "Last Price 1" the earliest observed price of
      product 1. */
  function AnalogRowsAsWritten(t: Tables): seq<AnalogRow> {
    View(t, false)
  }

  /** get_analogs with product 1's observation ordered by date descending,
      like product 2's: both "Last Price" columns show the latest price. */
  function AnalogRows(t: Tables): seq<AnalogRow> {
    View(t, true)
  }

  function PriceCell(p: Option<real>): Cell {
    if p.Some? then Num(p.value) else Null
  }

  function AsGridRow(r: AnalogRow): GridRow {
    GridRow(Some(r.id), map[Name1Column := Str(r.name1), Price1Column := PriceCell(r.price1),
                            Name2Column := Str(r.name2), Price2Column := PriceCell(r.price2),
                            DiffColumn := PriceCell(r.diff)])
  }

  function GridRows(rows: seq<AnalogRow>): (g: seq<GridRow>)
    ensures |g| == |rows| && forall i :: 0 <= i < |rows| ==> g[i] == AsGridRow(rows[i])
  {
    if rows == [] then [] else [AsGridRow(rows[0])] + GridRows(rows[1..])
  }

  /** The records of a view. */
  function ViewGrid(t: Tables, latestFirst: bool): seq<GridRow> {
    GridRows(View(t, latestFirst))
  }

  /** `get_analogs().to_dict("records")`, with the query as written. */
  function AnalogGrid(t: Tables): seq<GridRow> {
    ViewGrid(t, false)
  }

  // ---------------------------------------------------------------- properties

  /** Each row is the join of one of the ids. */
  lemma {:induction false} RowsOfSound(ids: seq<int>, join: int -> Option<AnalogRow>)
    requires forall k :: join(k).Some? ==> join(k).value.id == k
    ensures forall i :: 0 <= i < |RowsOf(ids, join)| ==>
      RowsOf(ids, join)[i].id in ids && join(RowsOf(ids, join)[i].id) == Some(RowsOf(ids, join)[i])
  {
    if ids != [] {
      RowsOfSound(ids[1..], join);
      var tail := RowsOf(ids[1..], join);
      var r := RowsOf(ids, join);
      assert forall k :: k in ids[1..] ==> k in ids;
      if join(ids[0]).Some? {
        assert r == [join(ids[0]).value] + tail;
        forall i | 0 <= i < |r| ensures r[i].id in ids && join(r[i].id) == Some(r[i]) {
          if i == 0 {
            assert r[0].id == ids[0];
          } else {
            assert r[i] == tail[i - 1];
          }
        }
      } else {
        assert r == tail;
      }
    }
  }

  /** Some row has id `k`. */
  predicate HasRow(rows: seq<AnalogRow>, k: int) {
    exists i :: 0 <= i < |rows| && rows[i].id == k
  }

  /** Every id the join keeps has its row. */
  lemma {:induction false} RowsOfComplete(ids: seq<int>, join: int -> Option<AnalogRow>)
    requires forall k :: join(k).Some? ==> join(k).value.id == k
    ensures forall k :: k in ids && join(k).Some? ==> HasRow(RowsOf(ids, join), k)
  {
    if ids != [] {
      RowsOfComplete(ids[1..], join);
      var tail := RowsOf(ids[1..], join);
      var r := RowsOf(ids, join);
      forall k | k in ids && join(k).Some? ensures HasRow(r, k) {
        if k != ids[0] {
          var j :| 0 <= j < |ids| && ids[j] == k;
          assert ids[1..][j - 1] == k;
        }
        if join(ids[0]).Some? {
          assert r == [join(ids[0]).value] + tail;
          if k == ids[0] {
            assert r[0].id == k;
          } else {
            var i :| 0 <= i < |tail| && tail[i].id == k;
            assert r[i + 1].id == k;
          }
        } else {
          assert r == tail;
        }
      }
    }
  }

  /** Ascending ids give rows in ascending id order. */
  lemma {:induction false} RowsOfSorted(ids: seq<int>, join: int -> Option<AnalogRow>)
    requires forall k :: join(k).Some? ==> join(k).value.id == k
    requires forall i, j :: 0 <= i < j < |ids| ==> ids[i] < ids[j]
    ensures forall i, j :: 0 <= i < j < |RowsOf(ids, join)| ==> RowsOf(ids, join)[i].id < RowsOf(ids, join)[j].id
  {
    if ids != [] {
      RowsOfSorted(ids[1..], join);
      RowsOfSound(ids[1..], join);
      var tail := RowsOf(ids[1..], join);
      var r := RowsOf(ids, join);
      if join(ids[0]).Some? {
        assert r == [join(ids[0]).value] + tail;
        assert forall i :: 0 <= i < |tail| ==> ids[0] < tail[i].id;
      }
    }
  }

  /** The view's join keeps each row's id. */
  lemma JoinerKeepsIds(t: Tables, latestFirst: bool)
    ensures forall k :: Joiner(t, latestFirst)(k).Some? ==> Joiner(t, latestFirst)(k).value.id == k
  {
  }

  /** In a valid database the view has exactly one row per analog with two
      endpoints, in ascending id order. */
  lemma AnalogRowsOnePerLink(t: Tables, latestFirst: bool)
    requires Valid(t)
    ensures forall i, j :: 0 <= i < j < |View(t, latestFirst)| ==> View(t, latestFirst)[i].id < View(t, latestFirst)[j].id
    ensures forall k :: HasRow(View(t, latestFirst), k) <==>
                        k in t.analogs && t.analogs[k].product1.Some? && t.analogs[k].product2.Some?
  {
    var ids := SortedKeys(t.analogs.Keys);
    var join := Joiner(t, latestFirst);
    JoinerKeepsIds(t, latestFirst);
    RowsOfSound(ids, join);
    RowsOfComplete(ids, join);
    RowsOfSorted(ids, join);
    forall k | HasRow(View(t, latestFirst), k)
      ensures k in t.analogs && t.analogs[k].product1.Some? && t.analogs[k].product2.Some?
    {
      var i :| 0 <= i < |View(t, latestFirst)| && View(t, latestFirst)[i].id == k;
      assert join(k).Some?;
    }
  }

  /** The view's prices are those of the latest observations: "Last Price
      1" and "Last Price 2" are the prices of observations of the two
      products that no other observation of them postdates, NULL exactly
      for a product never observed, and the difference is theirs rounded
      to cents. */
  lemma AnalogRowsShowLatest(t: Tables, i: nat)
    requires i < |AnalogRows(t)|
    ensures var row := AnalogRows(t)[i];
      && row.id in t.analogs
      && var a := t.analogs[row.id];
      && a.product1.Some? && a.product2.Some?
      && Shows(t, a.product1.value, row.name1) && Shows(t, a.product2.value, row.name2)
      && ExtremalPrice(t.store, a.product1.value, row.price1, true)
      && ExtremalPrice(t.store, a.product2.value, row.price2, true)
      && (row.diff.Some? <==> row.price1.Some? && row.price2.Some?)
      && (row.diff.Some? ==> -0.005 <= row.diff.value - (row.price1.value - row.price2.value) <= 0.005)
  {
    JoinerKeepsIds(t, true);
    RowsOfSound(SortedKeys(t.analogs.Keys), Joiner(t, true));
    var row := AnalogRows(t)[i];
    var a := t.analogs[row.id];
    PickedPriceExtremal(t.store, a.product1.value, true);
    PickedPriceExtremal(t.store, a.product2.value, true);
  }

  /** As written, "Last Price 1" is the price of an observation of product 1
      that no other observation of it predates. */
  lemma AnalogRowsAsWrittenShowEarliest(t: Tables, i: nat)
    requires i < |AnalogRowsAsWritten(t)|
    ensures var row := AnalogRowsAsWritten(t)[i];
      && row.id in t.analogs
      && var a := t.analogs[row.id];
      && a.product1.Some?
      && ExtremalPrice(t.store, a.product1.value, row.price1, false)
  {
    JoinerKeepsIds(t, false);
    RowsOfSound(SortedKeys(t.analogs.Keys), Joiner(t, false));
    var row := AnalogRowsAsWritten(t)[i];
    PickedPriceExtremal(t.store, t.analogs[row.id].product1.value, false);
  }

  /** Two products, the first observed at 10.0 and later at 12.0, linked by
      analog 7. */
  function StaleExample(): Tables {
    Tables([Manufacturer("Vichy")], [Eshop("Benu"), Eshop("Herba")],
           [Product("a", "u1", 1, 1), Product("b", "u2", 1, 2)],
           [Store(1, 10.0, 100), Store(1, 12.0, 200), Store(2, 11.0, 100)],
           map[7 := Analog(Some(1), Some(2))])
  }

  /** As written, the grid shows 10.0 as the "Last Price 1" of the example,
      while its latest price is 12.0. */
  lemma AsWrittenShowsStalePrice()
    ensures |AnalogRowsAsWritten(StaleExample())| == 1 && AnalogRowsAsWritten(StaleExample())[0].price1 == Some(10.0)
    ensures |AnalogRows(StaleExample())| == 1 && AnalogRows(StaleExample())[0].price1 == Some(12.0)
  {
    var t := StaleExample();
    assert t.analogs.Keys == {7};
    assert SetMin({7}) == 7;
    assert {7} - {7} == {};
    assert SortedKeys(t.analogs.Keys) == [7];
    assert Pick(t.store[2..], 1, false) == None && Pick(t.store[2..], 1, true) == None;
    assert Pick(t.store[1..], 1, false) == Some(Store(1, 12.0, 200));
    assert Pick(t.store[1..], 1, true) == Some(Store(1, 12.0, 200));
    assert Pick(t.store, 1, false) == Some(Store(1, 10.0, 100));
    assert Pick(t.store, 1, true) == Some(Store(1, 12.0, 200));
    assert JoinAnalog(t, 7, false).value.price1 == Some(10.0);
    assert JoinAnalog(t, 7, true).value.price1 == Some(12.0);
  }

  /** Saving without filling in an added row changes nothing: a blank row is
      never complete. */
  lemma BlankRowIgnored(t: Tables, rows: seq<GridRow>, columns: seq<string>, id: int)
    requires Name1Column in columns
    ensures SaveGrid(t, rows + [BlankRow(columns, id)]) == SaveGrid(t, rows)
  {
    var rows' := rows + [BlankRow(columns, id)];
    assert rows'[..|rows'| - 1] == rows;
    assert !Complete(BlankRow(columns, id));
  }

  /** Every proposed link joins two stored products and comes from a
      request. */
  lemma {:induction false} LinksSound(names: seq<string>, requests: seq<Request>)
    ensures forall i :: 0 <= i < |Links(names, requests)| ==>
      && IsId(Links(names, requests)[i].product1, |names|) && IsId(Links(names, requests)[i].product2, |names|)
      && exists j :: 0 <= j < |requests| && ResolvedLink(names, requests[j]) == Some(Links(names, requests)[i])
  {
    if requests != [] {
      var rest := requests[1..];
      LinksSound(names, rest);
      var r := Links(names, requests);
      var tail := Links(names, rest);
      var head := ResolvedLink(names, requests[0]);
      forall i | 0 <= i < |r|
        ensures exists j :: 0 <= j < |requests| && ResolvedLink(names, requests[j]) == Some(r[i])
      {
        var k := if head.None? then i else i - 1;
        if head.Some? && i == 0 {
          assert r[0] == head.value;
        } else {
          assert r[i] == tail[k];
          var j :| 0 <= j < |rest| && ResolvedLink(names, rest[j]) == Some(tail[k]);
          assert requests[j + 1] == rest[j];
        }
      }
    }
  }

  /** Every request whose two names name products proposes its link. */
  lemma {:induction false} LinksComplete(names: seq<string>, requests: seq<Request>)
    ensures forall j :: 0 <= j < |requests| && ResolvedLink(names, requests[j]).Some? ==>
      ResolvedLink(names, requests[j]).value in Links(names, requests)
  {
    if requests != [] {
      var rest := requests[1..];
      LinksComplete(names, rest);
      assert forall j :: 1 <= j < |requests| ==> requests[j] == rest[j - 1];
    }
  }

  /** When every request resolves, the links follow the requests one for
      one. */
  lemma {:induction false} LinksTotal(names: seq<string>, requests: seq<Request>)
    requires forall j :: 0 <= j < |requests| ==> ResolvedLink(names, requests[j]).Some?
    ensures |Links(names, requests)| == |requests|
    ensures forall i :: 0 <= i < |requests| ==> Some(Links(names, requests)[i]) == ResolvedLink(names, requests[i])
  {
    if requests != [] {
      var rest := requests[1..];
      assert ResolvedLink(names, requests[0]).Some?;
      LinksTotal(names, rest);
      var r, tail := Links(names, requests), Links(names, rest);
      assert r == [ResolvedLink(names, requests[0]).value] + tail;
      forall i | 0 <= i < |requests| ensures Some(r[i]) == ResolvedLink(names, requests[i]) {
        if i > 0 {
          assert r[i] == tail[i - 1] && requests[i] == rest[i - 1];
        }
      }
    }
  }

  /** A successful save sets each resolved row's analog to its two products
      and keeps every analog no resolved row names. */
  lemma {:induction false} UpsertSpec(analogs: map<int, Analog>, links: seq<Link>)
    requires NoDuplicates(LinkIds(links))
    ensures var r := Upsert(analogs, links);
      && (forall k :: k in r <==> k in analogs || k in LinkIds(links))
      && (forall i :: 0 <= i < |links| ==> r[links[i].id] == Analog(Some(links[i].product1), Some(links[i].product2)))
      && (forall k :: k in analogs && k !in LinkIds(links) ==> r[k] == analogs[k])
    decreases |links|
  {
    if links != [] {
      var l := links[0];
      var analogs' := analogs[l.id := Analog(Some(l.product1), Some(l.product2))];
      var rest := links[1..];
      assert LinkIds(links) == [l.id] + LinkIds(rest);
      assert NoDuplicates(LinkIds(rest)) by {
        assert forall i :: 0 <= i < |rest| ==> LinkIds(rest)[i] == LinkIds(links)[i + 1];
      }
      UpsertSpec(analogs', rest);
      assert l.id !in LinkIds(rest) by {
        assert forall i :: 0 <= i < |rest| ==> LinkIds(rest)[i] == LinkIds(links)[i + 1];
      }
      forall i | 1 <= i < |links| ensures links[i] == rest[i - 1] { }
    }
  }

  /** Every endpoint an upsert writes that is a stored product keeps the
      analog table's foreign keys valid. */
  lemma {:induction false} UpsertKeepsEndpoints(analogs: map<int, Analog>, links: seq<Link>, n: nat)
    requires forall k :: k in analogs ==> ValidEndpoint(analogs[k].product1, n) && ValidEndpoint(analogs[k].product2, n)
    requires forall i :: 0 <= i < |links| ==> IsId(links[i].product1, n) && IsId(links[i].product2, n)
    ensures forall k :: k in Upsert(analogs, links) ==>
      ValidEndpoint(Upsert(analogs, links)[k].product1, n) && ValidEndpoint(Upsert(analogs, links)[k].product2, n)
    decreases |links|
  {
    if links != [] {
      var l := links[0];
      var analogs' := analogs[l.id := Analog(Some(l.product1), Some(l.product2))];
      assert forall k :: k in analogs' ==> ValidEndpoint(analogs'[k].product1, n) && ValidEndpoint(analogs'[k].product2, n);
      assert forall i :: 0 <= i < |links[1..]| ==> links[1..][i] == links[i + 1];
      UpsertKeepsEndpoints(analogs', links[1..], n);
    }
  }

  /** A save keeps the database valid: every endpoint it writes is a stored
      product. */
  lemma SaveGridKeepsValid(t: Tables, rows: seq<GridRow>)
    requires Valid(t) && SaveGrid(t, rows).Ok?
    ensures Valid(t.(analogs := SaveGrid(t, rows).value))
  {
    var requests := MapAll(RequestOf, CompleteRows(rows)).value;
    var links := Links(ProductNames(t.products), requests);
    LinksSound(ProductNames(t.products), requests);
    UpsertKeepsEndpoints(t.analogs, links, |t.products|);
    assert SaveGrid(t, rows).value == Upsert(t.analogs, links);
  }

  /** The link a view row stands for. */
  function ViewLink(t: Tables, row: AnalogRow): Link
    requires row.id in t.analogs && t.analogs[row.id].product1.Some? && t.analogs[row.id].product2.Some?
  {
    Link(row.id, t.analogs[row.id].product1.value, t.analogs[row.id].product2.value)
  }

  /** The two name cells of a view row hold its two display names. */
  lemma AsGridRowNames(row: AnalogRow)
    ensures NameCell(AsGridRow(row), Name1Column) == Str(row.name1)
    ensures NameCell(AsGridRow(row), Name2Column) == Str(row.name2)
  {
    assert Name1Column != Price1Column && Name1Column != Name2Column && Name1Column != Price2Column && Name1Column != DiffColumn by {
      assert Name1Column[13] == '1' && Name2Column[13] == '2';
      assert |Name1Column| != |Price1Column| && |Name1Column| != |Price2Column| && |Name1Column| != |DiffColumn|;
    }
    assert Name2Column != Price2Column && Name2Column != DiffColumn by {
      assert |Name2Column| != |Price2Column| && |Name2Column| != |DiffColumn|;
    }
  }

  /** A row showing "eshop name" for two named products, saved as it stands,
      asks for exactly the link between those products. */
  lemma ViewRowRequest(names: seq<string>, row: AnalogRow, link: Link, e1: string, e2: string)
    requires NoDuplicates(names)
    requires row.id == link.id && IsId(link.product1, |names|) && IsId(link.product2, |names|)
    requires ' ' !in e1 && ' ' !in e2
    requires row.name1 == DisplayName(e1, names[link.product1 - 1])
    requires row.name2 == DisplayName(e2, names[link.product2 - 1])
    ensures Complete(AsGridRow(row))
    ensures RequestOf(AsGridRow(row)) == Ok(Request(row.id, names[link.product1 - 1], names[link.product2 - 1]))
    ensures ResolvedLink(names, RequestOf(AsGridRow(row)).value) == Some(link)
  {
    AsGridRowNames(row);
    GridRowRequest(names, AsGridRow(row), link, e1, e2);
  }

  /** A grid row whose name cells hold "eshop name" for two named products
      asks for exactly the link between those products. */
  lemma GridRowRequest(names: seq<string>, g: GridRow, link: Link, e1: string, e2: string)
    requires NoDuplicates(names)
    requires g.id == Some(link.id) && IsId(link.product1, |names|) && IsId(link.product2, |names|)
    requires ' ' !in e1 && ' ' !in e2
    requires NameCell(g, Name1Column) == Str(DisplayName(e1, names[link.product1 - 1]))
    requires NameCell(g, Name2Column) == Str(DisplayName(e2, names[link.product2 - 1]))
    ensures Complete(g)
    ensures RequestOf(g) == Ok(Request(link.id, names[link.product1 - 1], names[link.product2 - 1]))
    ensures ResolvedLink(names, RequestOf(g).value) == Some(link)
  {
    var n1, n2 := names[link.product1 - 1], names[link.product2 - 1];
    NameRequest(names, e1, link.product1 - 1, NameCell(g, Name1Column));
    NameRequest(names, e2, link.product2 - 1, NameCell(g, Name2Column));
    assert RequestOf(g) == Ok(Request(link.id, n1, n2));
    NamesResolve(names, link);
  }

  /** In a unique name column, the names of two products resolve to those
      products. */
  lemma NamesResolve(names: seq<string>, link: Link)
    requires NoDuplicates(names) && IsId(link.product1, |names|) && IsId(link.product2, |names|)
    ensures ResolvedLink(names, Request(link.id, names[link.product1 - 1], names[link.product2 - 1])) == Some(link)
  {
    IdOfUnique(names, link.product1 - 1);
    IdOfUnique(names, link.product2 - 1);
  }

  /** One name cell of the view, read back: the product name after the
      eshop prefix, which names the product it was shown for. */
  lemma NameRequest(names: seq<string>, e: string, j: nat, c: Cell)
    requires ' ' !in e && j < |names|
    requires c == Str(DisplayName(e, names[j]))
    ensures c != Str("")
    ensures ProductNameOf(c) == Ok(names[j])
  {
    AfterFirstSpaceOfJoin(e, names[j]);
  }

  /** A row of the view, saved as it stands, asks for its own link. */
  lemma ShownRowRequest(t: Tables, row: AnalogRow)
    requires Valid(t)
    requires forall e :: 0 <= e < |t.eshops| ==> ' ' !in t.eshops[e].name
    requires row.id in t.analogs && t.analogs[row.id].product1.Some? && t.analogs[row.id].product2.Some?
    requires Shows(t, t.analogs[row.id].product1.value, row.name1)
    requires Shows(t, t.analogs[row.id].product2.value, row.name2)
    ensures Complete(AsGridRow(row)) && RequestOf(AsGridRow(row)).Ok?
    ensures ResolvedLink(ProductNames(t.products), RequestOf(AsGridRow(row)).value) == Some(ViewLink(t, row))
  {
    var link := ViewLink(t, row);
    var names := ProductNames(t.products);
    ViewRowRequest(names, row, link,
                   t.eshops[t.products[link.product1 - 1].eshopId - 1].name,
                   t.eshops[t.products[link.product2 - 1].eshopId - 1].name);
  }

  /** Every row of the view is complete and asks for its own link. */
  lemma ViewRequests(t: Tables, latestFirst: bool)
    requires Valid(t)
    requires forall e :: 0 <= e < |t.eshops| ==> ' ' !in t.eshops[e].name
    ensures CompleteRows(ViewGrid(t, latestFirst)) == ViewGrid(t, latestFirst)
    ensures MapAll(RequestOf, ViewGrid(t, latestFirst)).Ok?
    ensures |MapAll(RequestOf, ViewGrid(t, latestFirst)).value| == |View(t, latestFirst)|
    ensures forall i :: 0 <= i < |View(t, latestFirst)| ==>
      && View(t, latestFirst)[i].id in t.analogs
      && t.analogs[View(t, latestFirst)[i].id].product1.Some? && t.analogs[View(t, latestFirst)[i].id].product2.Some?
      && ResolvedLink(ProductNames(t.products), MapAll(RequestOf, ViewGrid(t, latestFirst)).value[i])
         == Some(ViewLink(t, View(t, latestFirst)[i]))
  {
    var rows := View(t, latestFirst);
    var grid := ViewGrid(t, latestFirst);
    JoinerKeepsIds(t, latestFirst);
    RowsOfSound(SortedKeys(t.analogs.Keys), Joiner(t, latestFirst));
    forall i | 0 <= i < |rows|
      ensures && rows[i].id in t.analogs
              && t.analogs[rows[i].id].product1.Some? && t.analogs[rows[i].id].product2.Some?
              && Complete(grid[i]) && RequestOf(grid[i]).Ok?
              && ResolvedLink(ProductNames(t.products), RequestOf(grid[i]).value) == Some(ViewLink(t, rows[i]))
    {
      ShownRowRequest(t, rows[i]);
    }
    MapAllSpec(RequestOf, grid);
  }

  /** In a valid database whose eshop names have no space, saving the grid
      exactly as the view shows it changes nothing (or fails for want of
      rows, when there are none); this holds for the view as written, which
      the grid is reloaded from, and for the corrected view alike. */
  lemma ResaveViewIsNoOp(t: Tables, latestFirst: bool)
    requires Valid(t)
    requires forall e :: 0 <= e < |t.eshops| ==> ' ' !in t.eshops[e].name
    ensures ViewGrid(t, latestFirst) != [] ==> SaveGrid(t, ViewGrid(t, latestFirst)) == Ok(t.analogs)
    ensures ViewGrid(t, latestFirst) == [] ==> SaveGrid(t, ViewGrid(t, latestFirst)) == Err(NoValues)
  {
    var grid := ViewGrid(t, latestFirst);
    ViewRequests(t, latestFirst);
    var requests := MapAll(RequestOf, grid).value;
    assert MapAll(RequestOf, CompleteRows(grid)) == Ok(requests);
    AnalogRowsOnePerLink(t, latestFirst);
    ViewLinksAgree(t, View(t, latestFirst), requests);
    if grid != [] {
      assert requests != [];
      UpsertAgreeing(t.analogs, Links(ProductNames(t.products), requests));
    }
  }

  /** The links that rows of ascending ids resolve to, each to the link
      it shows, have distinct ids, and every analog already holds the
      endpoints its link writes. */
  lemma ViewLinksAgree(t: Tables, rows: seq<AnalogRow>, requests: seq<Request>)
    requires |requests| == |rows|
    requires forall i, j :: 0 <= i < j < |rows| ==> rows[i].id < rows[j].id
    requires forall i :: 0 <= i < |rows| ==>
      && rows[i].id in t.analogs
      && t.analogs[rows[i].id].product1.Some? && t.analogs[rows[i].id].product2.Some?
      && ResolvedLink(ProductNames(t.products), requests[i]) == Some(ViewLink(t, rows[i]))
    ensures NoDuplicates(LinkIds(Links(ProductNames(t.products), requests)))
    ensures forall i :: 0 <= i < |Links(ProductNames(t.products), requests)| ==>
      var l := Links(ProductNames(t.products), requests)[i];
      l.id in t.analogs && t.analogs[l.id] == Analog(Some(l.product1), Some(l.product2))
  {
    var names := ProductNames(t.products);
    LinksTotal(names, requests);
    var links := Links(names, requests);
    assert forall i :: 0 <= i < |links| ==> links[i] == ViewLink(t, rows[i]);
    forall i, j | 0 <= i < j < |links| ensures LinkIds(links)[i] != LinkIds(links)[j] {
      assert links[i].id == rows[i].id && links[j].id == rows[j].id;
    }
  }

  /** Upserting links that every analog already agrees with changes
      nothing. */
  lemma {:induction false} UpsertAgreeing(analogs: map<int, Analog>, links: seq<Link>)
    requires forall i :: 0 <= i < |links| ==>
      links[i].id in analogs && analogs[links[i].id] == Analog(Some(links[i].product1), Some(links[i].product2))
    ensures Upsert(analogs, links) == analogs
  {
    if links != [] {
      var l := links[0];
      assert analogs[l.id := Analog(Some(l.product1), Some(l.product2))] == analogs;
      assert forall i :: 0 <= i < |links[1..]| ==> links[1..][i] == links[i + 1];
      UpsertAgreeing(analogs, links[1..]);
    }
  }
}
