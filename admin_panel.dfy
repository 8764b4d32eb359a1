/**
 * frontend/src/components/AdminPanel.jsx: the stock-movement report. It
 * filters and sorts the fetched movements whenever a control changes,
 * totals them, and mirrors deletes and edits into its local list.
 */
module AdminPanel {
  import opened Wrappers
  import opened Models
  import Text
  import Lists
  import StockMovementController
  import Json

  /** A movement as the panel receives it, with the product populated: its name is missing once the product is gone. */
  datatype Row = Row(movement: StockMovement, productName: Option<string>)

  /** The stored movements behind a list of rows. */
  function Movements(rows: seq<Row>): (ms: seq<StockMovement>)
    ensures |ms| == |rows| && forall i :: 0 <= i < |rows| ==> ms[i] == rows[i].movement
  {
    seq(|rows|, i requires 0 <= i < |rows| => rows[i].movement)
  }

  /** Milliseconds in a day. */
  const DayMs: int := 86400000

  /** `new Date('YYYY-MM-DD')`: midnight UTC at the start of day `day`, days counted from the epoch. */
  function DayStart(day: int): int {
    day * DayMs
  }

  /** The controls: type ('all', 'ingreso', 'egreso'), product search, "Desde" and "Hasta" days (None when empty), order. */
  datatype Filters = Filters(kind: string, productSearch: string, startDay: Option<int>, endDay: Option<int>, order: string)

  // ------------------------------------------------------------- filters

  predicate TypeKeeps(r: Row, kind: string) {
    kind == "all" || TypeName(r.movement.kind) == kind
  }

  /** `mov.product?.name.toLowerCase().includes(...)`: a row without a product is dropped while a term is set. */
  predicate SearchKeeps(r: Row, term: string) {
    term == "" || (r.productName.Some? && Text.Contains(Text.ToLower(r.productName.value), Text.ToLower(term)))
  }

  predicate StartKeeps(r: Row, startDay: Option<int>) {
    startDay.None? || r.movement.createdAt >= DayStart(startDay.value)
  }

  /** The "Hasta" bound as written: no later than midnight at the start of the chosen day. */
  predicate EndKeepsAsWritten(r: Row, endDay: Option<int>) {
    endDay.None? || r.movement.createdAt <= DayStart(endDay.value)
  }

  /** The "Hasta" bound as evidently intended: any time up to the end of the chosen day. */
  predicate EndKeeps(r: Row, endDay: Option<int>) {
    endDay.None? || r.movement.createdAt < DayStart(endDay.value + 1)
  }

  /** A movement at 10:00 on the "Hasta" day: the written bound drops it, the intended bound keeps it. */
  lemma EndDayExcludedAsWritten(m: StockMovement, day: int)
    requires m.createdAt == DayStart(day) + 36000000
    ensures !EndKeepsAsWritten(Row(m, None), Some(day))
    ensures EndKeeps(Row(m, None), Some(day))
  {
  }

  /** With the intended bound, "Desde" d and "Hasta" d keep exactly the movements of day d. */
  lemma SameDayRangeIsThatDay(r: Row, day: int)
    ensures StartKeeps(r, Some(day)) && EndKeeps(r, Some(day)) <==>
            DayStart(day) <= r.movement.createdAt < DayStart(day) + DayMs
  {
  }

  function TypeTest(kind: string): Row -> bool { (r: Row) => TypeKeeps(r, kind) }
  function SearchTest(term: string): Row -> bool { (r: Row) => SearchKeeps(r, term) }
  function StartTest(startDay: Option<int>): Row -> bool { (r: Row) => StartKeeps(r, startDay) }
  /** Which "Hasta" bound the filter applies: the one in the code, or the intended one. */
  datatype EndRule = AsWritten | Inclusive

  predicate EndKeepsBy(rule: EndRule, r: Row, endDay: Option<int>) {
    if rule.AsWritten? then EndKeepsAsWritten(r, endDay) else EndKeeps(r, endDay)
  }

  function EndTest(rule: EndRule, endDay: Option<int>): Row -> bool { (r: Row) => EndKeepsBy(rule, r, endDay) }

  function TypeSearchTest(f: Filters): Row -> bool {
    (r: Row) => TypeKeeps(r, f.kind) && SearchKeeps(r, f.productSearch)
  }

  /** Whether a row passes every control, with the "Hasta" bound `rule`. */
  predicate Keeps(f: Filters, rule: EndRule, r: Row) {
    TypeKeeps(r, f.kind) && SearchKeeps(r, f.productSearch) && StartKeeps(r, f.startDay) && EndKeepsBy(rule, r, f.endDay)
  }

  function KeepsTest(f: Filters, rule: EndRule): Row -> bool { (r: Row) => Keeps(f, rule, r) }

  /** The rows every control keeps, in the order received. */
  function Matching(rows: seq<Row>, f: Filters, rule: EndRule): seq<Row> {
    Lists.Filter(rows, KeepsTest(f, rule))
  }

  /**
   * Every row the written bound keeps, the intended bound keeps too; and a
   * row made after midnight on the "Hasta" day is kept only by the intended one.
   */
  lemma AsWrittenKeepsFewer(rows: seq<Row>, f: Filters)
    ensures forall r :: r in Matching(rows, f, AsWritten) ==> r in Matching(rows, f, Inclusive)
    ensures forall r :: r in rows && Keeps(f, Inclusive, r) && f.endDay.Some? &&
                        r.movement.createdAt > DayStart(f.endDay.value) ==>
                        r !in Matching(rows, f, AsWritten) && r in Matching(rows, f, Inclusive)
  {
  }

  /** The type 'all' keeps every row, in order. */
  lemma AllTypesKeepsAll(rows: seq<Row>)
    ensures Lists.Filter(rows, TypeTest("all")) == rows
  {
  }

  lemma EmptyControlsKeepAll(rows: seq<Row>)
    ensures Lists.Filter(rows, SearchTest("")) == rows
    ensures Lists.Filter(rows, StartTest(None)) == rows
  {
  }

  /** An empty "Hasta" keeps every row, under either bound. */
  lemma EmptyEndKeepsAll(rows: seq<Row>, rule: EndRule)
    ensures Lists.Filter(rows, EndTest(rule, None)) == rows
  {
  }

  predicate CreatedAscLe(a: Row, b: Row) { a.movement.createdAt <= b.movement.createdAt }
  predicate CreatedDescLe(a: Row, b: Row) { b.movement.createdAt <= a.movement.createdAt }

  /** The sort step: oldest first for 'asc', newest first for anything else. */
  function SortForOrder(rows: seq<Row>, order: string): (r: seq<Row>)
    ensures multiset(r) == multiset(rows)
    ensures order == "asc" ==> forall i, j :: 0 <= i < j < |r| ==> r[i].movement.createdAt <= r[j].movement.createdAt
    ensures order != "asc" ==> forall i, j :: 0 <= i < j < |r| ==> r[i].movement.createdAt >= r[j].movement.createdAt
  {
    if order == "asc" then
      Lists.SortBySorted(rows, CreatedAscLe);
      Lists.SortBy(rows, CreatedAscLe)
    else
      Lists.SortBySorted(rows, CreatedDescLe);
      Lists.SortBy(rows, CreatedDescLe)
  }

  function DatesTest(f: Filters, rule: EndRule): Row -> bool {
    (r: Row) => StartKeeps(r, f.startDay) && EndKeepsBy(rule, r, f.endDay)
  }

  /** The type and product-search steps of the filter effect. */
  method FilterTypeAndSearch(movements: seq<Row>, f: Filters) returns (data: seq<Row>)
    ensures data == Lists.Filter(movements, TypeSearchTest(f))
  {
    data := movements;
    AllTypesKeepsAll(movements);
    if f.kind != "all" {
      data := Lists.Filter(data, TypeTest(f.kind));
    }
    EmptyControlsKeepAll(data);
    if f.productSearch != "" {
      data := Lists.Filter(data, SearchTest(f.productSearch));
    }
    Lists.FilterFilter(movements, TypeTest(f.kind), SearchTest(f.productSearch), TypeSearchTest(f));
  }

  /** The "Desde" and "Hasta" steps of the filter effect. */
  method FilterDates(rows: seq<Row>, f: Filters, rule: EndRule) returns (data: seq<Row>)
    ensures data == Lists.Filter(rows, DatesTest(f, rule))
  {
    data := rows;
    EmptyControlsKeepAll(rows);
    if f.startDay.Some? {
      data := Lists.Filter(data, StartTest(f.startDay));
    }
    EmptyEndKeepsAll(data, rule);
    if f.endDay.Some? {
      data := Lists.Filter(data, EndTest(rule, f.endDay));
    }
    Lists.FilterFilter(rows, StartTest(f.startDay), EndTest(rule, f.endDay), DatesTest(f, rule));
  }

  /**
   * The filter effect: type, product search, "Desde", "Hasta", then the sort.
   * The result holds exactly the rows every control keeps, each as often as
   * received, ordered by creation time. With `AsWritten` this is the effect as
   * the component has it; with `Inclusive`, the intended "Hasta" bound.
   */
  method ApplyFilters(movements: seq<Row>, f: Filters, rule: EndRule) returns (data: seq<Row>)
    ensures multiset(data) == multiset(Matching(movements, f, rule))
    ensures forall r :: r in data <==> r in movements && Keeps(f, rule, r)
    ensures data == SortForOrder(Matching(movements, f, rule), f.order)
  {
    data := FilterTypeAndSearch(movements, f);
    data := FilterDates(data, f, rule);
    Lists.FilterFilter(movements, TypeSearchTest(f), DatesTest(f, rule), KeepsTest(f, rule));
    ghost var matching := data;
    data := SortForOrder(data, f.order);
    forall r ensures r in data <==> r in matching {
      assert r in data <==> r in multiset(data);
      assert r in matching <==> r in multiset(matching);
    }
  }

  // ------------------------------------------------------------- statistics

  /** `reduce((sum, mov) => sum + mov.quantity, 0)`: the sum of the quantities. */
  function SumQuantities(rows: seq<Row>): int {
    if |rows| == 0 then 0 else rows[0].movement.quantity + SumQuantities(rows[1..])
  }

  function OfType(kind: MovementType): Row -> bool { (r: Row) => r.movement.kind == kind }

  datatype Stats = Stats(totalMovements: int, totalIngresos: int, totalEgresos: int, netChange: int)

  /** The figures shown above the table, computed from the filtered rows. */
  function Statistics(rows: seq<Row>): (s: Stats)
    ensures s.totalMovements == |rows|
    ensures s.netChange == SumQuantities(rows)
  {
    var ingresos := SumQuantities(Lists.Filter(rows, OfType(Ingreso)));
    var egresos := SumQuantities(Lists.Filter(rows, OfType(Egreso)));
    NetChangeIsSum(rows);
    Stats(|rows|, ingresos, egresos, ingresos + egresos)
  }

  /** Every movement is an ingreso or an egreso, so the two totals add up to the sum of all quantities. */
  lemma {:induction false} NetChangeIsSum(rows: seq<Row>)
    ensures SumQuantities(Lists.Filter(rows, OfType(Ingreso))) + SumQuantities(Lists.Filter(rows, OfType(Egreso)))
            == SumQuantities(rows)
  {
    if |rows| > 0 {
      var x := rows[0];
      var t := rows[1..];
      var ti := Lists.Filter(t, OfType(Ingreso));
      var te := Lists.Filter(t, OfType(Egreso));
      NetChangeIsSum(t);
      Lists.FilterCons(rows, OfType(Ingreso));
      Lists.FilterCons(rows, OfType(Egreso));
      if x.movement.kind == Ingreso {
        assert ([x] + ti)[1..] == ti;
        assert [] + te == te;
      } else {
        assert ([x] + te)[1..] == te;
        assert [] + ti == ti;
      }
    }
  }

  // ------------------------------------------------------------- local updates

  function NotId(id: Id): Row -> bool { (r: Row) => r.movement.id != id }

  /** handleDelete: once the server has deleted (`serverOk`), the row with that id leaves the list; otherwise nothing changes. */
  function HandleDelete(rows: seq<Row>, id: Id, serverOk: bool): (r: seq<Row>)
    ensures !serverOk ==> r == rows
    ensures serverOk ==> forall x :: x in r <==> x in rows && x.movement.id != id
  {
    if serverOk then Lists.Filter(rows, NotId(id)) else rows
  }

  /**
   * When the panel holds exactly the server's movements, a successful delete
   * leaves it holding exactly what the server's delete leaves.
   */
  lemma {:induction false} LocalDeleteMirrorsServer(rows: seq<Row>, id: Id)
    requires DistinctMovementIds(Movements(rows))
    ensures Movements(HandleDelete(rows, id, true)) == StockMovementController.Delete(Movements(rows), id).movements
  {
    var ms := Movements(rows);
    match StockMovementController.IndexOfMovement(ms, id)
    case None =>
      forall j | 0 <= j < |rows| ensures NotId(id)(rows[j]) {
        assert ms[j].id in MovementIds(ms);
      }
    case Some(i) =>
      DeleteRowAt(rows, id, i);
  }

  /** Deleting the one row that carries `id`, at position `i`, removes that position. */
  lemma {:induction false} DeleteRowAt(rows: seq<Row>, id: Id, i: nat)
    requires DistinctMovementIds(Movements(rows))
    requires i < |rows| && rows[i].movement.id == id
    ensures Movements(Lists.Filter(rows, NotId(id))) == StockMovementController.RemoveAt(Movements(rows), i)
  {
    var ms := Movements(rows);
    forall j | 0 <= j < |rows| && j != i ensures NotId(id)(rows[j]) {
      assert ms[j].id != ms[i].id;
    }
    Lists.FilterDropsOne(rows, NotId(id), i);
    MovementsRemoveAt(rows, i);
  }

  /** Removing a row removes its movement at the same position. */
  lemma {:induction false} MovementsRemoveAt(rows: seq<Row>, i: nat)
    requires i < |rows|
    ensures Movements(rows[..i] + rows[i + 1..]) == StockMovementController.RemoveAt(Movements(rows), i)
  {
    var left := rows[..i] + rows[i + 1..];
    var rm := StockMovementController.RemoveAt(Movements(rows), i);
    forall k | 0 <= k < |left| ensures Movements(left)[k] == rm[k] {
      assert left[k] == rows[if k < i then k else k + 1];
    }
  }

  /** handleMovementUpdated: the row with the edited movement's id is replaced by it; every other row stays. */
  function HandleMovementUpdated(rows: seq<Row>, updated: Row): (r: seq<Row>)
    ensures |r| == |rows|
    ensures forall i :: 0 <= i < |rows| ==>
      r[i] == if rows[i].movement.id == updated.movement.id then updated else rows[i]
  {
    seq(|rows|, i requires 0 <= i < |rows| => if rows[i].movement.id == updated.movement.id then updated else rows[i])
  }

  /** Mirroring an edit keeps the ids of the list, so they stay distinct. */
  lemma UpdateKeepsIds(rows: seq<Row>, updated: Row)
    requires DistinctMovementIds(Movements(rows))
    ensures MovementIds(Movements(HandleMovementUpdated(rows, updated))) <= MovementIds(Movements(rows))
    ensures DistinctMovementIds(Movements(HandleMovementUpdated(rows, updated)))
  {
    var r := HandleMovementUpdated(rows, updated);
    forall x | x in MovementIds(Movements(r)) ensures x in MovementIds(Movements(rows)) {
      var j :| 0 <= j < |r| && Movements(r)[j].id == x;
      assert Movements(rows)[j].id == x;
    }
    forall a, b | 0 <= a < b < |r| ensures Movements(r)[a].id != Movements(r)[b].id {
      assert Movements(rows)[a].id != Movements(rows)[b].id;
    }
  }

  /**
   * When the panel holds exactly the server's movements and receives the record
   * the server's edit saved, its list becomes exactly the server's log.
   */
  lemma LocalUpdateMirrorsServer(rows: seq<Row>, id: Id, quantity: Option<Json.Value>, description: Option<Json.Value>, updated: Row)
    requires DistinctMovementIds(Movements(rows))
    requires StockMovementController.Edit(Movements(rows), id, quantity, description).status == 200
    requires updated.movement ==
      StockMovementController.Edit(Movements(rows), id, quantity, description).movements[
        StockMovementController.IndexOfMovement(Movements(rows), id).value]
    ensures Movements(HandleMovementUpdated(rows, updated)) ==
            StockMovementController.Edit(Movements(rows), id, quantity, description).movements
  {
    var ms := Movements(rows);
    var saved := StockMovementController.Edit(ms, id, quantity, description).movements;
    var i := StockMovementController.IndexOfMovement(ms, id).value;
    var local := Movements(HandleMovementUpdated(rows, updated));
    forall k | 0 <= k < |local| ensures local[k] == saved[k] {
      if k != i {
        assert ms[k].id != ms[i].id;
      }
    }
  }
}
