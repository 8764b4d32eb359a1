/**
 * Maintenance of the movement log (backend/controllers/stockMovementController.js):
 * list, edit and delete audit records. None of them touches a product's stock.
 */
module StockMovementController {
  import opened Wrappers
  import opened Json
  import opened Models
  import Store
  import StockController

  /** `StockMovement.findById(id)`: the position of the record with that `_id`. */
  function IndexOfMovement(ms: seq<StockMovement>, id: Id): (r: Option<nat>)
    ensures r.Some? ==> r.value < |ms| && ms[r.value].id == id
    ensures r.Some? ==> forall j :: 0 <= j < r.value ==> ms[j].id != id
    ensures r.None? <==> id !in MovementIds(ms)
  {
    if ms == [] then None
    else if ms[0].id == id then Some(0)
    else match IndexOfMovement(ms[1..], id)
      case None => None
      case Some(k) => Some(k + 1)
  }

  datatype Edited = Edited(movements: seq<StockMovement>, status: int)

  /**
   * updateMovement: overwrite `quantity` and `description` when they are sent;
   * the type, product, user and creation time stay. A value Mongoose cannot
   * cast fails the save (500) and nothing is written.
   */
  function Edit(ms: seq<StockMovement>, id: Id, quantity: Option<Value>, description: Option<Value>): (r: Edited)
    ensures r.status == 404 <==> id !in MovementIds(ms)
    ensures r.status != 200 ==> r.movements == ms
    ensures r.status == 200 ==>
      var i := IndexOfMovement(ms, id).value;
      var m := ms[i];
      && |r.movements| == |ms|
      && (forall j :: 0 <= j < |ms| && j != i ==> r.movements[j] == ms[j])
      && r.movements[i].id == m.id && r.movements[i].product == m.product
      && r.movements[i].kind == m.kind && r.movements[i].user == m.user
      && r.movements[i].createdAt == m.createdAt
      && (quantity.Some? ==> CastNumber(quantity.value) == Some(r.movements[i].quantity))
      && (quantity.None? ==> r.movements[i].quantity == m.quantity)
      && (description.Some? ==> CastString(description.value) == Some(r.movements[i].description))
      && (description.None? ==> r.movements[i].description == m.description)
    ensures r.status == 500 <==>
      id in MovementIds(ms) &&
      ((quantity.Some? && CastNumber(quantity.value).None?) ||
       (description.Some? && CastString(description.value).None?))
    ensures r.status == 200 || r.status == 404 || r.status == 500
  {
    match IndexOfMovement(ms, id)
    case None => Edited(ms, 404)
    case Some(i) =>
      var q := if quantity.Some? then CastNumber(quantity.value) else Some(ms[i].quantity);
      var d := if description.Some? then CastString(description.value) else Some(ms[i].description);
      if q.None? || d.None? then Edited(ms, 500)
      else Edited(ms[i := ms[i].(quantity := q.value, description := d.value)], 200)
  }

  /** An edit that sends neither field leaves the log as it was. */
  lemma EditNothingKeepsLog(ms: seq<StockMovement>, id: Id)
    ensures Edit(ms, id, None, None).movements == ms
  {
    match IndexOfMovement(ms, id)
    case None =>
    case Some(i) => assert ms[i := ms[i].(quantity := ms[i].quantity, description := ms[i].description)] == ms;
  }

  /** Replacing one record's quantity moves that product's net by the difference. */
  lemma {:induction false} NetMovementAfterReplace(ms: seq<StockMovement>, i: nat, q: int, product: Id)
    requires i < |ms|
    ensures StockController.NetMovement(ms[i := ms[i].(quantity := q)], product) ==
            StockController.NetMovement(ms, product) + (if ms[i].product == product then q - ms[i].quantity else 0)
    decreases |ms|
  {
    var ms' := ms[i := ms[i].(quantity := q)];
    if i < |ms| - 1 {
      assert ms'[..|ms'| - 1] == ms[..|ms| - 1][i := ms[i].(quantity := q)];
      NetMovementAfterReplace(ms[..|ms| - 1], i, q, product);
    } else {
      assert ms'[..|ms'| - 1] == ms[..|ms| - 1];
    }
  }

  /**
   * The documented decoupling: an edit that changes a quantity changes what
   * the log says about the product, while the product's stock (not even an
   * input here) stays as it was.
   */
  lemma EditDecouplesLogFromStock(ms: seq<StockMovement>, id: Id, q: int)
    requires Edit(ms, id, Some(JNum(q)), None).status == 200
    ensures var i := IndexOfMovement(ms, id).value;
            var p := ms[i].product;
            StockController.NetMovement(Edit(ms, id, Some(JNum(q)), None).movements, p) ==
            StockController.NetMovement(ms, p) + q - ms[i].quantity
  {
    var i := IndexOfMovement(ms, id).value;
    assert Edit(ms, id, Some(JNum(q)), None).movements == ms[i := ms[i].(quantity := q)];
    NetMovementAfterReplace(ms, i, q, ms[i].product);
  }

  /** `findByIdAndDelete`: drop the record with that `_id`; 404 and no change when there is none. */
  function Delete(ms: seq<StockMovement>, id: Id): (r: Edited)
    ensures r.status == 404 <==> id !in MovementIds(ms)
    ensures r.status == 404 ==> r.movements == ms
    ensures r.status == 200 ==>
      var i := IndexOfMovement(ms, id).value;
      r.movements == RemoveAt(ms, i)
    ensures r.status == 200 || r.status == 404
  {
    match IndexOfMovement(ms, id)
    case None => Edited(ms, 404)
    case Some(i) => Edited(RemoveAt(ms, i), 200)
  }

  /** The log without position i. */
  function RemoveAt(ms: seq<StockMovement>, i: nat): (r: seq<StockMovement>)
    requires i < |ms|
    ensures |r| == |ms| - 1
    ensures forall k :: 0 <= k < |r| ==> r[k] == ms[if k < i then k else k + 1]
  {
    ms[..i] + ms[i + 1..]
  }

  lemma RemoveAtIds(ms: seq<StockMovement>, i: nat)
    requires i < |ms| && DistinctMovementIds(ms)
    ensures MovementIds(RemoveAt(ms, i)) == MovementIds(ms) - {ms[i].id}
  {
    var r := RemoveAt(ms, i);
    forall x | x in MovementIds(ms) - {ms[i].id} ensures x in MovementIds(r) {
      var j :| 0 <= j < |ms| && ms[j].id == x;
      assert r[if j < i then j else j - 1] == ms[j];
    }
    forall x | x in MovementIds(r) ensures x in MovementIds(ms) - {ms[i].id} {
      var k :| 0 <= k < |r| && r[k].id == x;
      assert r[k] == ms[if k < i then k else k + 1];
    }
  }

  lemma RemoveAtDistinct(ms: seq<StockMovement>, i: nat)
    requires i < |ms| && DistinctMovementIds(ms)
    ensures DistinctMovementIds(RemoveAt(ms, i))
  {
    var r := RemoveAt(ms, i);
    forall a, b | 0 <= a < b < |r| ensures r[a].id != r[b].id {
      assert r[a] == ms[if a < i then a else a + 1];
      assert r[b] == ms[if b < i then b else b + 1];
    }
  }

  /** With unique ids, delete removes exactly that record: every other one remains. */
  lemma DeleteRemovesExactlyOne(ms: seq<StockMovement>, id: Id)
    requires DistinctMovementIds(ms)
    ensures MovementIds(Delete(ms, id).movements) == MovementIds(ms) - {id}
    ensures DistinctMovementIds(Delete(ms, id).movements)
  {
    match IndexOfMovement(ms, id)
    case None =>
    case Some(i) =>
      assert Delete(ms, id).movements == RemoveAt(ms, i);
      RemoveAtIds(ms, i);
      RemoveAtDistinct(ms, i);
  }

  /** getStockMovements: every stored movement, in store order (the `populate` joins are not modelled). */
  method GetStockMovements(db: Store.Db) returns (status: int, movements: seq<StockMovement>)
    ensures status == 200 && movements == db.movements
  {
    return 200, db.movements;
  }

  /** updateMovement on the database: only the movement log is written. */
  method UpdateMovement(db: Store.Db, id: Id, quantity: Option<Value>, description: Option<Value>)
    returns (status: int)
    requires db.Valid()
    modifies db
    ensures db.Valid()
    ensures var r := Edit(old(db.movements), id, quantity, description);
            db.movements == r.movements && status == r.status
    ensures db.products == old(db.products) && db.carts == old(db.carts) && db.users == old(db.users)
  {
    var index := IndexOfMovement(db.movements, id);
    if index.None? {
      return 404;
    }
    var movement := db.movements[index.value];
    if quantity.Some? {
      var q := CastNumber(quantity.value);
      if q.None? {
        return 500;
      }
      movement := movement.(quantity := q.value);
    }
    if description.Some? {
      var d := CastString(description.value);
      if d.None? {
        return 500;
      }
      movement := movement.(description := d.value);
    }
    db.movements := db.movements[index.value := movement];
    return 200;
  }

  /** deleteMovement on the database: the audit record goes, the stock it changed stays. */
  method DeleteMovement(db: Store.Db, id: Id) returns (status: int)
    requires db.Valid()
    modifies db
    ensures db.Valid()
    ensures var r := Delete(old(db.movements), id); db.movements == r.movements && status == r.status
    ensures db.products == old(db.products) && db.carts == old(db.carts) && db.users == old(db.users)
  {
    DeleteRemovesExactlyOne(db.movements, id);
    var index := IndexOfMovement(db.movements, id);
    if index.None? {
      return 404;
    }
    db.movements := db.movements[..index.value] + db.movements[index.value + 1..];
    assert db.movements == RemoveAt(old(db.movements), index.value);
    return 200;
  }
}
