/**
 * adjustStock (backend/controllers/stockController.js): a chain of guards,
 * then an atomic `$inc` of the product's stock and the append of one
 * StockMovement recording who changed what, by how much and why.
 */
module StockController {
  import opened Wrappers
  import opened Json
  import opened Models
  import Store

  /** The decoded bearer token the auth middleware leaves in `req.user`. */
  datatype Claims = Claims(mongoId: Option<Id>, id: Option<Id>)

  /** `req.user._id || req.user.id`, where a missing or empty id is falsy. */
  function CallerId(user: Option<Claims>): (r: Option<Id>)
    ensures r.Some? ==> r.value != ""
    ensures r.None? <==>
      user.None? ||
      ((user.value.mongoId.None? || user.value.mongoId.value == "") &&
       (user.value.id.None? || user.value.id.value == ""))
    ensures user.Some? && user.value.mongoId.Some? && user.value.mongoId.value != "" ==>
      r == user.value.mongoId
  {
    match user
    case None => None
    case Some(c) =>
      if c.mongoId.Some? && c.mongoId.value != "" then c.mongoId
      else if c.id.Some? && c.id.value != "" then c.id
      else None
  }

  /** The movement type is derived from the sign; zero counts as an 'ingreso'. */
  function MovementTypeOf(quantity: int): (t: MovementType)
    ensures t == Ingreso <==> quantity >= 0
    ensures t == Egreso <==> quantity < 0
  {
    if quantity >= 0 then Ingreso else Egreso
  }

  /**
   * The description the movement is saved with: `description || ''`, then
   * Mongoose's String cast, which fails for an array or an object.
   */
  function StoredDescription(description: Option<Value>): (r: Option<string>)
    ensures description.None? || !Truthy(description.value) ==> r == Some("")
    ensures description.Some? && description.value.JStr? ==> r == Some(description.value.s)
    ensures r.None? <==> description.Some? && (description.value.JArr? || description.value.JObj?)
  {
    if description.Some? && Truthy(description.value) then CastString(description.value) else Some("")
  }

  /** The two collections adjustStock touches. */
  datatype Ledger = Ledger(products: map<Id, Product>, movements: seq<StockMovement>)

  datatype Adjusted = Adjusted(ledger: Ledger, status: int, stock: Option<int>)

  /** The guards of lines 7-34: identified caller, numeric quantity, known product, enough stock. */
  predicate GuardsPass(l: Ledger, user: Option<Claims>, id: Id, quantity: Option<Value>) {
    CallerId(user).Some? && quantity.Some? && quantity.value.JNum? &&
    id in l.products && l.products[id].stock + quantity.value.n >= 0
  }

  /** One adjustStock request on the ledger; `newId` and `now` are the new movement's `_id` and `Date.now()`. */
  function Adjust(l: Ledger, user: Option<Claims>, id: Id, quantity: Option<Value>,
                  description: Option<Value>, newId: Id, now: int): (r: Adjusted)
    // the guards, in order, each before any write
    ensures CallerId(user).None? ==> r.status == 401
    ensures CallerId(user).Some? && !(quantity.Some? && quantity.value.JNum?) ==> r.status == 400
    ensures CallerId(user).Some? && quantity.Some? && quantity.value.JNum? && id !in l.products ==> r.status == 404
    ensures (CallerId(user).Some? && quantity.Some? && quantity.value.JNum? && id in l.products &&
             l.products[id].stock + quantity.value.n < 0) ==> r.status == 400
    ensures !GuardsPass(l, user, id, quantity) ==> r.ledger == l && r.stock.None?
    // past the guards the stock is incremented, and only that product's
    ensures GuardsPass(l, user, id, quantity) ==>
      var p := l.products[id];
      r.ledger.products == l.products[id := p.(stock := p.stock + quantity.value.n)]
    // success: the new stock is returned and exactly one movement is appended
    ensures r.status == 200 <==> GuardsPass(l, user, id, quantity) && StoredDescription(description).Some?
    ensures r.status == 200 ==>
      var q := quantity.value.n;
      && r.stock == Some(l.products[id].stock + q)
      && r.stock.value >= 0
      && r.ledger.movements == l.movements +
           [StockMovement(newId, id, q, MovementTypeOf(q), StoredDescription(description).value,
                          CallerId(user).value, now)]
    // a description Mongoose cannot cast fails the second write only
    ensures r.status == 500 <==> GuardsPass(l, user, id, quantity) && StoredDescription(description).None?
    ensures r.status == 500 ==> r.ledger.movements == l.movements && r.stock.None?
  {
    if CallerId(user).None? then Adjusted(l, 401, None)
    else if quantity.None? || !quantity.value.JNum? then Adjusted(l, 400, None)
    else if id !in l.products then Adjusted(l, 404, None)
    else
      var q := quantity.value.n;
      var p := l.products[id];
      if p.stock + q < 0 then Adjusted(l, 400, None)
      else
        var products := l.products[id := p.(stock := p.stock + q)];
        match StoredDescription(description)
        case None => Adjusted(Ledger(products, l.movements), 500, None)
        case Some(d) =>
          var m := NewMovement(newId, id, q, MovementTypeOf(q), Some(d), CallerId(user).value, now);
          Adjusted(Ledger(products, l.movements + [m]), 200, Some(p.stock + q))
  }

  predicate AllStockNonNegative(products: map<Id, Product>) {
    forall id :: id in products ==> products[id].stock >= 0
  }

  /** No adjustStock request, successful or not, leaves a negative stock behind. */
  lemma AdjustKeepsStockNonNegative(l: Ledger, user: Option<Claims>, id: Id, quantity: Option<Value>,
                                    description: Option<Value>, newId: Id, now: int)
    requires AllStockNonNegative(l.products)
    ensures AllStockNonNegative(Adjust(l, user, id, quantity, description, newId, now).ledger.products)
  {
  }

  /** Net quantity the movement log records for one product. */
  function NetMovement(ms: seq<StockMovement>, product: Id): int {
    if ms == [] then 0
    else NetMovement(ms[..|ms| - 1], product) +
         (if ms[|ms| - 1].product == product then ms[|ms| - 1].quantity else 0)
  }

  /**
   * A successful adjustment changes the product's stock by exactly what its
   * movement adds to that product's net in the log, and leaves every other
   * product's stock and net as they were.
   */
  lemma AdjustMatchesLog(l: Ledger, user: Option<Claims>, id: Id, quantity: Option<Value>,
                         description: Option<Value>, newId: Id, now: int)
    requires Adjust(l, user, id, quantity, description, newId, now).status == 200
    ensures var r := Adjust(l, user, id, quantity, description, newId, now).ledger;
      && r.products[id].stock - l.products[id].stock == NetMovement(r.movements, id) - NetMovement(l.movements, id)
      && forall other :: other != id ==> NetMovement(r.movements, other) == NetMovement(l.movements, other)
  {
    var r := Adjust(l, user, id, quantity, description, newId, now).ledger;
    assert r.movements[..|r.movements| - 1] == l.movements;
  }

  /**
   * Adjusting by D and then by -D, both succeeding, restores the stock and
   * adds two movements whose quantities sum to 0.
   */
  lemma AdjustThenUndo(l: Ledger, user: Option<Claims>, id: Id, d: int,
                       description: Option<Value>, id1: Id, id2: Id, t1: int, t2: int)
    requires Adjust(l, user, id, Some(JNum(d)), description, id1, t1).status == 200
    requires Adjust(Adjust(l, user, id, Some(JNum(d)), description, id1, t1).ledger,
                    user, id, Some(JNum(-d)), description, id2, t2).status == 200
    ensures var l1 := Adjust(l, user, id, Some(JNum(d)), description, id1, t1).ledger;
            var l2 := Adjust(l1, user, id, Some(JNum(-d)), description, id2, t2).ledger;
            && l2.products == l.products
            && |l2.movements| == |l.movements| + 2
            && l2.movements[..|l.movements|] == l.movements
            && l2.movements[|l.movements|].quantity + l2.movements[|l.movements| + 1].quantity == 0
  {
    var l1 := Adjust(l, user, id, Some(JNum(d)), description, id1, t1).ledger;
    var l2 := Adjust(l1, user, id, Some(JNum(-d)), description, id2, t2).ledger;
    assert l2.products[id] == l.products[id];
  }

  /** The undo of a successful adjustment is itself accepted: its guard sees the old stock, which is >= 0. */
  lemma UndoIsAccepted(l: Ledger, user: Option<Claims>, id: Id, d: int,
                       description: Option<Value>, id1: Id, id2: Id, t1: int, t2: int)
    requires AllStockNonNegative(l.products)
    requires Adjust(l, user, id, Some(JNum(d)), description, id1, t1).status == 200
    ensures Adjust(Adjust(l, user, id, Some(JNum(d)), description, id1, t1).ledger,
                   user, id, Some(JNum(-d)), description, id2, t2).status == 200
  {
  }

  /**
   * The HTTP handler on the database: guards with early returns, then the
   * `$inc` and the movement's save, as two separate writes.
   */
  method AdjustStock(db: Store.Db, user: Option<Claims>, id: Id, quantity: Option<Value>,
                     description: Option<Value>, newId: Id, now: int) returns (status: int, stock: Option<int>)
    requires db.Valid()
    requires newId !in MovementIds(db.movements)
    modifies db
    ensures db.Valid()
    ensures var r := Adjust(old(Ledger(db.products, db.movements)), user, id, quantity, description, newId, now);
            Ledger(db.products, db.movements) == r.ledger && status == r.status && stock == r.stock
    ensures db.carts == old(db.carts) && db.users == old(db.users)
  {
    if user.None? {
      return 401, None;
    }
    var userId := CallerId(user);
    if userId.None? {
      return 401, None;
    }
    if quantity.None? || !quantity.value.JNum? {
      return 400, None;
    }
    var q := quantity.value.n;
    if id !in db.products {
      return 404, None;
    }
    var product := db.products[id];
    if product.stock + q < 0 {
      return 400, None;
    }
    db.products := db.products[id := db.products[id].(stock := db.products[id].stock + q)];
    var updatedStock := db.products[id].stock;
    var movementType := if q >= 0 then Ingreso else Egreso;
    var raw := if description.Some? && Truthy(description.value) then description.value else JStr("");
    var cast := CastString(raw);
    if cast.None? {
      return 500, None;
    }
    db.movements := db.movements + [NewMovement(newId, id, q, movementType, Some(cast.value), userId.value, now)];
    return 200, Some(updatedStock);
  }
}
