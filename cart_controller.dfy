/**
 * The server cart (backend/controllers/cartController.js): one cart per user,
 * created lazily, whose lines merge on add, are overwritten on update and are
 * filtered out on remove.
 */
module CartController {
  import opened Wrappers
  import opened Models
  import Store

  /** `cart.items.findIndex(item => item.product.toString() === productId)`, with -1 as None. */
  function IndexOfProduct(items: seq<CartItem>, product: Id): (r: Option<nat>)
    ensures r.Some? ==> r.value < |items| && items[r.value].product == product
    ensures r.Some? ==> forall j :: 0 <= j < r.value ==> items[j].product != product
    ensures r.None? <==> forall j :: 0 <= j < |items| ==> items[j].product != product
  {
    if items == [] then None
    else if items[0].product == product then Some(0)
    else match IndexOfProduct(items[1..], product)
      case None => None
      case Some(k) => Some(k + 1)
  }

  /** The scan `findIndex` performs. */
  method FindIndex(items: seq<CartItem>, product: Id) returns (index: int)
    ensures index == match IndexOfProduct(items, product) case Some(k) => k case None => -1
  {
    var i := 0;
    while i < |items|
      invariant 0 <= i <= |items|
      invariant forall j :: 0 <= j < i ==> items[j].product != product
    {
      if items[i].product == product {
        return i;
      }
      i := i + 1;
    }
    return -1;
  }

  /** `items.filter(item => item.product.toString() !== productId)`. */
  function RemoveProduct(items: seq<CartItem>, product: Id): (r: seq<CartItem>)
    ensures |r| <= |items|
    ensures forall j :: 0 <= j < |r| ==> r[j].product != product && r[j] in items
    ensures (forall j :: 0 <= j < |items| ==> items[j].product != product) ==> r == items
  {
    if items == [] then []
    else if items[0].product == product then RemoveProduct(items[1..], product)
    else [items[0]] + RemoveProduct(items[1..], product)
  }

  /** Every line of another product survives the filter. */
  lemma {:induction false} RemoveProductKeepsOthers(items: seq<CartItem>, product: Id, x: CartItem)
    requires x in items && x.product != product
    ensures x in RemoveProduct(items, product)
  {
    if items[0] != x {
      RemoveProductKeepsOthers(items[1..], product, x);
    }
  }

  /** Filtering distributes over concatenation, so the kept lines stay in their order. */
  lemma {:induction false} RemoveProductAppend(a: seq<CartItem>, b: seq<CartItem>, product: Id)
    ensures RemoveProduct(a + b, product) == RemoveProduct(a, product) + RemoveProduct(b, product)
  {
    if a != [] {
      assert (a + b)[1..] == a[1..] + b;
      RemoveProductAppend(a[1..], b, product);
    } else {
      assert a + b == b;
    }
  }

  /** The scan `filter` performs. */
  method FilterOutProduct(items: seq<CartItem>, product: Id) returns (kept: seq<CartItem>)
    ensures kept == RemoveProduct(items, product)
  {
    kept := [];
    var i := 0;
    while i < |items|
      invariant 0 <= i <= |items|
      invariant kept == RemoveProduct(items[..i], product)
    {
      assert items[..i + 1] == items[..i] + [items[i]];
      RemoveProductAppend(items[..i], [items[i]], product);
      if items[i].product != product {
        kept := kept + [items[i]];
      }
      i := i + 1;
    }
    assert items[..i] == items;
  }

  /** A request's outcome: the carts collection afterwards, the status and the cart lines returned. */
  datatype CartStep = CartStep(carts: map<Id, Cart>, status: int, items: seq<CartItem>)

  /** getCart: the user's lines, or an empty list when the user has no cart; nothing is created. */
  function Get(carts: map<Id, Cart>, user: Id): (r: CartStep)
    ensures r.carts == carts && r.status == 200
    ensures user in carts ==> r.items == carts[user].items
    ensures user !in carts ==> r.items == []
  {
    CartStep(carts, 200, if user in carts then carts[user].items else [])
  }

  /**
   * addToCart: the product must exist; the cart is found or created empty;
   * an existing line grows by `quantity`, otherwise a line is appended (an
   * omitted quantity takes the schema default 1 on a new line and makes the
   * existing line's sum NaN, which fails the save).
   */
  function Add(products: map<Id, Product>, carts: map<Id, Cart>, user: Id, product: Id,
               quantity: Option<int>, now: int): (r: CartStep)
    ensures r.status == 404 <==> product !in products
    ensures r.status != 200 ==> r.carts == carts
    ensures r.status == 500 <==>
      product in products && user in carts && IndexOfProduct(carts[user].items, product).Some? && quantity.None?
    ensures r.status == 200 || r.status == 404 || r.status == 500
    ensures r.status == 200 ==>
      var cart := if user in carts then carts[user] else NewCart(user, now);
      r.carts == carts[user := cart.(items := r.items, updatedAt := now)]
    ensures r.status == 200 ==>
      var old_ := if user in carts then carts[user].items else [];
      match IndexOfProduct(old_, product)
      case Some(i) =>
        && |r.items| == |old_|
        && r.items[i] == CartItem(product, old_[i].quantity + quantity.value)
        && forall j :: 0 <= j < |old_| && j != i ==> r.items[j] == old_[j]
      case None =>
        r.items == old_ + [CartItem(product, if quantity.Some? then quantity.value else 1)]
  {
    if product !in products then CartStep(carts, 404, [])
    else
      var cart := if user in carts then carts[user] else NewCart(user, now);
      match IndexOfProduct(cart.items, product)
      case Some(i) =>
        if quantity.None? then CartStep(carts, 500, [])
        else
          var items := cart.items[i := cart.items[i].(quantity := cart.items[i].quantity + quantity.value)];
          CartStep(carts[user := PreSave(cart.(items := items), now)], 200, items)
      case None =>
        var items := cart.items + [CartItem(product, quantity.GetOr(DefaultQuantity))];
        CartStep(carts[user := PreSave(cart.(items := items), now)], 200, items)
  }

  /** updateCartItem: set an existing line's quantity outright; 404 without a cart or without the line. */
  function Update(carts: map<Id, Cart>, user: Id, product: Id, quantity: int, now: int): (r: CartStep)
    ensures r.status == 404 <==> user !in carts || IndexOfProduct(carts[user].items, product).None?
    ensures r.status != 200 ==> r.carts == carts
    ensures r.status == 200 || r.status == 404
    ensures r.status == 200 ==>
      var old_ := carts[user].items;
      var i := IndexOfProduct(old_, product).value;
      && r.carts == carts[user := carts[user].(items := r.items, updatedAt := now)]
      && |r.items| == |old_|
      && r.items[i] == CartItem(product, quantity)
      && forall j :: 0 <= j < |old_| && j != i ==> r.items[j] == old_[j]
  {
    if user !in carts then CartStep(carts, 404, [])
    else
      var cart := carts[user];
      match IndexOfProduct(cart.items, product)
      case None => CartStep(carts, 404, [])
      case Some(i) =>
        var items := cart.items[i := cart.items[i].(quantity := quantity)];
        CartStep(carts[user := PreSave(cart.(items := items), now)], 200, items)
  }

  /**
   * removeFromCart: drop every line of the product and save; removing a
   * product that is not there succeeds with the lines unchanged.
   */
  function Remove(carts: map<Id, Cart>, user: Id, product: Id, now: int): (r: CartStep)
    ensures r.status == 404 <==> user !in carts
    ensures r.status == 404 ==> r.carts == carts
    ensures r.status == 200 || r.status == 404
    ensures r.status == 200 ==>
      && r.items == RemoveProduct(carts[user].items, product)
      && r.carts == carts[user := carts[user].(items := r.items, updatedAt := now)]
      && (forall j :: 0 <= j < |r.items| ==> r.items[j].product != product)
      && (IndexOfProduct(carts[user].items, product).None? ==> r.items == carts[user].items)
  {
    if user !in carts then CartStep(carts, 404, [])
    else
      var cart := carts[user];
      var items := RemoveProduct(cart.items, product);
      CartStep(carts[user := PreSave(cart.(items := items), now)], 200, items)
  }

  /** Filtering a list with one line per product keeps one line per product. */
  lemma {:induction false} RemoveKeepsOneLine(items: seq<CartItem>, product: Id)
    requires OneLinePerProduct(items)
    ensures OneLinePerProduct(RemoveProduct(items, product))
  {
    if items != [] {
      assert OneLinePerProduct(items[1..]);
      RemoveKeepsOneLine(items[1..], product);
      if items[0].product != product {
        var rest := RemoveProduct(items[1..], product);
        forall j | 0 <= j < |rest| ensures rest[j].product != items[0].product {
          assert rest[j] in items[1..];
        }
      }
    }
  }

  /** addToCart keeps one cart per user and one line per product. */
  lemma AddKeepsCartsValid(products: map<Id, Product>, carts: map<Id, Cart>, user: Id, product: Id,
                           quantity: Option<int>, now: int)
    requires CartsValid(carts)
    ensures CartsValid(Add(products, carts, user, product, quantity, now).carts)
  {
  }

  /** updateCartItem keeps one cart per user and one line per product. */
  lemma UpdateKeepsCartsValid(carts: map<Id, Cart>, user: Id, product: Id, quantity: int, now: int)
    requires CartsValid(carts)
    ensures CartsValid(Update(carts, user, product, quantity, now).carts)
  {
  }

  /** removeFromCart keeps one cart per user and one line per product. */
  lemma RemoveKeepsCartsValid(carts: map<Id, Cart>, user: Id, product: Id, now: int)
    requires CartsValid(carts)
    ensures CartsValid(Remove(carts, user, product, now).carts)
  {
    if user in carts {
      RemoveKeepsOneLine(carts[user].items, product);
    }
  }

  /** Adding a product the cart does not hold appends its line after the old ones. */
  lemma AddFresh(products: map<Id, Product>, carts: map<Id, Cart>, user: Id, product: Id, q: int, t: int)
    requires product in products
    requires user !in carts || IndexOfProduct(carts[user].items, product).None?
    ensures var r := Add(products, carts, user, product, Some(q), t);
            var old_ := if user in carts then carts[user].items else [];
            && r.status == 200 && r.items == old_ + [CartItem(product, q)]
            && user in r.carts && r.carts[user].items == r.items
  {
  }

  /** Adding a product the cart holds at line `i` adds to that line only. */
  lemma AddExisting(products: map<Id, Product>, carts: map<Id, Cart>, user: Id, product: Id, q: int, t: int, i: nat)
    requires product in products && user in carts && IndexOfProduct(carts[user].items, product) == Some(i)
    ensures var r := Add(products, carts, user, product, Some(q), t);
            var old_ := carts[user].items;
            r.status == 200 && r.items == old_[i := CartItem(product, old_[i].quantity + q)]
  {
  }

  /** Adding the same product twice, q1 then q2, yields one line with q1 + q2, never two lines. */
  lemma AddTwiceMerges(products: map<Id, Product>, carts: map<Id, Cart>, user: Id, product: Id,
                       q1: int, q2: int, t1: int, t2: int)
    requires product in products
    requires user !in carts || IndexOfProduct(carts[user].items, product).None?
    ensures var c1 := Add(products, carts, user, product, Some(q1), t1);
            var c2 := Add(products, c1.carts, user, product, Some(q2), t2);
            var old_ := if user in carts then carts[user].items else [];
            && c2.status == 200
            && c2.items == old_ + [CartItem(product, q1 + q2)]
  {
    var c1 := Add(products, carts, user, product, Some(q1), t1);
    var old_ := if user in carts then carts[user].items else [];
    AddFresh(products, carts, user, product, q1, t1);
    IndexOfAppended(old_, CartItem(product, q1));
    AddExisting(products, c1.carts, user, product, q2, t2, |old_|);
    assert c1.items[|old_| := CartItem(product, q1 + q2)] == old_ + [CartItem(product, q1 + q2)];
  }

  /** A line appended for a product no earlier line has is where findIndex finds it. */
  lemma IndexOfAppended(items: seq<CartItem>, x: CartItem)
    requires forall j :: 0 <= j < |items| ==> items[j].product != x.product
    ensures IndexOfProduct(items + [x], x.product) == Some(|items|)
  {
    var all := items + [x];
    assert all[|items|] == x;
    forall j | 0 <= j < |items| ensures all[j].product != x.product {
      assert all[j] == items[j];
    }
  }

  /** The end-to-end scenario: add 2, add 3, set 1 on an empty cart leaves one line of quantity 1. */
  lemma AddAddSetScenario(products: map<Id, Product>, user: Id, a: Id)
    requires a in products
    ensures var c1 := Add(products, map[], user, a, Some(2), 1);
            var c2 := Add(products, c1.carts, user, a, Some(3), 2);
            var c3 := Update(c2.carts, user, a, 1, 3);
            c1.items == [CartItem(a, 2)] && c2.items == [CartItem(a, 5)] && c3.items == [CartItem(a, 1)]
  {
    var c1 := Add(products, map[], user, a, Some(2), 1);
    assert IndexOfProduct(c1.items, a) == Some(0);
  }

  /** getCart on the database: a read, nothing is created. */
  method GetCart(db: Store.Db, user: Id) returns (status: int, items: seq<CartItem>)
    ensures status == 200
    ensures user in db.carts ==> items == db.carts[user].items
    ensures user !in db.carts ==> items == []
  {
    if user !in db.carts {
      return 200, [];
    }
    return 200, db.carts[user].items;
  }

  /** addToCart on the database: load or create the cart, update its lines in place, save. */
  method AddToCart(db: Store.Db, user: Id, product: Id, quantity: Option<int>, now: int)
    returns (status: int, items: seq<CartItem>)
    requires db.Valid()
    modifies db
    ensures db.Valid()
    ensures var r := Add(old(db.products), old(db.carts), user, product, quantity, now);
            db.carts == r.carts && status == r.status && items == r.items
    ensures db.products == old(db.products) && db.movements == old(db.movements) && db.users == old(db.users)
  {
    if product !in db.products {
      return 404, [];
    }
    var cart := if user in db.carts then db.carts[user] else NewCart(user, now);
    var itemIndex := FindIndex(cart.items, product);
    items := cart.items;
    if itemIndex > -1 {
      if quantity.None? {
        return 500, [];
      }
      items := items[itemIndex := items[itemIndex].(quantity := items[itemIndex].quantity + quantity.value)];
    } else {
      items := items + [CartItem(product, quantity.GetOr(DefaultQuantity))];
    }
    cart := cart.(items := items);
    AddKeepsCartsValid(old(db.products), old(db.carts), user, product, quantity, now);
    db.SaveCart(cart, now);
    return 200, items;
  }

  /** updateCartItem on the database. */
  method UpdateCartItem(db: Store.Db, user: Id, product: Id, quantity: int, now: int)
    returns (status: int, items: seq<CartItem>)
    requires db.Valid()
    modifies db
    ensures db.Valid()
    ensures var r := Update(old(db.carts), user, product, quantity, now);
            db.carts == r.carts && status == r.status && items == r.items
    ensures db.products == old(db.products) && db.movements == old(db.movements) && db.users == old(db.users)
  {
    if user !in db.carts {
      return 404, [];
    }
    var cart := db.carts[user];
    var itemIndex := FindIndex(cart.items, product);
    if itemIndex > -1 {
      items := cart.items[itemIndex := cart.items[itemIndex].(quantity := quantity)];
      UpdateKeepsCartsValid(old(db.carts), user, product, quantity, now);
      db.SaveCart(cart.(items := items), now);
      return 200, items;
    }
    return 404, [];
  }

  /** removeFromCart on the database. */
  method RemoveFromCart(db: Store.Db, user: Id, product: Id, now: int)
    returns (status: int, items: seq<CartItem>)
    requires db.Valid()
    modifies db
    ensures db.Valid()
    ensures var r := Remove(old(db.carts), user, product, now);
            db.carts == r.carts && status == r.status && items == r.items
    ensures db.products == old(db.products) && db.movements == old(db.movements) && db.users == old(db.users)
  {
    if user !in db.carts {
      return 404, [];
    }
    var cart := db.carts[user];
    items := FilterOutProduct(cart.items, product);
    RemoveKeepsOneLine(cart.items, product);
    db.SaveCart(cart.(items := items), now);
    return 200, items;
  }
}
