/**
 * The MongoDB database the controllers read and write: one collection per
 * model. Each request is one sequential step on this object.
 */
module Store {
  import opened Models

  class Db {
    var products: map<Id, Product>
    var movements: seq<StockMovement>
    var carts: map<Id, Cart>
    var users: seq<User>

    /** The constraints every collection keeps between requests. */
    ghost predicate Valid()
      reads this
    {
      (forall id :: id in products ==> ProductValid(products[id])) &&
      DistinctMovementIds(movements) &&
      CartsValid(carts) &&
      UsersValid(users)
    }

    /** An empty database. */
    constructor ()
      ensures Valid()
      ensures products == map[] && movements == [] && carts == map[] && users == []
    {
      products, movements, carts, users := map[], [], map[], [];
    }

    /**
     * `cart.save()`: the `pre('save')` hook stamps `updatedAt`, then the
     * document is written under its (unique) owner.
     */
    method SaveCart(c: Cart, now: int)
      requires Valid() && OneLinePerProduct(c.items)
      modifies this
      ensures Valid()
      ensures carts == old(carts)[c.user := PreSave(c, now)]
      ensures products == old(products) && movements == old(movements) && users == old(users)
    {
      carts := carts[c.user := PreSave(c, now)];
    }
  }
}
