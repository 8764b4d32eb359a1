/**
 * The four Mongoose schemas (backend/models): the records the store holds,
 * their defaults and the constraints a saved document satisfies.
 */
module Models {
  import opened Wrappers
  import Text

  /** Document ids, compared as strings (`item.product.toString() === productId`). */
  type Id = string

  // ---------------------------------------------------------------- Product

  datatype Product = Product(
    name: string,
    description: string,
    images: seq<string>,
    price: int,
    category: string,
    available: bool,
    stock: int)

  const DefaultImages: seq<string> := []
  const DefaultAvailable: bool := true

  /**
   * What the product schema demands of a saved document: name, description
   * and category present (Mongoose's `required` refuses '' for strings) and
   * `stock` at least 0. Price is required but unbounded.
   */
  predicate ProductValid(p: Product) {
    p.name != "" && p.description != "" && p.category != "" && p.stock >= 0
  }

  /** A product built from its required fields gets the schema defaults. */
  function NewProduct(name: string, description: string, price: int, category: string, stock: int): (p: Product)
    ensures p.images == [] && p.available
    ensures p.name == name && p.description == description && p.price == price
    ensures p.category == category && p.stock == stock
    ensures ProductValid(p) <==> name != "" && description != "" && category != "" && stock >= 0
  {
    Product(name, description, DefaultImages, price, category, DefaultAvailable, stock)
  }

  /** A product as the API sends it to the client: its `_id` and its fields. */
  datatype ProductDoc = ProductDoc(id: Id, product: Product)

  // ---------------------------------------------------------- StockMovement

  datatype MovementType = Ingreso | Egreso

  /** The enum's stored strings. */
  function TypeName(t: MovementType): (s: string)
    ensures s == "ingreso" || s == "egreso"
    ensures t == Ingreso <==> s == "ingreso"
  {
    match t
    case Ingreso => "ingreso"
    case Egreso => "egreso"
  }

  datatype StockMovement = StockMovement(
    id: Id,
    product: Id,
    quantity: int,
    kind: MovementType,
    description: string,
    user: Id,
    createdAt: int)

  const DefaultDescription: string := ""

  /**
   * `new StockMovement({...})`: an omitted description becomes '' and
   * `createdAt` is the creation time.
   */
  function NewMovement(id: Id, product: Id, quantity: int, kind: MovementType,
                       description: Option<string>, user: Id, now: int): (m: StockMovement)
    ensures m.id == id && m.product == product && m.quantity == quantity && m.kind == kind && m.user == user
    ensures m.description == (if description.Some? then description.value else "")
    ensures m.createdAt == now
  {
    StockMovement(id, product, quantity, kind, description.GetOr(DefaultDescription), user, now)
  }

  function MovementIds(ms: seq<StockMovement>): (ids: set<Id>)
    ensures forall i :: 0 <= i < |ms| ==> ms[i].id in ids
    ensures forall id :: id in ids ==> exists i :: 0 <= i < |ms| && ms[i].id == id
  {
    set i | 0 <= i < |ms| :: ms[i].id
  }

  /** No two movements share an `_id`. */
  predicate DistinctMovementIds(ms: seq<StockMovement>) {
    forall i, j :: 0 <= i < j < |ms| ==> ms[i].id != ms[j].id
  }

  // ------------------------------------------------------------------- Cart

  datatype CartItem = CartItem(product: Id, quantity: int)

  /** The schema default of a line's quantity. */
  const DefaultQuantity: int := 1

  datatype Cart = Cart(user: Id, items: seq<CartItem>, updatedAt: int)

  /** `new Cart({ user, items: [] })`; `updatedAt` defaults to the creation time. */
  function NewCart(user: Id, now: int): (c: Cart)
    ensures c.user == user && c.items == [] && c.updatedAt == now
  {
    Cart(user, [], now)
  }

  /** The `pre('save')` hook: every save stamps `updatedAt` with the save time. */
  function PreSave(c: Cart, now: int): (r: Cart)
    ensures r.user == c.user && r.items == c.items
    ensures r.updatedAt == now
  {
    c.(updatedAt := now)
  }

  /** At most one line per product. */
  predicate OneLinePerProduct(items: seq<CartItem>) {
    forall i, j :: 0 <= i < j < |items| ==> items[i].product != items[j].product
  }

  /**
   * The carts collection, keyed by owner: `user` is required and unique, so a
   * user has at most one cart, and each cart keeps one line per product.
   */
  predicate CartsValid(carts: map<Id, Cart>) {
    forall u :: u in carts ==> carts[u].user == u && OneLinePerProduct(carts[u].items)
  }

  // ------------------------------------------------------------------- User

  datatype Role = Admin | Client

  datatype User = User(
    id: Id,
    name: string,
    email: string,
    password: string,
    role: Role,
    resetPasswordToken: Option<string>,
    resetPasswordExpires: Option<int>)

  const DefaultRole: Role := Client

  /**
   * `new User({ name, email, password })`: the email is stored lower-cased,
   * the role defaults to client and no reset token is pending.
   */
  function NewUser(id: Id, name: string, email: string, password: string): (u: User)
    ensures u.id == id && u.name == name && u.password == password
    ensures u.email == Text.ToLower(email) && Text.ToLower(u.email) == u.email
    ensures u.role == Client
    ensures u.resetPasswordToken.None? && u.resetPasswordExpires.None?
  {
    Text.ToLowerIdempotent(email);
    User(id, name, email := Text.ToLower(email), password := password, role := DefaultRole,
         resetPasswordToken := None, resetPasswordExpires := None)
  }

  /** A saved user: required fields present and the email in lower case. */
  predicate UserValid(u: User) {
    u.name != "" && u.email != "" && u.password != "" && Text.ToLower(u.email) == u.email
  }

  /** The users collection: every user valid, `_id` and `email` unique. */
  predicate UsersValid(users: seq<User>) {
    (forall i :: 0 <= i < |users| ==> UserValid(users[i])) &&
    (forall i, j :: 0 <= i < j < |users| ==> users[i].id != users[j].id && users[i].email != users[j].email)
  }
}
