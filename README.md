# Storefront business rules in Dafny

This project models the sequential business rules of a small Express/MongoDB
storefront and of its React client, and proves what those rules promise.

**Backend.** The database is a class `Store.Db` with one field per
collection: products, stock movements, carts and users. Every controller
handler is a method that `modifies` the database. Each method is proved
against a pure function of its module. That function gives the status code
and the collections after the request. Lemmas about those functions state
the rules:

- **Stock ledger (`adjustStock`).** Its guards run in order, and the stock
  is never negative afterwards. Exactly one movement is appended, and an
  adjustment followed by its inverse restores the stock.
- **Movement log.** Edit and delete act on the log only.
- **Carts.** Add merges into an existing line or appends one; update sets a
  line's quantity; remove filters the product out. The cart is created
  lazily. These operations keep one line per product and one cart per user,
  for product ids sent in the canonical lower-case form (see "Left out").
- **Catalogue.** The `images` normalisation of create and update is modelled
  exactly, next to the Joi product schema as a predicate and the Mongoose
  casts that produce the stored document.
- **Accounts.** This covers registration with unique lower-case emails,
  login, and the password-reset token life cycle.
- **Uploads.** The MIME filter, the 5 MiB limit and the stored file name.

**Client.** The client logic is pure functions over sequences, with the
filter-and-sort effects of the product list and the admin panel as methods
proved equal to them:

- the cart context's list updaters;
- the product list's filter and sort effect, its pagination, its category
  list and its add-to-cart guard;
- the admin panel's movement filter, sort, statistics and local
  delete/edit mirroring;
- the image carousel index.

**Environment values as parameters.** Clocks (`now`), fresh ids (`newId`),
bcrypt's hash and compare (`hashed`, `matches`), the random reset token and
the mail transport's success (`mailOk`) are parameters of the operations
that use them. JavaScript's `Array.prototype.sort` is modelled as a stable
insertion sort (`Lists.SortBy`), and `localeCompare` as an abstract order
`nameLe`.

## Model

| member | source | states |
|---|---|---|
| Models.NewProduct | backend/models/Product.js:3-32 | A new product has no images and is available by default. It is valid iff name, description and category are non-empty and stock is at least 0. |
| Models.TypeName | backend/models/stockMovement.js:13-17 | A movement type is stored as exactly 'ingreso' or 'egreso'. |
| Models.NewMovement | backend/models/stockMovement.js:3-31 | A new movement keeps product, quantity, type and user. An omitted description becomes ''. `createdAt` is the creation time. |
| Models.NewCart | backend/models/Cart.js:9-13 | A new cart belongs to its user, has no lines, and takes the creation time as `updatedAt`. |
| Models.PreSave | backend/models/Cart.js:16-19 | The pre-save hook changes only `updatedAt`, which becomes the save time. |
| Models.NewUser | backend/models/User.js:3-22 | A new user's email is stored in lower case. The role defaults to client, and no reset is pending. |
| Store.Db.SaveCart | backend/models/Cart.js:9-19 | Saving a cart stamps `updatedAt` and writes it under its unique owner. It keeps every collection invariant, and the other collections are unchanged. |
| Json.JoiNumber | backend/validations/productValidation.js:26-29 | Joi's converting `number()` accepts a safe integer, or a string holding one as a signed decimal literal. Anything that is not a number or a string is refused. |
| Json.JoiBoolean | backend/validations/productValidation.js:33 | Joi's `boolean()` accepts exactly true, false, 'true' and 'false', with their meaning. |
| Json.CastString | backend/controllers/stockController.js:51 | Mongoose's String cast fails exactly on arrays and objects. A string is kept as it is. |
| Json.CastNumber | backend/controllers/stockMovementController.js:40 | Mongoose's Number cast agrees with Joi wherever Joi accepts. It refuses null, '' and every string that is not a signed decimal integer literal (the other forms `Number()` converts are under "Left out"). |
| Json.CastBoolean | backend/controllers/productController.js:40 | Mongoose's Boolean cast follows its true and false lists, and agrees with Joi wherever Joi accepts. |
| Json.CastNumberOfString | backend/controllers/productController.js:40 | A number rendered as a form string casts back to itself. |
| StockController.CallerId | backend/controllers/stockController.js:7-15 | The caller is `_id`, or else `id`. It is None exactly when there is no user or both ids are missing or empty. |
| StockController.MovementTypeOf | backend/controllers/stockController.js:44 | The type is 'ingreso' iff the quantity is at least 0, and 'egreso' iff it is below 0. |
| StockController.StoredDescription | backend/controllers/stockController.js:51 | A missing or falsy description is stored as ''. A string is stored as sent. The value fails to cast iff it is an array or an object. |
| StockController.Adjust | backend/controllers/stockController.js:4-61 | The guards give 401, 400, 404 and 400, in order, with no write. Past them, only the target's stock changes, by the quantity. A 200 returns the new stock, which is at least 0, and appends exactly one movement (product, quantity, type by sign, description, caller, time). A description that cannot be cast gives 500 after the increment. |
| StockController.AdjustKeepsStockNonNegative | backend/controllers/stockController.js:32-41 | No request, successful or not, leaves a negative stock. |
| StockController.AdjustMatchesLog | backend/controllers/stockController.js:37-54 | On success, the stock change equals the change in that product's net in the log. Every other product's net is unchanged. |
| StockController.AdjustThenUndo | backend/controllers/stockController.js:32-54 | Adjusting by D and then by -D restores every stock. It appends two movements whose quantities sum to 0. |
| StockController.UndoIsAccepted | backend/controllers/stockController.js:32-34 | The inverse of a successful adjustment always passes the guard. |
| StockController.AdjustStock | backend/controllers/stockController.js:4-61 | The handler on the database does what `Adjust` says. It keeps the database invariants and touches neither carts nor users. |
| StockMovementController.IndexOfMovement | backend/controllers/stockMovementController.js:20 | Gives the first movement with the id, or None iff no movement has it. |
| StockMovementController.Edit | backend/controllers/stockMovementController.js:31-48 | An unknown id gives 404 and no change. Otherwise the quantity and description are overwritten only when sent. Id, type, product, user and time stay, and the other records are untouched. A value that cannot be cast gives 500 with no change. The status is always 200, 404 or 500. |
| StockMovementController.EditNothingKeepsLog | backend/controllers/stockMovementController.js:40-42 | An edit that sends neither field leaves the log as it was. |
| StockMovementController.NetMovementAfterReplace | backend/controllers/stockMovementController.js:40-42 | Changing one record's quantity shifts that product's net by the difference. No other product's net changes. |
| StockMovementController.EditDecouplesLogFromStock | backend/controllers/stockMovementController.js:31-48 | Editing a quantity changes the log's net by the difference while the stock stays put. |
| StockMovementController.Delete | backend/controllers/stockMovementController.js:17-29 | An unknown id gives 404 and no change. Otherwise the status is 200 and exactly the found record is removed, the rest kept in order. |
| StockMovementController.RemoveAt | backend/controllers/stockMovementController.js:20 | Removing position i shortens the log by one and shifts the later records down. |
| StockMovementController.RemoveAtIds | backend/controllers/stockMovementController.js:20 | With distinct ids, removing a record removes exactly its id. |
| StockMovementController.RemoveAtDistinct | backend/controllers/stockMovementController.js:20 | Removing a record keeps the ids distinct. |
| StockMovementController.DeleteRemovesExactlyOne | backend/controllers/stockMovementController.js:17-29 | After a delete, the ids are exactly the old ones minus the target, and they stay distinct. |
| StockMovementController.GetStockMovements | backend/controllers/stockMovementController.js:3-15 | Returns every stored movement with status 200. |
| StockMovementController.UpdateMovement | backend/controllers/stockMovementController.js:31-48 | The handler does what `Edit` says and changes no product, cart or user. |
| StockMovementController.DeleteMovement | backend/controllers/stockMovementController.js:17-29 | The handler does what `Delete` says and changes no product, cart or user. |
| CartController.IndexOfProduct | backend/controllers/cartController.js:36 | `findIndex` gives the first line of the product, or None iff no line has it. |
| CartController.FindIndex | backend/controllers/cartController.js:36 | The scan returns that index, or -1. |
| CartController.RemoveProduct | backend/controllers/cartController.js:93 | The filter keeps only lines of other products, drawn from the list. With nothing to drop, the list is unchanged. |
| CartController.RemoveProductKeepsOthers | backend/controllers/cartController.js:93 | Every line of another product survives. |
| CartController.RemoveProductAppend | backend/controllers/cartController.js:93 | The filter distributes over concatenation, so kept lines stay in order. |
| CartController.FilterOutProduct | backend/controllers/cartController.js:93 | The loop computes exactly the filter. |
| CartController.Get | backend/controllers/cartController.js:5-18 | Returns the user's lines, or [] when there is no cart. Status is 200 and nothing is created. |
| CartController.Add | backend/controllers/cartController.js:20-57 | An unknown product gives 404 and no change. A present line grows by the quantity and the line count stays. An absent line is appended at the end. A missing cart is created first. An omitted quantity gives 1 on a new line, and 500 with no change on an existing one. The status is always 200, 404 or 500. |
| CartController.Update | backend/controllers/cartController.js:59-84 | No cart, or no such line, gives 404 and no change. Otherwise the line's quantity is set exactly and the other lines are untouched. |
| CartController.Remove | backend/controllers/cartController.js:86-105 | No cart gives 404. Otherwise every line of the product is dropped and the rest are kept. An absent product leaves the lines unchanged with 200. |
| CartController.RemoveKeepsOneLine | backend/controllers/cartController.js:93 | Filtering keeps one line per product. |
| CartController.AddKeepsCartsValid | backend/controllers/cartController.js:20-57 | Add keeps one cart per user and one line per product, with product ids compared as the canonical strings. |
| CartController.UpdateKeepsCartsValid | backend/controllers/cartController.js:59-84 | Update keeps one cart per user and one line per product. |
| CartController.RemoveKeepsCartsValid | backend/controllers/cartController.js:86-105 | Remove keeps one cart per user and one line per product. |
| CartController.AddTwiceMerges | backend/controllers/cartController.js:36-43 | Adding a product twice, q1 then q2, yields one line of q1 + q2 appended after the old lines. |
| CartController.AddAddSetScenario | backend/controllers/cartController.js:20-84 | On an empty store, add 2, add 3, then set 1 gives the lines [2], [5] and [1]. |
| CartController.GetCart | backend/controllers/cartController.js:5-18 | A read: the user's lines, or [] with nothing created. |
| CartController.AddToCart | backend/controllers/cartController.js:20-57 | The handler does what `Add` says, keeps the invariants, and touches nothing but carts. |
| CartController.UpdateCartItem | backend/controllers/cartController.js:59-84 | The handler does what `Update` says, keeps the invariants, and touches nothing but carts. |
| CartController.RemoveFromCart | backend/controllers/cartController.js:86-105 | The handler does what `Remove` says, keeps the invariants, and touches nothing but carts. |
| ProductValidation.StockRule | backend/validations/productValidation.js:36-40 | Stock is required and numeric. A negative stock is refused; 0 is allowed. |
| ProductValidation.ZeroStockAndNegativePriceAccepted | backend/validations/productValidation.js:26-40 | A multipart form with stock '0' and price '-5' passes: price has no lower bound. |
| ProductValidation.RequiredStrings | backend/validations/productValidation.js:4-9 | Name, description and category are required non-empty strings, and an empty name is refused. |
| ProductValidation.ImagesRule | backend/validations/productValidation.js:10-25 | Images is optional. It may be one string (even '') or a list of non-empty strings. Null, a number and [''] are refused. |
| ProductValidation.AvailableRule | backend/validations/productValidation.js:33 | Available is optional, must be a Joi boolean when present, and a number is refused. |
| ProductValidation.UnknownKeyRefused | backend/validations/productValidation.js:3-41 | Any key outside the schema is refused. |
| ProductController.ToJson | backend/controllers/productController.js:72 | Stored image names become the JSON list of those strings. |
| ProductController.CastImages | backend/controllers/productController.js:40 | A validated single string becomes a one-element list. A list is taken item by item, each non-empty. |
| ProductController.ImagesRoundTrip | backend/controllers/productController.js:70-79 | Stored images sent back through validation and the cast come back unchanged. |
| ProductController.CreateData | backend/controllers/productController.js:25-32 | A file gives [file name] and a string gives [string]. Any other value is left as sent, and all other keys are untouched. |
| ProductController.ProductFromData | backend/controllers/productController.js:40 | The saved document is valid for the schema. It holds the converted price, stock and available, and defaults for the fields left out. |
| ProductController.Create | backend/controllers/productController.js:23-46 | Gives 400 with no write iff the normalised data fails the schema. Otherwise 201 and one new document under the new id. |
| ProductController.CreateBlankImageRefused | backend/controllers/productController.js:30-38 | On create without a file, a blank images string becomes [''], which is refused. |
| ProductController.UpdateData | backend/controllers/productController.js:58-73 | A file wins. A blank or whitespace-only string gives []. Any other sent value becomes [value], untrimmed. An absent value keeps the stored images. |
| ProductController.ApplyUpdate | backend/controllers/productController.js:82 | Every field sent overwrites the stored one, cast. Available and images stay when not sent. The result is schema-valid. |
| ProductController.Update | backend/controllers/productController.js:48-87 | Gives 404 for an unknown id before anything else, and 400 with no write on a schema failure. Otherwise 200 and only that document changes. |
| ProductController.UpdateKeepsImagesWhenOmitted | backend/controllers/productController.js:70-73 | Without a file or an images key, a successful update keeps the stored images. |
| ProductController.UpdateBlankClearsImages | backend/controllers/productController.js:63-65 | A blank images string empties the list. |
| ProductController.UpdateIdempotent | backend/controllers/productController.js:48-87 | Sending the same update twice gives the same catalogue as sending it once, up to the `updatedAt` timestamp, which the model does not hold. |
| ProductController.Delete | backend/controllers/productController.js:89-99 | Gives 404 and no change for an unknown id. Otherwise 200 and exactly that document is removed. |
| ProductController.CreateThenDelete | backend/controllers/productController.js:23-99 | Deleting a product just created under a fresh id restores the catalogue. |
| ProductController.GetProducts | backend/controllers/productController.js:4-11 | Returns every stored product. |
| ProductController.GetProductById | backend/controllers/productController.js:13-21 | Gives 404 iff the id is unknown; otherwise 200 and the stored document. |
| ProductController.CreateProduct | backend/controllers/productController.js:23-46 | The handler does what `Create` says and keeps the invariants. |
| ProductController.UpdateProduct | backend/controllers/productController.js:48-87 | The handler does what `Update` says and keeps the invariants. |
| ProductController.DeleteProduct | backend/controllers/productController.js:89-99 | The handler does what `Delete` says. Carts and movements naming the product are left as they are. |
| AuthValidation.IndexOf | backend/validations/authValidation.js:7-10 | Gives the first position of a character, or None iff it is absent. |
| AuthValidation.EmailShape | backend/validations/authValidation.js:7-10 | A well-formed email has at least 5 characters and an '@' strictly inside. |
| AuthValidation.ShortPasswordRefused | backend/validations/authValidation.js:11-14 | A registration password shorter than 6 characters is refused. |
| AuthValidation.RegisterBodyLogsIn | backend/validations/authValidation.js:3-25 | Every valid registration's email and password pass the login schema. |
| AuthValidation.EmailAccepted | backend/validations/authValidation.js:7-10 | 'ana@x.co' is accepted. |
| AuthValidation.EmailRefused | backend/validations/authValidation.js:7-10 | 'ana', '@x.co' and 'a@xco' are refused. |
| AuthController.SessionOf | backend/controllers/authController.js:30-34 | The session token carries the user's id, email and role. |
| AuthController.FindByEmail | backend/controllers/authController.js:19 | Looks up by the lower-cased address: the first match, or None iff nobody has it. |
| AuthController.Register | backend/controllers/authController.js:8-40 | An invalid body gives 400 before any lookup. A taken email gives 400 and no user. Otherwise 201: exactly one user is appended with the hashed password, with a client session. |
| AuthController.RegisterKeepsUsersValid | backend/controllers/authController.js:19-27 | Registration keeps ids and lower-case emails unique. |
| AuthController.RegisterDuplicateAnyCase | backend/controllers/authController.js:19-20 | An address already registered is refused in any letter case. |
| AuthController.Login | backend/controllers/authController.js:42-71 | An invalid body gives 400 and an unknown email 404. A wrong password gives 400. Only a matching pair gives 200 and a session. |
| AuthController.RegisterThenLogin | backend/controllers/authController.js:8-71 | A user just registered logs in with that password, in any letter case, and gets their own session. |
| AuthController.ForgotPassword | backend/controllers/authController.js:73-127 | The intended behaviour recorded under "Findings"; the code as written is `AuthController.ForgotPasswordAsWritten`. An unknown email gives 200 and no change. A known one stores the token with expiry now + 3600000, overwriting any earlier one. Mail failure gives 500 after the save. |
| AuthController.ForgotPasswordAsWritten | backend/controllers/authController.js:85-89 | As written, the users are never changed. The status is 500 iff the user exists and the mail fails. |
| AuthController.FindByToken | backend/controllers/authController.js:134-137 | Gives the first user holding the token with an expiry strictly after now, or None iff there is none. |
| AuthController.ResetPassword | backend/controllers/authController.js:129-158 | No live token gives 400 and no change. Missing a password to hash gives 500 and no change. Otherwise the password is replaced and the token and expiry are cleared. |
| AuthController.ForgotThenResetWithinHour | backend/controllers/authController.js:85-151 | A reset within the hour, with the mailed token, sets exactly that user's password and clears the token. |
| AuthController.ExpiredTokenRejected | backend/controllers/authController.js:134-141 | Once the expiry has passed, the mailed token is refused. |
| AuthController.TokenSingleUse | backend/controllers/authController.js:144-151 | A token used once is refused afterwards. |
| AuthController.ResetAfterForgotAsWrittenFails | backend/controllers/authController.js:85-141 | As written, a reset right after forgotPassword is refused. |
| AuthController.RegisterUser | backend/controllers/authController.js:8-40 | The handler does what `Register` says and keeps the invariants. |
| AuthController.LoginUser | backend/controllers/authController.js:42-71 | A read that returns what `Login` says. |
| AuthController.RequestReset | backend/controllers/authController.js:73-127 | The handler does what the intended `ForgotPassword` says (see "Findings"; the code as written is `AuthController.ForgotPasswordAsWritten`) and keeps the invariants. |
| AuthController.CompleteReset | backend/controllers/authController.js:129-158 | The handler does what `ResetPassword` says and keeps the invariants. |
| Upload.FileFilter | backend/middleware/upload.js:14-19 | A file is accepted iff its MIME type starts with "image/". |
| Upload.FileFilterSamples | backend/middleware/upload.js:14-19 | 'image/png' passes; 'text/plain', 'IMAGE/PNG' and 'image' do not. |
| Upload.LastIndexOf | backend/middleware/upload.js:27 | Gives the last position of a character, or None iff it is absent. |
| Upload.ExtName | backend/middleware/upload.js:27 | The extension is '' or a dot-led suffix of the name with no further dot. A name without a dot has none. |
| Upload.BaseName | backend/middleware/upload.js:28 | A proper suffix is cut off; otherwise the name stays. |
| Upload.StoredNameShape | backend/middleware/upload.js:26-30 | The stored name is basename + '-' + timestamp + extension. |
| Upload.StampHasNoDot | backend/middleware/upload.js:29 | The '-timestamp' part contains no dot. |
| Upload.KeepsNonEmptyExtension | backend/middleware/upload.js:26-30 | A name with an extension keeps it. |
| Upload.KeepsEmptyExtension | backend/middleware/upload.js:26-30 | A name without one (other than '..') gets none. |
| Upload.StoredNameKeepsExtension | backend/middleware/upload.js:26-30 | The stored name keeps the original extension. |
| Upload.DotDotGainsExtension | backend/middleware/upload.js:26-30 | '..' is the one exception: its stored name gains an extension. |
| Upload.Receive | backend/middleware/upload.js:14-38 | A non-image is refused, and so is an image over 5242880 bytes. Otherwise the file is stored under the generated name. |
| CartContext.QuantityOf | frontend/src/context/CartContext.jsx:16 | Gives the quantity of the line for an id, or 0 when there is none. |
| CartContext.AddToCart | frontend/src/context/CartContext.jsx:13-27 | A present id has its lines incremented by exactly 1 and the rest stay. A new product is appended with quantity 1. |
| CartContext.RemoveFromCart | frontend/src/context/CartContext.jsx:30-32 | Removes the lines with that id and keeps the others. An absent id leaves the list unchanged. |
| CartContext.RemoveKeepsOrder | frontend/src/context/CartContext.jsx:30-32 | With one line per id, removing the id on line k gives exactly the list without line k, the others in their order. |
| CartContext.UpdateQuantity | frontend/src/context/CartContext.jsx:35-41 | Sets the quantity on the matching line and leaves everything else. An absent id is a no-op. |
| CartContext.ClearCart | frontend/src/context/CartContext.jsx:44-46 | Gives the empty list. |
| CartContext.UpdatersKeepUniqueIds | frontend/src/context/CartContext.jsx:13-46 | Every updater keeps one line per id. |
| CartContext.FilterKeepsUnique | frontend/src/context/CartContext.jsx:31 | Filtering keeps one line per id. |
| CartContext.AddAddsOne | frontend/src/context/CartContext.jsx:13-25 | Adding raises that product's quantity by exactly 1, whatever quantity the caller meant. |
| CartContext.AddLeavesOthers | frontend/src/context/CartContext.jsx:19-21 | Adding leaves every other id's quantity unchanged. |
| CartContext.AddThenRemove | frontend/src/context/CartContext.jsx:13-32 | Removing a product just added gives the same list as removing it directly. |
| ProductList.CategoryList | frontend/src/components/ProductList.jsx:108 | Gives each product's category, in order. |
| ProductList.CategoriesSortedDistinct | frontend/src/components/ProductList.jsx:108 | The category list is strictly increasing and holds exactly the products' categories. |
| ProductList.EmptySearchKeepsAll | frontend/src/components/ProductList.jsx:113-117 | An empty search keeps every product, in order. |
| ProductList.EmptyCategoryKeepsAll | frontend/src/components/ProductList.jsx:118-120 | An empty category keeps every product, in order. |
| ProductList.SortForOption | frontend/src/components/ProductList.jsx:121-129 | The result is a permutation, sorted by price or by name (ascending or descending) as chosen. Any other option keeps the order. |
| ProductList.NameOrder | frontend/src/components/ProductList.jsx:126-128 | Comparing by name either way round is a total preorder when the name order is one. |
| ProductList.ApplyFilters | frontend/src/components/ProductList.jsx:111-132 | The result holds exactly the products both controls keep, each as often as given, sorted as chosen. The page resets to 1. |
| ProductList.SliceIndex | frontend/src/components/ProductList.jsx:137 | A slice index is clamped into [0, n]. |
| ProductList.PageItems | frontend/src/components/ProductList.jsx:135-137 | Page p shows the items from (p-1)*6 up to p*6, at most 6 of them. |
| ProductList.TotalPages | frontend/src/components/ProductList.jsx:138 | The page count is the ceiling of n/6. |
| ProductList.FirstPagesPrefix | frontend/src/components/ProductList.jsx:135-138 | Pages 1..k laid end to end are the first 6k items. |
| ProductList.PagesCoverAll | frontend/src/components/ProductList.jsx:135-138 | All pages together show every item once, in order. Every page in range is non-empty, and later pages are empty. |
| ProductList.InCart | frontend/src/components/ProductList.jsx:152-153 | Gives the quantity of the first line for the product, or 0. |
| ProductList.HandleAddToCart | frontend/src/components/ProductList.jsx:147-163 | Without a user, a login prompt. Stock minus the cart quantity below 1, or a request above it, gives the stock alert. Otherwise the product is added and the cart total stays within stock. |
| ProductList.OutOfStockNeverAdded | frontend/src/components/ProductList.jsx:152-159 | A product without stock is never handed to the cart. |
| ProductList.InCartNonNegative | frontend/src/components/ProductList.jsx:152-153 | With non-negative lines, the cart quantity is non-negative. |
| ProductDetails.Next | frontend/src/components/ProductDetails.jsx:69-73 | From the last index the next is 0, otherwise index + 1. The index stays in range, and one image or none leaves it unchanged. |
| ProductDetails.Prev | frontend/src/components/ProductDetails.jsx:63-67 | From 0 the previous is the last index, otherwise index - 1. The index stays in range, and one image or none leaves it unchanged. |
| ProductDetails.PrevNextInverse | frontend/src/components/ProductDetails.jsx:63-73 | Prev undoes Next and Next undoes Prev. |
| ProductDetails.NextTimesBelowCount | frontend/src/components/ProductDetails.jsx:51-73 | From index 0 (set on load), k presses of Next reach image k. |
| ProductDetails.CarouselCycles | frontend/src/components/ProductDetails.jsx:51-73 | Every image is reached, and a full round returns to 0. |
| AdminPanel.Movements | frontend/src/components/AdminPanel.jsx:84 | The panel's rows carry the stored movements, position by position. |
| AdminPanel.EndDayExcludedAsWritten | frontend/src/components/AdminPanel.jsx:111-113 | As written, a movement at 10:00 on the end day is dropped; the intended bound keeps it. |
| AdminPanel.SameDayRangeIsThatDay | frontend/src/components/AdminPanel.jsx:108-113 | With start and end on the same day, exactly that day's movements are kept. |
| AdminPanel.AllTypesKeepsAll | frontend/src/components/AdminPanel.jsx:100-102 | Type 'all' keeps every movement, in order. |
| AdminPanel.EmptyControlsKeepAll | frontend/src/components/AdminPanel.jsx:103-110 | An empty search or start keeps every movement, in order. |
| AdminPanel.EmptyEndKeepsAll | frontend/src/components/AdminPanel.jsx:111-113 | An empty end keeps every movement, in order, under the written and the intended bound. |
| AdminPanel.SortForOrder | frontend/src/components/AdminPanel.jsx:114-119 | The result is a permutation ordered by `createdAt`: ascending for 'asc', descending for anything else. |
| AdminPanel.ApplyFilters | frontend/src/components/AdminPanel.jsx:98-121 | The result holds exactly the movements that every control keeps, each as often as received, in the chosen order. With `AsWritten` the end bound is the code's `<=` midnight starting the end day; with `Inclusive` it is the intended bound of "Findings". |
| AdminPanel.AsWrittenKeepsFewer | frontend/src/components/AdminPanel.jsx:111-113 | Every movement the written filter keeps, the intended one keeps too. A movement after midnight on the end day that passes the other controls is kept only by the intended one. |
| AdminPanel.Statistics | frontend/src/components/AdminPanel.jsx:124-131 | The total is the filtered length, and the net change is the sum of all quantities. |
| AdminPanel.NetChangeIsSum | frontend/src/components/AdminPanel.jsx:124-131 | The ingreso total plus the egreso total is the sum of every quantity. |
| AdminPanel.HandleDelete | frontend/src/components/AdminPanel.jsx:158-167 | A failed server call changes nothing. After a success, only movements with that id are gone. |
| AdminPanel.LocalDeleteMirrorsServer | frontend/src/components/AdminPanel.jsx:158-167 | When the panel holds the server's log, the local delete leaves exactly what the server's delete leaves. |
| AdminPanel.HandleMovementUpdated | frontend/src/components/AdminPanel.jsx:181-186 | The movement with the edited id is replaced and the others are untouched. |
| AdminPanel.UpdateKeepsIds | frontend/src/components/AdminPanel.jsx:181-186 | Mirroring an edit keeps the ids distinct. |
| AdminPanel.LocalUpdateMirrorsServer | frontend/src/components/AdminPanel.jsx:181-186 | When the panel holds the server's log, mirroring the saved record leaves exactly the server's log. |

## Left out

- Concurrency: each request is one atomic, sequential step. The race between the stock check and `$inc`, and the two separate writes of `adjustStock`, are not interleaved with other requests.
- bcrypt, JWT signing and verification, `crypto.randomBytes` and nodemailer are opaque. Their results are parameters: `hashed`, `matches`, `token`, `mailOk`. A session is the claims record, not a signed string.
- The auth and admin middleware are reduced to their outcome: the caller's claims (`StockController.CallerId`) or the acting user's id.
- Routing is not modelled. No route reaches `adjustStock`, which is modelled as an operation of its own.
- Populate re-fetches, the Express error handler and the exact messages of error responses are not modelled; only status codes and data are.
- Malformed ObjectIds (a CastError answered with 500) are not distinguished from unknown ids. Ids are strings compared exactly, whereas Mongoose casts a 24-digit hex id to an ObjectId in any letter case. `findById` and the other by-id lookups (StockController.Adjust, ProductController.Update, ProductController.Delete, ProductController.GetProductById) therefore find a product under its upper-case spelling, where the model answers 404.
- CartController.Add and CartController.AddKeepsCartsValid: a product id sent in a non-canonical spelling (upper-case hex) is found by `findById` in the code, but `item.product.toString() === productId` compares against the lower-case form. So the code appends a second line for a product already in the cart and answers 200. The model answers 404 for that spelling, and the one-line-per-product invariant holds only for canonical ids.
- AuthController.ForgotPassword and AuthController.RequestReset: `email` is taken from the body without validation and passed to `findOne`. The model takes it as a string; a non-string body value (an object that Mongo reads as a query operator, a number) is not modelled.
- AuthController.ResetPassword and AuthController.CompleteReset: `token` is taken from the body without validation and passed to `findOne`. The model takes it as a string. An object such as `{"$gt": ""}` would act as a query operator and match the first user with any live token. That case is not modelled, so AuthController.FindByToken, AuthController.Opens and AuthController.TokenSingleUse speak of string tokens only.
- AuthValidation.RegisterValid and AuthValidation.ShortPasswordRefused: string length counts Unicode scalar values, while Joi's `min(6)` counts UTF-16 code units. A password of three characters above U+FFFF is six code units, so Joi accepts it and the model refuses it.
- ProductList.CategoriesSortedDistinct (through Text.LexLe): strings are ordered by Unicode scalar value, while the default `sort()` compares UTF-16 code units. The two orders differ between characters above U+FFFF and characters in U+E000 to U+FFFF.
- Prices, quantities and timestamps are integers. Floating-point prices, fractional Joi numbers and `toFixed` formatting are not modelled.
- Json.JoiBoolean: Joi also accepts 'TRUE' and other casings of 'true'/'false'; only the exact lower-case strings are modelled.
- Json.CastString: Mongoose keeps a null on a String path as null; the model stores it as ''.
- AuthValidation.EmailOk is a simplification of Joi's `email()`: no whitespace, one '@', a non-empty local part and a dotted domain. The top-level-domain list and the length limits are left out.
- `String.prototype.toLowerCase` is modelled on ASCII letters only.
- `localeCompare` is an abstract order `nameLe`. ProductList.SortForOption states sortedness by name only when that order is total and transitive.
- ProductList.SortForOption and AdminPanel.SortForOrder: `Array.prototype.sort` is modelled as a stable insertion sort (`Lists.SortBy`), so the result is stable by construction, but stability is not stated as a contract.
- The time zone is UTC: `new Date('YYYY-MM-DD')` is midnight UTC of that day (`AdminPanel.DayStart`).
- The client cart files do not agree: ProductList.jsx reads `item.product._id` and passes a quantity that CartContext.jsx ignores, while CartContext.jsx stores flat lines keyed by `_id`. Each file is modelled as written (`ProductList.CartEntry`, `CartContext.Line`), without reconciling them.
- CartController.Add: the body quantity is an integer or omitted. JavaScript's `+=` on other JSON values is not modelled. On an existing line a string is concatenated and then cast ('2' on a line of 3 gives 32), null adds nothing and a boolean adds 1 or 0. On a new line a null is stored as null, a numeric string is cast and any other value fails with 500.
- CartController.Update: the body quantity is an integer. A string that casts is stored as its number, one that does not fails the save with 500, null is stored as null, and an omitted quantity unsets the path; none of these is modelled.
- Json.JoiNumber: strings are limited to signed decimal integer literals. Joi also trims surrounding white space and accepts decimals and exponents whose value is a safe integer (' 5', '5.0', '1e3'). So the model refuses some bodies Joi accepts: a product with stock ' 5' gives 400 here and 201 in the code.
- Json.CastNumber: strings are limited to signed decimal integer literals. Mongoose's `Number()` also accepts surrounding white space, decimals, exponents and hexadecimal ('1e3' is 1000, '0x10' is 16), and turns a string of only white space into 0. These are refused here: an edit with quantity '1e3' gives 500 here and 200 in the code.
- The `timestamps: true` option of backend/models/Product.js:33-35 and backend/models/User.js:23-25 adds `createdAt` and `updatedAt` to products and users; neither is modelled.
- ProductController.UpdateIdempotent: holds up to `updatedAt`. `findByIdAndUpdate` restamps it on every call, and the model does not hold it.
- Cart line quantities are integers with no lower bound, as the schema declares. Nothing in the code enforces a quantity of at least 1.
- The upload folder's `mkdirSync`, file storage itself and file names containing '/' are not modelled.
- The XLS export of the admin panel and all rendering are not modelled.
- Upload.StoredNameKeepsExtension excludes the name '..', for which the property is false (Upload.DotDotGainsExtension).
- AuthController.TokenSingleUse assumes no other user holds the same token, which a random 20-byte token gives in practice.
- AuthController.RegisterKeepsUsersValid and AuthController.RegisterUser assume the new id is fresh and the hash is non-empty, as Mongo and bcrypt guarantee.
- ProductController.CreateProduct assumes the new id is fresh, as Mongo guarantees.
- CartContext.AddAddsOne and CartContext.AddLeavesOthers assume one line per id, which every updater keeps (CartContext.UpdatersKeepUniqueIds).

## Findings

| source | as written | input that shows it | evidently intended | confidence | as-written member | corrected member |
|---|---|---|---|---|---|---|
| backend/controllers/authController.js:85-89 | forgotPassword assigns `resetPasswordToken` and `resetPasswordExpires`, but backend/models/User.js:3-22 declares neither path. Mongoose does not save values assigned to undeclared paths, so nothing is stored, and resetPassword's lookup never finds the token. That lookup answers 400 when `strictQuery` is off, the default from Mongoose 7. With it on, the default of Mongoose 6, the two unknown filter keys are dropped and the lookup matches the first user instead. The Mongoose version is not part of this model. | A user asks for a reset and submits the mailed token a minute later: resetPassword answers 400. | The token and its expiry are stored, and a reset within the hour succeeds and clears them. | medium, not executed | AuthController.ResetAfterForgotAsWrittenFails | AuthController.ForgotThenResetWithinHour |
| frontend/src/components/AdminPanel.jsx:111-113 | The "Hasta" filter keeps `createdAt <= new Date(endDate)`, which is midnight at the start of the chosen day. Every movement made during that day is dropped. | End date 2024-05-10 and a movement at 2024-05-10T10:00Z: it is dropped. | The end date is inclusive: every movement before the end of that day is kept. | high, not executed | AdminPanel.EndDayExcludedAsWritten | AdminPanel.SameDayRangeIsThatDay |
