/**
 * backend/controllers/productController.js: the product catalogue. The two
 * writers first normalise `images` (an uploaded file wins), then validate
 * with the product schema, then let Mongoose cast the unconverted data.
 */
module ProductController {
  import opened Wrappers
  import opened Json
  import opened Models
  import Text
  import ProductValidation
  import Store

  /** A list of stored file names as the JSON array Joi sees. */
  function ToJson(names: seq<string>): (v: Value)
    ensures v.JArr? && |v.items| == |names|
    ensures forall i :: 0 <= i < |names| ==> v.items[i] == JStr(names[i])
  {
    JArr(seq(|names|, i requires 0 <= i < |names| => JStr(names[i])))
  }

  /** Mongoose's cast of a validated `images` value to the `[String]` path; a single string becomes a one-element list. */
  function CastImages(v: Value): (r: seq<string>)
    requires ProductValidation.ImagesOk(v)
    ensures v.JStr? ==> r == [v.s]
    ensures v.JArr? ==> |r| == |v.items| && forall i :: 0 <= i < |r| ==> v.items[i] == JStr(r[i]) && r[i] != ""
  {
    if v.JStr? then [v.s] else seq(|v.items|, i requires 0 <= i < |v.items| => v.items[i].s)
  }

  /** Stored image names that pass the schema come back unchanged through Joi and Mongoose. */
  lemma ImagesRoundTrip(names: seq<string>)
    requires forall i :: 0 <= i < |names| ==> names[i] != ""
    ensures ProductValidation.ImagesOk(ToJson(names))
    ensures CastImages(ToJson(names)) == names
  {
    var v := ToJson(names);
    var r := CastImages(v);
    assert |r| == |names|;
    forall i | 0 <= i < |names| ensures r[i] == names[i] {
      assert v.items[i] == JStr(names[i]) == JStr(r[i]);
    }
  }

  // ------------------------------------------------------------- create

  /**
   * createProduct's image step: an uploaded file's stored name replaces
   * whatever was sent; a single string is wrapped in a list (even ''); any
   * other value is left for the validator. Other keys are untouched.
   */
  function CreateData(body: Body, file: Option<string>): (data: Body)
    ensures forall k :: k in body && k != "images" ==> k in data && data[k] == body[k]
    ensures data.Keys == body.Keys + (if file.Some? then {"images"} else {})
    ensures file.Some? ==> data["images"] == JArr([JStr(file.value)])
    ensures file.None? && "images" in body ==>
      data["images"] == (if body["images"].JStr? then JArr([body["images"]]) else body["images"])
    ensures "images" in data ==> !data["images"].JStr?
  {
    if file.Some? then body["images" := JArr([JStr(file.value)])]
    else if "images" in body && body["images"].JStr? then body["images" := JArr([body["images"]])]
    else body
  }

  /** The document `new Product(productData)` saves: Mongoose casts of the validated fields, schema defaults for the rest. */
  function ProductFromData(data: Body): (p: Product)
    requires ProductValidation.Valid(data)
    ensures ProductValid(p)
    ensures p.name == data["name"].s && p.description == data["description"].s && p.category == data["category"].s
    ensures Some(p.price) == JoiNumber(data["price"]) && Some(p.stock) == JoiNumber(data["stock"])
    ensures "images" !in data ==> p.images == DefaultImages
    ensures "available" !in data ==> p.available == DefaultAvailable
    ensures "available" in data ==> Some(p.available) == JoiBoolean(data["available"])
  {
    Product(
      data["name"].s,
      data["description"].s,
      if "images" in data then CastImages(data["images"]) else DefaultImages,
      CastNumber(data["price"]).value,
      data["category"].s,
      if "available" in data then CastBoolean(data["available"]).value else DefaultAvailable,
      CastNumber(data["stock"]).value)
  }

  /** A catalogue step: the collection afterwards, the status, and the document returned. */
  datatype Outcome = Outcome(products: map<Id, Product>, status: int, product: Option<Product>)

  /** createProduct: 400 and no write when the normalised data fails the schema, otherwise 201 and one new document. */
  function Create(products: map<Id, Product>, body: Body, file: Option<string>, newId: Id): (r: Outcome)
    ensures r.status == 400 <==> !ProductValidation.Valid(CreateData(body, file))
    ensures r.status == 400 ==> r.products == products && r.product.None?
    ensures r.status != 400 ==>
      && r.status == 201
      && r.product == Some(ProductFromData(CreateData(body, file)))
      && r.products == products[newId := r.product.value]
  {
    var data := CreateData(body, file);
    if !ProductValidation.Valid(data) then Outcome(products, 400, None)
    else
      var p := ProductFromData(data);
      Outcome(products[newId := p], 201, Some(p))
  }

  /**
   * A blank image string without a file is refused on create (it becomes
   * `['']`, whose only item is empty), unlike update, which clears the list.
   */
  lemma CreateBlankImageRefused(products: map<Id, Product>, body: Body, newId: Id)
    requires "images" in body && body["images"] == JStr("")
    ensures Create(products, body, None, newId).status == 400
  {
    var data := CreateData(body, None);
    assert data["images"].items[0] == JStr("");
  }

  // ------------------------------------------------------------- update

  /**
   * updateProduct's image step: a file wins; a sent value that is a blank
   * string clears the images; any other sent value is wrapped in a list as
   * it is; nothing sent keeps the stored images. Other keys are untouched,
   * and the result always carries `images` as a list.
   */
  function UpdateData(body: Body, file: Option<string>, existing: seq<string>): (data: Body)
    ensures forall k :: k in body && k != "images" ==> k in data && data[k] == body[k]
    ensures data.Keys == body.Keys + {"images"}
    ensures data["images"].JArr?
    ensures file.Some? ==> data["images"] == JArr([JStr(file.value)])
    ensures file.None? && "images" !in body ==> data["images"] == ToJson(existing)
    ensures file.None? && "images" in body ==>
      (data["images"] == JArr([]) <==> body["images"].JStr? && Text.Trim(body["images"].s) == "")
    ensures file.None? && "images" in body && !(body["images"].JStr? && Text.Trim(body["images"].s) == "") ==>
      data["images"] == JArr([body["images"]])
  {
    if file.Some? then body["images" := JArr([JStr(file.value)])]
    else if "images" in body then
      if body["images"].JStr? && Text.Trim(body["images"].s) == "" then body["images" := JArr([])]
      else body["images" := JArr([body["images"]])]
    else body["images" := ToJson(existing)]
  }

  /** `findByIdAndUpdate(id, productData)`: every key sent overwrites the stored field (cast by Mongoose); the rest stay. */
  function ApplyUpdate(p: Product, data: Body): (q: Product)
    requires ProductValidation.Valid(data)
    ensures ProductValid(q)
    ensures q.name == data["name"].s && q.description == data["description"].s && q.category == data["category"].s
    ensures Some(q.price) == JoiNumber(data["price"]) && Some(q.stock) == JoiNumber(data["stock"])
    ensures q.images == (if "images" in data then CastImages(data["images"]) else p.images)
    ensures "available" !in data ==> q.available == p.available
    ensures "available" in data ==> Some(q.available) == JoiBoolean(data["available"])
  {
    p.(name := data["name"].s,
       description := data["description"].s,
       images := if "images" in data then CastImages(data["images"]) else p.images,
       price := CastNumber(data["price"]).value,
       category := data["category"].s,
       available := if "available" in data then CastBoolean(data["available"]).value else p.available,
       stock := CastNumber(data["stock"]).value)
  }

  /** updateProduct: 404 for an unknown id (checked before anything else), 400 on a schema failure, otherwise 200. */
  function Update(products: map<Id, Product>, id: Id, body: Body, file: Option<string>): (r: Outcome)
    ensures r.status == 404 <==> id !in products
    ensures r.status == 400 <==> id in products && !ProductValidation.Valid(UpdateData(body, file, products[id].images))
    ensures r.status != 200 ==> r.products == products && r.product.None?
    ensures r.status == 200 ==>
      && id in products
      && ProductValidation.Valid(UpdateData(body, file, products[id].images))
      && r.product == Some(ApplyUpdate(products[id], UpdateData(body, file, products[id].images)))
      && r.products == products[id := r.product.value]
    ensures r.status in {200, 400, 404}
  {
    if id !in products then Outcome(products, 404, None)
    else
      var data := UpdateData(body, file, products[id].images);
      if !ProductValidation.Valid(data) then Outcome(products, 400, None)
      else
        var q := ApplyUpdate(products[id], data);
        Outcome(products[id := q], 200, Some(q))
  }

  /** Without a file and without an `images` key, a successful update keeps the stored images. */
  lemma UpdateKeepsImagesWhenOmitted(products: map<Id, Product>, id: Id, body: Body)
    requires "images" !in body
    requires Update(products, id, body, None).status == 200
    ensures Update(products, id, body, None).products[id].images == products[id].images
  {
    var existing := products[id].images;
    var data := UpdateData(body, None, existing);
    assert ProductValidation.ImagesOk(data["images"]);
    forall i | 0 <= i < |existing| ensures existing[i] != "" {
      assert data["images"].items[i] == JStr(existing[i]);
    }
    ImagesRoundTrip(existing);
  }

  /** A blank image string without a file clears the images of a product that is otherwise updated. */
  lemma UpdateBlankClearsImages(products: map<Id, Product>, id: Id, body: Body)
    requires "images" in body && body["images"].JStr? && Text.Trim(body["images"].s) == ""
    requires Update(products, id, body, None).status == 200
    ensures Update(products, id, body, None).products[id].images == []
  {
  }

  /** Sending the same update twice leaves the catalogue as one send does. */
  lemma UpdateIdempotent(products: map<Id, Product>, id: Id, body: Body, file: Option<string>)
    requires Update(products, id, body, file).status == 200
    ensures var once := Update(products, id, body, file).products;
            Update(once, id, body, file).products == once
  {
    var p := products[id];
    var data := UpdateData(body, file, p.images);
    var q := ApplyUpdate(p, data);
    var data2 := UpdateData(body, file, q.images);
    if file.None? && "images" !in body {
      UpdateKeepsImagesWhenOmitted(products, id, body);
      assert q.images == p.images;
    }
    assert data2 == data;
    assert ApplyUpdate(q, data) == q;
  }

  // ------------------------------------------------------------- delete

  /** deleteProduct: 404 for an unknown id, otherwise 200 and the document gone. */
  function Delete(products: map<Id, Product>, id: Id): (r: Outcome)
    ensures r.status == 404 <==> id !in products
    ensures r.status == 404 ==> r.products == products
    ensures r.status != 404 ==> r.status == 200 && r.products.Keys == products.Keys - {id}
    ensures forall k :: k in r.products ==> k in products && r.products[k] == products[k]
    ensures r.product.None?
  {
    if id !in products then Outcome(products, 404, None)
    else Outcome(products - {id}, 200, None)
  }

  /** Deleting a product just created under a fresh id gives back the catalogue as it was. */
  lemma CreateThenDelete(products: map<Id, Product>, body: Body, file: Option<string>, newId: Id)
    requires newId !in products
    requires Create(products, body, file, newId).status == 201
    ensures Delete(Create(products, body, file, newId).products, newId).products == products
  {
    var after := Delete(Create(products, body, file, newId).products, newId).products;
    assert after.Keys == products.Keys;
  }

  // ------------------------------------------------------------- handlers

  /** getProducts: every stored product. */
  method GetProducts(db: Store.Db) returns (status: int, products: map<Id, Product>)
    ensures status == 200 && products == db.products
  {
    status, products := 200, db.products;
  }

  /** getProductById: the stored document, or 404. */
  method GetProductById(db: Store.Db, id: Id) returns (status: int, product: Option<Product>)
    ensures status == 404 <==> id !in db.products
    ensures status == 404 ==> product.None?
    ensures status != 404 ==> status == 200 && product == Some(db.products[id])
  {
    if id !in db.products {
      return 404, None;
    }
    status, product := 200, Some(db.products[id]);
  }

  /** createProduct on the store; `newId` is the id Mongo assigns. */
  method CreateProduct(db: Store.Db, body: Body, file: Option<string>, newId: Id) returns (status: int, product: Option<Product>)
    requires db.Valid() && newId !in db.products
    modifies db
    ensures var r := Create(old(db.products), body, file, newId);
            status == r.status && product == r.product && db.products == r.products
    ensures db.movements == old(db.movements) && db.carts == old(db.carts) && db.users == old(db.users)
    ensures db.Valid()
  {
    var r := Create(db.products, body, file, newId);
    db.products := r.products;
    status, product := r.status, r.product;
  }

  /** updateProduct on the store. */
  method UpdateProduct(db: Store.Db, id: Id, body: Body, file: Option<string>) returns (status: int, product: Option<Product>)
    requires db.Valid()
    modifies db
    ensures var r := Update(old(db.products), id, body, file);
            status == r.status && product == r.product && db.products == r.products
    ensures db.movements == old(db.movements) && db.carts == old(db.carts) && db.users == old(db.users)
    ensures db.Valid()
  {
    if id !in db.products {
      return 404, None;
    }
    var data := UpdateData(body, file, db.products[id].images);
    if !ProductValidation.Valid(data) {
      return 400, None;
    }
    var q := ApplyUpdate(db.products[id], data);
    db.products := db.products[id := q];
    status, product := 200, Some(q);
  }

  /**
   * deleteProduct on the store. Carts and movements that name the product
   * are left as they are: nothing cascades.
   */
  method DeleteProduct(db: Store.Db, id: Id) returns (status: int)
    requires db.Valid()
    modifies db
    ensures status == Delete(old(db.products), id).status && db.products == Delete(old(db.products), id).products
    ensures db.movements == old(db.movements) && db.carts == old(db.carts) && db.users == old(db.users)
    ensures db.Valid()
  {
    if id !in db.products {
      return 404;
    }
    db.products := db.products - {id};
    status := 200;
  }
}
