/**
 * `productValidationSchema` (backend/validations/productValidation.js) as a
 * predicate on the request data, with Joi's defaults: unknown keys are
 * refused, `string()` refuses '', and `number()`/`boolean()` convert strings.
 */
module ProductValidation {
  import opened Json

  const SchemaKeys: set<string> := {"name", "description", "images", "price", "category", "available", "stock"}

  /** `Joi.string().required()`: present, a string, not empty. */
  predicate RequiredString(data: Body, key: string) {
    key in data && data[key].JStr? && data[key].s != ""
  }

  /**
   * The `images` alternatives: an array of non-empty strings (URLs or file
   * names), or a single string, which may be ''.
   */
  predicate ImagesOk(v: Value) {
    v.JStr? || (v.JArr? && forall i :: 0 <= i < |v.items| ==> v.items[i].JStr? && v.items[i].s != "")
  }

  predicate Valid(data: Body) {
    && data.Keys <= SchemaKeys
    && RequiredString(data, "name")
    && RequiredString(data, "description")
    && ("images" in data ==> ImagesOk(data["images"]))
    && "price" in data && JoiNumber(data["price"]).Some?
    && RequiredString(data, "category")
    && ("available" in data ==> JoiBoolean(data["available"]).Some?)
    && "stock" in data && JoiNumber(data["stock"]).Some? && JoiNumber(data["stock"]).value >= 0
  }

  /** Stock is required, numeric and at least 0; a negative stock is refused whatever else is sent. */
  lemma StockRule(data: Body)
    ensures Valid(data) ==> "stock" in data && JoiNumber(data["stock"]).Some? && JoiNumber(data["stock"]).value >= 0
    ensures "stock" !in data ==> !Valid(data)
    ensures "stock" in data && JoiNumber(data["stock"]).Some? && JoiNumber(data["stock"]).value < 0 ==> !Valid(data)
  {
  }

  /** A product with stock 0 and a negative price, sent as a multipart form of strings, is accepted. */
  lemma ZeroStockAndNegativePriceAccepted()
    ensures Valid(map["name" := JStr("Mate"), "description" := JStr("Calabaza"), "price" := JStr("-5"),
                      "category" := JStr("Bazar"), "available" := JStr("true"), "stock" := JStr("0")])
  {
    assert Text.IsIntLiteral("-5") && Text.ParseInt("-5") == -5;
    assert Text.IsIntLiteral("0") && Text.ParseInt("0") == 0;
  }

  /** name, description and category are required non-empty strings. */
  lemma RequiredStrings(data: Body)
    ensures Valid(data) ==> RequiredString(data, "name") && RequiredString(data, "description") &&
                            RequiredString(data, "category")
    ensures "name" in data && data["name"] == JStr("") ==> !Valid(data)
  {
  }

  /** images may be absent, one string (even ''), or a list of non-empty strings; nothing else. */
  lemma ImagesRule(data: Body)
    ensures Valid(data) && "images" in data ==>
      data["images"].JStr? || (data["images"].JArr? && forall i :: 0 <= i < |data["images"].items| ==>
        data["images"].items[i].JStr? && data["images"].items[i].s != "")
    ensures "images" in data && (data["images"].JNull? || data["images"].JNum? || data["images"] == JArr([JStr("")]))
            ==> !Valid(data)
  {
    if "images" in data && data["images"] == JArr([JStr("")]) {
      assert data["images"].items[0].s == "";
    }
  }

  /** available is optional and must be a boolean when present. */
  lemma AvailableRule(data: Body)
    ensures "available" in data && data["available"].JNum? ==> !Valid(data)
    ensures Valid(data) && "available" in data ==> JoiBoolean(data["available"]).Some?
  {
  }

  /** Keys outside the schema (an `_id` sent back, say) are refused. */
  lemma UnknownKeyRefused(data: Body, key: string)
    requires key in data && key !in SchemaKeys
    ensures !Valid(data)
  {
  }
}
