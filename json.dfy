/**
 * Request values as the controllers receive them (`req.body` after JSON or
 * multipart parsing), and the two coercions applied to them: Joi's conversion
 * during validation and Mongoose's casting when a document is written.
 */
module Json {
  import opened Wrappers
  import Text

  /** A JSON value; objects are kept opaque because no rule looks inside them. */
  datatype Value = JNull | JBool(b: bool) | JNum(n: int) | JStr(s: string) | JArr(items: seq<Value>) | JObj

  /** A request body: the keys that are present, with their values (`undefined` = absent). */
  type Body = map<string, Value>

  /** JavaScript truthiness (`x || ''`, `if (x)`). */
  predicate Truthy(v: Value) {
    match v
    case JNull => false
    case JBool(b) => b
    case JNum(n) => n != 0
    case JStr(s) => s != ""
    case JArr(_) => true
    case JObj => true
  }

  /** Number.MAX_SAFE_INTEGER: Joi's `number()` rejects values outside the safe range. */
  const MaxSafeInteger: int := 9007199254740991

  /**
   * Joi `number()` in its default converting mode: a number, or a string
   * holding a decimal integer literal (what a multipart form sends).
   */
  function JoiNumber(v: Value): (r: Option<int>)
    ensures r.Some? ==> -MaxSafeInteger <= r.value <= MaxSafeInteger
    ensures v.JNum? && -MaxSafeInteger <= v.n <= MaxSafeInteger ==> r == Some(v.n)
    ensures v.JStr? && Text.IsIntLiteral(v.s) && -MaxSafeInteger <= Text.ParseInt(v.s) <= MaxSafeInteger
            ==> r == Some(Text.ParseInt(v.s))
    ensures !v.JNum? && !v.JStr? ==> r == None
  {
    var n :=
      match v
      case JNum(n) => Some(n)
      case JStr(s) => if Text.IsIntLiteral(s) then Some(Text.ParseInt(s)) else None
      case _ => None;
    if n.Some? && -MaxSafeInteger <= n.value <= MaxSafeInteger then n else None
  }

  /** Joi `boolean()` in converting mode: a boolean, or the string 'true' or 'false'. */
  function JoiBoolean(v: Value): (r: Option<bool>)
    ensures r.Some? <==> v.JBool? || v == JStr("true") || v == JStr("false")
    ensures r == Some(true) <==> v == JBool(true) || v == JStr("true")
  {
    match v
    case JBool(b) => Some(b)
    case JStr(s) => if s == "true" then Some(true) else if s == "false" then Some(false) else None
    case _ => None
  }

  /**
   * Mongoose's cast to a String path: strings as they are, numbers and
   * booleans through `toString()`; arrays and plain objects fail to cast.
   * A null is kept as the empty string here (see README).
   */
  function CastString(v: Value): (r: Option<string>)
    ensures r.None? <==> v.JArr? || v.JObj?
    ensures v.JStr? ==> r == Some(v.s)
  {
    match v
    case JNull => Some("")
    case JBool(b) => Some(if b then "true" else "false")
    case JNum(n) => Some(Text.IntToString(n))
    case JStr(s) => Some(s)
    case JArr(_) => None
    case JObj => None
  }

  /**
   * Mongoose's cast to a required Number path: numbers, numeric strings and
   * booleans (as 1 and 0) cast; null and '' become null, which a required path
   * refuses; anything else fails to cast. Both failures are None.
   */
  function CastNumber(v: Value): (r: Option<int>)
    ensures v.JNum? ==> r == Some(v.n)
    ensures v.JNull? || v.JArr? || v.JObj? || v == JStr("") ==> r.None?
    ensures v.JStr? ==> (r.Some? <==> Text.IsIntLiteral(v.s))
    ensures JoiNumber(v).Some? ==> r == JoiNumber(v)
  {
    match v
    case JNull => None
    case JBool(b) => Some(if b then 1 else 0)
    case JNum(n) => Some(n)
    case JStr(s) => if Text.IsIntLiteral(s) then Some(Text.ParseInt(s)) else None
    case JArr(_) => None
    case JObj => None
  }

  /**
   * Mongoose's cast to a Boolean path with its default lists:
   * true, 'true', 1, '1', 'yes' cast to true; false, 'false', 0, '0', 'no' to false.
   */
  function CastBoolean(v: Value): (r: Option<bool>)
    ensures r == Some(true) <==> v in {JBool(true), JStr("true"), JNum(1), JStr("1"), JStr("yes")}
    ensures r == Some(false) <==> v in {JBool(false), JStr("false"), JNum(0), JStr("0"), JStr("no")}
    ensures JoiBoolean(v).Some? ==> r == JoiBoolean(v)
  {
    if v in {JBool(true), JStr("true"), JNum(1), JStr("1"), JStr("yes")} then Some(true)
    else if v in {JBool(false), JStr("false"), JNum(0), JStr("0"), JStr("no")} then Some(false)
    else None
  }

  /** Casting the rendering of a number back gives the number (multipart round trip). */
  lemma CastNumberOfString(n: int)
    ensures CastNumber(JStr(Text.IntToString(n))) == Some(n)
  {
    Text.IntToStringRoundTrip(n);
  }
}
