/**
 * The JavaScript values a parsed request body or a stored JSON record can hold, and the three
 * conversions the submission handlers apply to them: truthiness (`x || ''`, `x || 'Unknown'`),
 * string conversion inside a template literal, and the `Date` constructor used by the sort.
 */
module JsValues {
  import opened Wrappers
  import Text

  /** A JSON value. Numbers are integers here (fractions are not modelled). */
  datatype Value =
    | Str(s: string)
    | Num(n: int)
    | Bool(b: bool)
    | Null
    | Arr(items: seq<Value>)
    | Obj(fields: map<string, Value>)

  /** A JSON object: the request body, a stored submission, a listing entry. */
  type Record = map<string, Value>

  /** The exceptions the handlers' `try` blocks catch. */
  datatype JsError =
    | TypeError(detail: string)      // a missing method, or an object with no primitive value
    | SyntaxError(fileName: string)  // `JSON.parse` of a file that holds no JSON object

  /** `record.key`: `None` stands for `undefined`. */
  function Get(record: Record, key: string): Option<Value>
  {
    if key in record then Some(record[key]) else None
  }

  /** JavaScript truthiness: "", 0, false and null are falsy; arrays and objects never are. */
  predicate Truthy(v: Value): (r: bool)
    ensures v.Arr? || v.Obj? ==> r
    ensures v.Null? ==> !r
    ensures v.Str? ==> (r <==> |v.s| > 0)
  {
    match v
    case Str(s) => s != ""
    case Num(n) => n != 0
    case Bool(b) => b
    case Null => false
    case Arr(_) => true
    case Obj(_) => true
  }

  function DigitChar(d: nat): char
    requires d < 10
  {
    "0123456789"[d]
  }

  function Digits(n: nat): string
  {
    if n < 10 then [DigitChar(n)] else Digits(n / 10) + [DigitChar(n % 10)]
  }

  /**
   * `String(n)` for an integer of magnitude at most 2^53. Beyond that a JavaScript number is a
   * rounded double and `String` prints the shortest digits that round back to it, which this
   * exact rendering does not reproduce.
   */
  function DecimalText(n: int): string
  {
    if n < 0 then "-" + Digits(-n) else Digits(n)
  }

  /** The message of the TypeError an unconvertible object or array raises. */
  const ConversionMessage := "Cannot convert object to primitive value"

  /**
   * Turning `v` into a primitive throws: an object with its own `toString` key (no JSON value
   * is callable, so that method is skipped, and the inherited `valueOf` returns the object
   * itself), or an array holding such a value, since `join` converts the elements one by one.
   */
  predicate Unconvertible(v: Value)
  {
    match v
    case Obj(fields) => "toString" in fields
    case Arr(items) => exists i :: 0 <= i < |items| && Unconvertible(items[i])
    case _ => false
  }

  /**
   * `String(v)`, as `${v}` inside a template literal renders it: a primitive's text,
   * `[object Object]` for an object, the elements joined by commas for an array, or the
   * TypeError of an unconvertible value.
   */
  function ToText(v: Value): (r: Result<string, JsError>)
    ensures r.Err? <==> Unconvertible(v)
    ensures r.Err? ==> r.error == TypeError(ConversionMessage)
    ensures v.Str? ==> r == Ok(v.s)
    decreases v, 1
  {
    match v
    case Str(s) => Ok(s)
    case Num(n) => Ok(DecimalText(n))
    case Bool(b) => Ok(if b then "true" else "false")
    case Null => Ok("null")
    case Arr(items) => ItemsText(items)
    case Obj(fields) =>
      if "toString" in fields then Err(TypeError(ConversionMessage)) else Ok("[object Object]")
  }

  /** `items.join(',')`: null elements become empty strings. */
  function ItemsText(items: seq<Value>): (r: Result<string, JsError>)
    ensures r.Err? <==> exists i :: 0 <= i < |items| && Unconvertible(items[i])
    ensures r.Err? ==> r.error == TypeError(ConversionMessage)
    decreases items, 0
  {
    if |items| == 0 then Ok("")
    else
      var first := if items[0].Null? then Ok("") else ToText(items[0]);
      var rest := ItemsText(items[1..]);
      assert (exists i :: 0 <= i < |items| && Unconvertible(items[i]))
             <==> Unconvertible(items[0]) || exists i :: 0 <= i < |items[1..]| && Unconvertible(items[1..][i]) by {
        forall i | 0 < i < |items|
          ensures items[i] == items[1..][i - 1]
        {
        }
      }
      if first.Err? then first
      else if rest.Err? then rest
      else Ok(if |items| == 1 then first.value else first.value + "," + rest.value)
  }

  /** `${v}` where `v` may be `undefined`. */
  function TemplateText(v: Option<Value>): (r: Result<string, JsError>)
    ensures r.Err? <==> v.Some? && Unconvertible(v.value)
    ensures v.None? ==> r == Ok("undefined")
  {
    if v.None? then Ok("undefined") else ToText(v.value)
  }

  /**
   * `${v || ''}`: falsy and missing values render as the empty string; objects and arrays are
   * truthy, so an unconvertible one still throws.
   */
  function OrEmpty(v: Option<Value>): (r: Result<string, JsError>)
    ensures r.Err? <==> v.Some? && Unconvertible(v.value)
    ensures v.None? ==> r == Ok("")
  {
    if v.Some? && Truthy(v.value) then ToText(v.value) else Ok("")
  }

  /** The largest magnitude of a valid time value, in milliseconds (TimeClip). */
  const MaxTimeValue: int := 8_640_000_000_000_000

  /** TimeClip: `None` stands for NaN, an invalid date. */
  function TimeClip(t: Option<int>): Option<int>
  {
    if t.Some? && -MaxTimeValue <= t.value <= MaxTimeValue then t else None
  }

  /**
   * The time value of `new Date(v)`, `None` for an invalid date. `parse` is `Date.parse`, an
   * input to the model. A primitive is converted to a number, except that a string is parsed;
   * arrays and objects are first converted to primitives, which may throw.
   */
  function DateOf(v: Option<Value>, parse: string -> Option<int>): (r: Result<Option<int>, JsError>)
    ensures r.Err? <==> v.Some? && Unconvertible(v.value)
    ensures v.None? ==> r == Ok(None)
    ensures r.Ok? && r.value.Some? ==> -MaxTimeValue <= r.value.value <= MaxTimeValue
  {
    match v
    case None => Ok(None)
    case Some(Str(s)) => Ok(TimeClip(parse(s)))
    case Some(Num(n)) => Ok(TimeClip(Some(n)))
    case Some(Bool(b)) => Ok(Some(if b then 1 else 0))
    case Some(Null) => Ok(Some(0))
    case Some(Arr(_)) =>
      var text := ToText(v.value);
      if text.Err? then Err(text.error) else Ok(TimeClip(parse(text.value)))
    case Some(Obj(_)) =>
      var text := ToText(v.value);
      if text.Err? then Err(text.error) else Ok(TimeClip(parse(text.value)))
  }

  /** The digits of a natural number are decimal digits. */
  lemma {:induction false} DigitsArePlain(n: nat)
    ensures forall i :: 0 <= i < |Digits(n)| ==> '0' <= Digits(n)[i] <= '9'
  {
    if n >= 10 {
      DigitsArePlain(n / 10);
    }
  }

  /**
   * `String(n)` is decimal digits, after a `-` exactly when `n` is negative; so it never
   * contains a comma, a quote or a line break.
   */
  lemma DecimalTextPlain(n: int)
    ensures |DecimalText(n)| >= 1
    ensures DecimalText(n)[0] == '-' <==> n < 0
    ensures forall i :: 0 <= i < |DecimalText(n)| ==>
              '0' <= DecimalText(n)[i] <= '9' || (i == 0 && n < 0 && DecimalText(n)[i] == '-')
    ensures ',' !in DecimalText(n) && '"' !in DecimalText(n) && '\n' !in DecimalText(n)
  {
    var m: nat := if n < 0 then -n else n;
    DigitsArePlain(m);
    if n < 0 {
      assert DecimalText(n) == "-" + Digits(m);
      forall i | 1 <= i < |DecimalText(n)|
        ensures DecimalText(n)[i] == Digits(m)[i - 1]
      {
      }
    }
  }

  /** `${v || ''}` differs from `${v}` exactly on falsy values other than the empty string. */
  lemma OrEmptyDiffers(v: Value)
    ensures OrEmpty(Some(v)) != ToText(v) <==> !Truthy(v) && v != Str("")
  {
    match v
    case Num(n) =>
      if n == 0 { assert ToText(v) == Ok("0"); }
    case Bool(b) =>
    case Null =>
    case Str(s) =>
    case Arr(items) =>
    case Obj(_) =>
  }
}
