/**
 * JavaScript values as they occur in JSON request bodies and in stored task
 * records, with the few language operations the store and the handlers apply
 * to them: property lookup, truthiness, `typeof` tests and `String(value)`.
 */
module Values {
  import opened Wrappers

  /** A JSON value, or a `Date` object placed in a record by the server. */
  datatype Value =
    | Null
    | Bool(b: bool)
    | Num(n: int)          // JSON numbers; only integers are modelled
    | Str(s: string)
    | Time(ms: int)        // a `Date`, as milliseconds since the epoch
    | Arr(items: seq<Value>)
    | Obj(fields: map<string, Value>)

  /** A plain object: a bag of named fields. */
  type Record = map<string, Value>

  /** A plain object the caller owns, whose fields a callee may rewrite in place. */
  class Payload {
    var fields: Record

    constructor (fields: Record)
      ensures this.fields == fields
    {
      this.fields := fields;
    }
  }

  /** `obj[key]`, where `None` stands for `undefined`. */
  function Get(r: Record, key: string): Option<Value>
  {
    if key in r then Some(r[key]) else None
  }

  /** JavaScript's ToBoolean: `undefined`, `null`, `false`, `0` and `""` are falsy. */
  predicate Truthy(v: Option<Value>)
  {
    match v
    case None => false
    case Some(Null) => false
    case Some(Bool(b)) => b
    case Some(Num(n)) => n != 0
    case Some(Str(s)) => s != []
    case Some(_) => true
  }

  /** `typeof v === "string"` */
  predicate IsString(v: Option<Value>)
  {
    v.Some? && v.value.Str?
  }

  /** `typeof v === "boolean"` */
  predicate IsBoolean(v: Option<Value>)
  {
    v.Some? && v.value.Bool?
  }

  function DigitText(d: nat): string
    requires d < 10
  {
    ["0123456789"[d]]
  }

  function NatText(n: nat): string
  {
    if n < 10 then DigitText(n) else NatText(n / 10) + DigitText(n % 10)
  }

  /** Decimal text of an integer, as `String` writes a safe integer. */
  function IntText(n: int): string
  {
    if n < 0 then "-" + NatText(-n) else NatText(n)
  }

  /** `parts.join(",")` */
  function JoinWithCommas(parts: seq<string>): string
  {
    if parts == [] then []
    else if |parts| == 1 then parts[0]
    else parts[0] + "," + JoinWithCommas(parts[1..])
  }

  /**
   * `String(v)`. Arrays join their elements with commas (a `null` element
   * gives the empty text), plain objects give "[object Object]". A `Date`
   * is rendered as its millisecond count, standing in for the host's
   * locale- and time-zone-dependent `Date.prototype.toString`.
   */
  function Stringify(v: Value): string
  {
    match v
    case Null => "null"
    case Bool(b) => if b then "true" else "false"
    case Num(n) => IntText(n)
    case Str(s) => s
    case Time(ms) => IntText(ms)
    case Arr(items) =>
      JoinWithCommas(seq(|items|, i requires 0 <= i < |items| =>
        if items[i].Null? then [] else Stringify(items[i])))
    case Obj(_) => "[object Object]"
  }
}
