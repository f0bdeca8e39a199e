/** JavaScript values as the request handlers see them: parsed JSON bodies,
    Express query objects and the documents read from or written to the store. */
module JsValues {

  datatype Option<+T> = None | Some(value: T)

  /** A JavaScript value. JSON numbers are modelled as reals; `Date` and
      `ObjectId` are the two non-JSON values a stored document carries. */
  datatype Value =
    | Undefined
    | Null
    | Bool(b: bool)
    | Number(x: real)
    | Str(s: string)
    | Array(items: seq<Value>)
    | Object(fields: map<string, Value>)
    | Date(time: int)
    | ObjectId(id: nat)

  /** A plain object: property name to value (key order is not modelled). */
  type Object = map<string, Value>

  /** Property access `o[k]`: a missing property reads as `undefined`. */
  function Get(o: Object, k: string): (v: Value)
    ensures k !in o ==> v == Undefined
    ensures k in o ==> v == o[k]
  {
    if k in o then o[k] else Undefined
  }
}
