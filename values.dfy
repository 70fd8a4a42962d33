/** The JavaScript values the diff engine walks. The source is dynamically
    typed; the model fixes the four shapes the engine distinguishes. */
module Values {

  /** `Null` stands for both `null` and `undefined` (the engine only ever
      tests them with `== null`); `Scalar` is a primitive, kept as the text
      its `toString()` produces; `Obj` is a plain object; `Arr` an array. */
  datatype Value =
    | Null
    | Scalar(text: string)
    | Obj(fields: map<string, Value>)
    | Arr(items: seq<Value>)

  /** What `Object.prototype.toString` renders a plain object as. */
  const ObjectText := "[object Object]"

  /** `v[key]`: an object's own property, and `undefined` for a property the
      object lacks or for a value that is not an object. */
  function FieldOf(v: Value, key: string): (r: Value)
    ensures v.Obj? && key in v.fields ==> r == v.fields[key]
    ensures !(v.Obj? && key in v.fields) ==> r == Null
  {
    match v
    case Obj(m) => if key in m then m[key] else Null
    case _ => Null
  }

  /** JavaScript truthiness, as `filter((x) => x.c && x.d)` applies it: null,
      undefined and the empty string are falsy. */
  predicate Truthy(v: Value) {
    !v.Null? && v != Scalar("")
  }

  /** `v.toString()` for a value that is neither null nor undefined. An array
      renders as `join(',')` of its elements. */
  function Text(v: Value): string
    requires !v.Null?
    decreases v
  {
    match v
    case Scalar(s) => s
    case Obj(_) => ObjectText
    case Arr(items) => JoinText(items)
  }

  /** `items.join(',')`, which renders null and undefined elements as "". */
  function JoinText(items: seq<Value>): string
    decreases items
  {
    if items == [] then ""
    else
      var head := if items[0].Null? then "" else Text(items[0]);
      if |items| == 1 then head else head + "," + JoinText(items[1..])
  }
}
