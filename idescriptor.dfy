/** The descriptor metadata: an immutable description of a type, giving for
    each field a display label or a nested descriptor, plus an optional name,
    a kind, an optional key function and an optional comparer. */
module IDescriptor {
  import opened Wrappers
  import opened Values
  import JsArray

  /** How a field map entry behaves during the walk. */
  datatype DescriptorType = Field | Object | Array

  /** The value of one field map entry: a display label (a scalar field), a
      nested descriptor (an object or array field), or an entry that is
      present but null or undefined. */
  datatype FieldSpec =
    | Label(text: string)
    | Nested(descriptor: Descriptor)
    | Unset

  /** A field map: its (key, entry) pairs in `Object.keys` order. */
  datatype FieldMap = FieldMap(entries: seq<(string, FieldSpec)>)

  /** `fieldMap` is None when the map itself is null or undefined. */
  datatype Descriptor = Descriptor(
    fieldMap: Option<FieldMap>,
    descriptorName: Option<string>,
    descriptorType: DescriptorType,
    keyFn: Option<Value -> string>,
    comparer: Option<(Value, Value) -> bool>)

  /** `new Descriptor(map)`: every other constructor argument at its default. */
  function NewDescriptor(fieldMap: Option<FieldMap>): (d: Descriptor)
    ensures d.fieldMap == fieldMap
    ensures d.descriptorName.None? && d.descriptorType == Object
    ensures d.keyFn.None? && d.comparer.None?
  {
    Descriptor(fieldMap, None, Object, None, None)
  }

  /** The keys of a field map, in order. */
  function Keys(m: FieldMap): (r: seq<string>)
    ensures |r| == |m.entries|
    ensures forall i :: 0 <= i < |m.entries| ==> r[i] == m.entries[i].0
  {
    seq(|m.entries|, i requires 0 <= i < |m.entries| => m.entries[i].0)
  }

  /** `map[key]`: the entry stored under `key`, if the map has that key. */
  function Lookup(m: FieldMap, key: string): (r: Option<FieldSpec>)
    ensures r.None? <==> key !in Keys(m)
    ensures r.Some? ==> exists i :: 0 <= i < |m.entries| && m.entries[i].0 == key && r.value == m.entries[i].1
                                    && forall j :: 0 <= j < i ==> m.entries[j].0 != key
  {
    var i := JsArray.IndexOf(Keys(m), key);
    if i < 0 then None else Some(m.entries[i].1)
  }

  /** `getFields()`: the map's keys in insertion order, none when the map is absent. */
  function GetFields(d: Descriptor): (r: seq<string>)
    ensures d.fieldMap.None? ==> r == []
    ensures d.fieldMap.Some? ==> |r| == |d.fieldMap.value.entries|
    ensures d.fieldMap.Some? ==> forall i :: 0 <= i < |r| ==> r[i] == d.fieldMap.value.entries[i].0
  {
    if d.fieldMap.Some? then Keys(d.fieldMap.value) else []
  }

  /** The entry `map[key]` when it is truthy: a missing map, a missing key, an
      unset entry and an empty label all read as falsy. */
  function TruthyEntry(d: Descriptor, key: string): Option<FieldSpec> {
    if d.fieldMap.None? then None
    else match Lookup(d.fieldMap.value, key)
      case Some(Label(s)) => if s == "" then None else Some(Label(s))
      case Some(Nested(n)) => Some(Nested(n))
      case _ => None
  }

  /** `getFieldType(key)`: null for a falsy entry, `Field` for a label, and
      the nested descriptor's own `descriptorType` for a descriptor. */
  function GetFieldType(d: Descriptor, key: string): (r: Option<DescriptorType>)
    ensures r.None? <==> TruthyEntry(d, key).None?
    ensures d.fieldMap.None? ==> r.None?
    ensures d.fieldMap.Some? && key !in Keys(d.fieldMap.value) ==> r.None?
    ensures d.fieldMap.Some? && Lookup(d.fieldMap.value, key) == Some(Unset) ==> r.None?
    ensures d.fieldMap.Some? && Lookup(d.fieldMap.value, key) == Some(Label("")) ==> r.None?
    ensures forall s :: d.fieldMap.Some? && Lookup(d.fieldMap.value, key) == Some(Label(s)) && s != "" ==> r == Some(Field)
    ensures TruthyEntry(d, key).Some? && TruthyEntry(d, key).value.Nested? ==>
              r == Some(TruthyEntry(d, key).value.descriptor.descriptorType)
  {
    match TruthyEntry(d, key)
    case None => None
    case Some(Nested(n)) => Some(n.descriptorType)
    case Some(_) => Some(Field)
  }

  /** `getDescription(key)`: null when the field type is null; the entry
      itself for a `Field` entry (a label, or a descriptor whose `toString()`
      is the object text); the nested descriptor's name otherwise, which is
      itself null for an unnamed descriptor. */
  function GetDescription(d: Descriptor, key: string): (r: Option<string>)
    ensures GetFieldType(d, key).None? ==> r.None?
    ensures GetFieldType(d, key) == Some(Field) ==> r.Some?
    ensures forall n :: TruthyEntry(d, key) == Some(Nested(n)) && n.descriptorType == Field ==> r == Some(ObjectText)
    ensures forall s :: TruthyEntry(d, key) == Some(Label(s)) ==> r == Some(s)
    ensures GetFieldType(d, key).Some? && GetFieldType(d, key) != Some(Field) ==>
              r == TruthyEntry(d, key).value.descriptor.descriptorName
  {
    match TruthyEntry(d, key)
    case None => None
    case Some(Label(s)) => Some(s)
    case Some(Nested(n)) => if n.descriptorType == Field then Some(ObjectText) else n.descriptorName
    case Some(Unset) => None
  }

  /** `Compare(a, b)`: "same entity". The comparer decides when there is one;
      otherwise equal keys decide when there is a key function; otherwise
      nothing is the same entity. */
  function Compare(d: Descriptor, a: Value, b: Value): (r: bool)
    ensures d.comparer.Some? ==> r == d.comparer.value(a, b)
    ensures d.comparer.None? && d.keyFn.Some? ==> (r <==> d.keyFn.value(a) == d.keyFn.value(b))
    ensures d.comparer.None? && d.keyFn.None? ==> !r
  {
    if d.comparer.Some? then d.comparer.value(a, b)
    else if d.keyFn.Some? then d.keyFn.value(a) == d.keyFn.value(b)
    else false
  }
}
