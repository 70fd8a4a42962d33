/** The nested-entry path of `collectChanges` as the source writes it.
    `getDescription` already reduces a nested entry to its descriptor's name
    (a string or null), and the path expression then reads `.descriptorName`
    of that result once more: a string has no such property (undefined), and
    null has no properties at all (a TypeError). The rest of the model uses
    the evidently intended path, `DiffEngine.JoinPath` applied to the nested
    descriptor's name. */
module Findings {
  import opened Wrappers
  import opened Values
  import opened IDescriptor
  import opened Details
  import opened DiffEngine
  import EngineLemmas

  /** What reading a property of null throws. */
  const NullPropertyError := "TypeError"

  /** `currentPath ? currentPath + delimeter + desc.descriptorName :
      desc.descriptorName` with `desc` the description string or null. */
  function NestedPathAsWritten(delimeter: string, currentPath: Option<string>, description: Option<string>): (r: Result<Option<string>>)
    ensures r.Err? <==> description.None?
    ensures r.Ok? && r.value.Some? ==> currentPath.Some? && r.value.value == currentPath.value + delimeter + "undefined"
  {
    if description.None? then Err(NullPropertyError)
    else if currentPath.None? || currentPath.value == "" then Ok(None)
    else Ok(Some(currentPath.value + delimeter + "undefined"))
  }

  /** One turn of the field loop as written: scalar entries and falsy
      entries as in `KeyChanges`, nested entries with the as-written path. */
  function KeyChangesAsWritten(cfg: Config, d: Descriptor, newval: Value, oldval: Value, currentPath: Option<string>, key: string): Result<seq<DiffDetails>> {
    var keyType := GetFieldType(d, key);
    if keyType.None? || keyType.value == Field then KeyChanges(cfg, d, newval, oldval, currentPath, key)
    else
      match NestedPathAsWritten(cfg.delimeter, currentPath, GetDescription(d, key))
      case Err(e) => Err(e)
      case Ok(path) =>
        var child := TruthyEntry(d, key).value.descriptor;
        var n, o := FieldOf(newval, key), FieldOf(oldval, key);
        if keyType.value == Object then Collect(cfg, child, n, o, path)
        else ArrayChanges(cfg, child, n, o, path)
  }

  /** The field loop as written, over `keys` in order. */
  function WalkAsWritten(cfg: Config, d: Descriptor, newval: Value, oldval: Value, currentPath: Option<string>, keys: seq<string>): Result<seq<DiffDetails>> {
    if keys == [] then Ok([])
    else Then(WalkAsWritten(cfg, d, newval, oldval, currentPath, keys[..|keys| - 1]),
              KeyChangesAsWritten(cfg, d, newval, oldval, currentPath, keys[|keys| - 1]))
  }

  /** An unnamed nested descriptor makes the as-written turn throw, whatever
      the values, where the intended path recurses (into `Collect` or
      `ArrayChanges`) under the text "null". */
  lemma UnnamedNestedThrowsAsWritten(cfg: Config, d: Descriptor, newval: Value, oldval: Value, currentPath: Option<string>, key: string, child: Descriptor)
    requires TruthyEntry(d, key) == Some(Nested(child))
    requires child.descriptorType != Field && child.descriptorName.None?
    ensures KeyChangesAsWritten(cfg, d, newval, oldval, currentPath, key) == Err(NullPropertyError)
    ensures var p := JoinPath(cfg.delimeter, currentPath, None);
            KeyChanges(cfg, d, newval, oldval, currentPath, key)
              == if child.descriptorType == Object then Collect(cfg, child, FieldOf(newval, key), FieldOf(oldval, key), p)
                 else ArrayChanges(cfg, child, FieldOf(newval, key), FieldOf(oldval, key), p)
  {
    EngineLemmas.NestedFieldRecurses(cfg, d, newval, oldval, currentPath, key, child);
  }

  /** A named nested descriptor loses its name on the as-written path: no
      path at all under a null or empty current path, and the text
      "undefined" after the delimiter otherwise; the intended path carries
      the name. */
  lemma NamedNestedLosesNameAsWritten(delimeter: string, currentPath: Option<string>, name: string)
    requires name != "undefined"
    ensures NestedPathAsWritten(delimeter, currentPath, Some(name)).Ok?
    ensures NestedPathAsWritten(delimeter, currentPath, Some(name)).value != JoinPath(delimeter, currentPath, Some(name))
    ensures JoinPath(delimeter, currentPath, Some(name)).Some?
  {
    if currentPath.Some? && currentPath.value != "" {
      var pre := currentPath.value + delimeter;
      assert currentPath.value + delimeter + name == pre + name;
      assert currentPath.value + delimeter + "undefined" == pre + "undefined";
      assert (pre + name)[|pre|..] == name;
      assert (pre + "undefined")[|pre|..] == "undefined";
    }
  }

  /** An error in the walk's first turns is the walk's outcome. */
  lemma {:induction false} WalkAsWrittenKeepsErr(cfg: Config, d: Descriptor, newval: Value, oldval: Value, currentPath: Option<string>, keys: seq<string>, n: nat)
    requires n <= |keys|
    requires WalkAsWritten(cfg, d, newval, oldval, currentPath, keys[..n]).Err?
    ensures WalkAsWritten(cfg, d, newval, oldval, currentPath, keys) == WalkAsWritten(cfg, d, newval, oldval, currentPath, keys[..n])
    decreases |keys|
  {
    if |keys| > n {
      var init := keys[..|keys| - 1];
      assert init[..n] == keys[..n];
      WalkAsWrittenKeepsErr(cfg, d, newval, oldval, currentPath, init, n);
    } else {
      assert keys[..n] == keys;
    }
  }

  /** The descriptors of the source's own test suite: `barMap`, unnamed;
      `stackMap` under the array descriptor 'Foo Stack Table' keyed by
      `name` and compared by `id`; and `fooMap` around both. */
  function BarMap(): FieldMap {
    FieldMap([("title", Label("Magic Title")), ("user", Label("Magic User"))])
  }

  function StackMap(): FieldMap {
    FieldMap([("name", Label("Stack item Name")), ("id", Label("Key"))])
  }

  function StackName(v: Value): string {
    var n := FieldOf(v, "name");
    if n.Scalar? then n.text else ""
  }

  function SameId(a: Value, b: Value): bool {
    FieldOf(a, "id") == FieldOf(b, "id")
  }

  function StackDescriptor(): Descriptor {
    Descriptor(Some(StackMap()), Some("Foo Stack Table"), Array, Some(StackName), Some(SameId))
  }

  function FooMap(): FieldMap {
    FieldMap([
      ("bar", Nested(NewDescriptor(Some(BarMap())))),
      ("disabled", Label("Is Disabled")),
      ("edited", Label("Is Edited")),
      ("title", Label("Magic Title")),
      ("stack", Nested(StackDescriptor()))])
  }

  /** As written, every diff of two present values under `fooMap` throws:
      its first key, `bar`, holds an unnamed descriptor. */
  lemma FooMapThrowsAsWritten(oldval: Value, newval: Value)
    requires !oldval.Null? && !newval.Null?
    ensures var d := NewDescriptor(Some(FooMap()));
            WalkAsWritten(ConfigOf(None), d, newval, oldval, None, GetFields(d)) == Err(NullPropertyError)
  {
    var d := NewDescriptor(Some(FooMap()));
    var cfg := ConfigOf(None);
    var keys := GetFields(d);
    assert keys[0] == "bar";
    assert Lookup(FooMap(), "bar") == Some(Nested(NewDescriptor(Some(BarMap()))));
    UnnamedNestedThrowsAsWritten(cfg, d, newval, oldval, None, "bar", NewDescriptor(Some(BarMap())));
    assert keys[..1][..0] == [];
    WalkAsWrittenKeepsErr(cfg, d, newval, oldval, None, keys, 1);
  }

  /** With the intended path the `stack` entry is reconciled under the path
      'Foo Stack Table', so a change of a stack item's name is reported as
      the field `descriptorName + delimeter + stackMap.name`, which the test
      suite expects; as written the path is lost and the field would read
      'Stack item Name'. */
  lemma FooStackPath(oldval: Value, newval: Value)
    ensures var d := NewDescriptor(Some(FooMap()));
            KeyChanges(ConfigOf(None), d, newval, oldval, None, "stack")
              == ArrayChanges(ConfigOf(None), StackDescriptor(), FieldOf(newval, "stack"), FieldOf(oldval, "stack"), Some("Foo Stack Table"))
    ensures NestedPathAsWritten(DefaultDelimeter, None, Some("Foo Stack Table")) == Ok(None)
    ensures JoinPath(DefaultDelimeter, Some("Foo Stack Table"), Some("Stack item Name")) == Some("Foo Stack Table" + DefaultDelimeter + "Stack item Name")
    ensures JoinPath(DefaultDelimeter, None, Some("Stack item Name")) == Some("Stack item Name")
  {
    var d := NewDescriptor(Some(FooMap()));
    assert Keys(FooMap())[4] == "stack";
    assert Lookup(FooMap(), "stack") == Some(Nested(StackDescriptor()));
    EngineLemmas.NestedFieldRecurses(ConfigOf(None), d, newval, oldval, None, "stack", StackDescriptor());
  }
}
