/** The cases of the source's test suite that the model decides, stated on
    `DiffEngine.Diff` with the default settings. */
module Scenarios {
  import opened Wrappers
  import opened Values
  import opened IDescriptor
  import opened Details
  import opened DiffEngine
  import EngineLemmas
  import Findings
  import opened JsArray

  /** `simpleMap`: one scalar field. */
  function SimpleMap(): FieldMap {
    FieldMap([("field", Label("Simple field"))])
  }

  function Simple(field: Value): Value {
    Obj(map["field" := field])
  }

  /** A diff against a missing value does not throw: the root has no name
      and no key function, so it is one bare creation or deletion record,
      and nothing at all when both are missing. */
  lemma NullPass(a: Value, b: Value)
    requires !a.Null? && !b.Null?
    ensures var d, cfg := NewDescriptor(Some(SimpleMap())), ConfigOf(None);
            && Diff(cfg, d, Null, b) == Ok([DiffDetails(None, "N/A", "Create ", None)])
            && Diff(cfg, d, a, Null) == Ok([DiffDetails(None, "Delete ", "N/A", None)])
            && Diff(cfg, d, Null, Null) == Ok([])
  {
    var d, cfg := NewDescriptor(Some(SimpleMap())), ConfigOf(None);
    EngineLemmas.OldAbsent(cfg, d, b, None);
    EngineLemmas.NewAbsent(cfg, d, a, None);
    assert "Create " + "" == "Create " && "Delete " + "" == "Delete ";
  }

  /** The one-field walk: one record under the field's label when the texts
      differ, none when they agree. */
  lemma SimpleFieldDiff(x: string, y: string)
    ensures var d, cfg := NewDescriptor(Some(SimpleMap())), ConfigOf(None);
            Diff(cfg, d, Simple(Scalar(x)), Simple(Scalar(y)))
              == if x != y then Ok([DiffDetails(Some("Simple field"), x, y, Some("Simple field"))]) else Ok([])
  {
    var d, cfg := NewDescriptor(Some(SimpleMap())), ConfigOf(None);
    var a, b := Simple(Scalar(x)), Simple(Scalar(y));
    EngineLemmas.RootWalks(cfg, Some(SimpleMap()), a, b);
    var keys := GetFields(d);
    assert keys == ["field"] && keys[..0] == [];
    assert Lookup(SimpleMap(), "field") == Some(Label("Simple field"));
    EngineLemmas.ScalarFieldRecord(cfg, d, b, a, None, "field", "Simple field");
    var k := KeyChanges(cfg, d, b, a, None, "field");
    assert Walk(cfg, d, b, a, None, keys) == Then(Ok([]), k);
    assert k.Ok? && [] + k.value == k.value;
  }

  /** 'Diff only one field' and 'Not Mapped field not checked'. */
  lemma DiffOnlyOneField()
    ensures var d, cfg := NewDescriptor(Some(SimpleMap())), ConfigOf(None);
            Diff(cfg, d, Simple(Scalar("a")), Simple(Scalar("b"))) == Ok([DiffDetails(Some("Simple field"), "a", "b", Some("Simple field"))])
    ensures var d, cfg := NewDescriptor(Some(SimpleMap())), ConfigOf(None);
            Diff(cfg, d, Simple(Scalar("a")), Simple(Scalar("a"))) == Ok([])
  {
    SimpleFieldDiff("a", "b");
    SimpleFieldDiff("a", "a");
  }

  /** A string field set on the old side and null on the new: one record
      under the field's label (the label, not the key, is the path), with
      the empty label as the new text. */
  lemma ClearedField(shown: string)
    requires shown != "N/A"
    ensures var d, cfg := NewDescriptor(Some(SimpleMap())), ConfigOf(None);
            Diff(cfg, d, Simple(Scalar(shown)), Simple(Null))
              == Ok([DiffDetails(Some("Simple field"), shown, "N/A", Some("Simple field"))])
  {
    var d, cfg := NewDescriptor(Some(SimpleMap())), ConfigOf(None);
    var a, b := Simple(Scalar(shown)), Simple(Null);
    EngineLemmas.RootWalks(cfg, Some(SimpleMap()), a, b);
    var keys := GetFields(d);
    assert keys == ["field"] && keys[..0] == [];
    assert Lookup(SimpleMap(), "field") == Some(Label("Simple field"));
    EngineLemmas.ScalarFieldRecord(cfg, d, b, a, None, "field", "Simple field");
    var k := KeyChanges(cfg, d, b, a, None, "field");
    assert Walk(cfg, d, b, a, None, keys) == Then(Ok([]), k);
    assert k.Ok? && [] + k.value == k.value;
  }

  /** Without pairs every new element is created and every old one deleted. */
  lemma NoPairsItems(nv: seq<Value>, ov: seq<Value>)
    ensures PairedItems(nv, ov, []) == CreateItems(nv, Range(|nv|)) + DeleteItems(ov, Range(|ov|))
  {
    var u := UpdateItems(nv, ov, []);
    assert Firsts([]) == [] && Seconds([]) == [] && u == [];
    assert u + CreateItems(nv, Range(|nv|)) == CreateItems(nv, Range(|nv|));
  }

  /** An empty new array against a one-element old array: one deletion. */
  lemma OnlyDeletion(cfg: Config, d: Descriptor, item: Value, currentPath: Option<string>)
    requires !item.Null?
    ensures ArrayChanges(cfg, d, Arr([]), Arr([item]), currentPath) == Collect(cfg, d, Null, item, currentPath)
    ensures Collect(cfg, d, Null, item, currentPath).Ok?
  {
    var items := ReconcileItems(d, [], [item]);
    assert items == [(Null, item)] by {
      assert MatchPairs(d, [], [item]) == [];
      NoPairsItems([], [item]);
      assert Range(1) == [0];
    }
    CollectAllPrefixStep(cfg, d, items, 0, currentPath);
    assert items[..1] == items && items[..0] == [];
    var c := Collect(cfg, d, Null, item, currentPath);
    assert c.Ok? && [] + c.value == c.value;
  }

  /** 'Map diff Embedded Array of different documents' under the intended
      path: an old stack item with no new counterpart is one deletion
      record naming the item, with the empty label as the new text. */
  lemma StackItemDeleted(item: Value)
    requires item.Obj? && Findings.StackName(item) == "A First Child"
    ensures ArrayChanges(ConfigOf(None), Findings.StackDescriptor(), Arr([]), Arr([item]), StackPath)
         == Ok([DiffDetails(StackPath, "Delete " + "Foo Stack Table" + ": " + "A First Child", "N/A", StackPath)])
  {
    var d, cfg := Findings.StackDescriptor(), ConfigOf(None);
    OnlyDeletion(cfg, d, item, StackPath);
    EngineLemmas.NewAbsent(cfg, d, item, StackPath);
  }

  /** A stack item `{name, id}`. */
  function Item(name: string, id: string): Value {
    Obj(map["name" := Scalar(name), "id" := Scalar(id)])
  }

  /** A `Foo` whose only set property is its stack. */
  function FooWith(stack: seq<Value>): Value {
    Obj(map["stack" := Arr(stack)])
  }

  const StackPath: Option<string> := Some("Foo Stack Table")

  /** 'Should get path of array': the first new item matches the old one
      with the same id, the second matches none. */
  lemma StackPairs(nv: seq<Value>, ov: seq<Value>)
    requires nv == [Item("B Stack Name", "0"), Item("D Stack Name", "2")]
    requires ov == [Item("A Stack Name", "0"), Item("C Stack Name", "1")]
    ensures MatchPairs(Findings.StackDescriptor(), nv, ov) == [(0, 0)]
  {
    var d := Findings.StackDescriptor();
    assert FirstMatch(d, ov, nv[0]) == Some(0);
    assert FirstMatch(d, ov[1..], nv[1]).None?;
    assert FirstMatch(d, ov, nv[1]).None?;
    assert MatchPairsUpTo(d, nv, ov, 1) == [(0, 0)];
  }

  /** Two-by-two arrays whose only pair is (0, 0): the pair, then the
      second new element against null, then null against the second old
      element. */
  lemma OnePairItems(d: Descriptor, nv: seq<Value>, ov: seq<Value>)
    requires |nv| == 2 && |ov| == 2 && MatchPairs(d, nv, ov) == [(0, 0)]
    ensures ReconcileItems(d, nv, ov) == [(nv[0], ov[0]), (nv[1], Null), (Null, ov[1])]
  {
    var p := MatchPairs(d, nv, ov);
    assert Firsts(p) == [0] && Seconds(p) == [0];
    assert Range(2) == [0, 1];
    assert Consume([0, 1], [0]) == [1] by {
      assert [0][..0] == [];
      assert IndexOf<nat>([0, 1], 0) == 0;
    }
  }

  /** Three items collected in order. */
  lemma CollectAllThree(cfg: Config, d: Descriptor, items: seq<(Value, Value)>, currentPath: Option<string>)
    requires |items| == 3
    ensures CollectAll(cfg, d, items, currentPath)
         == Then(Then(Then(Ok([]), Collect(cfg, d, items[0].0, items[0].1, currentPath)),
                      Collect(cfg, d, items[1].0, items[1].1, currentPath)),
                 Collect(cfg, d, items[2].0, items[2].1, currentPath))
  {
    CollectAllPrefixStep(cfg, d, items, 0, currentPath);
    CollectAllPrefixStep(cfg, d, items, 1, currentPath);
    CollectAllPrefixStep(cfg, d, items, 2, currentPath);
    assert items[..0] == [] && items[..3] == items;
  }

  /** The matched pair: only the name differs, reported under the field
      'Foo Stack Table -> Stack item Name'. */
  lemma StackUpdate(b: Value, a: Value)
    requires b == Item("B Stack Name", "0") && a == Item("A Stack Name", "0")
    ensures Collect(ConfigOf(None), Findings.StackDescriptor(), b, a, StackPath)
         == Ok([DiffDetails(Some("Foo Stack Table" + DefaultDelimeter + "Stack item Name"), "A Stack Name", "B Stack Name", Some("Foo Stack Table" + DefaultDelimeter + "Stack item Name"))])
  {
    var d, cfg := Findings.StackDescriptor(), ConfigOf(None);
    var keys := GetFields(d);
    assert keys == ["name", "id"] && keys[..1] == ["name"] && keys[..1][..0] == [];
    assert Lookup(Findings.StackMap(), "name") == Some(Label("Stack item Name"));
    assert Lookup(Findings.StackMap(), "id") == Some(Label("Key"));
    EngineLemmas.ScalarFieldRecord(cfg, d, b, a, StackPath, "name", "Stack item Name");
    EngineLemmas.ScalarFieldRecord(cfg, d, b, a, StackPath, "id", "Key");
    var k1 := KeyChanges(cfg, d, b, a, StackPath, "name");
    var k2 := KeyChanges(cfg, d, b, a, StackPath, "id");
    assert k2 == Ok([]);
    assert Walk(cfg, d, b, a, StackPath, keys[..1]) == Then(Ok([]), k1);
    assert k1.Ok? && [] + k1.value == k1.value && k1.value + [] == k1.value;
  }

  /** Two-by-two arrays whose only pair is (0, 0): the pair's records,
      then a creation and a deletion under the array's own path. */
  lemma OnePairRecords(cfg: Config, d: Descriptor, nv: seq<Value>, ov: seq<Value>, currentPath: Option<string>, update: DiffDetails)
    requires |nv| == 2 && |ov| == 2 && MatchPairs(d, nv, ov) == [(0, 0)]
    requires Collect(cfg, d, nv[0], ov[0], currentPath) == Ok([update])
    requires !nv[1].Null? && !ov[1].Null?
    ensures var r := Reconcile(cfg, d, nv, ov, currentPath);
            && r.Ok? && |r.value| == 3 && r.value[0] == update
            && r.value[1].path == currentPath && r.value[1].oldValue == cfg.emptyLabel
            && r.value[2].path == currentPath && r.value[2].newValue == cfg.emptyLabel
  {
    OnePairItems(d, nv, ov);
    EngineLemmas.OldAbsent(cfg, d, nv[1], currentPath);
    EngineLemmas.NewAbsent(cfg, d, ov[1], currentPath);
    CollectAllThree(cfg, d, ReconcileItems(d, nv, ov), currentPath);
  }
}
