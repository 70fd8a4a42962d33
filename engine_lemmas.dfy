/** What `collectChanges` and `handleProperty` promise, stated over the
    functions of `DiffEngine` and proved for all inputs. */
module EngineLemmas {
  import opened Wrappers
  import opened Values
  import opened IDescriptor
  import opened Details
  import opened DiffEngine

  /** Both values absent: no records. */
  lemma BothAbsent(cfg: Config, d: Descriptor, currentPath: Option<string>)
    ensures Collect(cfg, d, Null, Null, currentPath) == Ok([])
  {
  }

  /** The new value absent: exactly one record at the current path, whose
      old text names the deleted entity and whose new text is the empty
      label; the fields are not walked. */
  lemma NewAbsent(cfg: Config, d: Descriptor, oldval: Value, currentPath: Option<string>)
    requires !oldval.Null?
    ensures d.keyFn.None? ==>
              Collect(cfg, d, Null, oldval, currentPath) == Ok([DiffDetails(currentPath, "Delete " + d.descriptorName.GetOr(""), cfg.emptyLabel, currentPath)])
    ensures d.keyFn.Some? ==>
              Collect(cfg, d, Null, oldval, currentPath) == Ok([DiffDetails(currentPath, "Delete " + d.descriptorName.GetOr("") + ": " + d.keyFn.value(oldval), cfg.emptyLabel, currentPath)])
  {
    var name := "Delete " + d.descriptorName.GetOr("");
    if d.keyFn.Some? {
      assert name + (": " + d.keyFn.value(oldval)) == name + ": " + d.keyFn.value(oldval);
    } else {
      assert name + "" == name;
    }
  }

  /** The old value absent: the mirror image, a single creation record. */
  lemma OldAbsent(cfg: Config, d: Descriptor, newval: Value, currentPath: Option<string>)
    requires !newval.Null?
    ensures d.keyFn.None? ==>
              Collect(cfg, d, newval, Null, currentPath) == Ok([DiffDetails(currentPath, cfg.emptyLabel, "Create " + d.descriptorName.GetOr(""), currentPath)])
    ensures d.keyFn.Some? ==>
              Collect(cfg, d, newval, Null, currentPath) == Ok([DiffDetails(currentPath, cfg.emptyLabel, "Create " + d.descriptorName.GetOr("") + ": " + d.keyFn.value(newval), currentPath)])
  {
    var name := "Create " + d.descriptorName.GetOr("");
    if d.keyFn.Some? {
      assert name + (": " + d.keyFn.value(newval)) == name + ": " + d.keyFn.value(newval);
    } else {
      assert name + "" == name;
    }
  }

  /** Two present values that are different entities under the key function:
      one replacement record, and no per-field records. */
  lemma IdentityMismatch(cfg: Config, d: Descriptor, newval: Value, oldval: Value, currentPath: Option<string>)
    requires !newval.Null? && !oldval.Null?
    requires d.keyFn.Some? && !Compare(d, newval, oldval)
    ensures Collect(cfg, d, newval, oldval, currentPath)
         == Ok([DiffDetails(currentPath, "from : " + d.keyFn.value(oldval), "to : " + d.keyFn.value(newval), currentPath)])
  {
    assert "from " + (": " + d.keyFn.value(oldval)) == "from : " + d.keyFn.value(oldval);
    assert "to " + (": " + d.keyFn.value(newval)) == "to : " + d.keyFn.value(newval);
  }

  /** Without a key function the replacement branch is never taken, even
      when a comparer says the values differ: two present values are walked
      field by field. */
  lemma NoKeyFnWalks(cfg: Config, d: Descriptor, newval: Value, oldval: Value, currentPath: Option<string>)
    requires !newval.Null? && !oldval.Null? && d.keyFn.None?
    ensures Collect(cfg, d, newval, oldval, currentPath) == Walk(cfg, d, newval, oldval, currentPath, GetFields(d))
  {
  }

  /** The root descriptor the service builds has no key function, so `diff`
      on two present values always walks the root field map. */
  lemma RootWalks(cfg: Config, m: Option<FieldMap>, oldval: Value, newval: Value)
    requires !newval.Null? && !oldval.Null?
    ensures Diff(cfg, NewDescriptor(m), oldval, newval)
         == Walk(cfg, NewDescriptor(m), newval, oldval, None, if m.Some? then Keys(m.value) else [])
  {
    NoKeyFnWalks(cfg, NewDescriptor(m), newval, oldval, None);
  }

  /** A key without a field type (not in the map, or a falsy entry) yields
      no records and no error. */
  lemma UnmappedKeySkipped(cfg: Config, d: Descriptor, newval: Value, oldval: Value, currentPath: Option<string>, key: string)
    requires GetFieldType(d, key).None?
    ensures KeyChanges(cfg, d, newval, oldval, currentPath, key) == Ok([])
  {
  }

  /** The keys of `keys` that the descriptor gives a field type, in order. */
  function Mapped(d: Descriptor, keys: seq<string>): (r: seq<string>)
    ensures forall k :: k in r ==> k in keys && GetFieldType(d, k).Some?
  {
    if keys == [] then []
    else Mapped(d, keys[..|keys| - 1]) + (if GetFieldType(d, keys[|keys| - 1]).Some? then [keys[|keys| - 1]] else [])
  }

  /** The walk is the walk over the mapped keys alone: unmapped keys
      neither add records nor stop the loop. */
  lemma {:induction false} WalkSkipsUnmapped(cfg: Config, d: Descriptor, newval: Value, oldval: Value, currentPath: Option<string>, keys: seq<string>)
    ensures Walk(cfg, d, newval, oldval, currentPath, keys) == Walk(cfg, d, newval, oldval, currentPath, Mapped(d, keys))
    decreases |keys|
  {
    if keys != [] {
      var init, last := keys[..|keys| - 1], keys[|keys| - 1];
      WalkSkipsUnmapped(cfg, d, newval, oldval, currentPath, init);
      var w := Walk(cfg, d, newval, oldval, currentPath, init);
      if GetFieldType(d, last).Some? {
        WalkAppend(cfg, d, newval, oldval, currentPath, Mapped(d, init), [last]);
        assert [last][..0] == [];
      } else {
        assert Mapped(d, keys) == Mapped(d, init) + [];
        assert Mapped(d, init) + [] == Mapped(d, init);
        assert w.Ok? ==> w.value + [] == w.value;
      }
    }
  }

  /** A scalar field entry labelled `text`: the path is that text when the
      current path is null or empty and `currentPath + delimeter + text`
      otherwise, and there is a record exactly when the two shown texts
      differ. */
  lemma ScalarFieldRecord(cfg: Config, d: Descriptor, newval: Value, oldval: Value, currentPath: Option<string>, key: string, text: string)
    requires TruthyEntry(d, key) == Some(Label(text))
    ensures var p := if currentPath.None? || currentPath == Some("") then Some(text)
                     else Some(currentPath.value + cfg.delimeter + text);
            var n := Shown(cfg.emptyLabel, FieldOf(newval, key));
            var o := Shown(cfg.emptyLabel, FieldOf(oldval, key));
            KeyChanges(cfg, d, newval, oldval, currentPath, key)
              == if n != o then Ok([DiffDetails(p, o, n, p)]) else Ok([])
  {
  }

  /** A nested object or array entry: the walk recurses into the nested
      descriptor with the path extended by the nested descriptor's name
      (the text "null" when it has none). */
  lemma NestedFieldRecurses(cfg: Config, d: Descriptor, newval: Value, oldval: Value, currentPath: Option<string>, key: string, child: Descriptor)
    requires TruthyEntry(d, key) == Some(Nested(child)) && child.descriptorType != Field
    ensures var p := if currentPath.None? || currentPath == Some("") then child.descriptorName
                     else Some(currentPath.value + cfg.delimeter + NullText(child.descriptorName));
            KeyChanges(cfg, d, newval, oldval, currentPath, key)
              == if child.descriptorType == Object then Collect(cfg, child, FieldOf(newval, key), FieldOf(oldval, key), p)
                 else ArrayChanges(cfg, child, FieldOf(newval, key), FieldOf(oldval, key), p)
  {
    var m := d.fieldMap.value;
    var i := JsArray.IndexOf(Keys(m), key);
    assert Lookup(m, key) == Some(m.entries[i].1);
  }

  /** `handleProperty`: a record exactly when the two texts differ once the
      empty label stands in for null, carrying the old and the new text. */
  lemma PropertyChangeExactlyWhenTextsDiffer(emptyLabel: string, newval: Value, oldval: Value, field: Option<string>)
    ensures var n := if newval.Null? then emptyLabel else Text(newval);
            var o := if oldval.Null? then emptyLabel else Text(oldval);
            && (PropertyChange(emptyLabel, newval, oldval, field).Some? <==> n != o)
            && (n != o ==> PropertyChange(emptyLabel, newval, oldval, field) == Some(DiffDetails(field, o, n, field)))
  {
  }

  /** Null on one side and the empty label's own text on the other compare
      equal: no record. */
  lemma NullEqualsEmptyLabel(emptyLabel: string, field: Option<string>)
    ensures PropertyChange(emptyLabel, Null, Scalar(emptyLabel), field).None?
    ensures PropertyChange(emptyLabel, Scalar(emptyLabel), Null, field).None?
  {
  }

  /** An object and an array render by `toString()`: every object reads as
      "[object Object]", so two different objects compare equal. */
  lemma ObjectsCompareEqual(emptyLabel: string, a: map<string, Value>, b: map<string, Value>, field: Option<string>)
    ensures PropertyChange(emptyLabel, Obj(a), Obj(b), field).None?
  {
  }

  /** `Compare` with a key function and no comparer is an equivalence:
      string equality of the keys. */
  lemma KeyCompareIsEquivalence(d: Descriptor, a: Value, b: Value, c: Value)
    requires d.comparer.None? && d.keyFn.Some?
    ensures Compare(d, a, a)
    ensures Compare(d, a, b) == Compare(d, b, a)
    ensures Compare(d, a, b) && Compare(d, b, c) ==> Compare(d, a, c)
  {
  }

  /** A descriptor with neither comparer nor key function matches nothing. */
  lemma NoIdentityNeverMatches(d: Descriptor, ov: seq<Value>, c: Value)
    requires d.comparer.None? && d.keyFn.None?
    ensures FirstMatch(d, ov, c).None?
  {
  }

  /** An unnamed nested descriptor has a field type but no description, so
      `getDescription` is null in more cases than `getFieldType`. */
  lemma UnnamedNestedHasNoDescription(d: Descriptor, key: string, child: Descriptor)
    requires TruthyEntry(d, key) == Some(Nested(child))
    requires child.descriptorType != Field && child.descriptorName.None?
    ensures GetFieldType(d, key) == Some(child.descriptorType)
    ensures GetDescription(d, key).None?
  {
  }

  /** Arrays are reconciled only when both sides are arrays; `.slice()` on
      anything else throws. */
  lemma ArrayNeedsArrays(cfg: Config, d: Descriptor, newval: Value, oldval: Value, currentPath: Option<string>)
    ensures !newval.Arr? || !oldval.Arr? ==> ArrayChanges(cfg, d, newval, oldval, currentPath) == Err(SliceError)
  {
  }
}
