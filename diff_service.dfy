/** The diff service: the class whose methods do the work step by step, each
    proved to compute the matching function of `DiffEngine`. */
module Service {
  import opened Wrappers
  import opened Values
  import opened IDescriptor
  import opened Details
  import opened JsArray
  import opened DiffEngine

  class DiffService {
    var delimeter: string
    var emptyLabel: string
    var descriptor: Descriptor

    /** The settings the walk reads. */
    function Settings(): Config
      reads this
    {
      Config(delimeter, emptyLabel)
    }

    /** Builds the root descriptor from the field map, with every other
        descriptor setting at its default, and stores the options or their
        defaults. */
    constructor (fieldMap: Option<FieldMap>, options: Option<DiffServiceOptions>)
      ensures descriptor == NewDescriptor(fieldMap)
      ensures Settings() == ConfigOf(options)
    {
      descriptor := NewDescriptor(fieldMap);
      delimeter := if options.Some? && options.value.delimeter.Some? && options.value.delimeter.value != ""
                   then options.value.delimeter.value else DefaultDelimeter;
      emptyLabel := if options.Some? && options.value.emptyLabel.Some? && options.value.emptyLabel.value != ""
                    then options.value.emptyLabel.value else DefaultEmptyLabel;
    }

    /** `diff(oldval, newval)`: the walk from the root descriptor with a null path. */
    method Diff(oldval: Value, newval: Value) returns (r: Result<seq<DiffDetails>>)
      ensures r == DiffEngine.Diff(Settings(), descriptor, oldval, newval)
    {
      r := CollectChanges(descriptor, newval, oldval, None);
    }

    /** `collectChanges`: the existence and identity checks first, then the
        loop over the descriptor's fields in order. An exception from a
        nested call (here an `Err`) ends the whole walk. */
    method CollectChanges(d: Descriptor, newval: Value, oldval: Value, currentPath: Option<string>)
      returns (r: Result<seq<DiffDetails>>)
      ensures r == Collect(Settings(), d, newval, oldval, currentPath)
      decreases d, 2
    {
      var changes: seq<DiffDetails> := [];
      var keys := GetFields(d);

      if newval.Null? && !oldval.Null? {
        var deleteMsg := "Delete " + d.descriptorName.GetOr("");
        if d.keyFn.Some? {
          deleteMsg := deleteMsg + (": " + d.keyFn.value(oldval));
        }
        assert deleteMsg == DeleteMessage(d, oldval) by {
          assert deleteMsg + "" == deleteMsg;
        }
        changes := changes + [NewDiffDetails(currentPath, currentPath, deleteMsg, emptyLabel)];
        assert changes == [NewDiffDetails(currentPath, currentPath, deleteMsg, emptyLabel)];
        return Ok(changes);
      }
      if oldval.Null? && !newval.Null? {
        var createMsg := "Create " + d.descriptorName.GetOr("");
        if d.keyFn.Some? {
          createMsg := createMsg + (": " + d.keyFn.value(newval));
        }
        assert createMsg == CreateMessage(d, newval) by {
          assert createMsg + "" == createMsg;
        }
        changes := changes + [NewDiffDetails(currentPath, currentPath, emptyLabel, createMsg)];
        assert changes == [NewDiffDetails(currentPath, currentPath, emptyLabel, createMsg)];
        return Ok(changes);
      }
      if oldval.Null? && newval.Null? {
        return Ok(changes);
      }
      if d.keyFn.Some? && !Compare(d, newval, oldval) {
        // a different entity: one record, no walk into the fields
        var delMsg := "from ";
        delMsg := delMsg + (": " + d.keyFn.value(oldval));
        var createMsg := "to ";
        createMsg := createMsg + (": " + d.keyFn.value(newval));
        changes := changes + [NewDiffDetails(currentPath, currentPath, delMsg, createMsg)];
        assert changes == [NewDiffDetails(currentPath, currentPath, delMsg, createMsg)];
        return Ok(changes);
      }

      r := WalkFields(d, newval, oldval, currentPath, keys);
    }

    /** The `for (const _key of keys)` loop of `collectChanges`: the records
        of each field in key order, the first exception ending the loop. */
    method WalkFields(d: Descriptor, newval: Value, oldval: Value, currentPath: Option<string>, keys: seq<string>)
      returns (r: Result<seq<DiffDetails>>)
      ensures r == Walk(Settings(), d, newval, oldval, currentPath, keys)
      decreases d, 1
    {
      var changes: seq<DiffDetails> := [];
      var i := 0;
      while i < |keys|
        invariant 0 <= i <= |keys|
        invariant Walk(Settings(), d, newval, oldval, currentPath, keys[..i]) == Ok(changes)
      {
        var fields := KeyStep(d, newval, oldval, currentPath, keys[i]);
        assert keys[..i + 1][..i] == keys[..i];
        if fields.Err? {
          WalkPrefixErr(Settings(), d, newval, oldval, currentPath, keys, i + 1);
          return fields;
        }
        changes := changes + fields.value;
        i := i + 1;
      }
      assert keys[..|keys|] == keys;
      return Ok(changes);
    }

    /** One turn of the field loop of `collectChanges`: the records it pushes
        for `key`, none when the descriptor has no type for it. */
    method KeyStep(d: Descriptor, newval: Value, oldval: Value, currentPath: Option<string>, key: string)
      returns (r: Result<seq<DiffDetails>>)
      ensures r == KeyChanges(Settings(), d, newval, oldval, currentPath, key)
      decreases d, 0
    {
      var keyType := GetFieldType(d, key);
      var fieldDescription := GetDescription(d, key);
      if keyType.None? {
        return Ok([]);
      }
      var newvalElement := FieldOf(newval, key);
      var oldvalElement := FieldOf(oldval, key);
      var path := JoinPath(delimeter, currentPath, fieldDescription);
      if keyType.value == Field {
        var field := HandleProperty(newvalElement, oldvalElement, path);
        if field.Some? {
          return Ok([field.value]);
        }
        return Ok([]);
      }
      var idx := IndexOf(Keys(d.fieldMap.value), key);
      var descriptorElement := d.fieldMap.value.entries[idx].1.descriptor;
      if keyType.value == Object {
        r := CollectChanges(descriptorElement, newvalElement, oldvalElement, path);
      } else {
        r := HandleArray(descriptorElement, newvalElement, oldvalElement, key, path);
      }
    }

    /** `handleArray`; `key` is unused, as in the source. Fresh copies of
        both arrays are the working lists; the matched pairs are diffed and
        struck from them, then what is left is reported as created and
        deleted. */
    method HandleArray(d: Descriptor, newval: Value, oldval: Value, key: string, currentPath: Option<string>)
      returns (r: Result<seq<DiffDetails>>)
      ensures r == ArrayChanges(Settings(), d, newval, oldval, currentPath)
      decreases d, 4
    {
      if !newval.Arr? || !oldval.Arr? {
        return Err(SliceError);
      }
      var nv, ov := newval.items, oldval.items;
      var updated := MatchUpdated(d, nv, ov);
      var changes, created, deleted := ApplyUpdated(d, nv, ov, updated, currentPath);

      ghost var cfg := Settings();
      ghost var updates := UpdateItems(nv, ov, updated);
      ghost var creates := CreateItems(nv, created);
      ghost var deletes := DeleteItems(ov, deleted);
      assert updates + creates + deletes == ReconcileItems(d, nv, ov);
      CollectAllAppend(cfg, d, updates + creates, deletes, currentPath);
      CollectAllAppend(cfg, d, updates, creates, currentPath);
      if changes.Err? {
        return changes;
      }
      changes := CollectCreated(d, nv, created, changes.value, currentPath);
      if changes.Err? {
        return changes;
      }
      r := CollectDeleted(d, ov, deleted, changes.value, currentPath);
    }

    /** `created.map((c) => ({c, d: deleted.find(...)})).filter((x) => x.c && x.d)`
        over fresh copies of both arrays, as positions. */
    method MatchUpdated(d: Descriptor, nv: seq<Value>, ov: seq<Value>) returns (updated: seq<(nat, nat)>)
      ensures updated == MatchPairs(d, nv, ov)
    {
      updated := [];
      var i := 0;
      while i < |nv|
        invariant 0 <= i <= |nv|
        invariant updated == MatchPairsUpTo(d, nv, ov, i)
      {
        var del := FirstMatch(d, ov, nv[i]);
        if Truthy(nv[i]) && del.Some? && Truthy(ov[del.value]) {
          updated := updated + [(i, del.value)];
        }
        i := i + 1;
      }
    }

    /** The `for (const pair of updated)` loop of `handleArray`: diff each
        pair, then `splice(indexOf(...), 1)` both sides out of the working
        lists, which start as the whole arrays. */
    method ApplyUpdated(d: Descriptor, nv: seq<Value>, ov: seq<Value>, updated: seq<(nat, nat)>, currentPath: Option<string>)
      returns (r: Result<seq<DiffDetails>>, created: seq<nat>, deleted: seq<nat>)
      requires ValidPairs(updated, |nv|, |ov|)
      ensures r == CollectAll(Settings(), d, UpdateItems(nv, ov, updated), currentPath)
      ensures created == Consume(Range(|nv|), Firsts(updated))
      ensures deleted == Consume(Range(|ov|), Seconds(updated))
      ensures InRange(created, |nv|) && InRange(deleted, |ov|)
      decreases d, 3
    {
      ghost var updates := UpdateItems(nv, ov, updated);
      var changes: seq<DiffDetails> := [];
      created := Range(|nv|);
      deleted := Range(|ov|);
      var k := 0;
      while k < |updated|
        invariant 0 <= k <= |updated|
        invariant created == Consume(Range(|nv|), Firsts(updated)[..k])
        invariant deleted == Consume(Range(|ov|), Seconds(updated)[..k])
        invariant CollectAll(Settings(), d, updates[..k], currentPath) == Ok(changes)
      {
        var pair := updated[k];
        var diff := CollectChanges(d, nv[pair.0], ov[pair.1], currentPath);
        assert updates[k] == (nv[pair.0], ov[pair.1]);
        CollectAllPrefixStep(Settings(), d, updates, k, currentPath);
        if diff.Err? {
          CollectAllPrefixErr(Settings(), d, updates, k + 1, currentPath);
          ConsumeRangeInRange(|nv|, Firsts(updated));
          ConsumeRangeInRange(|ov|, Seconds(updated));
          return diff, Consume(Range(|nv|), Firsts(updated)), Consume(Range(|ov|), Seconds(updated));
        }
        changes := changes + diff.value;
        WorklistStep(|nv|, |ov|, updated, k);
        created := Splice1<nat>(created, IndexOf<nat>(created, pair.0));
        deleted := Splice1<nat>(deleted, IndexOf<nat>(deleted, pair.1));
        k := k + 1;
      }
      assert Firsts(updated)[..k] == Firsts(updated) && Seconds(updated)[..k] == Seconds(updated);
      assert updates[..k] == updates;
      ConsumeRangeInRange(|nv|, Firsts(updated));
      ConsumeRangeInRange(|ov|, Seconds(updated));
      r := Ok(changes);
    }

    /** `for (const item of created)`: each new element left over is
        reported against null, after the records in `changes`. */
    method CollectCreated(d: Descriptor, nv: seq<Value>, created: seq<nat>, changes: seq<DiffDetails>, currentPath: Option<string>)
      returns (r: Result<seq<DiffDetails>>)
      requires InRange(created, |nv|)
      ensures r == Then(Ok(changes), CollectAll(Settings(), d, CreateItems(nv, created), currentPath))
      decreases d, 3
    {
      ghost var items := CreateItems(nv, created);
      var acc := changes;
      var j := 0;
      assert items[..j] == [] && changes + [] == changes;
      while j < |created|
        invariant 0 <= j <= |created|
        invariant Then(Ok(changes), CollectAll(Settings(), d, items[..j], currentPath)) == Ok(acc)
      {
        var diff := CollectChanges(d, nv[created[j]], Null, currentPath);
        assert items[j] == (nv[created[j]], Null);
        CollectAllPrefixStep(Settings(), d, items, j, currentPath);
        ThenAssoc(Ok(changes), CollectAll(Settings(), d, items[..j], currentPath), diff);
        if diff.Err? {
          CollectAllPrefixErr(Settings(), d, items, j + 1, currentPath);
          return diff;
        }
        acc := acc + diff.value;
        j := j + 1;
      }
      assert items[..j] == items;
      return Ok(acc);
    }

    /** `for (const item of deleted)`: each old element left over is
        reported against null, after the records in `changes`. */
    method CollectDeleted(d: Descriptor, ov: seq<Value>, deleted: seq<nat>, changes: seq<DiffDetails>, currentPath: Option<string>)
      returns (r: Result<seq<DiffDetails>>)
      requires InRange(deleted, |ov|)
      ensures r == Then(Ok(changes), CollectAll(Settings(), d, DeleteItems(ov, deleted), currentPath))
      decreases d, 3
    {
      ghost var items := DeleteItems(ov, deleted);
      var acc := changes;
      var j := 0;
      assert items[..j] == [] && changes + [] == changes;
      while j < |deleted|
        invariant 0 <= j <= |deleted|
        invariant Then(Ok(changes), CollectAll(Settings(), d, items[..j], currentPath)) == Ok(acc)
      {
        var diff := CollectChanges(d, Null, ov[deleted[j]], currentPath);
        assert items[j] == (Null, ov[deleted[j]]);
        CollectAllPrefixStep(Settings(), d, items, j, currentPath);
        ThenAssoc(Ok(changes), CollectAll(Settings(), d, items[..j], currentPath), diff);
        if diff.Err? {
          CollectAllPrefixErr(Settings(), d, items, j + 1, currentPath);
          return diff;
        }
        acc := acc + diff.value;
        j := j + 1;
      }
      assert items[..j] == items;
      return Ok(acc);
    }

    /** `handleProperty` on its `toString()` branch: null and undefined are
        replaced by the empty label, then the two texts are compared. */
    method HandleProperty(newval: Value, oldval: Value, field: Option<string>) returns (r: Option<DiffDetails>)
      ensures r == PropertyChange(emptyLabel, newval, oldval, field)
    {
      var n, o := newval, oldval;
      if n.Null? {
        n := Scalar(emptyLabel);
      }
      if o.Null? {
        o := Scalar(emptyLabel);
      }
      if Text(n) != Text(o) {
        return Some(NewDiffDetails(field, field, Text(o), Text(n)));
      }
      return None;
    }
  }
}
