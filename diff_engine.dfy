/** The diff engine as functions: each function below is the specification
    one of the `DiffService` methods is proved to compute. The engine walks
    an old and a new value in lock-step under a descriptor and returns the
    ordered list of change records, or the error JavaScript would throw. */
module DiffEngine {
  import opened Wrappers
  import opened Values
  import opened IDescriptor
  import opened Details
  import opened JsArray

  const DefaultDelimeter := " -> "
  const DefaultEmptyLabel := "N/A"

  /** The error `.slice()` raises on a value that is not an array. */
  const SliceError := "TypeError"

  /** The options object the service accepts; both properties are optional. */
  datatype DiffServiceOptions = DiffServiceOptions(delimeter: Option<string>, emptyLabel: Option<string>)

  /** The two settings the walk reads from the service. */
  datatype Config = Config(delimeter: string, emptyLabel: string)

  /** `options && options.x ? options.x : default`, given `options.x` when
      there is an options object: an absent options object, an absent
      property and an empty string all fall back to the default. */
  function Setting(given: Option<string>, default: string): string {
    if given.Some? && given.value != "" then given.value else default
  }

  /** The settings the service constructor stores. */
  function ConfigOf(options: Option<DiffServiceOptions>): (c: Config)
    ensures c.delimeter != "" && c.emptyLabel != ""
    ensures options.None? ==> c == Config(DefaultDelimeter, DefaultEmptyLabel)
    ensures forall s :: options.Some? && options.value.delimeter == Some(s) && s != "" ==> c.delimeter == s
    ensures options.Some? && (options.value.delimeter.None? || options.value.delimeter == Some("")) ==>
              c.delimeter == DefaultDelimeter
    ensures forall s :: options.Some? && options.value.emptyLabel == Some(s) && s != "" ==> c.emptyLabel == s
    ensures options.Some? && (options.value.emptyLabel.None? || options.value.emptyLabel == Some("")) ==>
              c.emptyLabel == DefaultEmptyLabel
  {
    if options.None? then Config(DefaultDelimeter, DefaultEmptyLabel)
    else Config(Setting(options.value.delimeter, DefaultDelimeter), Setting(options.value.emptyLabel, DefaultEmptyLabel))
  }

  /** How `+` renders a possibly null string. */
  function NullText(s: Option<string>): string {
    if s.Some? then s.value else "null"
  }

  /** `currentPath ? currentPath + delimeter + segment : segment`: an absent
      or empty current path is replaced by the segment. */
  function JoinPath(delimeter: string, currentPath: Option<string>, segment: Option<string>): Option<string> {
    if currentPath.None? || currentPath.value == "" then segment
    else Some(currentPath.value + delimeter + NullText(segment))
  }

  /** A scalar's text once null and undefined have been replaced by the
      empty label. */
  function Shown(emptyLabel: string, v: Value): string {
    if v.Null? then emptyLabel else Text(v)
  }

  /** `handleProperty` on the `toString()` branch: a record exactly when the
      two texts differ. */
  function PropertyChange(emptyLabel: string, newval: Value, oldval: Value, field: Option<string>): Option<DiffDetails> {
    var n := Shown(emptyLabel, newval);
    var o := Shown(emptyLabel, oldval);
    if n != o then Some(NewDiffDetails(field, field, o, n)) else None
  }

  /** `': ' + keyFn(v)` when the descriptor has a key function. */
  function KeySuffix(d: Descriptor, v: Value): string {
    if d.keyFn.Some? then ": " + d.keyFn.value(v) else ""
  }

  function DeleteMessage(d: Descriptor, oldval: Value): string {
    "Delete " + d.descriptorName.GetOr("") + KeySuffix(d, oldval)
  }

  function CreateMessage(d: Descriptor, newval: Value): string {
    "Create " + d.descriptorName.GetOr("") + KeySuffix(d, newval)
  }

  /** Concatenation of two partial results; the first error wins, as the
      first exception aborts the JavaScript code. */
  function Then(a: Result<seq<DiffDetails>>, b: Result<seq<DiffDetails>>): Result<seq<DiffDetails>> {
    if a.Err? then a else if b.Err? then b else Ok(a.value + b.value)
  }

  /** `collectChanges`: existence asymmetry first, then replacement of a
      different entity, then the walk over the descriptor's fields. */
  function Collect(cfg: Config, d: Descriptor, newval: Value, oldval: Value, currentPath: Option<string>): Result<seq<DiffDetails>>
    decreases d, 1, 0
  {
    if newval.Null? && !oldval.Null? then
      Ok([NewDiffDetails(currentPath, currentPath, DeleteMessage(d, oldval), cfg.emptyLabel)])
    else if oldval.Null? && !newval.Null? then
      Ok([NewDiffDetails(currentPath, currentPath, cfg.emptyLabel, CreateMessage(d, newval))])
    else if oldval.Null? && newval.Null? then
      Ok([])
    else if d.keyFn.Some? && !Compare(d, newval, oldval) then
      Ok([NewDiffDetails(currentPath, currentPath, "from " + KeySuffix(d, oldval), "to " + KeySuffix(d, newval))])
    else
      Walk(cfg, d, newval, oldval, currentPath, GetFields(d))
  }

  /** The `for` loop of `collectChanges` over `keys`, in order. */
  function Walk(cfg: Config, d: Descriptor, newval: Value, oldval: Value, currentPath: Option<string>, keys: seq<string>): Result<seq<DiffDetails>>
    decreases d, 0, |keys|
  {
    if keys == [] then Ok([])
    else Then(Walk(cfg, d, newval, oldval, currentPath, keys[..|keys| - 1]),
              KeyChanges(cfg, d, newval, oldval, currentPath, keys[|keys| - 1]))
  }

  /** One iteration of that loop: a falsy entry is skipped, a `Field` entry is
      compared as a scalar, an `Object` entry recursed into and an `Array`
      entry reconciled. The path extends the current one with the entry's
      description (the label, or the nested descriptor's name). */
  function KeyChanges(cfg: Config, d: Descriptor, newval: Value, oldval: Value, currentPath: Option<string>, key: string): Result<seq<DiffDetails>>
    decreases d, 0, 0
  {
    var keyType := GetFieldType(d, key);
    var fieldDescription := GetDescription(d, key);
    if keyType.None? then Ok([])
    else
      var n := FieldOf(newval, key);
      var o := FieldOf(oldval, key);
      var path := JoinPath(cfg.delimeter, currentPath, fieldDescription);
      if keyType.value == Field then
        match PropertyChange(cfg.emptyLabel, n, o, path)
        case Some(r) => Ok([r])
        case None => Ok([])
      else
        var i := IndexOf(Keys(d.fieldMap.value), key);
        var child := d.fieldMap.value.entries[i].1.descriptor;
        if keyType.value == Object then Collect(cfg, child, n, o, path)
        else ArrayChanges(cfg, child, n, o, path)
  }

  /** `handleArray`: both sides must be arrays, or `.slice()` throws. */
  function ArrayChanges(cfg: Config, d: Descriptor, newval: Value, oldval: Value, currentPath: Option<string>): Result<seq<DiffDetails>>
    decreases d, 4, 0
  {
    if newval.Arr? && oldval.Arr? then Reconcile(cfg, d, newval.items, oldval.items, currentPath)
    else Err(SliceError)
  }

  /** The reconciliation of two arrays by identity: diffs of the matched
      pairs, then creations of the new elements left in the working list,
      then deletions of the old elements left in theirs. */
  function Reconcile(cfg: Config, d: Descriptor, nv: seq<Value>, ov: seq<Value>, currentPath: Option<string>): Result<seq<DiffDetails>>
    decreases d, 3, 0
  {
    CollectAll(cfg, d, ReconcileItems(d, nv, ov), currentPath)
  }

  /** `collectChanges` on each (new, old) item in turn, at one path. */
  function CollectAll(cfg: Config, d: Descriptor, items: seq<(Value, Value)>, currentPath: Option<string>): Result<seq<DiffDetails>>
    decreases d, 2, |items|
  {
    if items == [] then Ok([])
    else Then(CollectAll(cfg, d, items[..|items| - 1], currentPath),
              Collect(cfg, d, items[|items| - 1].0, items[|items| - 1].1, currentPath))
  }

  /** `deleted.find((d) => descriptor.Compare(d, c))`, as a position. */
  function FirstMatch(d: Descriptor, ov: seq<Value>, c: Value): (r: Option<nat>)
    ensures r.Some? ==> r.value < |ov| && Compare(d, ov[r.value], c)
    ensures r.Some? ==> forall j :: 0 <= j < r.value ==> !Compare(d, ov[j], c)
    ensures r.None? ==> forall j :: 0 <= j < |ov| ==> !Compare(d, ov[j], c)
  {
    if ov == [] then None
    else if Compare(d, ov[0], c) then Some(0)
    else match FirstMatch(d, ov[1..], c)
      case None => None
      case Some(j) => Some(j + 1)
  }

  /** Pairs of positions (new, old) in range. */
  predicate ValidPairs(pairs: seq<(nat, nat)>, n: nat, m: nat) {
    forall k :: 0 <= k < |pairs| ==> pairs[k].0 < n && pairs[k].1 < m
  }

  /** The pair the `map` step builds for the new element at `i`, kept by
      `filter((x) => x.c && x.d)` only when both sides are truthy. */
  function PairAt(d: Descriptor, nv: seq<Value>, ov: seq<Value>, i: nat): seq<(nat, nat)>
    requires i < |nv|
  {
    var m := FirstMatch(d, ov, nv[i]);
    if Truthy(nv[i]) && m.Some? && Truthy(ov[m.value]) then [(i, m.value)] else []
  }

  /** `updated` for the first `n` new elements. */
  function MatchPairsUpTo(d: Descriptor, nv: seq<Value>, ov: seq<Value>, n: nat): (pairs: seq<(nat, nat)>)
    requires n <= |nv|
    ensures ValidPairs(pairs, n, |ov|)
  {
    if n == 0 then [] else MatchPairsUpTo(d, nv, ov, n - 1) + PairAt(d, nv, ov, n - 1)
  }

  /** `updated`: the matched (new, old) pairs, in new-array order. */
  function MatchPairs(d: Descriptor, nv: seq<Value>, ov: seq<Value>): (pairs: seq<(nat, nat)>)
    ensures ValidPairs(pairs, |nv|, |ov|)
  {
    MatchPairsUpTo(d, nv, ov, |nv|)
  }

  function Firsts(pairs: seq<(nat, nat)>): (r: seq<nat>)
    ensures |r| == |pairs| && forall k :: 0 <= k < |pairs| ==> r[k] == pairs[k].0
  {
    seq(|pairs|, k requires 0 <= k < |pairs| => pairs[k].0)
  }

  function Seconds(pairs: seq<(nat, nat)>): (r: seq<nat>)
    ensures |r| == |pairs| && forall k :: 0 <= k < |pairs| ==> r[k] == pairs[k].1
  {
    seq(|pairs|, k requires 0 <= k < |pairs| => pairs[k].1)
  }

  /** The positions 0 .. n-1: a fresh `slice()` of an n-element array, each
      element standing for itself. */
  function Range(n: nat): (r: seq<nat>)
    ensures |r| == n && forall k :: 0 <= k < n ==> r[k] == k
    ensures forall x :: x in r ==> x < n
  {
    seq(n, k requires 0 <= k < n => k as nat)
  }

  /** The working list after `list.splice(list.indexOf(x), 1)` for each `x`
      of `xs` in turn. A missing element gives index -1, which removes the
      last element instead. */
  function Consume(s: seq<nat>, xs: seq<nat>): (r: seq<nat>)
    ensures forall y :: y in r ==> y in s
    ensures |r| == if |xs| <= |s| then |s| - |xs| else 0
  {
    if xs == [] then s
    else
      var t := Consume(s, xs[..|xs| - 1]);
      Splice1<nat>(t, IndexOf<nat>(t, xs[|xs| - 1]))
  }

  function UpdateItems(nv: seq<Value>, ov: seq<Value>, pairs: seq<(nat, nat)>): (r: seq<(Value, Value)>)
    requires ValidPairs(pairs, |nv|, |ov|)
    ensures |r| == |pairs| && forall k :: 0 <= k < |pairs| ==> r[k] == (nv[pairs[k].0], ov[pairs[k].1])
  {
    seq(|pairs|, k requires 0 <= k < |pairs| => (nv[pairs[k].0], ov[pairs[k].1]))
  }

  predicate InRange(idx: seq<nat>, n: nat) {
    forall k :: 0 <= k < |idx| ==> idx[k] < n
  }

  /** The (new, null) items of the creation loop. */
  function CreateItems(nv: seq<Value>, idx: seq<nat>): (r: seq<(Value, Value)>)
    requires InRange(idx, |nv|)
    ensures |r| == |idx| && forall k :: 0 <= k < |idx| ==> r[k] == (nv[idx[k]], Null)
  {
    seq(|idx|, k requires 0 <= k < |idx| => (nv[idx[k]], Null))
  }

  /** The (null, old) items of the deletion loop. */
  function DeleteItems(ov: seq<Value>, idx: seq<nat>): (r: seq<(Value, Value)>)
    requires InRange(idx, |ov|)
    ensures |r| == |idx| && forall k :: 0 <= k < |idx| ==> r[k] == (Null, ov[idx[k]])
  {
    seq(|idx|, k requires 0 <= k < |idx| => (Null, ov[idx[k]]))
  }

  /** `diff(oldval, newval)`: the walk from the root with a null path. */
  function Diff(cfg: Config, d: Descriptor, oldval: Value, newval: Value): Result<seq<DiffDetails>> {
    Collect(cfg, d, newval, oldval, None)
  }

  /** What is left of a fresh working list holds positions in range. */
  lemma ConsumeRangeInRange(n: nat, xs: seq<nat>)
    ensures InRange(Consume(Range(n), xs), n)
  {
    var r := Consume(Range(n), xs);
    forall k | 0 <= k < |r| ensures r[k] < n {
      assert r[k] in Range(n);
    }
  }

  /** All the items of a reconciliation, in processing order. */
  function ReconcileItems(d: Descriptor, nv: seq<Value>, ov: seq<Value>): seq<(Value, Value)> {
    PairedItems(nv, ov, MatchPairs(d, nv, ov))
  }

  /** The items the three loops of `handleArray` visit for a given `updated`
      list: the pairs, then what is left of `created`, then what is left of
      `deleted`. */
  function PairedItems(nv: seq<Value>, ov: seq<Value>, pairs: seq<(nat, nat)>): seq<(Value, Value)>
    requires ValidPairs(pairs, |nv|, |ov|)
  {
    var created := Consume(Range(|nv|), Firsts(pairs));
    var deleted := Consume(Range(|ov|), Seconds(pairs));
    ConsumeRangeInRange(|nv|, Firsts(pairs));
    ConsumeRangeInRange(|ov|, Seconds(pairs));
    UpdateItems(nv, ov, pairs) + CreateItems(nv, created) + DeleteItems(ov, deleted)
  }

  /** One more item of a run: its records follow the ones already collected,
      and its error, if any, becomes the outcome. */
  lemma CollectAllPrefixStep(cfg: Config, d: Descriptor, items: seq<(Value, Value)>, k: nat, currentPath: Option<string>)
    requires k < |items|
    ensures CollectAll(cfg, d, items[..k + 1], currentPath)
         == Then(CollectAll(cfg, d, items[..k], currentPath), Collect(cfg, d, items[k].0, items[k].1, currentPath))
  {
    assert items[..k + 1][..k] == items[..k];
  }

  /** The working list after one more `splice(indexOf(x), 1)`. */
  lemma ConsumeStep(s: seq<nat>, xs: seq<nat>, k: nat)
    requires k < |xs|
    ensures Consume(s, xs[..k + 1]) == Splice1<nat>(Consume(s, xs[..k]), IndexOf<nat>(Consume(s, xs[..k]), xs[k]))
  {
    assert xs[..k + 1][..k] == xs[..k];
  }

  /** Both working lists of `handleArray` after the pair at `k` is struck out. */
  lemma WorklistStep(n: nat, m: nat, pairs: seq<(nat, nat)>, k: nat)
    requires k < |pairs|
    ensures Consume(Range(n), Firsts(pairs)[..k + 1])
         == Splice1<nat>(Consume(Range(n), Firsts(pairs)[..k]), IndexOf<nat>(Consume(Range(n), Firsts(pairs)[..k]), pairs[k].0))
    ensures Consume(Range(m), Seconds(pairs)[..k + 1])
         == Splice1<nat>(Consume(Range(m), Seconds(pairs)[..k]), IndexOf<nat>(Consume(Range(m), Seconds(pairs)[..k]), pairs[k].1))
  {
    ConsumeStep(Range(n), Firsts(pairs), k);
    ConsumeStep(Range(m), Seconds(pairs), k);
  }


  /** Once a prefix of the items fails, the whole run fails the same way. */
  lemma CollectAllPrefixErr(cfg: Config, d: Descriptor, items: seq<(Value, Value)>, k: nat, currentPath: Option<string>)
    requires k <= |items|
    requires CollectAll(cfg, d, items[..k], currentPath).Err?
    ensures CollectAll(cfg, d, items, currentPath) == CollectAll(cfg, d, items[..k], currentPath)
  {
    CollectAllAppend(cfg, d, items[..k], items[k..], currentPath);
    assert items[..k] + items[k..] == items;
  }

  /** Once a prefix of the keys fails, the whole walk fails the same way. */
  lemma WalkPrefixErr(cfg: Config, d: Descriptor, newval: Value, oldval: Value, currentPath: Option<string>, keys: seq<string>, k: nat)
    requires k <= |keys|
    requires Walk(cfg, d, newval, oldval, currentPath, keys[..k]).Err?
    ensures Walk(cfg, d, newval, oldval, currentPath, keys) == Walk(cfg, d, newval, oldval, currentPath, keys[..k])
  {
    WalkAppend(cfg, d, newval, oldval, currentPath, keys[..k], keys[k..]);
    assert keys[..k] + keys[k..] == keys;
  }

  lemma ThenAssoc(a: Result<seq<DiffDetails>>, b: Result<seq<DiffDetails>>, c: Result<seq<DiffDetails>>)
    ensures Then(Then(a, b), c) == Then(a, Then(b, c))
  {
    if a.Ok? && b.Ok? && c.Ok? {
      assert (a.value + b.value) + c.value == a.value + (b.value + c.value);
    }
  }

  /** Records accumulate in order across a split of the items. */
  lemma {:induction false} CollectAllAppend(cfg: Config, d: Descriptor, a: seq<(Value, Value)>, b: seq<(Value, Value)>, currentPath: Option<string>)
    ensures CollectAll(cfg, d, a + b, currentPath) == Then(CollectAll(cfg, d, a, currentPath), CollectAll(cfg, d, b, currentPath))
    decreases |b|
  {
    if b == [] {
      assert a + b == a;
      var r := CollectAll(cfg, d, a, currentPath);
      assert r.Ok? ==> r.value + [] == r.value;
    } else {
      var b' := b[..|b| - 1];
      assert (a + b)[..|a + b| - 1] == a + b';
      assert (a + b)[|a + b| - 1] == b[|b| - 1];
      CollectAllAppend(cfg, d, a, b', currentPath);
      ThenAssoc(CollectAll(cfg, d, a, currentPath), CollectAll(cfg, d, b', currentPath), Collect(cfg, d, b[|b| - 1].0, b[|b| - 1].1, currentPath));
    }
  }

  /** Records of the field walk accumulate in key order across a split of the keys. */
  lemma {:induction false} WalkAppend(cfg: Config, d: Descriptor, newval: Value, oldval: Value, currentPath: Option<string>, a: seq<string>, b: seq<string>)
    ensures Walk(cfg, d, newval, oldval, currentPath, a + b)
         == Then(Walk(cfg, d, newval, oldval, currentPath, a), Walk(cfg, d, newval, oldval, currentPath, b))
    decreases |b|
  {
    if b == [] {
      assert a + b == a;
      var r := Walk(cfg, d, newval, oldval, currentPath, a);
      assert r.Ok? ==> r.value + [] == r.value;
    } else {
      var b' := b[..|b| - 1];
      assert (a + b)[..|a + b| - 1] == a + b';
      assert (a + b)[|a + b| - 1] == b[|b| - 1];
      WalkAppend(cfg, d, newval, oldval, currentPath, a, b');
      ThenAssoc(Walk(cfg, d, newval, oldval, currentPath, a), Walk(cfg, d, newval, oldval, currentPath, b'),
                KeyChanges(cfg, d, newval, oldval, currentPath, b[|b| - 1]));
    }
  }
}
