# audit-diff in Dafny

A model of the diff engine of `audit-diff`, with proofs about it. `audit-diff` is a small TypeScript library that compares an old and a new version of an entity under a *descriptor*. A descriptor is a metadata tree that gives each field one of two things:

- a display label;
- a nested descriptor, for an object or an array.

From this, `DiffService.diff` builds an ordered list of `DiffDetails` records. Each record holds a field label path, the old text and the new text.

The model has three layers.

- **Data model.**
  - `Values` holds the dynamically typed JavaScript values the engine meets: null/undefined, a scalar kept as its `toString()` text, a plain object and an array.
  - `IDescriptor` holds the descriptor and its queries: `getFields`, `getFieldType`, `getDescription` and `Compare`.
  - `Details` holds the change record.
  - `JsArray` holds the two `Array.prototype` operations the reconciliation relies on: `indexOf` (-1 when absent) and `splice(i, 1)` (a negative start counts from the end).
- **Specification.** `DiffEngine` states, as functions, what each step of the service computes:
  - `collectChanges` becomes `Collect`;
  - its field loop becomes `Walk`, one turn at a time `KeyChanges`;
  - `handleArray` becomes `ArrayChanges`/`Reconcile`;
  - `handleProperty` becomes `PropertyChange`.

  A thrown exception is a `Result.Err`, and the first one ends the whole walk.
- **The service.** `Service.DiffService` is the class with its three fields. Its methods follow the source's loops step by step. Each method is proved to return exactly the matching `DiffEngine` function. `collectChanges` and `handleArray` are split at their loops into one method per loop, so that each loop carries its own invariant.

The properties are proved as lemmas over the specification:

- **`EngineLemmas`: `collectChanges` and `handleProperty`.**
  - existence asymmetry;
  - replacement of a different entity;
  - skipped keys;
  - path building;
  - "a record exactly when the texts differ".
- **`ReconcileLemmas`: `handleArray`.**
  - greedy first matching;
  - the order "pairs, then creations, then deletions";
  - the behaviour when elements cannot be identified;
  - what happens when two new elements match the same old one.
- **`Scenarios`: cases of the repository's test suite.**
- **`Findings`: the nested-path defect** described below.

Label paths follow the code rather than the test suite, with one exception: the nested-descriptor path of `src/diff.service.ts:89-91`. That path is defective (see "## Findings"), and everywhere outside the `Findings` module the model uses its corrected form. The code sets both `field` and `path` of a record to the *label* path (for example `Foo Stack Table -> Stack item Name`). The test suite also expects structural paths such as `bar.user`, `stack[0].name` and `date`, and calls a `bindPath` method that `src/diff.service.ts` does not define.

## Model

| member | source | states |
|---|---|---|
| JsArray.IndexOf | src/diff.service.ts:129-130 | `indexOf`: the first position holding the element, and -1 exactly when the element is absent |
| JsArray.Splice1 | src/diff.service.ts:129-130 | `splice(i, 1)`: removes position i when it is in range and the last element when i is -1; one element fewer whenever -1 <= i < length on a non-empty list |
| Values.FieldOf | src/diff.service.ts:78-79 | `v[key]` is the object's own property, and undefined for a missing key or for a value that is not an object |
| IDescriptor.NewDescriptor | src/idescriptor.ts:18-24 | a descriptor built from a field map alone has no name, type Object, no key function and no comparer |
| IDescriptor.Lookup | src/idescriptor.ts:47 | `map[field]` is absent exactly when the key is not among the map's keys; when present it is the entry stored under the first occurrence of the key |
| IDescriptor.GetFields | src/idescriptor.ts:26-28 | the map's keys in insertion order, and none when the map is null |
| IDescriptor.GetFieldType | src/idescriptor.ts:46-55 | null for a missing map, a missing key, an unset entry or an empty label; Field for a label; the nested descriptor's own type for a descriptor |
| IDescriptor.GetDescription | src/idescriptor.ts:30-36 | null when the field type is null; the label for a label entry; '[object Object]' for a nested descriptor of type Field (its `toString()`); the nested descriptor's name otherwise |
| IDescriptor.Compare | src/idescriptor.ts:38-45 | the comparer decides when there is one; otherwise equal keys decide when there is a key function; otherwise false |
| Details.NewDiffDetails | src/diff.details.ts:16-21 | the constructor stores `key` as field, then path, old and new value, whatever its argument order |
| DiffEngine.ConfigOf | src/diff.service.ts:16-17 | delimiter and empty label are the given options when present and non-empty, and ' -> ' and 'N/A' otherwise; neither is ever empty |
| DiffEngine.FirstMatch | src/diff.service.ts:121 | `deleted.find(d => Compare(d, c))`: the first old position that compares equal, and none exactly when no position does |
| DiffEngine.MatchPairsUpTo | src/diff.service.ts:119-123 | every pair built from the first n new elements indexes into both arrays |
| DiffEngine.Consume | src/diff.service.ts:129-130 | the working list after the splices keeps only elements it held, and loses exactly one element per splice while there are elements left |
| DiffEngine.CollectAllPrefixErr | src/diff.service.ts:124-144 | an exception while diffing an item ends the whole reconciliation with that exception |
| DiffEngine.WalkPrefixErr | src/diff.service.ts:68-105 | an exception in a turn of the field loop ends `collectChanges` with that exception |
| DiffEngine.CollectAllAppend | src/diff.service.ts:124-144 | records of consecutive runs of items are concatenated in order |
| DiffEngine.WalkAppend | src/diff.service.ts:68-105 | records of the field loop accumulate in key order across any split of the keys |
| Service.DiffService.constructor | src/diff.service.ts:14-18 | stores the root descriptor built from the map, and the options or their defaults |
| Service.DiffService.Diff | src/diff.service.ts:20-22 | `diff(oldval, newval)` is `collectChanges` from the root descriptor with a null path, new value first (nested paths as corrected in "## Findings") |
| Service.DiffService.CollectChanges | src/diff.service.ts:24-107 | the deletion, creation, nothing and replacement records of the existence and identity checks, then the field loop; equal to `DiffEngine.Collect` (nested paths as corrected in "## Findings") |
| Service.DiffService.WalkFields | src/diff.service.ts:68-105 | the loop over the fields yields the records of each field in key order, and stops at the first exception; equal to `DiffEngine.Walk` (nested paths as corrected in "## Findings") |
| Service.DiffService.KeyStep | src/diff.service.ts:69-104 | one turn: skip a key without type, compare a Field, recurse into an Object, reconcile an Array; equal to `DiffEngine.KeyChanges`, whose nested path is the corrected one of "## Findings" |
| Service.DiffService.HandleArray | src/diff.service.ts:109-146 | a TypeError unless both sides are arrays; otherwise the records of the matched pairs, then of the leftover new elements, then of the leftover old ones; equal to `DiffEngine.ArrayChanges` |
| Service.DiffService.MatchUpdated | src/diff.service.ts:119-123 | the map/filter step yields exactly the truthy pairs of each new element and its first match, in new-array order |
| Service.DiffService.ApplyUpdated | src/diff.service.ts:124-131 | the records of the pairs in order, and the two working lists after each pair is spliced out by `indexOf` |
| Service.DiffService.CollectCreated | src/diff.service.ts:133-138 | each leftover new element is diffed against null, after the records so far, stopping at the first exception |
| Service.DiffService.CollectDeleted | src/diff.service.ts:139-144 | each leftover old element is diffed against null, after the records so far, stopping at the first exception |
| Service.DiffService.HandleProperty | src/diff.service.ts:182-209 | null becomes the empty label on either side; a record with the old and new text exactly when the texts differ |
| EngineLemmas.BothAbsent | src/diff.service.ts:51-54 | both values null: no records |
| EngineLemmas.NewAbsent | src/diff.service.ts:33-41 | new value null: exactly one record, 'Delete ' + name (+ ': ' + key), against the empty label, at the current path |
| EngineLemmas.OldAbsent | src/diff.service.ts:42-50 | old value null: exactly one record, the empty label against 'Create ' + name (+ ': ' + key) |
| EngineLemmas.IdentityMismatch | src/diff.service.ts:55-67 | different entities under the key function: one 'from : key' / 'to : key' record and no per-field records |
| EngineLemmas.NoKeyFnWalks | src/diff.service.ts:55-68 | without a key function two present values are always walked field by field, whatever the comparer says |
| EngineLemmas.RootWalks | src/diff.service.ts:20-22 | the root descriptor has no key function, so `diff` of two present values walks the root map's keys |
| EngineLemmas.UnmappedKeySkipped | src/diff.service.ts:74-77 | a key without a field type adds no record and no error |
| EngineLemmas.WalkSkipsUnmapped | src/diff.service.ts:68-77 | the field loop gives the same result as the loop over the mapped keys alone |
| EngineLemmas.ScalarFieldRecord | src/diff.service.ts:81-87 | a labelled field gets the path `currentPath + delimeter + label`, or the label alone under an empty path, and a record exactly when the shown texts differ |
| EngineLemmas.NestedFieldRecurses | src/diff.service.ts:88-99 | the corrected nested turn of "## Findings": a nested Object or Array entry recurses into its descriptor, under the path extended by the nested descriptor's name (as written, the source throws or drops the name here) |
| EngineLemmas.PropertyChangeExactlyWhenTextsDiffer | src/diff.service.ts:182-209 | a record exactly when the texts differ once null is the empty label, holding old and new text in that order |
| EngineLemmas.NullEqualsEmptyLabel | src/diff.service.ts:184-189 | null against the literal empty-label text yields no record |
| EngineLemmas.ObjectsCompareEqual | src/diff.service.ts:201-204 | two plain objects both render as '[object Object]', so they never yield a record |
| EngineLemmas.KeyCompareIsEquivalence | src/idescriptor.ts:41-43 | with a key function and no comparer, `Compare` is reflexive, symmetric and transitive |
| EngineLemmas.NoIdentityNeverMatches | src/idescriptor.ts:38-45 | with neither comparer nor key function, no old element matches |
| EngineLemmas.UnnamedNestedHasNoDescription | src/idescriptor.ts:30-36 | an unnamed nested descriptor has a field type but a null description |
| EngineLemmas.ArrayNeedsArrays | src/diff.service.ts:116-117 | in the model, a side that is not an array (null, an object or a scalar) makes `.slice()` throw; a string side, which the source slices without error, is admitted under "## Left out" |
| ReconcileLemmas.ConsumeIsUnlisted | src/diff.service.ts:129-130 | splicing distinct in-range positions out of a fresh copy leaves the other positions in their order |
| ReconcileLemmas.MatchPairsUpToSound | src/diff.service.ts:119-123 | each pair is a truthy new element with its first match, which is truthy |
| ReconcileLemmas.MatchPairsUpToOrdered | src/diff.service.ts:119-123 | the pairs come in strictly increasing new-array order |
| ReconcileLemmas.MatchPairsUpToComplete | src/diff.service.ts:119-123 | every truthy new element whose first match is truthy is paired with it |
| ReconcileLemmas.MatchPairsSpec | src/diff.service.ts:119-123 | `updated` is sound, ordered and complete: exactly the greedy first-match pairing |
| ReconcileLemmas.CreatedAreUnmatched | src/diff.service.ts:129-133 | the new elements left in `created` are exactly the unmatched ones, in new-array order |
| ReconcileLemmas.DeletedAreUnmatched | src/diff.service.ts:130-139 | when no old element is matched twice, the old elements left in `deleted` are exactly the unmatched ones, in old-array order |
| ReconcileLemmas.ReconcileOrder | src/diff.service.ts:119-144 | the items diffed are the pairs, then each unmatched new element against null, then null against each unmatched old element, each group in its array's order |
| ReconcileLemmas.CollectAllCreations | src/diff.service.ts:133-138 | without a key function, the leftover new elements give one identical creation record per present element |
| ReconcileLemmas.CollectAllDeletions | src/diff.service.ts:139-144 | without a key function, the leftover old elements give one identical deletion record per present element |
| ReconcileLemmas.NoIdentityNoPairs | src/diff.service.ts:119-123 | with neither key function nor comparer, `updated` is empty |
| ReconcileLemmas.NoIdentityCreatesThenDeletes | src/diff.service.ts:109-146 | an array that cannot identify elements reports every present new element created, then every present old element deleted |
| ReconcileLemmas.ReuseMatches | src/diff.service.ts:119-123 | matching searches the unmodified old array, so new [a, a] pairs both elements with the first old "a" of [a, b] |
| ReconcileLemmas.ReuseEmptiesWorklists | src/diff.service.ts:129-130 | splicing old position 0 twice hits `indexOf` -1 the second time, which removes the last element instead |
| ReconcileLemmas.SharedMatchWorklists | src/diff.service.ts:129-130 | under the pairs (0, 0) and (1, 0), both working lists end empty |
| ReconcileLemmas.SharedMatchUpdates | src/diff.service.ts:124-127 | under those pairs the pair loop diffs the first new element and then the second, each against the first old element |
| ReconcileLemmas.NoLeftoverItems | src/diff.service.ts:124-144 | when both working lists end empty, the items diffed are exactly the pairs |
| ReconcileLemmas.SharedMatchItems | src/diff.service.ts:124-144 | under those pairs only the two pairs are diffed: no creation and no deletion is left |
| ReconcileLemmas.CollectAllQuiet | src/diff.service.ts:124-131 | items that each add nothing add nothing together |
| ReconcileLemmas.ReuseLosesDelete | src/diff.service.ts:119-144 | [a, a] against [a, b] yields no record at all, though the old "b" alone against null yields a deletion |
| Findings.NestedPathAsWritten | src/diff.service.ts:89-91 | as written, the nested path throws exactly when the description is null; otherwise it is lost, or ends in 'undefined' |
| Findings.UnnamedNestedThrowsAsWritten | src/diff.service.ts:89-91 | an unnamed nested descriptor makes the turn throw as written, where the intended turn recurses |
| Findings.NamedNestedLosesNameAsWritten | src/diff.service.ts:89-91 | a named nested descriptor's name never reaches the path as written; the intended path is present and differs |
| Findings.WalkAsWrittenKeepsErr | src/diff.service.ts:68-105 | an exception in an early turn of the as-written loop is its outcome |
| Findings.FooMapThrowsAsWritten | src/diff.service.spec.ts:24-34 | as written, every diff of two present values under `fooMap` throws at its unnamed `bar` entry |
| Findings.FooStackPath | src/diff.service.spec.ts:171 | under the intended path, `stack` is reconciled under 'Foo Stack Table' and its name field is labelled 'Foo Stack Table -> Stack item Name'; as written the path is lost |
| Scenarios.NullPass | src/diff.service.spec.ts:68-84 | a null on either side or both does not throw: one bare creation, one bare deletion, or nothing |
| Scenarios.SimpleFieldDiff | src/diff.service.ts:81-87 | under `simpleMap`, one record labelled 'Simple field' exactly when the two texts differ |
| Scenarios.DiffOnlyOneField | src/diff.service.spec.ts:85-105 | 'a' against 'b' gives the one record with old 'a', new 'b', field 'Simple field'; 'a' against 'a' gives none |
| Scenarios.ClearedField | src/diff.service.ts:184-204 | a field set on the old side and null on the new gives one record, with the empty label as the new text |
| Scenarios.OnlyDeletion | src/diff.service.ts:139-144 | an empty new array against a one-element old array is that element deleted |
| Scenarios.StackItemDeleted | src/diff.service.spec.ts:121-135 | a removed stack item gives one record whose old text names 'A First Child' and whose new text is the empty label |
| Scenarios.StackPairs | src/diff.service.spec.ts:160-166 | with the test's stacks, only the items with id 0 are paired |
| Scenarios.OnePairItems | src/diff.service.ts:124-144 | with one pair (0, 0) in two-element arrays, the items are the pair, the second new element, then the second old element |
| Scenarios.StackUpdate | src/diff.service.spec.ts:160-171 | the paired stack items differ only in name: one record 'Foo Stack Table -> Stack item Name' from 'A Stack Name' to 'B Stack Name' |
| Scenarios.OnePairRecords | src/diff.service.spec.ts:169-173 | such arrays give exactly three records: the pair's update, a creation and a deletion, both under the array's own path |

## Left out

- Date and boxed-Boolean values: the `instanceof Date` and `instanceof Boolean` branches of `handleProperty` are not modelled. A value is a scalar, an object, an array or null. So the repository's 'empty date' case is not decided here: a `Date` against null takes the Date branch, where `new Date('N/A')` is an invalid date.
- The `try`/`catch` of `handleProperty`: the `toString()` branch modelled here cannot throw.
- `handleField` and `isMongooseId`: nothing in the source calls them.
- Console logging (`console.error('Unexpected key')`) is not modelled; the key is skipped silently.
- `bindPath` and structural record paths: `src/diff.service.ts` defines neither. The model reports the label paths the code builds.
- JavaScript's dynamic typing:
  - properties read from a string or array value (`"abc"["length"]`) read as undefined;
  - prototype properties are not modelled;
  - `Object.keys` order is the field map's entry order.
- Service.DiffService.KeyStep: like `DiffEngine.KeyChanges`, `Service.DiffService.CollectChanges`, `Service.DiffService.Diff` and `EngineLemmas.NestedFieldRecurses`, it uses the corrected nested path of the `src/diff.service.ts:89-91` finding. The source throws a TypeError for an unnamed nested descriptor and drops the name of a named one. So, for example, every diff of two present values under `fooMap` throws in the source at its unnamed `bar` entry (`Findings.FooMapThrowsAsWritten`), while here that entry recurses into `bar`'s descriptor. `Findings.KeyChangesAsWritten` and `Findings.WalkAsWritten` model the path as written.
- Values.Truthy: a scalar is kept only as its text, so the falsy primitives 0, false and NaN read as truthy. The source's `filter((x) => x.c && x.d)` drops a pair holding one of them and reports a creation and a deletion instead. For example, new `[0]` against old `[0]` under a key function gives two records in the source and none in the model.
- Service.DiffService.HandleArray: element identity is position identity, and each array element is its own entity. Two cases are not modelled:
  - the same object placed twice in one array;
  - equal primitive values, which `indexOf` finds by value. New `["x", "x"]` against old `["x", "x", "y"]`, keyed by text, leaves `["y"]` in the source's `deleted` list; the model strikes old positions 0 and 0, so it leaves position 1 (an "x") and deletes that instead.
- Service.DiffService.HandleArray: a string side is not modelled. `"ab".slice()` succeeds and `for…of` walks its characters, so the source reports one record per character. The model treats every non-array side as a `.slice()` TypeError (`EngineLemmas.ArrayNeedsArrays`).
- IDescriptor.FieldMap: a field map here is a list of entries and may list a key twice, which a JavaScript object cannot. `IDescriptor.Lookup` then returns the first entry, while `getFields` visits the key twice. Field maps with duplicate keys have no counterpart in the source.
- User key functions and comparers are total functions here: one that throws is not modelled.
- Service.DiffService.CollectChanges: the source's single method is split into `CollectChanges`, `WalkFields` and `KeyStep`, which run the same steps in the same order.
- Service.DiffService.HandleArray: the source's single method is split into `HandleArray`, `MatchUpdated`, `ApplyUpdated`, `CollectCreated` and `CollectDeleted`. The working lists hold positions rather than elements.
- ReconcileLemmas.ReconcileOrder: stated only when no old element is matched twice. `ReconcileLemmas.ReuseLosesDelete` shows that otherwise the leftover old elements are not the unmatched ones.
- ReconcileLemmas.DeletedAreUnmatched: stated under the same condition, for the same reason.
- Scenarios.StackUpdate: stated for the matched pair of the 'Should get path of array' case only. The whole `fooMap` diff of that case is the composition of `Findings.FooStackPath`, `Scenarios.StackPairs`, `Scenarios.StackUpdate` and `Scenarios.OnePairRecords`, and is not stated as one lemma.

## Findings

| source | as written | input that shows it | evidently intended | confidence | as-written member | corrected member |
|---|---|---|---|---|---|---|
| src/diff.service.ts:89-91 | The nested path reads `.descriptorName` of `getDescription(key)`. That value is already the nested descriptor's name: a string, or null. | `fooMap`'s unnamed `bar` entry: reading a property of null throws a TypeError, so every `fooMap` diff of two present values throws. The named `stack` entry, 'Foo Stack Table': `.descriptorName` of a string is undefined, so the path is lost under a null current path. | The path extends the current one with the nested descriptor's name: `currentPath + delimeter + name`, or the name alone. | not executed | Findings.FooMapThrowsAsWritten | EngineLemmas.NestedFieldRecurses |
