/** What `handleArray` promises: greedy first matching, then the matched
    pairs in new-array order, then the unmatched new elements, then the
    unmatched old elements, each group in its array's order. */
module ReconcileLemmas {
  import opened Wrappers
  import opened Values
  import opened IDescriptor
  import opened Details
  import opened JsArray
  import opened DiffEngine

  predicate Distinct(s: seq<nat>) {
    forall i, j :: 0 <= i < j < |s| ==> s[i] != s[j]
  }

  /** The elements of `s` that `xs` does not list, in their order in `s`. */
  function Unlisted(s: seq<nat>, xs: seq<nat>): (r: seq<nat>)
    ensures forall z :: z in r <==> z in s && z !in xs
  {
    if s == [] then []
    else
      assert s == s[..|s| - 1] + [s[|s| - 1]];
      Unlisted(s[..|s| - 1], xs) + (if s[|s| - 1] in xs then [] else [s[|s| - 1]])
  }

  /** Listing an element that `s` does not hold changes nothing. */
  lemma {:induction false} UnlistedIgnores(s: seq<nat>, xs: seq<nat>, x: nat)
    requires x !in s
    ensures Unlisted(s, xs + [x]) == Unlisted(s, xs)
    decreases |s|
  {
    if s != [] {
      assert s == s[..|s| - 1] + [s[|s| - 1]];
      UnlistedIgnores(s[..|s| - 1], xs, x);
    }
  }

  /** `indexOf` finds an element of `a` in `a + b` where it finds it in `a`. */
  lemma IndexOfAppend(a: seq<nat>, b: seq<nat>, x: nat)
    requires x in a
    ensures IndexOf<nat>(a + b, x) == IndexOf<nat>(a, x)
  {
    var i, j := IndexOf<nat>(a + b, x), IndexOf<nat>(a, x);
    assert (a + b)[j] == x;
    if i < j {
      assert a[i] == (a + b)[i];
    }
  }

  /** Splicing inside the first part of a concatenation. */
  lemma SpliceAppend(a: seq<nat>, b: seq<nat>, i: int)
    requires 0 <= i < |a|
    ensures Splice1<nat>(a + b, i) == Splice1<nat>(a, i) + b
  {
    assert (a + b)[..i] == a[..i];
    assert (a + b)[i + 1..] == a[i + 1..] + b;
  }

  /** One `splice(indexOf(x), 1)` on the filtered list lists `x` as well. */
  lemma {:induction false} StrikeUnlisted(s: seq<nat>, xs: seq<nat>, x: nat)
    requires Distinct(s) && x in s && x !in xs
    ensures Splice1<nat>(Unlisted(s, xs), IndexOf<nat>(Unlisted(s, xs), x)) == Unlisted(s, xs + [x])
    decreases |s|
  {
    var init, last := s[..|s| - 1], s[|s| - 1];
    assert s == init + [last];
    var u := Unlisted(init, xs);
    var tail := if last in xs then [] else [last];
    assert Unlisted(s, xs) == u + tail;
    if last == x {
      assert x !in init by {
        forall k | 0 <= k < |init| ensures init[k] != x {
          assert s[k] != s[|s| - 1];
        }
      }
      assert x !in u;
      assert Unlisted(s, xs) == u + [x];
      assert IndexOf<nat>(u + [x], x) == |u|;
      assert (u + [x])[..|u|] == u;
      UnlistedIgnores(init, xs, x);
      assert Unlisted(s, xs + [x]) == Unlisted(init, xs + [x]) + [];
    } else {
      assert x in init;
      assert Distinct(init) by {
        forall i, j | 0 <= i < j < |init| ensures init[i] != init[j] {
          assert init[i] == s[i] && init[j] == s[j];
        }
      }
      StrikeUnlisted(init, xs, x);
      assert x in u;
      IndexOfAppend(u, tail, x);
      SpliceAppend(u, tail, IndexOf<nat>(u, x));
      assert (last in xs + [x]) == (last in xs);
      assert Unlisted(s, xs + [x]) == Unlisted(init, xs + [x]) + tail;
    }
  }

  lemma RangeDistinct(n: nat)
    ensures Distinct(Range(n))
  {
  }

  /** With distinct entries, each in range, the working list left after
      the splices is the fresh copy with the listed positions filtered out:
      the remaining elements keep their order. */
  lemma {:induction false} ConsumeIsUnlisted(n: nat, xs: seq<nat>)
    requires Distinct(xs)
    requires forall k :: 0 <= k < |xs| ==> xs[k] < n
    ensures Consume(Range(n), xs) == Unlisted(Range(n), xs)
    decreases |xs|
  {
    if xs == [] {
      assert forall z :: z in Range(n) ==> z in Unlisted(Range(n), xs);
      UnlistedAll(Range(n));
    } else {
      var init, x := xs[..|xs| - 1], xs[|xs| - 1];
      assert xs == init + [x];
      assert Distinct(init);
      ConsumeIsUnlisted(n, init);
      assert x !in init by {
        forall k | 0 <= k < |init| ensures init[k] != x {
          assert xs[k] != xs[|xs| - 1];
        }
      }
      RangeDistinct(n);
      assert Range(n)[x] == x;
      StrikeUnlisted(Range(n), init, x);
    }
  }

  /** Filtering out nothing keeps the whole list. */
  lemma {:induction false} UnlistedAll(s: seq<nat>)
    ensures Unlisted(s, []) == s
    decreases |s|
  {
    if s != [] {
      UnlistedAll(s[..|s| - 1]);
      assert s == s[..|s| - 1] + [s[|s| - 1]];
    }
  }

  /** Every pair is a truthy new element with its first match among the
      old elements, which is truthy too. */
  predicate PairsSound(d: Descriptor, nv: seq<Value>, ov: seq<Value>, p: seq<(nat, nat)>) {
    forall k :: 0 <= k < |p| ==>
      && p[k].0 < |nv| && p[k].1 < |ov|
      && Truthy(nv[p[k].0]) && FirstMatch(d, ov, nv[p[k].0]) == Some(p[k].1) && Truthy(ov[p[k].1])
  }

  /** The new positions increase along the pairs. */
  predicate PairsOrdered(p: seq<(nat, nat)>) {
    forall k, l :: 0 <= k < l < |p| ==> p[k].0 < p[l].0
  }

  /** Every truthy new element among the first `n` whose first match is
      truthy is paired with it. */
  predicate PairsComplete(d: Descriptor, nv: seq<Value>, ov: seq<Value>, n: nat, p: seq<(nat, nat)>)
    requires n <= |nv|
  {
    forall i :: 0 <= i < n && Truthy(nv[i]) && FirstMatch(d, ov, nv[i]).Some? && Truthy(ov[FirstMatch(d, ov, nv[i]).value]) ==>
      (i, FirstMatch(d, ov, nv[i]).value) in p
  }

  lemma {:induction false} MatchPairsUpToSound(d: Descriptor, nv: seq<Value>, ov: seq<Value>, n: nat)
    requires n <= |nv|
    ensures PairsSound(d, nv, ov, MatchPairsUpTo(d, nv, ov, n))
    decreases n
  {
    if n > 0 {
      MatchPairsUpToSound(d, nv, ov, n - 1);
      var q := MatchPairsUpTo(d, nv, ov, n - 1);
      var p := MatchPairsUpTo(d, nv, ov, n);
      var m := FirstMatch(d, ov, nv[n - 1]);
      if Truthy(nv[n - 1]) && m.Some? && Truthy(ov[m.value]) {
        assert p == q + [(n - 1, m.value)];
      } else {
        assert p == q + [];
      }
    }
  }

  lemma {:induction false} MatchPairsUpToOrdered(d: Descriptor, nv: seq<Value>, ov: seq<Value>, n: nat)
    requires n <= |nv|
    ensures PairsOrdered(MatchPairsUpTo(d, nv, ov, n))
    decreases n
  {
    if n > 0 {
      MatchPairsUpToOrdered(d, nv, ov, n - 1);
      var q := MatchPairsUpTo(d, nv, ov, n - 1);
      var p := MatchPairsUpTo(d, nv, ov, n);
      var m := FirstMatch(d, ov, nv[n - 1]);
      if Truthy(nv[n - 1]) && m.Some? && Truthy(ov[m.value]) {
        assert p == q + [(n - 1, m.value)];
        forall k, l | 0 <= k < l < |p| ensures p[k].0 < p[l].0 {
          assert p[k] == q[k];
          if l < |q| {
            assert p[l] == q[l];
          } else {
            assert q[k].0 < n - 1;
          }
        }
      } else {
        assert p == q + [];
      }
    }
  }

  lemma {:induction false} MatchPairsUpToComplete(d: Descriptor, nv: seq<Value>, ov: seq<Value>, n: nat)
    requires n <= |nv|
    ensures PairsComplete(d, nv, ov, n, MatchPairsUpTo(d, nv, ov, n))
    decreases n
  {
    if n > 0 {
      MatchPairsUpToComplete(d, nv, ov, n - 1);
      var q := MatchPairsUpTo(d, nv, ov, n - 1);
      var p := MatchPairsUpTo(d, nv, ov, n);
      assert p == q + PairAt(d, nv, ov, n - 1);
      forall i | 0 <= i < n && Truthy(nv[i]) && FirstMatch(d, ov, nv[i]).Some? && Truthy(ov[FirstMatch(d, ov, nv[i]).value])
        ensures (i, FirstMatch(d, ov, nv[i]).value) in p
      {
        if i < n - 1 {
          assert (i, FirstMatch(d, ov, nv[i]).value) in q;
        } else {
          assert PairAt(d, nv, ov, n - 1) == [(i, FirstMatch(d, ov, nv[i]).value)];
        }
      }
    }
  }

  /** The greedy matching of `handleArray`: each truthy new element is paired
      with its first match when that is truthy, and with nothing else, in
      new-array order. */
  lemma MatchPairsSpec(d: Descriptor, nv: seq<Value>, ov: seq<Value>)
    ensures PairsSound(d, nv, ov, MatchPairs(d, nv, ov))
    ensures PairsOrdered(MatchPairs(d, nv, ov))
    ensures PairsComplete(d, nv, ov, |nv|, MatchPairs(d, nv, ov))
  {
    MatchPairsUpToSound(d, nv, ov, |nv|);
    MatchPairsUpToOrdered(d, nv, ov, |nv|);
    MatchPairsUpToComplete(d, nv, ov, |nv|);
  }

  /** The new elements left in `created` after the pair loop are the
      unmatched ones, in new-array order. */
  lemma CreatedAreUnmatched(d: Descriptor, nv: seq<Value>, ov: seq<Value>)
    ensures Consume(Range(|nv|), Firsts(MatchPairs(d, nv, ov))) == Unlisted(Range(|nv|), Firsts(MatchPairs(d, nv, ov)))
  {
    var p := MatchPairs(d, nv, ov);
    MatchPairsSpec(d, nv, ov);
    var f := Firsts(p);
    assert Distinct(f) by {
      forall i, j | 0 <= i < j < |f| ensures f[i] != f[j] {
        assert p[i].0 < p[j].0;
      }
    }
    ConsumeIsUnlisted(|nv|, f);
  }

  /** When no old element is matched twice, the old elements left in
      `deleted` are the unmatched ones, in old-array order. */
  lemma DeletedAreUnmatched(d: Descriptor, nv: seq<Value>, ov: seq<Value>)
    requires Distinct(Seconds(MatchPairs(d, nv, ov)))
    ensures Consume(Range(|ov|), Seconds(MatchPairs(d, nv, ov))) == Unlisted(Range(|ov|), Seconds(MatchPairs(d, nv, ov)))
  {
    ConsumeIsUnlisted(|ov|, Seconds(MatchPairs(d, nv, ov)));
  }

  /** The order of a reconciliation: the matched pairs in new-array order,
      then each unmatched new element against null, then null against each
      unmatched old element, each group in its array's order, when no old
      element is matched twice. */
  lemma ReconcileOrder(d: Descriptor, nv: seq<Value>, ov: seq<Value>)
    requires Distinct(Seconds(MatchPairs(d, nv, ov)))
    ensures InRange(Unlisted(Range(|nv|), Firsts(MatchPairs(d, nv, ov))), |nv|)
    ensures InRange(Unlisted(Range(|ov|), Seconds(MatchPairs(d, nv, ov))), |ov|)
    ensures var p := MatchPairs(d, nv, ov);
            ReconcileItems(d, nv, ov)
              == UpdateItems(nv, ov, p)
               + CreateItems(nv, Unlisted(Range(|nv|), Firsts(p)))
               + DeleteItems(ov, Unlisted(Range(|ov|), Seconds(p)))
  {
    var p := MatchPairs(d, nv, ov);
    CreatedAreUnmatched(d, nv, ov);
    DeletedAreUnmatched(d, nv, ov);
    ConsumeRangeInRange(|nv|, Firsts(p));
    ConsumeRangeInRange(|ov|, Seconds(p));
  }

  /** One creation record per present element, in order; without a key
      function they all read the same. */
  function CreateRecords(cfg: Config, d: Descriptor, vs: seq<Value>, currentPath: Option<string>): seq<DiffDetails> {
    if vs == [] then []
    else
      CreateRecords(cfg, d, vs[..|vs| - 1], currentPath)
      + (if vs[|vs| - 1].Null? then [] else [DiffDetails(currentPath, cfg.emptyLabel, "Create " + d.descriptorName.GetOr(""), currentPath)])
  }

  /** One deletion record per present element, in order. */
  function DeleteRecords(cfg: Config, d: Descriptor, vs: seq<Value>, currentPath: Option<string>): seq<DiffDetails> {
    if vs == [] then []
    else
      DeleteRecords(cfg, d, vs[..|vs| - 1], currentPath)
      + (if vs[|vs| - 1].Null? then [] else [DiffDetails(currentPath, "Delete " + d.descriptorName.GetOr(""), cfg.emptyLabel, currentPath)])
  }

  lemma {:induction false} CollectAllCreations(cfg: Config, d: Descriptor, vs: seq<Value>, currentPath: Option<string>)
    requires d.keyFn.None?
    ensures CollectAll(cfg, d, seq(|vs|, i requires 0 <= i < |vs| => (vs[i], Null)), currentPath)
         == Ok(CreateRecords(cfg, d, vs, currentPath))
    decreases |vs|
  {
    var items := seq(|vs|, i requires 0 <= i < |vs| => (vs[i], Null));
    if vs != [] {
      var init := vs[..|vs| - 1];
      CollectAllCreations(cfg, d, init, currentPath);
      assert items[..|items| - 1] == seq(|init|, i requires 0 <= i < |init| => (init[i], Null));
      var name := "Create " + d.descriptorName.GetOr("");
      assert name + "" == name;
    }
  }

  lemma {:induction false} CollectAllDeletions(cfg: Config, d: Descriptor, vs: seq<Value>, currentPath: Option<string>)
    requires d.keyFn.None?
    ensures CollectAll(cfg, d, seq(|vs|, i requires 0 <= i < |vs| => (Null, vs[i])), currentPath)
         == Ok(DeleteRecords(cfg, d, vs, currentPath))
    decreases |vs|
  {
    var items := seq(|vs|, i requires 0 <= i < |vs| => (Null, vs[i]));
    if vs != [] {
      var init := vs[..|vs| - 1];
      CollectAllDeletions(cfg, d, init, currentPath);
      assert items[..|items| - 1] == seq(|init|, i requires 0 <= i < |init| => (Null, init[i]));
      var name := "Delete " + d.descriptorName.GetOr("");
      assert name + "" == name;
    }
  }

  /** With neither key function nor comparer no pair is formed. */
  lemma {:induction false} NoIdentityNoPairs(d: Descriptor, nv: seq<Value>, ov: seq<Value>, n: nat)
    requires d.keyFn.None? && d.comparer.None? && n <= |nv|
    ensures MatchPairsUpTo(d, nv, ov, n) == []
    decreases n
  {
    if n > 0 {
      NoIdentityNoPairs(d, nv, ov, n - 1);
      assert FirstMatch(d, ov, nv[n - 1]).None?;
    }
  }

  /** With neither key function nor comparer nothing matches: every present
      new element is reported created, then every present old element
      deleted. */
  lemma NoIdentityCreatesThenDeletes(cfg: Config, d: Descriptor, nv: seq<Value>, ov: seq<Value>, currentPath: Option<string>)
    requires d.keyFn.None? && d.comparer.None?
    ensures Reconcile(cfg, d, nv, ov, currentPath)
         == Ok(CreateRecords(cfg, d, nv, currentPath) + DeleteRecords(cfg, d, ov, currentPath))
  {
    var p := MatchPairs(d, nv, ov);
    NoIdentityNoPairs(d, nv, ov, |nv|);
    assert Firsts(p) == [] && Seconds(p) == [];
    var creates := seq(|nv|, i requires 0 <= i < |nv| => (nv[i], Null));
    var deletes := seq(|ov|, i requires 0 <= i < |ov| => (Null, ov[i]));
    assert ReconcileItems(d, nv, ov) == creates + deletes;
    CollectAllAppend(cfg, d, creates, deletes, currentPath);
    CollectAllCreations(cfg, d, nv, currentPath);
    CollectAllDeletions(cfg, d, ov, currentPath);
  }

  /** The key function of the counterexample below: a scalar's own text. */
  function ScalarKey(v: Value): string {
    if v.Scalar? then v.text else ""
  }

  /** An array descriptor identifying elements by that key. */
  function ByText(): Descriptor {
    Descriptor(None, None, Array, Some(ScalarKey), None)
  }

  /** Both "a"s of the new array [a, a] match the first element of the old
      array [a, b]. */
  lemma ReuseMatches(nv: seq<Value>, ov: seq<Value>)
    requires nv == [Scalar("a"), Scalar("a")] && ov == [Scalar("a"), Scalar("b")]
    ensures MatchPairs(ByText(), nv, ov) == [(0, 0), (1, 0)]
  {
    assert FirstMatch(ByText(), ov, nv[0]) == Some(0);
    assert FirstMatch(ByText(), ov, nv[1]) == Some(0);
    assert MatchPairsUpTo(ByText(), nv, ov, 1) == [(0, 0)];
  }

  /** Striking old position 0 twice empties the old working list: the second
      `indexOf` gives -1 and `splice(-1, 1)` takes the last element. */
  lemma ReuseEmptiesWorklists()
    ensures Consume(Range(2), [0, 0]) == []
    ensures Consume(Range(2), [0, 1]) == []
  {
    assert Range(2) == [0, 1];
    assert [0, 0][..1] == [0] && [0, 1][..1] == [0];
    assert Consume(Range(2), [0]) == [1];
    assert IndexOf<nat>([1], 0) == -1;
    assert IndexOf<nat>([1], 1) == 0;
  }

  /** Both working lists of two-element arrays end empty under those pairs. */
  lemma SharedMatchWorklists(n: nat, m: nat, p: seq<(nat, nat)>)
    requires n == 2 && m == 2 && |p| == 2 && p[0] == (0, 0) && p[1] == (1, 0)
    ensures Consume(Range(n), Firsts(p)) == [] && Consume(Range(m), Seconds(p)) == []
  {
    assert Firsts(p) == [0, 1] && Seconds(p) == [0, 0];
    ReuseEmptiesWorklists();
  }

  /** When both working lists end empty, only the pairs are diffed. */
  lemma NoLeftoverItems(nv: seq<Value>, ov: seq<Value>, p: seq<(nat, nat)>)
    requires ValidPairs(p, |nv|, |ov|)
    requires Consume(Range(|nv|), Firsts(p)) == [] && Consume(Range(|ov|), Seconds(p)) == []
    ensures PairedItems(nv, ov, p) == UpdateItems(nv, ov, p)
  {
    var u := UpdateItems(nv, ov, p);
    assert CreateItems(nv, []) == [] && DeleteItems(ov, []) == [];
    assert u + [] + [] == u;
  }

  /** The items of the pairs (0, 0) and (1, 0). */
  lemma SharedMatchUpdates(nv: seq<Value>, ov: seq<Value>, p: seq<(nat, nat)>)
    requires |nv| == 2 && |ov| == 2 && |p| == 2 && p[0] == (0, 0) && p[1] == (1, 0)
    ensures ValidPairs(p, |nv|, |ov|)
    ensures UpdateItems(nv, ov, p) == [(nv[0], ov[0]), (nv[1], ov[0])]
  {
    var u := UpdateItems(nv, ov, p);
    assert |u| == 2 && u[0] == (nv[0], ov[0]) && u[1] == (nv[1], ov[0]);
  }

  /** Two-by-two arrays whose pairs are (0, 0) and (1, 0): both pairs, and
      no creation or deletion left. */
  lemma SharedMatchItems(nv: seq<Value>, ov: seq<Value>, p: seq<(nat, nat)>)
    requires |nv| == 2 && |ov| == 2 && |p| == 2 && p[0] == (0, 0) && p[1] == (1, 0)
    ensures PairedItems(nv, ov, p) == [(nv[0], ov[0]), (nv[1], ov[0])]
  {
    SharedMatchWorklists(|nv|, |ov|, p);
    SharedMatchUpdates(nv, ov, p);
    NoLeftoverItems(nv, ov, p);
  }

  /** A run of items none of which adds a record or fails adds nothing. */
  lemma {:induction false} CollectAllQuiet(cfg: Config, d: Descriptor, items: seq<(Value, Value)>, currentPath: Option<string>)
    requires forall k :: 0 <= k < |items| ==> Collect(cfg, d, items[k].0, items[k].1, currentPath) == Ok([])
    ensures CollectAll(cfg, d, items, currentPath) == Ok([])
    decreases |items|
  {
    if items != [] {
      CollectAllQuiet(cfg, d, items[..|items| - 1], currentPath);
      var e: seq<DiffDetails> := [];
      assert e + e == e;
    }
  }

  /** Matching runs over the unmodified old list, so two equal new elements
      both match the first old one, and the old "b", which left the array,
      is never reported deleted: the reconciliation yields no record at all,
      though "b" on its own against null yields one. */
  lemma ReuseLosesDelete(cfg: Config, nv: seq<Value>, ov: seq<Value>, currentPath: Option<string>)
    requires nv == [Scalar("a"), Scalar("a")] && ov == [Scalar("a"), Scalar("b")]
    ensures !Distinct(Seconds(MatchPairs(ByText(), nv, ov)))
    ensures Reconcile(cfg, ByText(), nv, ov, currentPath) == Ok([])
    ensures Collect(cfg, ByText(), Null, ov[1], currentPath) != Ok([])
  {
    var d := ByText();
    ReuseMatches(nv, ov);
    var p := MatchPairs(d, nv, ov);
    assert Seconds(p)[0] == 0 && Seconds(p)[1] == 0;
    SharedMatchItems(nv, ov, p);
    var items := ReconcileItems(d, nv, ov);
    forall k | 0 <= k < |items| ensures Collect(cfg, d, items[k].0, items[k].1, currentPath) == Ok([]) {
      assert items[k] == (nv[0], ov[0]);
    }
    CollectAllQuiet(cfg, d, items, currentPath);
  }
}
