/** Feature search (GServer.py `get_features`): the gene and regulon names that
    contain the query ignoring case, with a parallel list of their kinds,
    reordered by two passes that pop a name and put it in front.

    Each pass is a `for n, r in enumerate(res)` loop whose body rebinds `res`.
    `enumerate` keeps walking the list object it was given; that object is
    shortened by the pass's first pop (which acts on it, since `res` still
    names it) and never changes after that, while later pops act on the new
    `res` at the same index `n`. A `Walk` records both lists. */
module FeatureSearch {
  import opened Prelude
  import opened Loom
  import opened Text

  datatype Kind = Gene | Regulon

  /** The two reorder passes: lines 127-132 and 133-138. */
  datatype Pass = PrefixPass | ExactPass

  /** A search result: names and their kinds, position by position. */
  datatype Ranked = Ranked(feature: seq<string>, featureType: seq<Kind>)

  /** `query.casefold() in x.casefold()`. */
  predicate Matches(name: string, query: string)
  {
    Contains(Fold(name), Fold(query))
  }

  /** The test that promotes a name in each pass. The prefix pass also
      promotes a name that holds the query verbatim anywhere. */
  predicate Promotes(pass: Pass, r: string, query: string)
  {
    match pass
    case PrefixPass => StartsWith(Fold(r), Fold(query)) || Contains(r, query)
    case ExactPass => r == query || Fold(r) == Fold(query)
  }

  /** The name equals the query ignoring case. */
  predicate IsExact(r: string, query: string)
  {
    Promotes(ExactPass, r, query)
  }

  /** Names and kinds side by side. */
  function Pairs(names: seq<string>, kinds: seq<Kind>): (r: seq<(string, Kind)>)
    requires |names| == |kinds|
    ensures |r| == |names|
    ensures forall i :: 0 <= i < |names| ==> r[i] == (names[i], kinds[i])
  {
    seq(|names|, i requires 0 <= i < |names| => (names[i], kinds[i]))
  }

  /** Regulon names: the fields of `ra.Regulons`, none when it is absent. */
  function RegulonList(ds: Dataset): seq<string>
  {
    if ds.regulons.Some? then ds.regulons.value else []
  }

  /** `origSpace`: every gene name, then every regulon name. */
  function SearchNames(ds: Dataset): seq<string>
  {
    ds.gene + RegulonList(ds)
  }

  /** `fType`: the kind of each entry of `origSpace`. */
  function SearchKinds(ds: Dataset): (r: seq<Kind>)
    ensures |r| == |SearchNames(ds)|
    ensures forall i :: 0 <= i < |r| ==> (r[i] == Gene <==> i < |ds.gene|)
  {
    seq(|ds.gene|, _ => Gene) + seq(|RegulonList(ds)|, _ => Regulon)
  }

  // ------------------------------------------------------------ filtering

  /** The matching entries among the first `hi` of the search space, in order. */
  function Filter(names: seq<string>, kinds: seq<Kind>, query: string, hi: nat): (r: (seq<string>, seq<Kind>))
    requires |names| == |kinds| && hi <= |names|
    ensures |r.0| == |r.1|
  {
    if hi == 0 then ([], [])
    else
      var prev := Filter(names, kinds, query, hi - 1);
      if Matches(names[hi - 1], query) then (prev.0 + [names[hi - 1]], prev.1 + [kinds[hi - 1]]) else prev
  }

  /** An entry survives the filter exactly when its name matches. */
  lemma {:induction false} FilterMembers(names: seq<string>, kinds: seq<Kind>, query: string, hi: nat)
    requires |names| == |kinds| && hi <= |names|
    ensures forall p :: p in Pairs(Filter(names, kinds, query, hi).0, Filter(names, kinds, query, hi).1) <==>
      p in Pairs(names, kinds)[..hi] && Matches(p.0, query)
  {
    if hi > 0 {
      FilterMembers(names, kinds, query, hi - 1);
      var prev := Filter(names, kinds, query, hi - 1);
      var all := Pairs(names, kinds);
      assert all[..hi] == all[..hi - 1] + [all[hi - 1]];
      if Matches(names[hi - 1], query) {
        assert Pairs(prev.0 + [names[hi - 1]], prev.1 + [kinds[hi - 1]]) == Pairs(prev.0, prev.1) + [all[hi - 1]];
      }
    }
  }

  /** When every name matches, the filter keeps the whole space in order. */
  lemma {:induction false} FilterKeepsAll(names: seq<string>, kinds: seq<Kind>, query: string, hi: nat)
    requires |names| == |kinds| && hi <= |names|
    requires forall i :: 0 <= i < hi ==> Matches(names[i], query)
    ensures Filter(names, kinds, query, hi) == (names[..hi], kinds[..hi])
  {
    if hi > 0 {
      FilterKeepsAll(names, kinds, query, hi - 1);
      assert names[..hi] == names[..hi - 1] + [names[hi - 1]];
      assert kinds[..hi] == kinds[..hi - 1] + [kinds[hi - 1]];
    }
  }

  // ------------------------------------------------------------ reorder passes

  /** `s.pop(n)` followed by prepending the popped element. */
  function MoveToFront<T>(s: seq<T>, n: nat): (r: seq<T>)
    requires n < |s|
    ensures |r| == |s| && r[0] == s[n]
  {
    [s[n]] + s[..n] + s[n + 1..]
  }

  /** Moving an entry to the front rearranges the list. */
  lemma MoveToFrontPermutes<T>(s: seq<T>, n: nat)
    requires n < |s|
    ensures multiset(MoveToFront(s, n)) == multiset(s)
  {
    assert s == s[..n] + [s[n]] + s[n + 1..];
  }

  /** The state of a pass: the list `enumerate` walks, the current `res` and
      `resF`, and whether `res` has been rebound away from the walked list. */
  datatype Walk = Walk(walked: seq<string>, res: seq<string>, resF: seq<Kind>, rebound: bool)

  /** Until the first pop, `res` is the walked list itself; the pop shortens
      the walked list by one, and later pops keep lengths. */
  predicate WalkOk(w: Walk)
  {
    && |w.res| == |w.resF|
    && |w.walked| <= |w.res|
    && (!w.rebound ==> w.walked == w.res)
  }

  /** The loop body at index `n`: test the walked name; on success pop index
      `n` of `res` and `resF` and prepend what was popped. */
  function Step(pass: Pass, query: string, w: Walk, n: nat): (r: Walk)
    requires WalkOk(w) && n < |w.walked|
    ensures WalkOk(r)
  {
    if !Promotes(pass, w.walked[n], query) then w
    else
      var rest := w.res[..n] + w.res[n + 1..];
      Walk(if w.rebound then w.walked else rest,
           MoveToFront(w.res, n), MoveToFront(w.resF, n), true)
  }

  /** The pass from index `n` on; it stops once `n` reaches the walked list's length. */
  function Run(pass: Pass, query: string, w: Walk, n: nat): (r: Walk)
    requires WalkOk(w)
    ensures WalkOk(r)
    decreases |w.walked| - n
  {
    if n >= |w.walked| then w else Run(pass, query, Step(pass, query, w, n), n + 1)
  }

  function Start(res: seq<string>, resF: seq<Kind>): (w: Walk)
    requires |res| == |resF|
    ensures WalkOk(w)
  {
    Walk(res, res, resF, false)
  }

  /** One pass over `res` and `resF`, run as the source runs it. */
  method PromotePass(pass: Pass, query: string, res0: seq<string>, resF0: seq<Kind>)
    returns (res: seq<string>, resF: seq<Kind>)
    requires |res0| == |resF0|
    ensures Ranked(res, resF) == Ranked(Run(pass, query, Start(res0, resF0), 0).res, Run(pass, query, Start(res0, resF0), 0).resF)
  {
    res, resF := res0, resF0;
    var walked := res0;
    var rebound := false;
    var n: nat := 0;
    while n < |walked|
      invariant WalkOk(Walk(walked, res, resF, rebound))
      invariant Run(pass, query, Walk(walked, res, resF, rebound), n) == Run(pass, query, Start(res0, resF0), 0)
      decreases |walked| - n
    {
      ghost var before := Walk(walked, res, resF, rebound);
      if Promotes(pass, walked[n], query) {
        StepPops(pass, query, before, n);
        var r := res[n];
        var rest := res[..n] + res[n + 1..];
        if !rebound {
          // `res` still names the walked list: this pop shortens it
          walked := rest;
          rebound := true;
        }
        res := [r] + rest;
        resF := [resF[n]] + resF[..n] + resF[n + 1..];
      }
      RunUnfold(pass, query, before, n);
      n := n + 1;
    }
    assert Run(pass, query, Walk(walked, res, resF, rebound), n) == Walk(walked, res, resF, rebound);
  }

  lemma StepPops(pass: Pass, query: string, w: Walk, n: nat)
    requires WalkOk(w) && n < |w.walked| && Promotes(pass, w.walked[n], query)
    ensures Step(pass, query, w, n) == Walk(if w.rebound then w.walked else w.res[..n] + w.res[n + 1..],
      [w.res[n]] + (w.res[..n] + w.res[n + 1..]), [w.resF[n]] + w.resF[..n] + w.resF[n + 1..], true)
  {
  }

  lemma RunUnfold(pass: Pass, query: string, w: Walk, n: nat)
    requires WalkOk(w) && n < |w.walked|
    ensures Run(pass, query, w, n) == Run(pass, query, Step(pass, query, w, n), n + 1)
  {
  }

  /** What `get_features` returns. */
  function Rank(ds: Dataset, query: string): (r: Ranked)
  {
    var names, kinds := SearchNames(ds), SearchKinds(ds);
    var filtered := Filter(names, kinds, query, |names|);
    var first := Run(PrefixPass, query, Start(filtered.0, filtered.1), 0);
    var second := Run(ExactPass, query, Start(first.res, first.resF), 0);
    Ranked(second.res, second.resF)
  }

  /** `get_features`: filter the search space, then run both passes. */
  method GetFeatures(ds: Dataset, query: string) returns (feature: seq<string>, featureType: seq<Kind>)
    ensures Ranked(feature, featureType) == Rank(ds, query)
  {
    var origSpace := ds.gene + RegulonList(ds);
    var fType := SearchKinds(ds);
    var res: seq<string> := [];
    var resF: seq<Kind> := [];
    var n := 0;
    while n < |origSpace|
      invariant 0 <= n <= |origSpace|
      invariant (res, resF) == Filter(origSpace, fType, query, n)
    {
      if Contains(Fold(origSpace[n]), Fold(query)) {
        res := res + [origSpace[n]];
        resF := resF + [fType[n]];
      }
      n := n + 1;
    }
    res, resF := PromotePass(PrefixPass, query, res, resF);
    feature, featureType := PromotePass(ExactPass, query, res, resF);
  }

  // ------------------------------------------------------------ what a pass keeps

  /** How many names equal the query ignoring case. */
  function CountExact(s: seq<string>, query: string): nat
  {
    if s == [] then 0 else (if IsExact(s[0], query) then 1 else 0) + CountExact(s[1..], query)
  }

  lemma {:induction false} CountExactAppend(a: seq<string>, b: seq<string>, query: string)
    ensures CountExact(a + b, query) == CountExact(a, query) + CountExact(b, query)
  {
    if a != [] {
      assert (a + b)[1..] == a[1..] + b;
      CountExactAppend(a[1..], b, query);
    } else {
      assert a + b == b;
    }
  }

  lemma CountExactMoveToFront(s: seq<string>, n: nat, query: string)
    requires n < |s|
    ensures CountExact(MoveToFront(s, n), query) == CountExact(s, query)
  {
    assert s == s[..n] + ([s[n]] + s[n + 1..]);
    CountExactAppend(s[..n], [s[n]] + s[n + 1..], query);
    CountExactAppend([s[n]], s[n + 1..], query);
    CountExactAppend([s[n]] + s[..n], s[n + 1..], query);
    CountExactAppend([s[n]], s[..n], query);
  }

  lemma PairsMoveToFront(names: seq<string>, kinds: seq<Kind>, n: nat)
    requires |names| == |kinds| && n < |names|
    ensures Pairs(MoveToFront(names, n), MoveToFront(kinds, n)) == MoveToFront(Pairs(names, kinds), n)
  {
  }

  /** A pass only moves entries to the front: the (name, kind) pairs are
      permuted together, and the number of exact matches is kept. */
  lemma {:induction false} RunPermutes(pass: Pass, query: string, w: Walk, n: nat)
    requires WalkOk(w)
    ensures multiset(Pairs(Run(pass, query, w, n).res, Run(pass, query, w, n).resF)) == multiset(Pairs(w.res, w.resF))
    ensures CountExact(Run(pass, query, w, n).res, query) == CountExact(w.res, query)
    decreases |w.walked| - n
  {
    if n < |w.walked| {
      var w' := Step(pass, query, w, n);
      if Promotes(pass, w.walked[n], query) {
        PairsMoveToFront(w.res, w.resF, n);
        MoveToFrontPermutes(Pairs(w.res, w.resF), n);
        CountExactMoveToFront(w.res, n, query);
      }
      RunPermutes(pass, query, w', n + 1);
    }
  }

  /** Indices whose walked name the pass does not promote change nothing. */
  lemma {:induction false} RunSkips(pass: Pass, query: string, w: Walk, n: nat, m: nat)
    requires WalkOk(w) && n <= m <= |w.walked|
    requires forall k :: n <= k < m ==> !Promotes(pass, w.walked[k], query)
    ensures Run(pass, query, w, n) == Run(pass, query, w, m)
    decreases m - n
  {
    if n < m {
      RunSkips(pass, query, w, n + 1, m);
    }
  }

  lemma {:induction false} CountExactZero(s: seq<string>, query: string)
    requires CountExact(s, query) == 0
    ensures forall k :: 0 <= k < |s| ==> !IsExact(s[k], query)
  {
    if s != [] {
      CountExactZero(s[1..], query);
      assert forall k :: 1 <= k < |s| ==> s[k] == s[1..][k - 1];
    }
  }

  lemma {:induction false} CountExactOne(s: seq<string>, query: string) returns (m: nat)
    requires CountExact(s, query) == 1
    ensures m < |s| && IsExact(s[m], query)
    ensures forall k :: 0 <= k < |s| && k != m ==> !IsExact(s[k], query)
  {
    assert forall k :: 1 <= k < |s| ==> s[k] == s[1..][k - 1];
    if IsExact(s[0], query) {
      CountExactZero(s[1..], query);
      m := 0;
    } else {
      var m' := CountExactOne(s[1..], query);
      m := m' + 1;
    }
  }

  /** With exactly one exact match in its input, the exact pass leaves that
      match in front: the pass pops it from the walked list itself, and no
      later walked name passes the test. */
  lemma ExactPassFront(query: string, res: seq<string>, resF: seq<Kind>)
    requires |res| == |resF| && CountExact(res, query) == 1
    ensures Run(ExactPass, query, Start(res, resF), 0).res != []
    ensures IsExact(Run(ExactPass, query, Start(res, resF), 0).res[0], query)
  {
    var m := CountExactOne(res, query);
    var w := Start(res, resF);
    RunSkips(ExactPass, query, w, 0, m);
    var w1 := Step(ExactPass, query, w, m);
    assert w1.res[0] == res[m];
    assert forall k :: m <= k < |w1.walked| ==> w1.walked[k] == res[k + 1];
    if m < |w1.walked| {
      RunSkips(ExactPass, query, w1, m + 1, |w1.walked|);
    }
  }

  // ------------------------------------------------------------ properties of get_features

  /** Names and kinds stay in step, and the result is a rearrangement of the
      filtered entries. */
  lemma RankPermutesFiltered(ds: Dataset, query: string)
    ensures |Rank(ds, query).feature| == |Rank(ds, query).featureType|
    ensures
      var filtered := Filter(SearchNames(ds), SearchKinds(ds), query, |SearchNames(ds)|);
      multiset(Pairs(Rank(ds, query).feature, Rank(ds, query).featureType)) == multiset(Pairs(filtered.0, filtered.1))
  {
    var filtered := Filter(SearchNames(ds), SearchKinds(ds), query, |SearchNames(ds)|);
    var first := Run(PrefixPass, query, Start(filtered.0, filtered.1), 0);
    RunPermutes(PrefixPass, query, Start(filtered.0, filtered.1), 0);
    RunPermutes(ExactPass, query, Start(first.res, first.resF), 0);
  }

  lemma SpacePairs(ds: Dataset, name: string, kind: Kind)
    ensures (name, kind) in Pairs(SearchNames(ds), SearchKinds(ds)) <==>
      (kind == Gene && name in ds.gene) || (kind == Regulon && name in RegulonList(ds))
  {
    var all := Pairs(SearchNames(ds), SearchKinds(ds));
    var g := |ds.gene|;
    if kind == Gene && name in ds.gene {
      var i :| 0 <= i < g && ds.gene[i] == name;
      assert all[i] == (name, kind);
    }
    if kind == Regulon && name in RegulonList(ds) {
      var i :| 0 <= i < |RegulonList(ds)| && RegulonList(ds)[i] == name;
      assert all[g + i] == (name, kind);
    }
    if (name, kind) in all {
      var i :| 0 <= i < |all| && all[i] == (name, kind);
      if i < g {
        assert ds.gene[i] == name;
      } else {
        assert RegulonList(ds)[i - g] == name;
      }
    }
  }

  /** A gene or regulon comes back, with its kind, exactly when its name
      contains the query ignoring case. */
  lemma RankMembers(ds: Dataset, query: string, name: string, kind: Kind)
    ensures |Rank(ds, query).feature| == |Rank(ds, query).featureType|
    ensures (name, kind) in Pairs(Rank(ds, query).feature, Rank(ds, query).featureType) <==>
      ((kind == Gene && name in ds.gene) || (kind == Regulon && name in RegulonList(ds))) && Matches(name, query)
  {
    RankPermutesFiltered(ds, query);
    var names := SearchNames(ds);
    FilterMembers(names, SearchKinds(ds), query, |names|);
    assert Pairs(names, SearchKinds(ds))[..|names|] == Pairs(names, SearchKinds(ds));
    SpacePairs(ds, name, kind);
    var r := Rank(ds, query);
    var filtered := Filter(names, SearchKinds(ds), query, |names|);
    assert (name, kind) in Pairs(r.feature, r.featureType) <==> (name, kind) in multiset(Pairs(r.feature, r.featureType));
    assert (name, kind) in Pairs(filtered.0, filtered.1) <==> (name, kind) in multiset(Pairs(filtered.0, filtered.1));
  }

  /** An empty query returns every gene and regulon, each with its kind. */
  lemma EmptyQueryReturnsAll(ds: Dataset)
    ensures |Rank(ds, "").feature| == |Rank(ds, "").featureType|
    ensures multiset(Pairs(Rank(ds, "").feature, Rank(ds, "").featureType))
         == multiset(Pairs(SearchNames(ds), SearchKinds(ds)))
  {
    var names := SearchNames(ds);
    assert forall i :: 0 <= i < |names| ==> Matches(names[i], "") by {
      forall i | 0 <= i < |names| ensures Matches(names[i], "") {
        assert Fold("") == [];
      }
    }
    FilterKeepsAll(names, SearchKinds(ds), "", |names|);
    assert names[..|names|] == names && SearchKinds(ds)[..|names|] == SearchKinds(ds);
    RankPermutesFiltered(ds, "");
  }

  /** When exactly one returned name equals the query ignoring case, it comes
      first. */
  lemma ExactMatchFirst(ds: Dataset, query: string)
    requires CountExact(Rank(ds, query).feature, query) == 1
    ensures Rank(ds, query).feature != []
    ensures IsExact(Rank(ds, query).feature[0], query)
  {
    var names := SearchNames(ds);
    var filtered := Filter(names, SearchKinds(ds), query, |names|);
    var first := Run(PrefixPass, query, Start(filtered.0, filtered.1), 0);
    RunPermutes(ExactPass, query, Start(first.res, first.resF), 0);
    ExactPassFront(query, first.res, first.resF);
  }

  /** A dataset with the given genes and no regulons. */
  function GenesOnly(genes: seq<string>): Dataset
  {
    Dataset(0, genes, None, false, [], map[], [], None, None, None, None, None, None, false, NoMetaData)
  }

  /** The prefix pass over `x`, `e1`, `e2` when it promotes `x` and `e2`: it
      pops `x` from the walked list itself, then, testing `e2` at index 1 of
      the shortened walked list, pops `e1` from the rebound list. */
  lemma PrefixPassOnThree(query: string, x: string, e1: string, e2: string, kinds: seq<Kind>)
    requires |kinds| == 3
    requires Promotes(PrefixPass, x, query) && Promotes(PrefixPass, e2, query)
    ensures Run(PrefixPass, query, Start([x, e1, e2], kinds), 0)
         == Walk([e1, e2], [e1, x, e2], [kinds[1], kinds[0], kinds[2]], true)
  {
    var names := [x, e1, e2];
    var w0 := Start(names, kinds);
    var w1 := Step(PrefixPass, query, w0, 0);
    assert w1 == Walk([e1, e2], names, kinds, true) by {
      assert names[..0] + names[1..] == [e1, e2];
      assert MoveToFront(names, 0) == names;
      assert MoveToFront(kinds, 0) == kinds;
    }
    var w2 := Step(PrefixPass, query, w1, 1);
    assert w2 == Walk([e1, e2], [e1, x, e2], [kinds[1], kinds[0], kinds[2]], true) by {
      assert MoveToFront(names, 1) == [e1, x, e2];
      assert MoveToFront(kinds, 1) == [kinds[1], kinds[0], kinds[2]];
    }
    RunUnfold(PrefixPass, query, w0, 0);
    RunUnfold(PrefixPass, query, w1, 1);
  }

  /** The exact pass over `e1`, `x`, `e2` when `e1` and `e2` are exact
      matches: it pops `e1` from the walked list itself, then, testing `e2`
      at index 1 of the shortened walked list, pops `x` from the rebound list. */
  lemma ExactPassOnThree(query: string, x: string, e1: string, e2: string, kinds: seq<Kind>)
    requires |kinds| == 3
    requires IsExact(e1, query) && IsExact(e2, query)
    ensures Run(ExactPass, query, Start([e1, x, e2], kinds), 0)
         == Walk([x, e2], [x, e1, e2], [kinds[1], kinds[0], kinds[2]], true)
  {
    var names := [e1, x, e2];
    var v0 := Start(names, kinds);
    var v1 := Step(ExactPass, query, v0, 0);
    assert v1 == Walk([x, e2], names, kinds, true) by {
      assert names[..0] + names[1..] == [x, e2];
      assert MoveToFront(names, 0) == names;
      assert MoveToFront(kinds, 0) == kinds;
    }
    var v2 := Step(ExactPass, query, v1, 1);
    assert v2 == Walk([x, e2], [x, e1, e2], [kinds[1], kinds[0], kinds[2]], true) by {
      assert MoveToFront(names, 1) == [x, e1, e2];
      assert MoveToFront(kinds, 1) == [kinds[1], kinds[0], kinds[2]];
    }
    RunUnfold(ExactPass, query, v0, 0);
    RunUnfold(ExactPass, query, v1, 1);
  }

  /** With several exact matches the aliasing can put a name that is not an
      exact match in front: searching among `x`, `e1`, `e2`, where `e1` and
      `e2` equal the query ignoring case and `x` does not, returns `x` first. */
  lemma SeveralExactMatches(query: string, x: string, e1: string, e2: string)
    requires Matches(x, query) && Matches(e1, query) && Matches(e2, query)
    requires Promotes(PrefixPass, x, query) && Promotes(PrefixPass, e2, query)
    requires !IsExact(x, query) && IsExact(e1, query) && IsExact(e2, query)
    ensures Rank(GenesOnly([x, e1, e2]), query) == Ranked([x, e1, e2], [Gene, Gene, Gene])
  {
    var ds := GenesOnly([x, e1, e2]);
    var names, kinds := SearchNames(ds), SearchKinds(ds);
    assert names == [x, e1, e2] && kinds == [Gene, Gene, Gene];
    FilterKeepsAll(names, kinds, query, 3);
    assert names[..3] == names && kinds[..3] == kinds;
    PrefixPassOnThree(query, x, e1, e2, kinds);
    ExactPassOnThree(query, x, e1, e2, kinds);
  }

  /** An instance: searching "sox2" among Sox20, sox2 and SOX2 returns Sox20 first. */
  lemma SeveralExactMatchesExample()
    ensures Rank(GenesOnly(["Sox20", "sox2", "SOX2"]), "sox2").feature == ["Sox20", "sox2", "SOX2"]
    ensures !IsExact("Sox20", "sox2")
  {
    assert Fold("Sox20") == "sox20";
    assert Fold("SOX2") == "sox2";
    assert Fold("sox2") == "sox2";
    SeveralExactMatches("sox2", "Sox20", "sox2", "SOX2");
  }
}
