/** Cell selection: a request's `annotation` groups, each an attribute name
    with the values it admits, resolve to the ascending list of cells that any
    group admits (GServer.py lines 75-80, repeated at 89-94 and 170-176). */
module Selection {
  import opened Prelude
  import opened Loom

  /** One entry of a request's `annotation` list. */
  datatype SelectionGroup = SelectionGroup(name: string, values: seq<Value>)

  /** The group admits cell `i`: the group's attribute holds one of its values there. */
  predicate Admits(ca: map<string, seq<Value>>, g: SelectionGroup, i: nat)
  {
    g.name in ca && i < |ca[g.name]| && ca[g.name][i] in g.values
  }

  /** Some group admits cell `i`: groups are united, never intersected. */
  predicate Selected(ca: map<string, seq<Value>>, groups: seq<SelectionGroup>, i: nat)
  {
    exists g :: 0 <= g < |groups| && Admits(ca, groups[g], i)
  }

  /** A group with at least one value names an attribute the dataset lacks:
      reading that attribute raises. */
  predicate MissingAttribute(ca: map<string, seq<Value>>, groups: seq<SelectionGroup>)
  {
    exists g :: 0 <= g < |groups| && groups[g].values != [] && groups[g].name !in ca
  }

  /** The selected cells below `hi`, in ascending order. */
  function SelectedBelow(ca: map<string, seq<Value>>, groups: seq<SelectionGroup>, hi: nat): seq<nat>
  {
    if hi == 0 then []
    else SelectedBelow(ca, groups, hi - 1) + (if Selected(ca, groups, hi - 1) then [hi - 1] else [])
  }

  /** What the selection loop yields: an error for a missing attribute,
      otherwise the selected cells in ascending order. */
  function SelectedIndices(ca: map<string, seq<Value>>, nCells: nat, groups: seq<SelectionGroup>): Result<seq<nat>>
  {
    if MissingAttribute(ca, groups) then Err(AttributeError) else Ok(SelectedBelow(ca, groups, nCells))
  }

  predicate StrictlyIncreasing(s: seq<nat>)
  {
    forall i, j :: 0 <= i < j < |s| ==> s[i] < s[j]
  }

  lemma {:induction false} SelectedBelowSpec(ca: map<string, seq<Value>>, groups: seq<SelectionGroup>, hi: nat)
    ensures StrictlyIncreasing(SelectedBelow(ca, groups, hi))
    ensures forall i: nat :: i in SelectedBelow(ca, groups, hi) <==> i < hi && Selected(ca, groups, i)
  {
    if hi > 0 {
      SelectedBelowSpec(ca, groups, hi - 1);
      var prev := SelectedBelow(ca, groups, hi - 1);
      assert forall k :: 0 <= k < |prev| ==> prev[k] < hi - 1 by {
        forall k | 0 <= k < |prev| ensures prev[k] < hi - 1 {
          assert prev[k] in prev;
        }
      }
    }
  }

  /** The resolved list is strictly increasing (so free of duplicates) and
      holds exactly the cells some group admits. */
  lemma SelectedIndicesSpec(ca: map<string, seq<Value>>, nCells: nat, groups: seq<SelectionGroup>)
    requires !MissingAttribute(ca, groups)
    ensures SelectedIndices(ca, nCells, groups).Ok?
    ensures StrictlyIncreasing(SelectedIndices(ca, nCells, groups).value)
    ensures forall i: nat :: i in SelectedIndices(ca, nCells, groups).value <==> i < nCells && Selected(ca, groups, i)
  {
    SelectedBelowSpec(ca, groups, nCells);
  }

  lemma SelectedSnoc(ca: map<string, seq<Value>>, groups: seq<SelectionGroup>, n: nat, i: nat)
    requires n < |groups|
    ensures Selected(ca, groups[..n + 1], i) <==> Selected(ca, groups[..n], i) || Admits(ca, groups[n], i)
  {
    if Selected(ca, groups[..n + 1], i) {
      var g :| 0 <= g < n + 1 && Admits(ca, groups[..n + 1][g], i);
      if g < n {
        assert groups[..n][g] == groups[..n + 1][g];
      }
    }
    if Selected(ca, groups[..n], i) {
      var g :| 0 <= g < n && Admits(ca, groups[..n][g], i);
      assert groups[..n + 1][g] == groups[..n][g];
    }
    if Admits(ca, groups[n], i) {
      assert groups[..n + 1][n] == groups[n];
    }
  }

  /** The selection loop: every cell whose attribute equals an admitted value
      goes into one set, which is then listed in ascending order. */
  method CellIndices(ca: map<string, seq<Value>>, nCells: nat, groups: seq<SelectionGroup>) returns (r: Result<seq<nat>>)
    requires forall name :: name in ca ==> |ca[name]| == nCells
    ensures r == SelectedIndices(ca, nCells, groups)
  {
    var cellIndices: set<nat> := {};
    var n := 0;
    while n < |groups|
      invariant 0 <= n <= |groups|
      invariant forall g :: 0 <= g < n && groups[g].values != [] ==> groups[g].name in ca
      invariant forall i: nat :: i in cellIndices <==> i < nCells && Selected(ca, groups[..n], i)
    {
      var group := groups[n];
      var k := 0;
      while k < |group.values|
        invariant 0 <= k <= |group.values|
        invariant k > 0 ==> group.name in ca
        invariant forall i: nat :: i in cellIndices <==>
          i < nCells && (Selected(ca, groups[..n], i) || Admits(ca, SelectionGroup(group.name, group.values[..k]), i))
      {
        if group.name !in ca {
          return Err(AttributeError);
        }
        var column := ca[group.name];
        var value := group.values[k];
        ghost var before := cellIndices;
        var i := 0;
        while i < |column|
          invariant 0 <= i <= |column|
          invariant forall j: nat :: j in cellIndices <==> j in before || (j < i && column[j] == value)
        {
          if column[i] == value {
            cellIndices := cellIndices + {i};
          }
          i := i + 1;
        }
        forall j: nat | true
          ensures Admits(ca, SelectionGroup(group.name, group.values[..k + 1]), j) <==>
                  Admits(ca, SelectionGroup(group.name, group.values[..k]), j) || (j < |column| && column[j] == value)
        {
          assert group.values[..k + 1] == group.values[..k] + [value];
        }
        k := k + 1;
      }
      assert group.values[..k] == group.values;
      forall i: nat | true
        ensures Selected(ca, groups[..n + 1], i) <==> Selected(ca, groups[..n], i) || Admits(ca, group, i)
      {
        SelectedSnoc(ca, groups, n, i);
      }
      n := n + 1;
    }
    assert groups[..n] == groups;
    // sorted(list(cellIndices))
    var sorted: seq<nat> := [];
    var i := 0;
    while i < nCells
      invariant 0 <= i <= nCells
      invariant sorted == SelectedBelow(ca, groups, i)
    {
      if i in cellIndices {
        sorted := sorted + [i];
      }
      i := i + 1;
    }
    r := Ok(sorted);
  }

  /** `v[idx]`: the entries of `v` at the given indices, in the given order. */
  function Restrict<T>(v: seq<T>, idx: seq<nat>): (r: seq<T>)
    requires forall k :: 0 <= k < |idx| ==> idx[k] < |v|
    ensures |r| == |idx|
    ensures forall k :: 0 <= k < |idx| ==> r[k] == v[idx[k]]
  {
    seq(|idx|, k requires 0 <= k < |idx| => v[idx[k]])
  }

  /** The entries of `v` below `hi` at selected cells, in their original order. */
  function KeepSelected<T>(v: seq<T>, ca: map<string, seq<Value>>, groups: seq<SelectionGroup>, hi: nat): seq<T>
    requires hi <= |v|
  {
    if hi == 0 then []
    else KeepSelected(v, ca, groups, hi - 1) + (if Selected(ca, groups, hi - 1) then [v[hi - 1]] else [])
  }

  /** Restricting a per-cell vector to the resolved indices keeps exactly the
      selected cells, in their original order. */
  lemma {:induction false} RestrictToSelection<T>(v: seq<T>, ca: map<string, seq<Value>>, groups: seq<SelectionGroup>, hi: nat)
    requires hi <= |v|
    ensures forall k :: 0 <= k < |SelectedBelow(ca, groups, hi)| ==> SelectedBelow(ca, groups, hi)[k] < |v|
    ensures Restrict(v, SelectedBelow(ca, groups, hi)) == KeepSelected(v, ca, groups, hi)
  {
    SelectedBelowSpec(ca, groups, hi);
    if hi > 0 {
      RestrictToSelection(v, ca, groups, hi - 1);
    }
  }

  /** The `if len(annotation) > 0` wrapper: no groups means no filtering. */
  function ApplySelection<T>(v: seq<T>, ca: map<string, seq<Value>>, groups: seq<SelectionGroup>): (r: Result<seq<T>>)
    ensures groups == [] ==> r == Ok(v)
    ensures groups != [] && MissingAttribute(ca, groups) ==> r == Err(AttributeError)
    ensures groups != [] && !MissingAttribute(ca, groups) ==> r == Ok(KeepSelected(v, ca, groups, |v|))
  {
    if groups == [] then Ok(v)
    else
      match SelectedIndices(ca, |v|, groups)
      case Err(e) => Err(e)
      case Ok(idx) =>
        RestrictToSelection(v, ca, groups, |v|);
        Ok(Restrict(v, idx))
  }
}
