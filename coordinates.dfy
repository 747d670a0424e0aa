/** `get_coordinates` (GServer.py lines 147-178): the x and y vectors of an
    embedding, restricted to the selected cells. Id -1 asks for the default
    embedding: the `Embedding` attribute, or failing that the first two
    column attributes whose names mention tSNE. */
module Coordinates {
  import opened Prelude
  import opened Text
  import opened Loom
  import opened Selection

  datatype Coordinates = Coordinates(x: seq<Value>, y: seq<Value>)

  const DefaultEmbeddingID: int := -1

  /** Line 157: the case-folded name contains "tsne". */
  predicate IsTsne(name: string)
  {
    Contains(Fold(name), "tsne")
  }

  /** The column attributes that mention tSNE, in iteration order. */
  function TsneNames(names: seq<string>): (r: seq<string>)
    ensures |r| <= |names|
  {
    if names == [] then []
    else if IsTsne(names[0]) then [names[0]] + TsneNames(names[1..])
    else TsneNames(names[1..])
  }

  /** Exactly the names that mention tSNE are kept. */
  lemma {:induction false} TsneNamesMembers(names: seq<string>)
    ensures forall s :: s in TsneNames(names) <==> s in names && IsTsne(s)
  {
    if names != [] {
      TsneNamesMembers(names[1..]);
      assert names == [names[0]] + names[1..];
    }
  }

  /** The first tSNE name is the tSNE name at the lowest position. */
  lemma {:induction false} TsneNamesFirst(names: seq<string>, i: nat)
    requires i < |names| && IsTsne(names[i])
    requires forall j :: 0 <= j < i ==> !IsTsne(names[j])
    ensures TsneNames(names) != [] && TsneNames(names)[0] == names[i]
  {
    if i > 0 {
      TsneNamesFirst(names[1..], i - 1);
    }
  }

  /** The second tSNE name is the next one after the first. */
  lemma {:induction false} TsneNamesSecond(names: seq<string>, i: nat, j: nat)
    requires i < j < |names| && IsTsne(names[i]) && IsTsne(names[j])
    requires forall l :: 0 <= l < j && l != i ==> !IsTsne(names[l])
    ensures |TsneNames(names)| >= 2 && TsneNames(names)[1] == names[j]
  {
    if i > 0 {
      TsneNamesSecond(names[1..], i - 1, j - 1);
    } else {
      TsneNamesFirst(names[1..], j - 1);
    }
  }

  /** The `for ca in loom.ca` loop of lines 156-165: the first tSNE column
      becomes x, the second y, and later ones are skipped. */
  method TsneAxes(names: seq<string>) returns (x: Option<string>, y: Option<string>)
    ensures x == (if |TsneNames(names)| >= 1 then Some(TsneNames(names)[0]) else None)
    ensures y == (if |TsneNames(names)| >= 2 then Some(TsneNames(names)[1]) else None)
  {
    x, y := None, None;
    var dims := 0;
    var k := 0;
    while k < |names|
      invariant 0 <= k <= |names|
      invariant dims == (if |TsneNames(names[..k])| < 2 then |TsneNames(names[..k])| else 2)
      invariant x == (if |TsneNames(names[..k])| >= 1 then Some(TsneNames(names[..k])[0]) else None)
      invariant y == (if |TsneNames(names[..k])| >= 2 then Some(TsneNames(names[..k])[1]) else None)
    {
      TsneNamesSnoc(names[..k], names[k]);
      assert names[..k + 1] == names[..k] + [names[k]];
      if IsTsne(names[k]) {
        if dims == 0 {
          x := Some(names[k]);
          dims := dims + 1;
        } else if dims == 1 {
          y := Some(names[k]);
          dims := dims + 1;
        }
      }
      k := k + 1;
    }
    assert names[..k] == names;
  }

  lemma {:induction false} TsneNamesSnoc(names: seq<string>, s: string)
    ensures TsneNames(names + [s]) == TsneNames(names) + (if IsTsne(s) then [s] else [])
  {
    if names == [] {
      assert names + [s] == [s];
      assert [s][1..] == [];
    } else {
      assert (names + [s])[1..] == names[1..] + [s];
      TsneNamesSnoc(names[1..], s);
    }
  }

  /** The x and y lookups of lines 150-168, before the selection. An axis the
      tSNE fallback leaves unassigned is None. */
  function Axes(ds: Dataset, coordinatesID: int): (r: Result<(Option<seq<Value>>, Option<seq<Value>>)>)
    requires ds.Valid()
    ensures coordinatesID == DefaultEmbeddingID && ds.embedding.Some? ==>
      r == Ok((Some(ds.embedding.value.0), Some(ds.embedding.value.1)))
    ensures coordinatesID != DefaultEmbeddingID && ds.embeddingsX.None? ==> r == Err(AttributeError)
    ensures coordinatesID != DefaultEmbeddingID && ds.embeddingsX.Some? && coordinatesID !in ds.embeddingsX.value ==>
      r == Err(ValueError)
    ensures coordinatesID != DefaultEmbeddingID && ds.embeddingsX.Some? && coordinatesID in ds.embeddingsX.value ==>
      (ds.embeddingsY.None? ==> r == Err(AttributeError))
    ensures coordinatesID != DefaultEmbeddingID && ds.embeddingsX.Some? && coordinatesID in ds.embeddingsX.value
            && ds.embeddingsY.Some? && coordinatesID !in ds.embeddingsY.value ==>
      r == Err(ValueError)
    ensures coordinatesID != DefaultEmbeddingID && ds.embeddingsX.Some? && ds.embeddingsY.Some? ==>
      (r.Ok? <==> coordinatesID in ds.embeddingsX.value && coordinatesID in ds.embeddingsY.value)
    ensures r.Ok? && r.value.0.Some? ==> |r.value.0.value| == ds.nCells
    ensures r.Ok? && r.value.1.Some? ==> |r.value.1.value| == ds.nCells
  {
    if coordinatesID == DefaultEmbeddingID then
      match ds.embedding
      case Some(e) => Ok((Some(e.0), Some(e.1)))
      case None =>
        var names := TsneNames(ds.caNames);
        TsneNamesMembers(ds.caNames);
        assert forall k :: 0 <= k < |names| ==> names[k] in ds.ca by {
          forall k | 0 <= k < |names| ensures names[k] in ds.ca {
            assert names[k] in names;
          }
        }
        Ok((if |names| >= 1 then Some(ds.ca[names[0]]) else None,
            if |names| >= 2 then Some(ds.ca[names[1]]) else None))
    else if ds.embeddingsX.None? then Err(AttributeError)
    else if coordinatesID !in ds.embeddingsX.value then Err(ValueError)
    else if ds.embeddingsY.None? then Err(AttributeError)
    else if coordinatesID !in ds.embeddingsY.value then Err(ValueError)
    else
      var id: int := coordinatesID;
      assert |ds.embeddingsX.value[id]| == ds.nCells && |ds.embeddingsY.value[id]| == ds.nCells;
      Ok((Some(ds.embeddingsX.value[id]), Some(ds.embeddingsY.value[id])))
  }

  /** What `get_coordinates` returns, or the exception it raises: the lookup's
      error first, then a selection naming a missing attribute, then an axis
      the fallback never assigned. */
  function CoordinatesOf(ds: Dataset, coordinatesID: int, annotation: seq<SelectionGroup>): Result<Coordinates>
    requires ds.Valid()
  {
    match Axes(ds, coordinatesID)
    case Err(e) => Err(e)
    case Ok(axes) =>
      if annotation != [] && MissingAttribute(ds.ca, annotation) then Err(AttributeError)
      else if axes.0.None? || axes.1.None? then Err(UnboundLocalError)
      else Ok(Coordinates(ApplySelection(axes.0.value, ds.ca, annotation).value,
                          ApplySelection(axes.1.value, ds.ca, annotation).value))
  }

  /** `get_coordinates`. */
  method GetCoordinates(ds: Dataset, coordinatesID: int, annotation: seq<SelectionGroup>) returns (r: Result<Coordinates>)
    requires ds.Valid()
    ensures r == CoordinatesOf(ds, coordinatesID, annotation)
  {
    var x: Option<seq<Value>> := None;
    var y: Option<seq<Value>> := None;
    if coordinatesID == DefaultEmbeddingID {
      if ds.embedding.Some? {
        x, y := Some(ds.embedding.value.0), Some(ds.embedding.value.1);
      } else {
        var xName, yName := TsneAxes(ds.caNames);
        TsneNamesMembers(ds.caNames);
        if xName.Some? {
          assert xName.value in TsneNames(ds.caNames);
          x := Some(ds.ca[xName.value]);
        }
        if yName.Some? {
          assert yName.value in TsneNames(ds.caNames);
          y := Some(ds.ca[yName.value]);
        }
      }
    } else {
      if ds.embeddingsX.None? {
        return Err(AttributeError);
      }
      if coordinatesID !in ds.embeddingsX.value {
        return Err(ValueError);
      }
      if ds.embeddingsY.None? {
        return Err(AttributeError);
      }
      if coordinatesID !in ds.embeddingsY.value {
        return Err(ValueError);
      }
      x, y := Some(ds.embeddingsX.value[coordinatesID]), Some(ds.embeddingsY.value[coordinatesID]);
    }
    assert Axes(ds, coordinatesID) == Ok((x, y));
    if annotation != [] && MissingAttribute(ds.ca, annotation) {
      return Err(AttributeError);
    }
    if x.None? || y.None? {
      return Err(UnboundLocalError);
    }
    var xs := ApplySelection(x.value, ds.ca, annotation);
    var ys := ApplySelection(y.value, ds.ca, annotation);
    r := Ok(Coordinates(xs.value, ys.value));
  }

  /** Both axes keep the same cells: the selected ones, in cell order. With no
      selection every cell is kept. */
  lemma CoordinatesSelected(ds: Dataset, coordinatesID: int, annotation: seq<SelectionGroup>)
    requires ds.Valid() && CoordinatesOf(ds, coordinatesID, annotation).Ok?
    ensures var c := CoordinatesOf(ds, coordinatesID, annotation).value;
      |c.x| == |c.y|
      && (annotation == [] ==> |c.x| == ds.nCells)
      && (annotation != [] ==> |c.x| == |SelectedIndices(ds.ca, ds.nCells, annotation).value|)
    ensures var c := CoordinatesOf(ds, coordinatesID, annotation).value;
      var axes := Axes(ds, coordinatesID).value;
      axes.0.Some? && axes.1.Some?
      && (annotation == [] ==> c.x == axes.0.value && c.y == axes.1.value)
      && (annotation != [] ==>
            c.x == KeepSelected(axes.0.value, ds.ca, annotation, ds.nCells)
            && c.y == KeepSelected(axes.1.value, ds.ca, annotation, ds.nCells))
  {
    var axes := Axes(ds, coordinatesID).value;
    if annotation != [] {
      SelectedIndicesSpec(ds.ca, ds.nCells, annotation);
      RestrictToSelection(axes.0.value, ds.ca, annotation, ds.nCells);
      RestrictToSelection(axes.1.value, ds.ca, annotation, ds.nCells);
    }
  }

  /** The default embedding: the `Embedding` attribute when there is one,
      whatever tSNE columns exist; otherwise the first two tSNE columns, and
      an UnboundLocalError with fewer than two. */
  lemma DefaultEmbedding(ds: Dataset)
    requires ds.Valid()
    ensures ds.embedding.Some? ==>
      CoordinatesOf(ds, DefaultEmbeddingID, []) == Ok(Coordinates(ds.embedding.value.0, ds.embedding.value.1))
    ensures ds.embedding.None? && |TsneNames(ds.caNames)| < 2 ==>
      CoordinatesOf(ds, DefaultEmbeddingID, []) == Err(UnboundLocalError)
    ensures ds.embedding.None? && |TsneNames(ds.caNames)| >= 2 ==>
      TsneNames(ds.caNames)[0] in ds.ca && TsneNames(ds.caNames)[1] in ds.ca
      && CoordinatesOf(ds, DefaultEmbeddingID, [])
         == Ok(Coordinates(ds.ca[TsneNames(ds.caNames)[0]], ds.ca[TsneNames(ds.caNames)[1]]))
  {
    if ds.embedding.None? && |TsneNames(ds.caNames)| >= 2 {
      TsneNamesMembers(ds.caNames);
      assert TsneNames(ds.caNames)[0] in TsneNames(ds.caNames);
      assert TsneNames(ds.caNames)[1] in TsneNames(ds.caNames);
    }
  }
}
