/** Per-cell feature vectors read from a dataset: a gene's expression row with
    its optional log and CPM transforms, and a regulon's AUC scores, each
    restricted to the request's cell selection (GServer.py
    `get_gene_expression` and `get_auc_values`). */
module Extraction {
  import opened Prelude
  import opened Loom
  import opened Selection

  /** The two numpy element-wise operations the transforms apply: `np.log2`
      and float division. Their floating-point behaviour is not modelled. */
  datatype FloatOps = FloatOps(log2: real -> real, divide: (real, real) -> real)

  /** The position of the first gene called `symbol`; `loom.ra.Gene == symbol`
      selects the rows and `[0]` takes the first. */
  function FirstRow(genes: seq<string>, symbol: string): (r: Option<nat>)
    ensures r.None? <==> symbol !in genes
    ensures r.Some? ==> r.value < |genes| && genes[r.value] == symbol
    ensures r.Some? ==> forall k :: 0 <= k < r.value ==> genes[k] != symbol
  {
    if genes == [] then None
    else if genes[0] == symbol then Some(0)
    else
      match FirstRow(genes[1..], symbol)
      case None => None
      case Some(k) => Some(k + 1)
  }

  /** The optional transforms of an expression row: `log2(v + 1)` first, then
      division by the cell's UMI count; CPM without a `nUMI` attribute raises. */
  function Transform(row: seq<real>, nUMI: Option<seq<real>>, logTransform: bool, cpmNormalise: bool, ops: FloatOps)
    : (r: Result<seq<real>>)
    requires nUMI.Some? ==> |nUMI.value| == |row|
    ensures r.Err? <==> cpmNormalise && nUMI.None?
    ensures r.Err? ==> r.error == AttributeError
    ensures r.Ok? ==> |r.value| == |row|
    ensures r.Ok? ==> forall i :: 0 <= i < |row| ==>
      var logged := if logTransform then ops.log2(row[i] + 1.0) else row[i];
      r.value[i] == if cpmNormalise then ops.divide(logged, nUMI.value[i]) else logged
  {
    var logged := if logTransform then seq(|row|, i requires 0 <= i < |row| => ops.log2(row[i] + 1.0)) else row;
    if !cpmNormalise then Ok(logged)
    else if nUMI.None? then Err(AttributeError)
    else Ok(seq(|row|, i requires 0 <= i < |row| => ops.divide(logged[i], nUMI.value[i])))
  }

  /** `get_gene_expression`: the first row named `symbol` (an IndexError when
      there is none), transformed, then restricted to the selected cells. */
  function GeneExpression(ds: Dataset, symbol: string, logTransform: bool, cpmNormalise: bool,
                          annotation: seq<SelectionGroup>, ops: FloatOps): (r: Result<seq<real>>)
    requires ds.Valid()
    ensures symbol !in ds.gene ==> r == Err(IndexError)
    ensures symbol in ds.gene && cpmNormalise && ds.nUMI.None? ==> r == Err(AttributeError)
    ensures r.Ok? ==> symbol in ds.gene
    ensures r.Ok? && annotation == [] ==> |r.value| == ds.nCells
    ensures r.Ok? && annotation != [] ==> |r.value| <= ds.nCells
    ensures r.Ok? ==>
      var row := ds.matrix[FirstRow(ds.gene, symbol).value];
      var t := Transform(row, ds.nUMI, logTransform, cpmNormalise, ops);
      t.Ok? && r == ApplySelection(t.value, ds.ca, annotation)
  {
    match FirstRow(ds.gene, symbol)
    case None => Err(IndexError)
    case Some(k) =>
      match Transform(ds.matrix[k], ds.nUMI, logTransform, cpmNormalise, ops)
      case Err(e) => Err(e)
      case Ok(v) =>
        var r := ApplySelection(v, ds.ca, annotation);
        assert r.Ok? ==> |r.value| <= |v| by {
          if r.Ok? && annotation != [] {
            KeepSelectedLength(v, ds.ca, annotation, |v|);
          }
        }
        r
  }

  lemma {:induction false} KeepSelectedLength<T>(v: seq<T>, ca: map<string, seq<Value>>, groups: seq<SelectionGroup>, hi: nat)
    requires hi <= |v|
    ensures |KeepSelected(v, ca, groups, hi)| <= hi
  {
    if hi > 0 {
      KeepSelectedLength(v, ca, groups, hi - 1);
    }
  }

  /** Asking for both transforms divides the logged value by the UMI count:
      `log2(v + 1) / nUMI`, never `log2(v / nUMI + 1)`. */
  lemma LogThenCpm(ds: Dataset, symbol: string, ops: FloatOps, k: nat, i: nat)
    requires ds.Valid() && ds.nUMI.Some?
    requires FirstRow(ds.gene, symbol) == Some(k) && i < ds.nCells
    ensures GeneExpression(ds, symbol, true, true, [], ops).Ok?
    ensures GeneExpression(ds, symbol, true, true, [], ops).value[i]
         == ops.divide(ops.log2(ds.matrix[k][i] + 1.0), ds.nUMI.value[i])
  {
  }

  /** `get_auc_values`: the regulon's AUC column restricted to the selected
      cells, or an empty vector (and no selection) when the AUC table has no
      such regulon. A dataset without an AUC table raises. */
  function AucValues(ds: Dataset, regulon: string, annotation: seq<SelectionGroup>): (r: Result<seq<real>>)
    requires ds.Valid()
    ensures ds.regulonsAUC.None? ==> r == Err(AttributeError)
    ensures ds.regulonsAUC.Some? && regulon !in ds.regulonsAUC.value ==> r == Ok([])
    ensures ds.regulonsAUC.Some? && regulon in ds.regulonsAUC.value ==>
      r == ApplySelection(ds.regulonsAUC.value[regulon], ds.ca, annotation)
  {
    match ds.regulonsAUC
    case None => Err(AttributeError)
    case Some(auc) =>
      if regulon in auc then ApplySelection(auc[regulon], ds.ca, annotation) else Ok([])
  }
}
