/** `getCellColorByFeatures` (GServer.py lines 219-278): one channel per
    requested feature, then one colour string per cell from the first three
    channels. The loop carries four variables from one feature to the next:
    the channels built so far, the last scale used, and the clustering and
    cluster ids last found in the global metadata. */
module CellColors {
  import opened Prelude
  import opened Text
  import opened Loom
  import opened Selection
  import opened Extraction
  import opened Scaling
  import opened ColorEncoding

  datatype ColorRequest = ColorRequest(
    feature: seq<string>,
    featureType: seq<string>,
    hasLogTransform: bool,
    hasCpmTransform: bool,
    annotation: seq<SelectionGroup>,
    vmax: real,
    scaleThresholded: bool,
    threshold: seq<real>)

  /** The reply: a colour per cell and the scale in force at the end (None
      when no gene or regulon channel set one). */
  datatype ColorReply = ColorReply(color: seq<string>, vmax: Option<real>)

  /** The loop's variables after some features. */
  datatype LoopState = LoopState(features: seq<seq<Level>>, vmax: Option<real>,
                                 clusteringID: Option<int>, clusterID: Option<int>)

  const ClusteringPrefix: string := "Clustering "

  // ------------------------------------------------------------ cluster lookup

  /** The inner loop of lines 266-268 over the first `j` clusters: the id of
      the last one whose description is `description`, else `clusterID`. */
  function ScanClusters(clusters: seq<ClusterInfo>, description: string, j: nat, clusterID: Option<int>): Option<int>
    requires j <= |clusters|
  {
    if j == 0 then clusterID
    else if clusters[j - 1].description == description then Some(clusters[j - 1].id)
    else ScanClusters(clusters, description, j - 1, clusterID)
  }

  /** The outer loop of lines 263-268 over the first `k` clusterings, from the
      ids the loop holds before it. */
  function ScanClusterings(cs: seq<ClusteringInfo>, name: string, description: string, k: nat,
                           ids: (Option<int>, Option<int>)): (Option<int>, Option<int>)
    requires k <= |cs|
  {
    if k == 0 then ids
    else
      var prev := ScanClusterings(cs, name, description, k - 1, ids);
      if cs[k - 1].name == name
      then (Some(cs[k - 1].id), ScanClusters(cs[k - 1].clusters, description, |cs[k - 1].clusters|, prev.1))
      else prev
  }

  /** The loops never break, so the last clustering with the name wins. */
  lemma {:induction false} ScanClusteringsLast(cs: seq<ClusteringInfo>, name: string, description: string, k: nat,
                                               ids: (Option<int>, Option<int>), i: nat)
    requires i < k <= |cs| && cs[i].name == name
    requires forall j :: i < j < k ==> cs[j].name != name
    ensures ScanClusterings(cs, name, description, k, ids)
         == (Some(cs[i].id), ScanClusters(cs[i].clusters, description, |cs[i].clusters|,
                                           ScanClusterings(cs, name, description, i, ids).1))
  {
    if k > i + 1 {
      ScanClusteringsLast(cs, name, description, k - 1, ids, i);
    }
  }

  /** Without a clustering of that name, both ids keep their earlier values. */
  lemma {:induction false} ScanClusteringsNone(cs: seq<ClusteringInfo>, name: string, description: string, k: nat,
                                               ids: (Option<int>, Option<int>))
    requires k <= |cs|
    requires forall j :: 0 <= j < k ==> cs[j].name != name
    ensures ScanClusterings(cs, name, description, k, ids) == ids
  {
    if k > 0 {
      ScanClusteringsNone(cs, name, description, k - 1, ids);
    }
  }

  /** The last cluster with the description wins; without one the id keeps its value. */
  lemma {:induction false} ScanClustersLast(clusters: seq<ClusterInfo>, description: string, j: nat, clusterID: Option<int>)
    requires j <= |clusters|
    ensures (exists m :: 0 <= m < j && clusters[m].description == description) ==>
      exists m :: 0 <= m < j && clusters[m].description == description
        && ScanClusters(clusters, description, j, clusterID) == Some(clusters[m].id)
        && forall l :: m < l < j ==> clusters[l].description != description
    ensures (forall m :: 0 <= m < j ==> clusters[m].description != description) ==>
      ScanClusters(clusters, description, j, clusterID) == clusterID
  {
    if j > 0 {
      ScanClustersLast(clusters, description, j - 1, clusterID);
    }
  }

  /** The nested loops of lines 263-268. */
  method FindCluster(cs: seq<ClusteringInfo>, name: string, description: string,
                     clusteringID0: Option<int>, clusterID0: Option<int>)
    returns (clusteringID: Option<int>, clusterID: Option<int>)
    ensures (clusteringID, clusterID) == ScanClusterings(cs, name, description, |cs|, (clusteringID0, clusterID0))
  {
    clusteringID, clusterID := clusteringID0, clusterID0;
    var k := 0;
    while k < |cs|
      invariant 0 <= k <= |cs|
      invariant (clusteringID, clusterID) == ScanClusterings(cs, name, description, k, (clusteringID0, clusterID0))
    {
      var clustering := cs[k];
      if clustering.name == name {
        clusteringID := Some(clustering.id);
        ghost var before := clusterID;
        var j := 0;
        while j < |clustering.clusters|
          invariant 0 <= j <= |clustering.clusters|
          invariant clusterID == ScanClusters(clustering.clusters, description, j, before)
        {
          if clustering.clusters[j].description == description {
            clusterID := Some(clustering.clusters[j].id);
          }
          j := j + 1;
        }
      }
      k := k + 1;
    }
  }

  /** `lstrip` skips a prefix made only of characters from the set. */
  lemma {:induction false} LStripSkips(p: string, t: string, chars: string)
    requires forall i :: 0 <= i < |p| ==> p[i] in chars
    ensures LStrip(p + t, chars) == LStrip(t, chars)
  {
    if p == [] {
      assert p + t == t;
    } else {
      assert (p + t)[0] == p[0] && p[0] in chars;
      assert (p + t)[1..] == p[1..] + t;
      LStripSkips(p[1..], t, chars);
    }
  }

  /** Line 264: `featureType.lstrip('Clustering ')` leaves the name of a
      clustering that starts outside the stripped set. */
  lemma LStripClusteringName()
    ensures LStrip(ClusteringPrefix + "Louvain", ClusteringPrefix) == "Louvain"
  {
    LStripSkips(ClusteringPrefix, "Louvain", ClusteringPrefix);
    assert "Louvain"[0] == 'L';
  }

  /** `lstrip` takes a set of characters, not a prefix: it goes on into a
      name that begins with characters of {C, l, u, s, t, e, r, i, n, g, space}. */
  lemma LStripEatsNameStart()
    ensures LStrip(ClusteringPrefix + "Cell type", ClusteringPrefix) == "ype"
  {
    LStripSkips(ClusteringPrefix, "Cell type", ClusteringPrefix);
    CellTypeHeadInPrefix();
    assert "Cell t" + "ype" == "Cell type";
    LStripSkips("Cell t", "ype", ClusteringPrefix);
    YpeSurvives();
  }

  lemma CellTypeHeadInPrefix()
    ensures forall i :: 0 <= i < |"Cell t"| ==> "Cell t"[i] in ClusteringPrefix
  {
    var head := "Cell t";
    assert head[0] == ClusteringPrefix[0] && head[1] == ClusteringPrefix[5] && head[2] == ClusteringPrefix[1];
    assert head[3] == ClusteringPrefix[1] && head[4] == ClusteringPrefix[10] && head[5] == ClusteringPrefix[4];
  }

  lemma YpeSurvives()
    ensures LStrip("ype", ClusteringPrefix) == "ype"
  {
    assert "ype"[0] == 'y' && 'y' !in ClusteringPrefix;
  }

  /** Lines 269-270: the mask of the cells in cluster `clusterID` of
      clustering `clusteringID`, over every cell (the selection does not apply). */
  function ClusterChannel(ds: Dataset, clusteringID: Option<int>, clusterID: Option<int>): (r: Result<seq<Level>>)
    requires ds.Valid()
    ensures ds.clusterings.None? ==> r == Err(AttributeError)
    ensures ds.clusterings.Some? && clusteringID.None? ==> r == Err(UnboundLocalError)
    ensures ds.clusterings.Some? && clusteringID.Some? && clusteringID.value !in ds.clusterings.value ==> r == Err(ValueError)
    ensures ds.clusterings.Some? && clusteringID.Some? && clusteringID.value in ds.clusterings.value && clusterID.None? ==>
      r == Err(UnboundLocalError)
    ensures r.Ok? ==> (clusteringID.Some? && clusterID.Some? && ds.clusterings.Some?
                       && clusteringID.value in ds.clusterings.value
                       && r.value == ClusterMask(ds.clusterings.value[clusteringID.value], clusterID.value))
    ensures r.Ok? ==> |r.value| == ds.nCells
  {
    if ds.clusterings.None? then Err(AttributeError)
    else if clusteringID.None? then Err(UnboundLocalError)
    else if clusteringID.value !in ds.clusterings.value then Err(ValueError)
    else if clusterID.None? then Err(UnboundLocalError)
    else
      var id: int := clusteringID.value;
      var column := ds.clusterings.value[id];
      assert |column| == ds.nCells;
      Ok(ClusterMask(column, clusterID.value))
  }

  // ------------------------------------------------------------ one feature

  /** The request's scale unless it is 0.0, then `getVmax`. */
  function ChooseVmax(requested: real, vals: seq<real>): (r: Result<real>)
    ensures requested != 0.0 ==> r == Ok(requested)
    ensures requested == 0.0 ==> r == GetVmax(vals)
  {
    if requested != 0.0 then Ok(requested) else GetVmax(vals)
  }

  /** The feature's values: a gene's expression or a regulon's AUC scores. */
  function FeatureValues(ds: Dataset, req: ColorRequest, ops: FloatOps, n: nat): Result<seq<real>>
    requires ds.Valid() && n < |req.feature| && n < |req.featureType|
  {
    if req.featureType[n] == "gene"
    then GeneExpression(ds, req.feature[n], req.hasLogTransform, req.hasCpmTransform, req.annotation, ops)
    else AucValues(ds, req.feature[n], req.annotation)
  }

  /** A gene or regulon feature with a name: one whose channel sets the scale. */
  predicate Scaled(req: ColorRequest, n: nat)
  {
    n < |req.feature| && n < |req.featureType|
    && (req.featureType[n] == "gene" || req.featureType[n] == "regulon") && req.feature[n] != ""
  }

  /** The channel of a scaled feature from its values and scale. */
  function ScaledChannel(req: ColorRequest, n: nat, vals: seq<real>, vmax: real): Result<seq<Level>>
    requires n < |req.featureType|
  {
    if req.featureType[n] == "gene" then Ok(GeneChannel(vals, vmax))
    else if req.scaleThresholded then ThresholdedChannel(vals, req.threshold, n, vmax)
    else BinaryChannel(vals, req.threshold, n)
  }

  /** One pass of the loop body for feature `n`. A feature type that is not
      `gene`, `regulon` or `Clustering ...` adds no channel. */
  function FeatureStep(ds: Dataset, meta: GlobalMeta, req: ColorRequest, ops: FloatOps, st: LoopState, n: nat)
    : (r: Result<LoopState>)
    requires ds.Valid() && n < |req.feature|
  {
    if n >= |req.featureType| then Err(IndexError)
    else if Scaled(req, n) then
      match FeatureValues(ds, req, ops, n)
      case Err(e) => Err(e)
      case Ok(vals) =>
        match ChooseVmax(req.vmax, vals)
        case Err(e) => Err(e)
        case Ok(vmax) =>
          match ScaledChannel(req, n, vals, vmax)
          case Err(e) => Err(e)
          case Ok(ch) => Ok(st.(features := st.features + [ch], vmax := Some(vmax)))
    else if req.featureType[n] == "gene" || req.featureType[n] == "regulon" then
      Ok(st.(features := st.features + [Zeros(ds.nCells)]))
    else if StartsWith(req.featureType[n], ClusteringPrefix) then
      match meta.clusterings
      case None => Err(KeyError)
      case Some(cs) =>
        var ids := ScanClusterings(cs, LStrip(req.featureType[n], ClusteringPrefix), req.feature[n], |cs|,
                                   (st.clusteringID, st.clusterID));
        match ClusterChannel(ds, ids.0, ids.1)
        case Err(e) => Err(e)
        case Ok(ch) => Ok(st.(features := st.features + [ch], clusteringID := ids.0, clusterID := ids.1))
    else Ok(st)
  }

  /** The loop's variables after the first `k` features. */
  function RunFeatures(ds: Dataset, meta: GlobalMeta, req: ColorRequest, ops: FloatOps, k: nat): Result<LoopState>
    requires ds.Valid() && k <= |req.feature|
  {
    if k == 0 then Ok(LoopState([], None, None, None))
    else
      match RunFeatures(ds, meta, req, ops, k - 1)
      case Err(e) => Err(e)
      case Ok(st) => FeatureStep(ds, meta, req, ops, st, k - 1)
  }

  /** An exception ends the loop: no later feature changes the outcome. */
  lemma {:induction false} ErrorPropagates(ds: Dataset, meta: GlobalMeta, req: ColorRequest, ops: FloatOps, k: nat, m: nat)
    requires ds.Valid() && k <= m <= |req.feature|
    requires RunFeatures(ds, meta, req, ops, k).Err?
    ensures RunFeatures(ds, meta, req, ops, m) == RunFeatures(ds, meta, req, ops, k)
  {
    if m > k {
      ErrorPropagates(ds, meta, req, ops, k, m - 1);
    }
  }

  /** What `getCellColorByFeatures` replies, or the exception it raises. */
  function CellColorByFeatures(ds: Dataset, meta: GlobalMeta, req: ColorRequest, ops: FloatOps): Result<ColorReply>
    requires ds.Valid()
  {
    match RunFeatures(ds, meta, req, ops, |req.feature|)
    case Err(e) => Err(e)
    case Ok(st) =>
      match Colors(st.features)
      case Err(e) => Err(e)
      case Ok(hex) => Ok(ColorReply(hex, st.vmax))
  }

  // ------------------------------------------------------------ properties of the loop

  /** The last scaled feature among the first `k`. */
  function LastScaled(req: ColorRequest, k: nat): (r: Option<nat>)
    ensures r.None? <==> forall n :: 0 <= n < k ==> !Scaled(req, n)
    ensures r.Some? ==> r.value < k && Scaled(req, r.value) && forall n :: r.value < n < k ==> !Scaled(req, n)
  {
    if k == 0 then None
    else if Scaled(req, k - 1) then Some(k - 1)
    else LastScaled(req, k - 1)
  }

  /** The scale feature `n` sets, when its values and scale exist. */
  function ScaleOf(ds: Dataset, req: ColorRequest, ops: FloatOps, n: nat): Option<real>
    requires ds.Valid() && Scaled(req, n)
  {
    match FeatureValues(ds, req, ops, n)
    case Err(_) => None
    case Ok(vals) =>
      match ChooseVmax(req.vmax, vals)
      case Err(_) => None
      case Ok(v) => Some(v)
  }

  /** One step sets `vmax` to the feature's scale when the feature is scaled,
      and leaves it alone otherwise. */
  lemma StepVmax(ds: Dataset, meta: GlobalMeta, req: ColorRequest, ops: FloatOps, st: LoopState, n: nat)
    requires ds.Valid() && n < |req.feature|
    requires FeatureStep(ds, meta, req, ops, st, n).Ok?
    ensures Scaled(req, n) ==>
      ScaleOf(ds, req, ops, n).Some? && FeatureStep(ds, meta, req, ops, st, n).value.vmax == ScaleOf(ds, req, ops, n)
    ensures !Scaled(req, n) ==> FeatureStep(ds, meta, req, ops, st, n).value.vmax == st.vmax
  {
  }

  /** `vmax` is overwritten by every scaled feature and left alone by the
      others, so after a run it is the scale of the last scaled feature, and
      unset when there was none. */
  lemma {:induction false} LoopVmax(ds: Dataset, meta: GlobalMeta, req: ColorRequest, ops: FloatOps, k: nat)
    requires ds.Valid() && k <= |req.feature|
    requires RunFeatures(ds, meta, req, ops, k).Ok?
    ensures RunFeatures(ds, meta, req, ops, k).value.vmax.None? <==> LastScaled(req, k).None?
    ensures LastScaled(req, k).Some? ==>
      ScaleOf(ds, req, ops, LastScaled(req, k).value).Some?
      && RunFeatures(ds, meta, req, ops, k).value.vmax == ScaleOf(ds, req, ops, LastScaled(req, k).value)
  {
    if k > 0 {
      var prev := RunFeatures(ds, meta, req, ops, k - 1);
      assert prev.Ok?;
      LoopVmax(ds, meta, req, ops, k - 1);
      assert RunFeatures(ds, meta, req, ops, k) == FeatureStep(ds, meta, req, ops, prev.value, k - 1);
      StepVmax(ds, meta, req, ops, prev.value, k - 1);
    }
  }

  /** The reply's `vmax`: unset when no gene or regulon had a name; the
      request's scale when it is non-zero; otherwise `getVmax` of the last
      scaled feature's values. */
  lemma ReplyVmax(ds: Dataset, meta: GlobalMeta, req: ColorRequest, ops: FloatOps)
    requires ds.Valid() && CellColorByFeatures(ds, meta, req, ops).Ok?
    ensures CellColorByFeatures(ds, meta, req, ops).value.vmax.None?
        <==> forall n :: 0 <= n < |req.feature| ==> !Scaled(req, n)
    ensures req.vmax != 0.0 && CellColorByFeatures(ds, meta, req, ops).value.vmax.Some? ==>
      CellColorByFeatures(ds, meta, req, ops).value.vmax == Some(req.vmax)
    ensures req.vmax == 0.0 && LastScaled(req, |req.feature|).Some? ==>
      var n := LastScaled(req, |req.feature|).value;
      FeatureValues(ds, req, ops, n).Ok? && GetVmax(FeatureValues(ds, req, ops, n).value).Ok?
      && CellColorByFeatures(ds, meta, req, ops).value.vmax == Some(GetVmax(FeatureValues(ds, req, ops, n).value).value)
  {
    LoopVmax(ds, meta, req, ops, |req.feature|);
  }

  /** A feature whose type is recognised, so that it adds a channel. */
  predicate Recognised(req: ColorRequest, n: nat)
  {
    n < |req.featureType|
    && (req.featureType[n] == "gene" || req.featureType[n] == "regulon" || StartsWith(req.featureType[n], ClusteringPrefix))
  }

  function CountRecognised(req: ColorRequest, k: nat): nat
  {
    if k == 0 then 0 else CountRecognised(req, k - 1) + (if Recognised(req, k - 1) then 1 else 0)
  }

  /** Every entry of a channel is -inf or at most 255. */
  predicate Capped(c: seq<Level>)
  {
    forall i :: 0 <= i < |c| && c[i].Finite? ==> c[i].n <= 255
  }

  lemma ScaledChannelCapped(req: ColorRequest, n: nat, vals: seq<real>, vmax: real)
    requires n < |req.featureType|
    requires ScaledChannel(req, n, vals, vmax).Ok?
    ensures Capped(ScaledChannel(req, n, vals, vmax).value)
  {
  }

  /** One channel per recognised feature, in request order, each capped at
      255; an unrecognised feature type adds nothing. */
  lemma {:induction false} LoopChannels(ds: Dataset, meta: GlobalMeta, req: ColorRequest, ops: FloatOps, k: nat)
    requires ds.Valid() && k <= |req.feature|
    requires RunFeatures(ds, meta, req, ops, k).Ok?
    ensures |RunFeatures(ds, meta, req, ops, k).value.features| == CountRecognised(req, k)
    ensures forall c :: c in RunFeatures(ds, meta, req, ops, k).value.features ==> Capped(c)
  {
    if k > 0 {
      LoopChannels(ds, meta, req, ops, k - 1);
      StepChannels(ds, meta, req, ops, RunFeatures(ds, meta, req, ops, k - 1).value, k - 1);
    }
  }

  /** One feature adds one capped channel when its type is recognised, none otherwise. */
  lemma StepChannels(ds: Dataset, meta: GlobalMeta, req: ColorRequest, ops: FloatOps, st: LoopState, n: nat)
    requires ds.Valid() && n < |req.feature|
    requires FeatureStep(ds, meta, req, ops, st, n).Ok?
    requires forall c :: c in st.features ==> Capped(c)
    ensures |FeatureStep(ds, meta, req, ops, st, n).value.features| == |st.features| + (if Recognised(req, n) then 1 else 0)
    ensures forall c :: c in FeatureStep(ds, meta, req, ops, st, n).value.features ==> Capped(c)
  {
    var next := FeatureStep(ds, meta, req, ops, st, n).value;
    if Scaled(req, n) {
      var vals := FeatureValues(ds, req, ops, n).value;
      var vmax := ChooseVmax(req.vmax, vals).value;
      ScaledChannelCapped(req, n, vals, vmax);
      assert next.features == st.features + [ScaledChannel(req, n, vals, vmax).value];
    }
  }

  /** With a clustering name that occurs once, a cell is coloured 225 in the
      cluster channel exactly when it belongs to the last cluster of that
      clustering with the requested description. */
  lemma FindClusterUnique(cs: seq<ClusteringInfo>, name: string, description: string,
                          ids: (Option<int>, Option<int>), i: nat, m: nat)
    requires i < |cs| && cs[i].name == name
    requires forall j :: 0 <= j < |cs| && j != i ==> cs[j].name != name
    requires m < |cs[i].clusters| && cs[i].clusters[m].description == description
    requires forall l :: m < l < |cs[i].clusters| ==> cs[i].clusters[l].description != description
    ensures ScanClusterings(cs, name, description, |cs|, ids) == (Some(cs[i].id), Some(cs[i].clusters[m].id))
  {
    ScanClusteringsLast(cs, name, description, |cs|, ids, i);
    ScanClustersLast(cs[i].clusters, description, |cs[i].clusters|, ScanClusterings(cs, name, description, i, ids).1);
  }

  /** The ids outlive the feature that set them: when the named clustering
      has no cluster with the description, the cluster id found for an
      earlier feature is used with the new clustering id. */
  lemma StaleClusterID(cs: seq<ClusteringInfo>, name: string, description: string,
                       ids: (Option<int>, Option<int>), i: nat)
    requires i < |cs| && cs[i].name == name
    requires forall j :: 0 <= j < |cs| && j != i ==> cs[j].name != name
    requires forall l :: 0 <= l < |cs[i].clusters| ==> cs[i].clusters[l].description != description
    ensures ScanClusterings(cs, name, description, |cs|, ids) == (Some(cs[i].id), ids.1)
  {
    ScanClusteringsLast(cs, name, description, |cs|, ids, i);
    ScanClusteringsNone(cs, name, description, i, ids);
    ScanClustersLast(cs[i].clusters, description, |cs[i].clusters|, ids.1);
  }

  /** The loop body for feature `n`: append the feature's channel, and update
      the scale or the cluster ids the channel used. */
  method ApplyFeature(ds: Dataset, meta: GlobalMeta, req: ColorRequest, ops: FloatOps, st: LoopState, n: nat)
    returns (r: Result<LoopState>)
    requires ds.Valid() && n < |req.feature|
    ensures r == FeatureStep(ds, meta, req, ops, st, n)
  {
    if n >= |req.featureType| {
      return Err(IndexError);
    }
    var featureType := req.featureType[n];
    var feature := req.feature[n];
    var next := st;
    if featureType == "gene" || featureType == "regulon" {
      if feature != "" {
        var vals := FeatureValues(ds, req, ops, n);
        if vals.Err? {
          return Err(vals.error);
        }
        var vmax := ChooseVmax(req.vmax, vals.value);
        if vmax.Err? {
          return Err(vmax.error);
        }
        next := next.(vmax := Some(vmax.value));
        var channel := ScaledChannel(req, n, vals.value, vmax.value);
        if channel.Err? {
          return Err(channel.error);
        }
        next := next.(features := next.features + [channel.value]);
      } else {
        next := next.(features := next.features + [Zeros(ds.nCells)]);
      }
    } else if StartsWith(featureType, ClusteringPrefix) {
      if meta.clusterings.None? {
        return Err(KeyError);
      }
      var clusteringID, clusterID := FindCluster(meta.clusterings.value, LStrip(featureType, ClusteringPrefix), feature,
                                                 st.clusteringID, st.clusterID);
      next := next.(clusteringID := clusteringID, clusterID := clusterID);
      var channel := ClusterChannel(ds, clusteringID, clusterID);
      if channel.Err? {
        return Err(channel.error);
      }
      next := next.(features := next.features + [channel.value]);
    }
    r := Ok(next);
  }

  /** The handler's loop over the requested features, then the colours. */
  method GetCellColorByFeatures(ds: Dataset, meta: GlobalMeta, req: ColorRequest, ops: FloatOps)
    returns (r: Result<ColorReply>)
    requires ds.Valid()
    ensures r == CellColorByFeatures(ds, meta, req, ops)
  {
    var st := LoopState([], None, None, None);
    var n := 0;
    while n < |req.feature|
      invariant 0 <= n <= |req.feature|
      invariant RunFeatures(ds, meta, req, ops, n) == Ok(st)
    {
      var next := ApplyFeature(ds, meta, req, ops, st, n);
      if next.Err? {
        ErrorPropagates(ds, meta, req, ops, n + 1, |req.feature|);
        return Err(next.error);
      }
      st := next.value;
      n := n + 1;
    }
    var hexVec := Colors(st.features);
    if hexVec.Err? {
      return Err(hexVec.error);
    }
    r := Ok(ColorReply(hexVec.value, st.vmax));
  }
}
