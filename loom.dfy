/** An opened loom dataset, as the feature engine reads it: row attributes
    (one entry per gene), column attributes (one entry per cell), the
    expression matrix, and the dataset-level `MetaData` attribute. */
module Loom {
  import opened Prelude
  import Text

  /** One entry of a column attribute: a number or a label. */
  datatype Value = Num(x: real) | Str(s: string)

  /** A cluster of a clustering, as listed in the global metadata. */
  datatype ClusterInfo = ClusterInfo(id: int, description: string)

  /** A clustering, as listed in the global metadata. */
  datatype ClusteringInfo = ClusteringInfo(id: int, name: string, clusters: seq<ClusterInfo>)

  /** The parsed `MetaData` JSON object; `clusterings` is None when the key is missing. */
  datatype GlobalMeta = GlobalMeta(clusterings: Option<seq<ClusteringInfo>>)

  /** The dataset attribute `MetaData`: absent, not valid JSON, or parsed. */
  datatype MetaBlob = NoMetaData | Malformed | Parsed(meta: GlobalMeta)

  /** The attributes of a loom file the engine touches. An optional attribute
      is None when the file does not carry it. */
  datatype Dataset = Dataset(
    nCells: nat,                                  // loom.shape[1]
    gene: seq<string>,                            // ra.Gene
    regulons: Option<seq<string>>,                // field names of ra.Regulons
    geneSets: bool,                               // ra.GeneSets is present
    matrix: seq<seq<real>>,                       // one expression row per gene
    ca: map<string, seq<Value>>,                  // plain column attributes
    caNames: seq<string>,                         // every column attribute, in iteration order
    nUMI: Option<seq<real>>,                      // ca.nUMI
    regulonsAUC: Option<map<string, seq<real>>>,  // ca.RegulonsAUC, by regulon name
    embedding: Option<(seq<Value>, seq<Value>)>,  // ca.Embedding fields _X and _Y
    embeddingsX: Option<map<int, seq<Value>>>,    // ca.Embeddings_X, by embedding id
    embeddingsY: Option<map<int, seq<Value>>>,    // ca.Embeddings_Y, by embedding id
    clusterings: Option<map<int, seq<int>>>,      // ca.Clusterings, by clustering id
    seuratClusterings: bool,                      // ca.SeuratClusterings is present
    metaData: MetaBlob)                           // attrs.MetaData
  {
    /** The shape a loom file guarantees: one matrix row per gene, and every
        per-cell vector as long as the number of cells. */
    ghost predicate Valid()
    {
      && |matrix| == |gene|
      && (forall k :: 0 <= k < |matrix| ==> |matrix[k]| == nCells)
      && (forall name :: name in ca ==> |ca[name]| == nCells)
      && (forall name :: name in ca ==> name in caNames)
      // a column whose name mentions tSNE is a plain column (for the default embedding)
      && (forall name :: name in caNames && Text.Contains(Text.Fold(name), "tsne") ==> name in ca)
      && (nUMI.Some? ==> |nUMI.value| == nCells)
      && (regulonsAUC.Some? ==> forall r :: r in regulonsAUC.value ==> |regulonsAUC.value[r]| == nCells)
      && (embedding.Some? ==> |embedding.value.0| == nCells && |embedding.value.1| == nCells)
      && (embeddingsX.Some? ==> forall i :: i in embeddingsX.value ==> |embeddingsX.value[i]| == nCells)
      && (embeddingsY.Some? ==> forall i :: i in embeddingsY.value ==> |embeddingsY.value[i]| == nCells)
      && (clusterings.Some? ==> forall i :: i in clusterings.value ==> |clusterings.value[i]| == nCells)
    }
  }
}
