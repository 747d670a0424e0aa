/** `get_file_metadata` (GServer.py lines 180-204): which optional parts a
    dataset carries. */
module FileMetadata {
  import opened Prelude
  import opened Loom
  import opened Extraction
  import opened Selection
  import Coordinates

  datatype FileMeta = FileMeta(
    hasRegulonsAUC: bool,
    hasSeuratClusterings: bool,
    hasExtraEmbeddings: bool,
    hasGeneSets: bool,
    hasGlobalMeta: bool)

  /** Four attribute-presence flags, and whether the `MetaData` attribute
      parses. A missing attribute (AttributeError) is caught; JSON that does
      not parse raises a decoding error that is not. */
  function GetFileMetadata(ds: Dataset): (r: Result<FileMeta>)
    ensures r.Err? <==> ds.metaData.Malformed?
    ensures r.Err? ==> r.error == JsonDecodeError
    ensures r.Ok? ==> (r.value.hasRegulonsAUC <==> ds.regulonsAUC.Some?)
    ensures r.Ok? ==> (r.value.hasSeuratClusterings <==> ds.seuratClusterings)
    ensures r.Ok? ==> (r.value.hasExtraEmbeddings <==> ds.embeddingsX.Some?)
    ensures r.Ok? ==> (r.value.hasGeneSets <==> ds.geneSets)
    ensures r.Ok? ==> (r.value.hasGlobalMeta <==> ds.metaData.Parsed?)
  {
    match ds.metaData
    case Malformed => Err(JsonDecodeError)
    case _ =>
      Ok(FileMeta(ds.regulonsAUC.Some?, ds.seuratClusterings, ds.embeddingsX.Some?, ds.geneSets, ds.metaData.Parsed?))
  }

  /** A dataset reported without regulon AUCs fails every AUC lookup. */
  lemma NoRegulonsMeansNoAuc(ds: Dataset, regulon: string, annotation: seq<SelectionGroup>)
    requires ds.Valid() && GetFileMetadata(ds).Ok? && !GetFileMetadata(ds).value.hasRegulonsAUC
    ensures AucValues(ds, regulon, annotation) == Err(AttributeError)
  {
  }

  /** A dataset reported without extra embeddings fails every coordinates
      request except the default one. */
  lemma NoExtraEmbeddingsMeansDefaultOnly(ds: Dataset, coordinatesID: int, annotation: seq<SelectionGroup>)
    requires ds.Valid() && GetFileMetadata(ds).Ok? && !GetFileMetadata(ds).value.hasExtraEmbeddings
    requires coordinatesID != Coordinates.DefaultEmbeddingID
    ensures Coordinates.CoordinatesOf(ds, coordinatesID, annotation) == Err(AttributeError)
  {
  }
}
