# SCope feature engine, modelled in Dafny

SCope is a viewer for single-cell datasets stored as loom files. Its gRPC
server, class `SCope` in `scopeserver/modules/gserver/GServer.py`, keeps a cache
of open datasets and answers the viewer's queries. This project models the
server's computational core as Dafny values, functions and methods:

- **Dataset cache** (`HandleCache`). A class holding the map from a file's
  partial-MD5 fingerprint to its open handle. A lookup hits on the
  fingerprint, so two paths with the same content share one handle. A miss
  opens the file and caches the handle. A missing path raises `ValueError`.
- **Cell selection** (`Selection`). A request's annotation is a list of
  (column attribute, accepted values) groups. The selected cells are the
  union over the groups, sorted ascending. Per-cell vectors are restricted
  to them.
- **Feature vectors** (`Extraction`). A gene's expression row, with the
  optional `log2(v + 1)` and division by `nUMI`. A regulon's AUC column.
  Both are restricted to the selection.
- **Feature search** (`FeatureSearch`). A case-insensitive substring filter
  over genes and regulons, then two reorder passes:
  - a prefix pass;
  - an exact-match pass.

  Both passes are modelled as the code runs them. `enumerate` keeps walking
  the original list after the first `pop` has shortened it and `res` has
  been rebound to a new list.
- **Channels and colours** (`Scaling`, `ColorEncoding`, `CellColors`):
  - `getVmax`;
  - gene channels scaled to 0..255;
  - regulon channels, either binary 225/0 or thresholded and scaled;
  - cluster masks 225/0 found through the global metadata. The clustering
    name is matched after `lstrip('Clustering ')`, and the last match wins;
  - the `%02x%02x%02x` colour of the first three channels;
  - the reported `vmax`;
  - `compressHexColor`.
- **Coordinates** (`Coordinates`). The embedding chosen by id. The default
  (-1) is the `Embedding` attribute, or else the first two column attributes
  whose names mention tSNE. Both axes are restricted to the selection.
- **File metadata flags** (`FileMetadata`). The five booleans of
  `get_file_metadata`.

Python exceptions are values: `Result<T>` is `Ok(value)` or `Err(PyError)`,
where `PyError` names the exception class. Floating-point values are exact
reals. The model keeps the IEEE behaviour where the source depends on it: a
division by a zero `vmax` gives +inf, NaN or -inf, as the `Level` type
records. `np.log2` and the division by `nUMI` are parameters (`FloatOps`).
`casefold` is modelled as ASCII lower-casing.

## Model

| member | source | states |
|---|---|---|
| Text.Fold | scope-server/scopeserver/modules/gserver/GServer.py:119-124 | case folding keeps the length and folds each character on its own |
| Text.LStripSpec | scope-server/scopeserver/modules/gserver/GServer.py:264 | `str.lstrip(chars)`: the result is a suffix of the input; every removed character is in the set; the result is empty or starts with a character outside the set |
| Text.ParseHexOfHex | scope-server/scopeserver/modules/gserver/GServer.py:207-209 | hexadecimal printing without padding reads back as the same number |
| Text.HexIsLowerDigits | scope-server/scopeserver/modules/gserver/GServer.py:208-209 | `hex()` output, minus its `0x`, is non-empty, consists of lower-case hex digits only, and has no leading zero unless it is `0` |
| Text.Hex02Byte | scope-server/scopeserver/modules/gserver/GServer.py:273 | `%02x` of a value 0..255 is exactly two digits, the high nibble then the low nibble |
| Numeric.Sort | scope-server/scopeserver/modules/gserver/GServer.py:212 | the sorted copy of the values that `np.percentile` works on is ascending and a permutation of its input |
| Numeric.SortOfSorted | scope-server/scopeserver/modules/gserver/GServer.py:212 | values already in ascending order are their own sorted order, as the percentile sees them |
| Numeric.MaxIsLastSorted | scope-server/scopeserver/modules/gserver/GServer.py:213-216 | `max(vals)` is the last element of the sorted values |
| Numeric.Percentile99 | scope-server/scopeserver/modules/gserver/GServer.py:212 | the 99th percentile with linear interpolation never exceeds the maximum and is at least some value |
| Numeric.RoundHalfEven | scope-server/scopeserver/modules/gserver/GServer.py:241 | `np.round` lands within 0.5 of its argument and breaks ties toward the even integer |
| Numeric.RoundWithin | scope-server/scopeserver/modules/gserver/GServer.py:241 | rounding keeps a value that lies between two integers between them |
| HandleCache.LoomConnection.Connect | scope-server/scopeserver/modules/gserver/GServer.py:42 | a new handle holds the path it was opened from and that file's content |
| HandleCache.SCope.constructor | scope-server/scopeserver/modules/gserver/GServer.py:25-27 | the server starts with an empty cache and the loom directory `data/my-looms` |
| HandleCache.SCope.AddLoomConnection | scope-server/scopeserver/modules/gserver/GServer.py:35-36 | the handle is stored under its fingerprint, replacing any earlier entry; nothing else changes |
| HandleCache.SCope.GetLoomFilepath | scope-server/scopeserver/modules/gserver/GServer.py:38-39 | `os.path.join`: an absolute name stands alone; any other name follows the loom directory and a separator |
| HandleCache.SCope.LoadLoomFile | scope-server/scopeserver/modules/gserver/GServer.py:41-44 | a fresh handle on the file is cached under the fingerprint and recorded as one more opening |
| HandleCache.SCope.GetLoomConnection | scope-server/scopeserver/modules/gserver/GServer.py:46-57 | a missing path is a ValueError and changes nothing; a fingerprint hit returns the cached handle and opens nothing; a miss opens and caches exactly one new handle; the cache invariant is kept (each fingerprint opened at most once, cache keys equal to the fingerprints opened, no handle shared) |
| HandleCache.SCope.GetNbCells | scope-server/scopeserver/modules/gserver/GServer.py:59-61 | the cell count comes from the handle cached under the file's fingerprint, which is the file's own count on a miss |
| HandleCache.SCope.ResolveTwice | scope-server/scopeserver/modules/gserver/GServer.py:46-57 | two paths whose files share a fingerprint resolve to the same handle, with at most one file opened |
| Selection.SelectedBelowSpec | scope-server/scopeserver/modules/gserver/GServer.py:75-79 | the selected cells are strictly increasing, and a cell is listed exactly when some group admits it |
| Selection.SelectedIndicesSpec | scope-server/scopeserver/modules/gserver/GServer.py:75-79 | when every named attribute exists, the selection is the sorted, duplicate-free set of cells some group admits |
| Selection.SelectedSnoc | scope-server/scopeserver/modules/gserver/GServer.py:76-78 | adding a group to the selection adds exactly the cells that group admits |
| Selection.CellIndices | scope-server/scopeserver/modules/gserver/GServer.py:75-79 | the nested loops over groups and values, then the sort, compute the selection |
| Selection.Restrict | scope-server/scopeserver/modules/gserver/GServer.py:80 | `v[cellIndices]` has one entry per index: the entry of `v` at that index |
| Selection.RestrictToSelection | scope-server/scopeserver/modules/gserver/GServer.py:79-80 | indexing a per-cell vector with the selection keeps exactly the selected cells, in cell order |
| Selection.ApplySelection | scope-server/scopeserver/modules/gserver/GServer.py:74-80 | no groups leave the vector unchanged; a group naming a missing attribute raises AttributeError; otherwise the vector is restricted to the selected cells |
| Extraction.FirstRow | scope-server/scopeserver/modules/gserver/GServer.py:66 | the first row whose gene name is the symbol; none exactly when no gene has that name |
| Extraction.Transform | scope-server/scopeserver/modules/gserver/GServer.py:67-73 | per cell, the log applies before the division by `nUMI`; CPM without `nUMI` is an AttributeError, and that is the only error |
| Extraction.GeneExpression | scope-server/scopeserver/modules/gserver/GServer.py:63-81 | an unknown gene is an IndexError; CPM without `nUMI` is an AttributeError; otherwise the result is the first row named `symbol`, transformed and then restricted to the selection, with one value per cell, or at most that many under a selection |
| Extraction.LogThenCpm | scope-server/scopeserver/modules/gserver/GServer.py:67-72 | with both transforms the value is `log2(v + 1) / nUMI`, never the other order |
| Extraction.AucValues | scope-server/scopeserver/modules/gserver/GServer.py:83-96 | no AUC table is an AttributeError; an unknown regulon gives an empty vector with no selection applied; a known one gives its AUC column restricted to the selection |
| FeatureSearch.SearchKinds | scope-server/scopeserver/modules/gserver/GServer.py:119-121 | one kind per entry of the search space: `gene` exactly at the gene positions, which come first, and `regulon` after them |
| FeatureSearch.Filter | scope-server/scopeserver/modules/gserver/GServer.py:123-126 | the filter keeps names and kinds in step |
| FeatureSearch.FilterMembers | scope-server/scopeserver/modules/gserver/GServer.py:123-126 | a (name, kind) pair survives the filter exactly when it is in the search space and its folded name contains the folded query |
| FeatureSearch.FilterKeepsAll | scope-server/scopeserver/modules/gserver/GServer.py:123-126 | when every name matches, the filter keeps the whole space in its order |
| FeatureSearch.MoveToFront | scope-server/scopeserver/modules/gserver/GServer.py:129-132 | `pop(n)` and prepend keeps the length and puts the popped entry first |
| FeatureSearch.MoveToFrontPermutes | scope-server/scopeserver/modules/gserver/GServer.py:129-132 | `pop(n)` and prepend only rearranges the list |
| FeatureSearch.Step | scope-server/scopeserver/modules/gserver/GServer.py:127-132 | one loop iteration keeps the walk's shape: until the first pop the walked list is `res` itself; afterwards `res` is a new list |
| FeatureSearch.StepPops | scope-server/scopeserver/modules/gserver/GServer.py:129-132 | a promoted entry is popped from the walked list as well, but only on the first pop |
| FeatureSearch.RunUnfold | scope-server/scopeserver/modules/gserver/GServer.py:127-138 | a pass continues from the next index after each iteration, however long the walked list has become |
| FeatureSearch.PromotePass | scope-server/scopeserver/modules/gserver/GServer.py:127-138 | the imperative pass, with its aliasing, computes the pass function |
| FeatureSearch.GetFeatures | scope-server/scopeserver/modules/gserver/GServer.py:106-145 | the filter loop, then the prefix pass and the exact pass, compute the ranked result |
| FeatureSearch.CountExactAppend | scope-server/scopeserver/modules/gserver/GServer.py:133-138 | exact matches of a concatenation add up |
| FeatureSearch.CountExactMoveToFront | scope-server/scopeserver/modules/gserver/GServer.py:133-138 | moving an entry to the front keeps the number of exact matches |
| FeatureSearch.PairsMoveToFront | scope-server/scopeserver/modules/gserver/GServer.py:129-138 | the same pop and prepend on `res` and `resF` moves the (name, kind) pair together |
| FeatureSearch.RunPermutes | scope-server/scopeserver/modules/gserver/GServer.py:127-138 | a pass is a permutation of the (name, kind) pairs and keeps the number of exact matches |
| FeatureSearch.RunSkips | scope-server/scopeserver/modules/gserver/GServer.py:127-138 | indices whose walked name is not promoted change nothing |
| FeatureSearch.CountExactZero | scope-server/scopeserver/modules/gserver/GServer.py:133-138 | no exact match counted means no entry equals the query ignoring case |
| FeatureSearch.CountExactOne | scope-server/scopeserver/modules/gserver/GServer.py:133-138 | exactly one counted exact match identifies its unique position |
| FeatureSearch.ExactPassFront | scope-server/scopeserver/modules/gserver/GServer.py:133-138 | with one exact match in its input, the exact pass puts it first |
| FeatureSearch.RankPermutesFiltered | scope-server/scopeserver/modules/gserver/GServer.py:106-145 | the result keeps names and kinds in step and is a rearrangement of the filtered entries |
| FeatureSearch.SpacePairs | scope-server/scopeserver/modules/gserver/GServer.py:115-121 | the search space pairs each gene with `gene` and each field of `ra.Regulons` with `regulon`; a dataset without regulons contributes none |
| FeatureSearch.RankMembers | scope-server/scopeserver/modules/gserver/GServer.py:106-145 | a name comes back, with its kind, exactly when it is a gene or regulon whose folded name contains the folded query |
| FeatureSearch.EmptyQueryReturnsAll | scope-server/scopeserver/modules/gserver/GServer.py:106-145 | an empty query returns every gene and regulon, each with its kind |
| FeatureSearch.ExactMatchFirst | scope-server/scopeserver/modules/gserver/GServer.py:133-138 | when exactly one result equals the query ignoring case, it comes first |
| FeatureSearch.PrefixPassOnThree | scope-server/scopeserver/modules/gserver/GServer.py:127-132 | on `[x, e1, e2]` with `x` and `e2` promoted, the second promotion is missed because the walked list lost an entry |
| FeatureSearch.ExactPassOnThree | scope-server/scopeserver/modules/gserver/GServer.py:133-138 | on `[e1, x, e2]` with both `e` exact, the pass moves `x` to the front instead of `e2` |
| FeatureSearch.SeveralExactMatches | scope-server/scopeserver/modules/gserver/GServer.py:127-138 | with two exact matches, a prefix match that is not exact can end up first |
| FeatureSearch.SeveralExactMatchesExample | scope-server/scopeserver/modules/gserver/GServer.py:127-138 | searching `sox2` among `Sox20`, `sox2` and `SOX2` returns `Sox20` first |
| Scaling.GetVmax | scope-server/scopeserver/modules/gserver/GServer.py:211-217 | an empty vector raises IndexError; the scale never exceeds the maximum and is at least 10 unless it is the maximum |
| Scaling.GetVmaxFallback | scope-server/scopeserver/modules/gserver/GServer.py:211-217 | the three steps amount to: the percentile when it is at least 10, else the maximum |
| Scaling.VmaxZeroIff | scope-server/scopeserver/modules/gserver/GServer.py:211-217 | for non-negative values the scale is zero exactly when every value is zero |
| Scaling.ScaleValue | scope-server/scopeserver/modules/gserver/GServer.py:241-242 | `round(v / vmax * 255)` capped at 255. Over a zero scale a negative value gives -inf and any other value gives 255. A value at or above a positive scale gives 255. An uncapped result lies within 0.5 of the exact product |
| Scaling.ScaleValueInRange | scope-server/scopeserver/modules/gserver/GServer.py:241-242 | values between zero and a positive scale land in 0..255 |
| Scaling.RoundMonotone | scope-server/scopeserver/modules/gserver/GServer.py:241 | rounding never reverses an order |
| Scaling.ScaleValueMonotone | scope-server/scopeserver/modules/gserver/GServer.py:241-242 | over a positive scale a larger value never gets a smaller channel value |
| Scaling.GeneChannel | scope-server/scopeserver/modules/gserver/GServer.py:241-242 | the gene channel scales each value with the same scale, one entry per value |
| Scaling.GeneChannelBounded | scope-server/scopeserver/modules/gserver/GServer.py:242 | no finite gene channel value exceeds 255 |
| Scaling.AllZeroSaturates | scope-server/scopeserver/modules/gserver/GServer.py:237-242 | an all-zero vector auto-scales to 0, and every entry becomes 255 |
| Scaling.Threshold | scope-server/scopeserver/modules/gserver/GServer.py:255-259 | `threshold[n]` raises IndexError only when it is read, i.e. for a non-empty vector |
| Scaling.BinaryChannel | scope-server/scopeserver/modules/gserver/GServer.py:259 | entries are 225 or 0, and 225 exactly where the AUC reaches the threshold |
| Scaling.ThresholdedChannel | scope-server/scopeserver/modules/gserver/GServer.py:254-257 | values below the threshold scale as 0 (to 0 over a non-zero scale); the others are scaled like a gene channel |
| Scaling.ThresholdedChannelAsWritten | scope-server/scopeserver/modules/gserver/GServer.py:254-257 | as written: with the request's own scale the list division raises TypeError; with an automatic scale the channel is computed |
| Scaling.ThresholdedWithRequestVmaxFails | scope-server/scopeserver/modules/gserver/GServer.py:250-257 | every thresholded request with a threshold for its feature and a non-zero request scale fails as written, while the intended channel exists |
| Scaling.ClusterMask | scope-server/scopeserver/modules/gserver/GServer.py:269-270 | entries are 225 or 0, and 225 exactly for the cells of the cluster |
| Scaling.Zeros | scope-server/scopeserver/modules/gserver/GServer.py:243-244 | an empty feature name gives one zero per cell |
| Scaling.ScaleExample | scope-server/scopeserver/modules/gserver/GServer.py:211-217 | values 0, 2 and 6 auto-scale by their maximum 6 (the percentile is 5.92) to 0, 85 and 255 |
| ColorEncoding.HexColor | scope-server/scopeserver/modules/gserver/GServer.py:273 | `int(-inf)` raises OverflowError, exactly when some channel entry is -inf |
| ColorEncoding.ColorRoundTrip | scope-server/scopeserver/modules/gserver/GServer.py:273 | for 0..255 channels the colour is six lower-case hex digits, and each pair reads back as its channel |
| ColorEncoding.ColorValue | scope-server/scopeserver/modules/gserver/GServer.py:273 | the colour reads back as `R * 65536 + G * 256 + B` |
| ColorEncoding.ZipColors | scope-server/scopeserver/modules/gserver/GServer.py:273 | `zip` stops at the shortest channel; one colour per position, and an error exactly when a -inf lies within that length |
| ColorEncoding.Colors | scope-server/scopeserver/modules/gserver/GServer.py:272-275 | no channels give no colours; one or two channels raise IndexError; otherwise the first three are zipped |
| ColorEncoding.CompressHexColor | scope-server/scopeserver/modules/gserver/GServer.py:206-209 | a string that is not hexadecimal raises ValueError; otherwise the output is in `hex()`'s form (non-empty lower-case digits, no leading zero padding) and reads back as the compressed value |
| ColorEncoding.CompressNibbles | scope-server/scopeserver/modules/gserver/GServer.py:208 | the bit expression packs bits 20-23, 12-15 and 4-7 into the low twelve bits |
| ColorEncoding.CompressBelow4096 | scope-server/scopeserver/modules/gserver/GServer.py:208 | any 24-bit colour compresses below 0x1000 |
| ColorEncoding.CompressParsedColor | scope-server/scopeserver/modules/gserver/GServer.py:206-209 | any string that reads as `R * 65536 + G * 256 + B` with 8-bit channels compresses to a string that reads as `(R >> 4) * 256 + (G >> 4) * 16 + (B >> 4)` |
| ColorEncoding.CompressColor | scope-server/scopeserver/modules/gserver/GServer.py:206-209 | compressing a colour of three 8-bit channels keeps the high nibble of each: `(R >> 4) * 256 + (G >> 4) * 16 + (B >> 4)` |
| CellColors.ScanClusteringsLast | scope-server/scopeserver/modules/gserver/GServer.py:263-268 | the loops never break: the last clustering with the name sets the clustering id |
| CellColors.ScanClusteringsNone | scope-server/scopeserver/modules/gserver/GServer.py:263-268 | without a clustering of that name both ids keep their earlier values |
| CellColors.ScanClustersLast | scope-server/scopeserver/modules/gserver/GServer.py:266-268 | the last cluster with the description sets the cluster id; without one the id keeps its value |
| CellColors.FindCluster | scope-server/scopeserver/modules/gserver/GServer.py:263-268 | the nested loops compute the clustering and cluster ids of the scan |
| CellColors.LStripClusteringName | scope-server/scopeserver/modules/gserver/GServer.py:264 | `Clustering Louvain` strips to `Louvain`: a name starting outside the stripped characters survives whole |
| CellColors.LStripEatsNameStart | scope-server/scopeserver/modules/gserver/GServer.py:264 | `Clustering Cell type` strips to `ype`: the strip takes a set of characters, not a prefix, so that clustering can never be matched |
| CellColors.ClusterChannel | scope-server/scopeserver/modules/gserver/GServer.py:269-270 | the exception order is: no `Clusterings` attribute (AttributeError), clustering id never set (UnboundLocalError), unknown clustering (ValueError), cluster id never set (UnboundLocalError). The mask covers every cell, regardless of the selection |
| CellColors.ChooseVmax | scope-server/scopeserver/modules/gserver/GServer.py:237-240 | the request's scale unless it is 0.0, then `getVmax` |
| CellColors.ErrorPropagates | scope-server/scopeserver/modules/gserver/GServer.py:228-270 | an exception in one feature ends the handler; no later feature changes the outcome |
| CellColors.LastScaled | scope-server/scopeserver/modules/gserver/GServer.py:229-253 | the last gene or regulon feature with a non-empty name, none exactly when there is no such feature |
| CellColors.LoopVmax | scope-server/scopeserver/modules/gserver/GServer.py:228-270 | after the loop, `vmax` is the scale of the last gene or regulon feature with a name, and unset when there is none |
| CellColors.ReplyVmax | scope-server/scopeserver/modules/gserver/GServer.py:237-278 | the reply's `vmax` is unset exactly when no feature set it. It equals a non-zero request scale when set. With a zero request scale it is `getVmax` of the last scaled feature's values |
| CellColors.ScaledChannelCapped | scope-server/scopeserver/modules/gserver/GServer.py:241-259 | gene and regulon channels never exceed 255 |
| CellColors.LoopChannels | scope-server/scopeserver/modules/gserver/GServer.py:228-270 | one channel per gene, regulon or `Clustering ` feature, none for other types, and every channel is capped at 255 |
| CellColors.FindClusterUnique | scope-server/scopeserver/modules/gserver/GServer.py:263-270 | with a clustering name that occurs once, the ids are that clustering's and its last cluster with the description |
| CellColors.StaleClusterID | scope-server/scopeserver/modules/gserver/GServer.py:263-270 | a clustering without the description keeps the cluster id left by an earlier feature, paired with the new clustering id |
| CellColors.ApplyFeature | scope-server/scopeserver/modules/gserver/GServer.py:229-270 | one loop iteration: a missing feature type is an IndexError; otherwise the feature's channel is appended and the scale or cluster ids updated, as the step function states |
| CellColors.GetCellColorByFeatures | scope-server/scopeserver/modules/gserver/GServer.py:219-278 | the loop over features and the final colouring compute the reply, or the exception, of the handler, with the thresholded regulon channel in its corrected form (see Left out) |
| Coordinates.TsneNamesMembers | scope-server/scopeserver/modules/gserver/GServer.py:156-157 | exactly the column attributes whose folded names contain `tsne` |
| Coordinates.TsneNamesFirst | scope-server/scopeserver/modules/gserver/GServer.py:156-161 | the first tSNE name is the one at the lowest position |
| Coordinates.TsneNamesSecond | scope-server/scopeserver/modules/gserver/GServer.py:156-165 | the second tSNE name is the next tSNE name after the first |
| Coordinates.TsneNamesSnoc | scope-server/scopeserver/modules/gserver/GServer.py:156-157 | one more attribute adds itself to the tSNE names exactly when it mentions tSNE |
| Coordinates.TsneAxes | scope-server/scopeserver/modules/gserver/GServer.py:156-165 | the `dims` loop takes the first tSNE column as x and the second as y, and skips the rest |
| Coordinates.Axes | scope-server/scopeserver/modules/gserver/GServer.py:150-168 | id -1 takes the `Embedding` attribute when present. Another id needs both `Embeddings_X` and `Embeddings_Y`: a missing attribute is an AttributeError, and an id missing from either `Embeddings_X` or `Embeddings_Y` is a ValueError. Every axis has one entry per cell |
| Coordinates.GetCoordinates | scope-server/scopeserver/modules/gserver/GServer.py:147-178 | the handler returns the coordinates or raises as the specification function states, the tSNE loop included |
| Coordinates.CoordinatesSelected | scope-server/scopeserver/modules/gserver/GServer.py:169-176 | x and y keep the same cells: without a selection, the whole axes; otherwise exactly the selected cells of each axis, in cell order, one entry per selected cell |
| Coordinates.DefaultEmbedding | scope-server/scopeserver/modules/gserver/GServer.py:150-165 | the `Embedding` attribute wins over any tSNE columns; without it the first two tSNE columns are used, and fewer than two raise UnboundLocalError |
| FileMetadata.GetFileMetadata | scope-server/scopeserver/modules/gserver/GServer.py:180-204 | each presence flag is true exactly when its attribute exists. `hasGlobalMeta` is true exactly when `MetaData` parses and false when it is absent. Unparsable JSON raises |
| FileMetadata.NoRegulonsMeansNoAuc | scope-server/scopeserver/modules/gserver/GServer.py:183-186 | a dataset flagged without regulon AUCs fails every AUC lookup |
| FileMetadata.NoExtraEmbeddingsMeansDefaultOnly | scope-server/scopeserver/modules/gserver/GServer.py:191-194 | a dataset flagged without extra embeddings fails every coordinates request but the default one |

## Left out

- File-system I/O is not modelled: `os.path.exists`, `os.path.isfile`, the partial MD5 read, and `json.loads` of the `MetaData` attribute. The disk is a map from path to (fingerprint, dataset). The global metadata is a given value. The `MetaData` attribute is a three-way value: absent, malformed or parsed. The fingerprint of a file always exists in the model. In the source, line 32 seeks 10 240 000 bytes back from the end of the file (10000 KB, line 52), which raises OSError for any file shorter than that; the model does not raise it.
- The gRPC service, `serve`, the reply messages other than `CellColorByFeaturesReply`, and the timing and `print` lines are not modelled: they are I/O.
- Concurrent requests are not modelled: the cache is a single-threaded class.
- Floating-point rounding is not modelled: values are exact reals. `np.log2` and the division by `nUMI` are opaque parameters.
- `casefold` is ASCII lower-casing; Unicode folding (for example `ß` to `ss`) is not modelled.
- FeatureSearch.GetFeatures, Coordinates.GetCoordinates, CellColors.GetCellColorByFeatures: each handler takes a dataset that has already been resolved. It does not go through `HandleCache.SCope.GetLoomConnection` (lines 107 and 148). So the handlers do not model the ValueError for a missing path, or the cache insertion a request makes. Those are stated only by `GetLoomConnection`.
- Lines 222-223 of `getCellColorByFeatures` are not modelled. They bind `loom` to a path string and read `loom.attrs.MetaData` from it, which cannot succeed. The model takes the dataset and its parsed metadata as given. The `isfile` early return (lines 224-225) is also not modelled.
- Line 78 and its repeats (92, 173) add the tuple that `np.where` returns to a set. The model gives that code its intended meaning: the selected cell indices.
- CellColors.GetCellColorByFeatures, CellColors.ApplyFeature: the thresholded regulon channel is the corrected `Scaling.ThresholdedChannel` (see Findings). So the handler does not raise the TypeError of line 256 when a thresholded regulon request carries its own `vmax`. That behaviour is modelled only by `Scaling.ThresholdedChannelAsWritten`.
- CellColors.GetCellColorByFeatures: when no feature sets `vmax`, the source raises UnboundLocalError at line 278. The model replies with `vmax = None`.
- ColorEncoding.CompressHexColor: `int(a, 16)` also accepts a sign, a `0x` prefix, underscores and surrounding whitespace. The model treats those strings as ValueError. A negative input, whose shifts Python floors, is not modelled.
- Text.Hex02: `%02x` of a negative value prints a minus sign and the digits of its magnitude. This occurs for a negative value over a positive scale. It is modelled, but no lemma states its shape.
- Coordinates.Axes: `loom.ca['Embedding']` on a dataset without it is taken to raise AttributeError, which the `except` catches, as loompy's attribute manager does.
- `get_clusterIDs`, `get_annotation`, `getCellMetaData`, `getRegulonMetaData`, `getMarkerGenes`, `getMyLooms`, `getCellAUCValuesByFeatures` and the other gRPC handlers are not modelled. They are thin wrappers around the modelled lookups, or file and JSON I/O.
- The viewer's `FeatureSearchBox.jsx` is not part of this model: it is client-side UI.

## Findings

| source | as written | input that shows it | evidently intended | confidence | as-written member | corrected member |
|---|---|---|---|---|---|---|
| scope-server/scopeserver/modules/gserver/GServer.py:255-256 | the thresholded regulon channel builds a Python list, then divides it by `vmax`; a list divided by the request's own `vmax` (a Python float) raises TypeError | a regulon feature with `scaleThresholded` set, `vmax = 1.0` in the request, `threshold = [0.1]` and any AUC column | the values below the threshold are zeroed, then scaled like a gene channel | not executed | Scaling.ThresholdedWithRequestVmaxFails | Scaling.ThresholdedChannel |
