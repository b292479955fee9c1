# Gravity Spy glitch explorer — a Dafny model of the audit logic

The Gravity Spy glitch explorer audits citizen-science labels of LIGO glitch
spectrograms. It embeds each image and projects the embeddings to 2-D with
UMAP. It clusters the points with HDBSCAN. It then measures how consistently
each cluster is labelled. This project models the sequential logic around
those library calls and proves properties of it:

- **Label cleaning** (`src/preprocessing.py`):
  - Three parsers read a Gravity Spy sample ID, the interferometer and the
    class label from an image path such as
    `.../H1L1/Blip/H1_09HE6k6EaS_spectrogram_0.5.png`.
  - `fix_metadata_labels` adds those columns to every row.
  - `filter_valid_samples` drops `"unknown"` labels and rare labels.
- **Cluster audit** (`src/analysis.py`):
  - Rows are grouped by cluster id, with noise (-1) excluded.
  - Each cluster gets its size, top label and its count, purity = top/n,
    ambiguity = n·(1 − purity), label entropy and the number of distinct labels.
  - Clusters are ranked by ambiguity.
  - Two failure modes are flagged against thresholds.
  - A cluster's label distribution can be read out.
- **Cluster bookkeeping** (`src/clustering.py`):
  - the effective `min_samples`;
  - the cluster and noise counts reported after HDBSCAN;
  - attaching UMAP coordinates and cluster labels to the rows by position;
  - the per-cluster sizes.
- **Configuration** (`src/config.py`):
  - the default hyperparameters;
  - the validation `PipelineConfig` runs when it is built;
  - `PathConfig.resolve`, which rewrites four path fields of the object in place.

Modules, one per file, in dependency order:

| module | models |
|---|---|
| `Sequences` | counting, de-duplication, ascending keys, subsequences (value_counts, nunique, groupby keys) |
| `Strings` | `str.split` / `str.join`, `str.upper`, `startswith`, substring test, `rfind` |
| `Results` | `Option` (Python `Optional`) and `Result` (a value or the exception raised) |
| `Paths` | POSIX `pathlib`: components, `.name`, `.parent.name`, `.stem`, `/` and `str()` |
| `Frame` | the metadata DataFrame as a `seq<Row>`, its columns and its grouping by cluster id |
| `Preprocessing` | `src/preprocessing.py` |
| `Analysis` | `src/analysis.py` |
| `Config` | `src/config.py` |
| `Clustering` | `src/clustering.py` |

A DataFrame is a sequence of `Row` records, and a row's index is its position.
Every column the pipeline reads or writes is a field of `Row`. An operation
that assigns a column returns rows with that field replaced. The `label` column
is the field `classLabel`, because `label` is a Dafny keyword.

The fitted UMAP coordinates and HDBSCAN labels are parameters:
- a `seq<Point>` for the coordinates;
- a `seq<int>` for the labels.

`log2` is a parameter of type `real -> real`. The entropy lemmas assume only
that it is negative on (0, 1).

Purity and ambiguity are exact reals. Hence ambiguity is exactly n − top.

`compute_cluster_stats` is a method with a loop over the ascending cluster ids.
Its contract ties the result to the specification function `ClusterStatsTable`.
Lemmas then prove the promised properties of that function.

`PathConfig` is a class. `PathConfig.resolve` (src/config.py:25-31) assigns
its own four fields, and its model `Resolve` does the same.

## Model

| member | source | states |
|---|---|---|
| Strings.Split | src/preprocessing.py:28 | `str.split("_")` yields at least one field and no field contains the separator |
| Strings.JoinSplit | src/preprocessing.py:28 | joining the fields of a split with the separator gives back the string |
| Strings.SplitJoin | src/preprocessing.py:28 | splitting a join of separator-free fields gives back exactly those fields |
| Strings.Upper | src/preprocessing.py:57 | `str.upper()` turns each lower-case ASCII letter into its upper-case letter, keeps every other character, and leaves no lower-case letter |
| Paths.Name | src/preprocessing.py:27 | `Path(p).name` contains no '/' |
| Paths.ParentName | src/preprocessing.py:81 | `Path(p).parent.name` contains no '/' and is never "." |
| Paths.Stem | src/preprocessing.py:34 | the stem is a prefix of the name; when the name has a last '.' that is neither its first nor its last character, the stem is everything before that '.'; otherwise the stem is the whole name |
| Paths.Render | src/config.py:27-30 | `str()` of a path is never empty and is absolute exactly when the path is |
| Paths.JoinUnder | src/config.py:27-30 | `str(repo_root / p)` is absolute iff the root or p is; for a relative p its components are the root's followed by p's, and an absolute p replaces the root, keeping exactly p's components |
| Paths.JoinUnderIdempotent | src/config.py:27-30 | under an absolute root, joining an already joined path changes nothing |
| Frame.NonNoise | src/analysis.py:66 | dropping -1 keeps every other value with its count, and removes exactly the noise entries |
| Sequences.InsertSorted | src/analysis.py:93 | inserting a key into strictly ascending keys keeps them strictly ascending and adds exactly that key |
| Sequences.SortedDistinct | src/analysis.py:93 | `sort_index` of the groupby keys: strictly ascending, exactly the values present |
| Frame.ClusterIds | src/analysis.py:75 | the groupby keys are strictly ascending, exclude -1 and are exactly the non-noise ids present |
| Frame.GroupLabels | src/analysis.py:75-76 | a group holds as many labels as rows carry the id, and each label as often as a row carries both the id and that label |
| Frame.ClusterIdGroupNonEmpty | src/analysis.py:75 | every groupby key names a non-empty group |
| Preprocessing.ParseGravitySpyId | src/preprocessing.py:14-34 | with three or more '_'-fields in the file name the ID is the second field (free of '_'); otherwise it is the stem of the file name; it never contains '/' |
| Preprocessing.ParseInterferometer | src/preprocessing.py:37-63 | the result is "H1", "L1" or "unknown"; it is the first '_'-field of the file name when that is "H1" or "L1"; otherwise it is "H1" iff the upper-cased path names H1 (as `/H1/`, `\H1\` or a leading `H1`), "L1" iff it names L1 but not H1, and "unknown" when it names neither |
| Preprocessing.InterferometerFromFolder | src/preprocessing.py:56-63 | a path through a folder named h1/H1 or l1/L1 is read as that interferometer when the file name does not start with one, L1 only when the path names no H1 |
| Preprocessing.ParseLabelFromPath | src/preprocessing.py:66-86 | the label is the parent folder's name when there is one, "unknown" otherwise; never empty and free of '/' |
| Preprocessing.BareFileNameIsUnknown | src/preprocessing.py:81-86 | a bare file name (no '/') is labelled "unknown" |
| Preprocessing.ParsersRecoverSampleFields | src/preprocessing.py:14-86 | for a path `.../{class}/{IFO}_{ID}_spectrogram_{d}.png`, the parsers return exactly the ID and the class, and the IFO when it is H1 or L1 |
| Preprocessing.EnrichRow | src/preprocessing.py:114-119 | each enriched row's label and label_from_path are `parse_label_from_path` of its path (a non-empty folder name free of '/'), its gravityspy_id and ifo are the other two parsers applied to its path (an ifo among H1, L1 and unknown), and its path, coordinates and cluster id are unchanged |
| Preprocessing.FixMetadataLabels | src/preprocessing.py:109-119 | same row count and order; each row's label and label_from_path are its folder, gravityspy_id and ifo are the parsers applied to its path, and every other column is kept |
| Preprocessing.FixMetadataLabelsIdempotent | src/preprocessing.py:109-119 | fixing an already fixed frame changes nothing |
| Preprocessing.DropLabel | src/preprocessing.py:152 | the rows without the label form an ordered subsequence holding exactly those rows, with every other label's count unchanged |
| Preprocessing.KeepLabels | src/preprocessing.py:157 | `isin` keeps an ordered subsequence holding exactly the rows whose label is in the set, each kept label with all its rows |
| Preprocessing.FrequentLabels | src/preprocessing.py:155-156 | a label is valid iff it occurs and occurs at least min_label_count times |
| Preprocessing.FilterValidSamples | src/preprocessing.py:148-157 | the result is an order-preserving subsequence of the input with no "unknown" label |
| Preprocessing.FilterValidSamplesKeepsFrequentLabels | src/preprocessing.py:152-157 | a row is kept iff its label is known and occurs at least min_label_count times in the input; a kept label keeps all its rows, a dropped one none |
| Preprocessing.CleanedLabelsAreFolders | src/preprocessing.py:109-157 | after fixing and filtering, each row's label is the non-empty name of the folder holding its image |
| Analysis.ComputeEntropy | src/analysis.py:34-40 | the entropy is exactly 0 when at most one distinct label occurs |
| Analysis.PLogPSumNegative | src/analysis.py:43 | with a log negative on (0, 1), the sum of p·log2(p) over labels that occur but not everywhere is negative |
| Analysis.EntropyZeroIffSingleLabel | src/analysis.py:34-43 | with a log negative on (0, 1), the entropy is non-negative and is 0 iff at most one distinct label occurs |
| Analysis.Top | src/analysis.py:76-78 | the chosen label is among the candidates, and its count is the largest of theirs |
| Analysis.TopLabel | src/analysis.py:76-78 | the top label's count is its count in the group, lies in [1, n], and no label occurs more often |
| Analysis.GroupStat | src/analysis.py:76-90 | a group's statistics: its size, a label of the group whose count no label exceeds, that count, and the number of distinct labels |
| Analysis.ClusterStatOf | src/analysis.py:75-90 | for the group of one id: n is the number of rows with that id, and top_label_count is the number of rows with that id and the top label, which no other label of the group exceeds |
| Analysis.ClusterStatsTable | src/analysis.py:75-93 | one row per groupby key, row k describing the k-th ascending key |
| Analysis.ComputeClusterStats | src/analysis.py:65-96 | the loop over the groups returns exactly the table `ClusterStatsTable`: one row per group by ascending id, with no row when every point is noise |
| Analysis.PurityArithmetic | src/analysis.py:80-88 | purity = top/n lies in [1/n, 1], n·(1 − purity) = n − top, and purity is 1 iff top = n |
| Analysis.ClusterStatBounds | src/analysis.py:76-88 | n is the number of rows with the id; 1 ≤ top ≤ n; top is the largest label count; purity = top / n, which lies in [1/n, 1]; ambiguity = n − top ≥ 0 and is 0 iff purity is 1 |
| Analysis.PureIffSingleLabel | src/analysis.py:80-90 | n_labels ≥ 1; purity is 1 iff n_labels is 1, and then the entropy is 0 |
| Analysis.EntropyZeroIffPure | src/analysis.py:80-89 | with a log negative on (0, 1), a cluster's entropy is non-negative and is 0 iff it is pure |
| Analysis.ClusterStatsTableRows | src/analysis.py:66-93 | one row per distinct non-noise id, ids strictly ascending, never -1, and the table is empty iff every row is noise |
| Analysis.ClusterSizesSumToNonNoise | src/analysis.py:75-93 | the n column sums to the number of non-noise rows |
| Analysis.InsertByAmbiguity | src/analysis.py:113 | inserting a row adds exactly that row to the multiset of rows, and the result holds only that row and the old ones |
| Analysis.InsertByAmbiguitySorted | src/analysis.py:113 | inserting into a list ordered by non-increasing ambiguity keeps it so ordered |
| Analysis.RankByAmbiguity | src/analysis.py:99-113 | the ranking is a permutation of the table |
| Analysis.RankByAmbiguitySorted | src/analysis.py:113 | the ranking is ordered by non-increasing ambiguity |
| Analysis.HighEntropyIds | src/analysis.py:157-159 | over_splitting lists, in table order, exactly the ids of rows with entropy ≥ threshold |
| Analysis.LowPurityIds | src/analysis.py:162-164 | over_compression lists, in table order, exactly the ids of rows with purity ≤ threshold |
| Analysis.IdentifyFailureModes | src/analysis.py:134-174 | over_splitting and over_compression list, in table order, exactly the ids of rows with entropy ≥ the entropy threshold and with purity ≤ the purity threshold |
| Analysis.FlaggedClusterIsMixed | src/analysis.py:156-164 | a cluster whose entropy reaches a positive threshold, or whose purity is at most a threshold below 1, holds at least two distinct labels |
| Analysis.FlaggedClustersAreMixed | src/analysis.py:134-164 | with a positive entropy threshold and a purity threshold below 1, every flagged id is a real cluster with at least two distinct labels |
| Analysis.GetLabelDistribution | src/analysis.py:116-131 | the keys are exactly the labels of the rows with that id, each mapped to the positive number of rows carrying that id and that label |
| Analysis.LabelDistributionMatchesStats | src/analysis.py:130-131 | the distribution has n_labels keys, maps the top label to top_label_count, and has no larger value |
| Analysis.ComputeClusterStatsAsWritten | src/analysis.py:65-96 | as written, the result has no columns iff every point is noise, and is otherwise the non-empty statistics table |
| Analysis.RankByAmbiguityAsWritten | src/analysis.py:113 | as written, sorting raises KeyError iff the frame has no columns, and otherwise gives the ranking of the table: a permutation of it with non-increasing ambiguity |
| Analysis.IdentifyFailureModesAsWritten | src/analysis.py:157-164 | as written, flagging raises KeyError iff the frame has no columns, and otherwise gives the failure modes of the table |
| Analysis.AllNoiseAuditRaises | src/analysis.py:68-70 | as written, when every point is noise, ranking and flagging the returned table both raise KeyError |
| Analysis.AllNoiseAuditIsEmpty | src/analysis.py:68-70 | with the empty table, the ranking is empty and no cluster is flagged |
| Config.PathConfig.Default | src/config.py:17-23 | `PathConfig()` holds the four repository-relative default paths |
| Config.PathConfig.constructor | src/config.py:14-23 | `PathConfig(...)` holds the four given paths |
| Config.PathConfig.Resolve | src/config.py:25-31 | each of the four fields becomes itself joined under repo_root, and the same object is returned |
| Config.ResolveTwice | src/config.py:25-31 | under an absolute root, resolving twice leaves the paths as resolving once, and all four are absolute |
| Config.NewPipelineConfig | src/config.py:93-98 | the config is built iff n_components = 2 and min_cluster_size ≥ 2; when n_components ≠ 2 that error is raised first, then the min_cluster_size error |
| Config.DefaultsAreValid | src/config.py:93-98 | the default n_components 2 and min_cluster_size 50 pass both checks |
| Config.GetDefaultConfig | src/config.py:101-103 | the default config is built without error and holds every default: UMAP 30/0.1/cosine/2/42, HDBSCAN 50/None/euclidean/eom, seed 42, no recomputation, deep-dive clusters [33, 41] |
| Clustering.EffectiveMinSamples | src/clustering.py:81 | min_samples is used unless it is None or 0, in which case min_cluster_size is |
| Clustering.EffectiveMinSamplesPositive | src/clustering.py:81 | with min_cluster_size ≥ 2 and a min_samples that is unset or not negative, the effective min_samples is at least 1 |
| Clustering.ClusterLabels | src/clustering.py:93 | the distinct non-noise labels, strictly ascending |
| Clustering.NumNoise | src/clustering.py:94 | the noise count is at most the number of points and is 0 iff no point is noise |
| Clustering.NoClusterLabelsIffAllNoise | src/clustering.py:93 | there is no non-noise label exactly when every point is noise |
| Clustering.DistinctValuesCount | src/clustering.py:93 | the distinct values of the labels are the distinct non-noise labels, plus one when -1 occurs |
| Clustering.NumClusters | src/clustering.py:93 | `len(set(labels)) - (1 if -1 in labels else 0)` is the number of distinct non-noise labels, and is 0 exactly when every point is noise |
| Clustering.SizesOf | src/clustering.py:148-149 | one size per distinct non-noise label, ascending, each the positive number of points with that label |
| Clustering.SizesAccountForEveryPoint | src/clustering.py:93-94 | the noise count plus the cluster sizes equals the number of points, and there are as many sizes as reported clusters |
| Clustering.GetClusterSizes | src/clustering.py:138-149 | keys strictly ascending, exactly the non-noise ids present, each size the number of rows carrying that id |
| Clustering.AddClusteringToMetadata | src/clustering.py:124-133 | same row count and order; row i gets umap_x = coords[i][0], umap_y = coords[i][1], cluster_id = labels[i]; every other column is kept |
| Clustering.AttachedColumns | src/clustering.py:124-133 | after attaching, the cluster_id column is the HDBSCAN output, the label column is unchanged, and the cluster sizes are those of the labels |
| Clustering.SizesMatchClusterStats | src/clustering.py:148-149 | get_cluster_sizes and compute_cluster_stats list the same clusters in the same order, each size equal to that cluster's n |

## Left out

- UMAP and HDBSCAN fitting (src/clustering.py:41-50, 83-90) are foreign library calls. Their outputs are inputs of the model.
- `print` logging and `generate_summary_report` are formatting only and are left out. So are the noise percentage (src/clustering.py:95) and the min/max coordinate report.
- Analysis.ComputeEntropy: the numeric value for two or more labels is left to the `log2` parameter. Only its exact-zero case and its sign are proved. Floating-point rounding is not modelled.
- Analysis.TopLabel: pandas' order among labels with equal counts is not modelled. Among the most frequent labels, the model takes the one whose last occurrence comes first, because `Distinct` keeps each label at its last occurrence. Only maximality is claimed.
- Analysis.GetLabelDistribution: `value_counts()` returns a Series ordered by descending count. The model returns a map, which has no order, so that order is not modelled.
- Analysis.RankByAmbiguity: `sort_values` with its default algorithm is not stable. The order among rows of equal ambiguity is not claimed; the model's insertion sort happens to keep table order.
- Analysis.ComputeClusterStats: `int(cluster_id)` and `labels.astype(int)` are the identity on the model's integer ids.
- Purity and ambiguity are exact reals rather than floats.
- Clustering.AddClusteringToMetadata: requires as many coordinates and labels as rows. pandas raises on a length mismatch. The row-count check of src/data_loader.py:102-107 and the libraries' one-output-per-input guarantee the equal lengths.
- Config.PathConfig.Resolve: the filesystem effects of `Path.resolve()` are not modelled. These are making a relative root absolute against the working directory, following symlinks and collapsing "..". The model is `str(repo_root / p)`. POSIX's special "//" root is also not modelled.
- Strings.Upper: upper-cases ASCII letters only, not the full Unicode mapping of `str.upper`.
- Paths.Stem: follows the suffix rule of Python 3.13 and earlier (the last '.', neither first nor last). Python 3.14's handling of a trailing '.' is not modelled.
- Paths: a backslash is an ordinary character, as in `PurePosixPath`. The `"\\H1\\"` test of parse_interferometer is kept as a plain substring search.
- A DataFrame row carries every column from the start. A column that the source adds later is a field that earlier stages do not read. A frame missing a column the code reads (a KeyError) is not modelled, except for the all-noise case under Findings.
- src/visualization.py, compute_embeddings.py, run_pipeline.py, src/data_loader.py and src/__init__.py are not part of this model. They are rendering, network inference, orchestration, file I/O and metadata.
- `VisualizationConfig` is modelled only as its default values. Its consumers, in src/visualization.py, are not part of this model.

## Findings

| source | as written | input that shows it | evidently intended | confidence | as-written member | corrected member |
|---|---|---|---|---|---|---|
| src/analysis.py:68-70 | when every point is noise, compute_cluster_stats returns `pd.DataFrame()` with no columns; rank_by_ambiguity (line 113) then raises KeyError 'ambiguity', and identify_failure_modes (line 158) raises KeyError 'entropy'. run_pipeline.py:185-187 calls both on that table | HDBSCAN labels every point -1, e.g. a metadata frame whose cluster_id column is all -1 | an empty table with the usual columns, giving an empty ranking and no flagged cluster (the warning at line 69 shows the case was meant to be survivable) | medium, not executed | Analysis.AllNoiseAuditRaises | Analysis.AllNoiseAuditIsEmpty |
