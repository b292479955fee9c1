/** The bookkeeping around UMAP and HDBSCAN (src/clustering.py): the
    effective min_samples, the cluster and noise counts reported after
    clustering, attaching the 2-D coordinates and cluster labels to the
    metadata rows, and the cluster sizes. The fitted UMAP coordinates and
    HDBSCAN labels are inputs of the model. */
module Clustering {
  import opened Sequences
  import opened Results
  import opened Frame
  import opened Config
  import opened Analysis

  /** One row of the UMAP output: coords[i, 0] and coords[i, 1]. */
  datatype Point = Point(x: real, y: real)

  /** One entry of get_cluster_sizes: a cluster id and its number of points. */
  datatype ClusterSize = ClusterSize(clusterId: int, size: nat)

  // ---------------------------------------------------------- min_samples

  /** config.min_samples or config.min_cluster_size: Python's `or` falls back
      on the cluster size when min_samples is None or 0. */
  function EffectiveMinSamples(config: HdbscanConfig): (m: int)
    ensures config.minSamples.Some? && config.minSamples.value != 0 ==> m == config.minSamples.value
    ensures config.minSamples == None || config.minSamples == Some(0) ==> m == config.minClusterSize
  {
    match config.minSamples
    case Some(s) => if s != 0 then s else config.minClusterSize
    case None => config.minClusterSize
  }

  /** Under a configuration PipelineConfig accepts (min_cluster_size >= 2)
      and a min_samples that is unset or not negative, HDBSCAN is given a
      positive min_samples. */
  lemma EffectiveMinSamplesPositive(config: HdbscanConfig)
    requires config.minClusterSize >= 2
    requires config.minSamples == None || config.minSamples.value >= 0
    ensures EffectiveMinSamples(config) >= 1
  {
  }

  // ------------------------------------------------------------- counting

  /** The distinct non-noise cluster labels, ascending. */
  function ClusterLabels(labels: seq<int>): (ids: seq<int>)
    ensures Ascending(ids)
    ensures forall c :: c in ids <==> c in labels && c != Noise
  {
    SortedDistinct(NonNoise(labels))
  }

  /** There is no cluster label exactly when every point is noise. */
  lemma NoClusterLabelsIffAllNoise(labels: seq<int>)
    ensures ClusterLabels(labels) == [] <==> forall i :: 0 <= i < |labels| ==> labels[i] == Noise
  {
    var ids := ClusterLabels(labels);
    if ids != [] {
      assert ids[0] in labels;
    } else {
      forall i | 0 <= i < |labels| ensures labels[i] == Noise {
        assert labels[i] in labels;
      }
    }
  }

  /** The distinct values of a label column are its distinct cluster
      labels, plus -1 when some point is noise. */
  lemma DistinctValuesCount(labels: seq<int>)
    ensures |set x | x in labels| == |ClusterLabels(labels)| + (if Noise in labels then 1 else 0)
  {
    var ids := ClusterLabels(labels);
    var values := set x | x in labels;
    AscendingNoDup(ids);
    NoDupCard(ids);
    assert (set x | x in ids) == values - {Noise};
  }

  /** n_clusters = len(set(labels)) - (1 if -1 in labels else 0): the number
      of distinct non-noise labels, 0 exactly when every point is noise. */
  function NumClusters(labels: seq<int>): (n: nat)
    ensures n == |ClusterLabels(labels)|
    ensures n == 0 <==> forall i :: 0 <= i < |labels| ==> labels[i] == Noise
  {
    DistinctValuesCount(labels);
    var values := set x | x in labels;
    assert Noise in labels ==> Noise in values;
    NoClusterLabelsIffAllNoise(labels);
    |values| - (if Noise in labels then 1 else 0)
  }

  /** n_noise = (labels == -1).sum(). */
  function NumNoise(labels: seq<int>): (n: nat)
    ensures n <= |labels|
    ensures n == 0 <==> Noise !in labels
  {
    Count(labels, Noise)
  }

  // ---------------------------------------------------------------- sizes

  /** The sizes of the clusters of a label column: the value_counts of the
      non-noise labels, sorted by cluster id. */
  function SizesOf(labels: seq<int>): (sizes: seq<ClusterSize>)
    ensures |sizes| == |ClusterLabels(labels)|
    ensures forall k :: 0 <= k < |sizes| ==> sizes[k].clusterId == ClusterLabels(labels)[k]
    ensures forall k :: 0 <= k < |sizes| ==> sizes[k].size == Count(labels, sizes[k].clusterId) > 0
  {
    var ids := ClusterLabels(labels);
    var kept := NonNoise(labels);
    seq(|ids|, k requires 0 <= k < |ids| => ClusterSize(ids[k], Count(kept, ids[k])))
  }

  /** get_cluster_sizes: one entry per non-noise cluster id of the metadata,
      by ascending id, each the number of rows carrying that id. */
  function GetClusterSizes(metadata: seq<Row>): (sizes: seq<ClusterSize>)
    ensures forall j, k :: 0 <= j < k < |sizes| ==> sizes[j].clusterId < sizes[k].clusterId
    ensures forall c :: (exists k :: 0 <= k < |sizes| && sizes[k].clusterId == c) <==>
      c != Noise && c in ClusterIdColumn(metadata)
    ensures forall k :: 0 <= k < |sizes| ==> sizes[k].size == Count(ClusterIdColumn(metadata), sizes[k].clusterId)
  {
    var column := ClusterIdColumn(metadata);
    var sizes := SizesOf(column);
    forall c ensures (exists k :: 0 <= k < |sizes| && sizes[k].clusterId == c) <==>
      c != Noise && c in column
    {
      if c != Noise && c in column {
        var k :| 0 <= k < |ClusterLabels(column)| && ClusterLabels(column)[k] == c;
        assert sizes[k].clusterId == c;
      }
    }
    sizes
  }

  /** The sum of the sizes. */
  function SumSizes(sizes: seq<ClusterSize>): nat {
    if sizes == [] then 0 else sizes[0].size + SumSizes(sizes[1..])
  }

  lemma {:induction false} SumSizesIsSumCounts(sizes: seq<ClusterSize>, ids: seq<int>, xs: seq<int>)
    requires |sizes| == |ids|
    requires forall k :: 0 <= k < |ids| ==> sizes[k].size == Count(xs, ids[k])
    ensures SumSizes(sizes) == SumCounts(ids, xs)
  {
    if sizes != [] {
      SumSizesIsSumCounts(sizes[1..], ids[1..], xs);
    }
  }

  /** Every point is noise or counted in exactly one cluster: the noise count
      and the cluster sizes add up to the number of points, and there are as
      many sizes as reported clusters. */
  lemma SizesAccountForEveryPoint(labels: seq<int>)
    ensures NumNoise(labels) + SumSizes(SizesOf(labels)) == |labels|
    ensures |SizesOf(labels)| == NumClusters(labels)
  {
    var ids := ClusterLabels(labels);
    var kept := NonNoise(labels);
    SumSizesIsSumCounts(SizesOf(labels), ids, kept);
    AscendingNoDup(ids);
    SumCountsCover(ids, kept);
  }

  // ------------------------------------------------- attaching the results

  /** add_clustering_to_metadata, given the UMAP coordinates and the HDBSCAN
      labels: a copy of the rows, in the same order, with umap_x, umap_y and
      cluster_id set from the i-th point and label. */
  function AddClusteringToMetadata(metadata: seq<Row>, coords: seq<Point>, labels: seq<int>): (df: seq<Row>)
    requires |coords| == |metadata| && |labels| == |metadata|
    ensures |df| == |metadata|
    ensures forall i :: 0 <= i < |df| ==>
      && df[i].umapX == coords[i].x && df[i].umapY == coords[i].y && df[i].clusterId == labels[i]
      && df[i].path == metadata[i].path && df[i].classLabel == metadata[i].classLabel
      && df[i].gravityspyId == metadata[i].gravityspyId && df[i].ifo == metadata[i].ifo
      && df[i].labelFromPath == metadata[i].labelFromPath
  {
    seq(|metadata|, i requires 0 <= i < |metadata| =>
      metadata[i].(umapX := coords[i].x, umapY := coords[i].y, clusterId := labels[i]))
  }

  /** After attaching, the cluster_id column is the HDBSCAN output, the label
      column is unchanged, and get_cluster_sizes reports the sizes of the
      HDBSCAN labels. */
  lemma AttachedColumns(metadata: seq<Row>, coords: seq<Point>, labels: seq<int>)
    requires |coords| == |metadata| && |labels| == |metadata|
    ensures var df := AddClusteringToMetadata(metadata, coords, labels);
      && ClusterIdColumn(df) == labels
      && Labels(df) == Labels(metadata)
      && GetClusterSizes(df) == SizesOf(labels)
  {
    var df := AddClusteringToMetadata(metadata, coords, labels);
    assert ClusterIdColumn(df) == labels;
    assert Labels(df) == Labels(metadata);
  }

  /** get_cluster_sizes and compute_cluster_stats agree: the same clusters
      in the same order, each size being the n of that cluster's statistics. */
  lemma SizesMatchClusterStats(metadata: seq<Row>, log2: real -> real)
    ensures var sizes := GetClusterSizes(metadata);
      var stats := ClusterStatsTable(metadata, log2);
      && |sizes| == |stats|
      && forall k :: 0 <= k < |sizes| ==>
           sizes[k].clusterId == stats[k].clusterId && sizes[k].size == stats[k].n
  {
    var sizes := GetClusterSizes(metadata);
    var stats := ClusterStatsTable(metadata, log2);
    var ids := ClusterIds(metadata);
    forall k | 0 <= k < |sizes|
      ensures sizes[k].clusterId == stats[k].clusterId && sizes[k].size == stats[k].n
    {
      ClusterIdGroupNonEmpty(metadata, ids[k]);
      ClusterStatBounds(metadata, ids[k], log2);
    }
  }
}
