/** The metadata DataFrame: a sequence of rows, the row index being the
    position. Each column the pipeline reads or writes is a field of Row; an
    operation that adds a column overwrites that field. */
module Frame {
  import opened Sequences

  /** HDBSCAN's cluster label for points that belong to no cluster. */
  const Noise: int := -1

  datatype Row = Row(
    path: string,
    classLabel: string,
    gravityspyId: string,
    ifo: string,
    labelFromPath: string,
    umapX: real,
    umapY: real,
    clusterId: int)

  /** The column df["label"] (the field classLabel). */
  function Labels(rows: seq<Row>): (ls: seq<string>)
    ensures |ls| == |rows|
    ensures forall i :: 0 <= i < |rows| ==> ls[i] == rows[i].classLabel
  {
    if rows == [] then [] else [rows[0].classLabel] + Labels(rows[1..])
  }

  /** The column df["cluster_id"]. */
  function ClusterIdColumn(rows: seq<Row>): (ids: seq<int>)
    ensures |ids| == |rows|
    ensures forall i :: 0 <= i < |rows| ==> ids[i] == rows[i].clusterId
  {
    if rows == [] then [] else [rows[0].clusterId] + ClusterIdColumn(rows[1..])
  }

  /** labels[labels != -1]: the cluster labels with the noise points removed. */
  function NonNoise(ids: seq<int>): (r: seq<int>)
    ensures forall x :: x in r <==> x in ids && x != Noise
    ensures forall x :: x != Noise ==> Count(r, x) == Count(ids, x)
    ensures |r| + Count(ids, Noise) == |ids|
  {
    if ids == [] then []
    else if ids[0] == Noise then NonNoise(ids[1..])
    else [ids[0]] + NonNoise(ids[1..])
  }

  /** The keys of df[df.cluster_id != -1].groupby("cluster_id"), ascending. */
  function ClusterIds(rows: seq<Row>): (ids: seq<int>)
    ensures Ascending(ids)
    ensures Noise !in ids
    ensures forall c :: c in ids <==> c != Noise && c in ClusterIdColumn(rows)
  {
    SortedDistinct(NonNoise(ClusterIdColumn(rows)))
  }

  /** The pairs (cluster_id, label) of the rows, in row order. */
  function IdLabelColumn(rows: seq<Row>): (col: seq<(int, string)>)
    ensures |col| == |rows|
    ensures forall i :: 0 <= i < |rows| ==> col[i] == (rows[i].clusterId, rows[i].classLabel)
  {
    if rows == [] then [] else [(rows[0].clusterId, rows[0].classLabel)] + IdLabelColumn(rows[1..])
  }

  /** The labels of the rows whose cluster_id is id, in row order: group["label"].
      Each label occurs in it as often as a row carries that id and that label. */
  function GroupLabels(rows: seq<Row>, id: int): (g: seq<string>)
    ensures |g| == Count(ClusterIdColumn(rows), id)
    ensures forall l :: Count(g, l) == Count(IdLabelColumn(rows), (id, l))
    ensures forall l :: l in g <==> (id, l) in IdLabelColumn(rows)
  {
    if rows == [] then []
    else
      var rest := GroupLabels(rows[1..], id);
      CountCons((rows[0].clusterId, rows[0].classLabel), IdLabelColumn(rows[1..]));
      CountCons(rows[0].classLabel, rest);
      CountCons(rows[0].clusterId, ClusterIdColumn(rows[1..]));
      if rows[0].clusterId == id then [rows[0].classLabel] + rest else rest
  }

  /** Every key of the grouping names a non-empty group. */
  lemma ClusterIdGroupNonEmpty(rows: seq<Row>, id: int)
    requires id in ClusterIds(rows)
    ensures GroupLabels(rows, id) != []
  {
    assert Count(ClusterIdColumn(rows), id) > 0;
  }
}
