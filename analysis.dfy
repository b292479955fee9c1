/** The cluster audit (src/analysis.py): per-cluster purity, ambiguity and
    label entropy, the ranking by ambiguity and the two failure-mode flags.
    Purity and ambiguity are exact reals; log2 is a parameter, since only
    its sign is used. */
module Analysis {
  import opened Sequences
  import opened Frame
  import opened Results

  /** One row of the table compute_cluster_stats returns, indexed by clusterId. */
  datatype ClusterStat = ClusterStat(
    clusterId: int,
    n: nat,
    topLabel: string,
    topLabelCount: nat,
    purity: real,
    ambiguity: real,
    entropy: real,
    nLabels: nat)

  // ---------------------------------------------------------------- entropy

  /** The sum of p * log2(p) over the labels listed in d, p being a label's share of labels. */
  function PLogPSum(d: seq<string>, labels: seq<string>, log2: real -> real): real
    requires |labels| > 0
  {
    if d == [] then 0.0
    else
      var p := Count(labels, d[0]) as real / |labels| as real;
      p * log2(p) + PLogPSum(d[1..], labels, log2)
  }

  /** compute_entropy: Shannon entropy of the label distribution; exactly 0
      when at most one distinct label occurs. */
  function ComputeEntropy(labels: seq<string>, log2: real -> real): (h: real)
    ensures |Distinct(labels)| <= 1 ==> h == 0.0
  {
    var probs := Distinct(labels);
    if |probs| <= 1 then 0.0
    else
      assert probs[0] in labels;
      -PLogPSum(probs, labels, log2)
  }

  lemma MulPosNeg(p: real, q: real)
    requires p > 0.0 && q < 0.0
    ensures p * q < 0.0
  {
  }

  /** The share of a label that occurs, but not everywhere, lies strictly between 0 and 1. */
  lemma ShareInOpenUnit(c: nat, n: nat)
    requires 0 < c < n
    ensures 0.0 < c as real / n as real < 1.0
  {
    var p := c as real / n as real;
    assert p * n as real == c as real;
  }

  lemma {:induction false} PLogPSumNegative(d: seq<string>, labels: seq<string>, log2: real -> real)
    requires |labels| > 0
    requires forall p :: 0.0 < p < 1.0 ==> log2(p) < 0.0
    requires forall k :: 0 <= k < |d| ==> 0 < Count(labels, d[k]) < |labels|
    ensures d == [] ==> PLogPSum(d, labels, log2) == 0.0
    ensures d != [] ==> PLogPSum(d, labels, log2) < 0.0
  {
    if d != [] {
      var p := Count(labels, d[0]) as real / |labels| as real;
      ShareInOpenUnit(Count(labels, d[0]), |labels|);
      MulPosNeg(p, log2(p));
      PLogPSumNegative(d[1..], labels, log2);
    }
  }

  /** With a logarithm that is negative below 1, the entropy is non-negative
      and is 0 exactly when the labels hold at most one distinct value. */
  lemma EntropyZeroIffSingleLabel(labels: seq<string>, log2: real -> real)
    requires forall p :: 0.0 < p < 1.0 ==> log2(p) < 0.0
    ensures ComputeEntropy(labels, log2) >= 0.0
    ensures ComputeEntropy(labels, log2) == 0.0 <==> |Distinct(labels)| <= 1
  {
    var d := Distinct(labels);
    if |d| >= 2 {
      assert d[0] in labels;
      forall k | 0 <= k < |d| ensures 0 < Count(labels, d[k]) < |labels| {
        var other := if k == 0 then d[1] else d[0];
        assert d[k] != other;
        CountPair(labels, d[k], other);
        assert d[k] in labels && other in labels;
      }
      PLogPSumNegative(d, labels, log2);
    }
  }

  // ------------------------------------------------------------ top label

  /** The first label of d whose count in labels is largest, with that count. */
  function Top(d: seq<string>, labels: seq<string>): (t: (string, nat))
    requires d != []
    ensures t.0 in d && t.1 == Count(labels, t.0)
    ensures forall k :: 0 <= k < |d| ==> Count(labels, d[k]) <= t.1
  {
    if |d| == 1 then (d[0], Count(labels, d[0]))
    else
      var rest := Top(d[1..], labels);
      assert forall k :: 1 <= k < |d| ==> d[k] == d[1..][k - 1];
      if Count(labels, d[0]) >= rest.1 then (d[0], Count(labels, d[0])) else rest
  }

  /** The most common label and its count: value_counts().index[0] and .iloc[0]. */
  function TopLabel(labels: seq<string>): (t: (string, nat))
    requires labels != []
    ensures t.1 == Count(labels, t.0)
    ensures 1 <= t.1 <= |labels|
    ensures forall l :: Count(labels, l) <= t.1
  {
    var d := Distinct(labels);
    assert labels[0] in d;
    var t := Top(d, labels);
    assert forall l :: Count(labels, l) <= t.1 by {
      forall l ensures Count(labels, l) <= t.1 {
        if l in labels {
          assert l in d;
        }
      }
    }
    t
  }

  // ----------------------------------------------------------- statistics

  /** The statistics of one group of df.groupby("cluster_id"). */
  function ClusterStatOf(rows: seq<Row>, id: int, log2: real -> real): (s: ClusterStat)
    requires GroupLabels(rows, id) != []
    ensures s.clusterId == id && s.n == Count(ClusterIdColumn(rows), id)
    ensures s.topLabelCount == Count(IdLabelColumn(rows), (id, s.topLabel))
    ensures forall l :: Count(IdLabelColumn(rows), (id, l)) <= s.topLabelCount
  {
    GroupStat(id, GroupLabels(rows, id), log2)
  }

  /** The statistics of the labels of one group: its size, a most frequent
      label with its count, and the number of distinct labels. */
  function GroupStat(id: int, group: seq<string>, log2: real -> real): (s: ClusterStat)
    requires group != []
    ensures s.clusterId == id && s.n == |group| && s.nLabels == |Distinct(group)|
    ensures s.topLabel in group && s.topLabelCount == Count(group, s.topLabel)
    ensures forall l :: Count(group, l) <= s.topLabelCount
  {
    var top := TopLabel(group);
    var n := |group|;
    var purity := top.1 as real / n as real;
    ClusterStat(id, n, top.0, top.1, purity, n as real * (1.0 - purity),
                ComputeEntropy(group, log2), |Distinct(group)|)
  }

  /** The table compute_cluster_stats returns: one row per non-noise cluster, by ascending id. */
  function ClusterStatsTable(rows: seq<Row>, log2: real -> real): (t: seq<ClusterStat>)
    ensures |t| == |ClusterIds(rows)|
    ensures forall k :: 0 <= k < |t| ==> t[k].clusterId == ClusterIds(rows)[k]
  {
    var ids := ClusterIds(rows);
    seq(|ids|, k requires 0 <= k < |ids| =>
      ClusterIdGroupNonEmpty(rows, ids[k]);
      ClusterStatOf(rows, ids[k], log2))
  }

  /** compute_cluster_stats: noise rows are excluded, then each group is
      summarised in ascending cluster order. */
  method ComputeClusterStats(metadata: seq<Row>, log2: real -> real) returns (stats: seq<ClusterStat>)
    ensures stats == ClusterStatsTable(metadata, log2)
  {
    var clusterIds := ClusterIds(metadata);
    ghost var table := ClusterStatsTable(metadata, log2);
    if NonNoise(ClusterIdColumn(metadata)) == [] {
      assert clusterIds == [];
      return [];
    }
    stats := [];
    for k := 0 to |clusterIds|
      invariant stats == table[..k]
    {
      var id := clusterIds[k];
      ClusterIdGroupNonEmpty(metadata, id);
      var stat := ClusterStatOf(metadata, id, log2);
      assert table[k] == stat;
      PrefixStep(table, k);
      stats := stats + [stat];
    }
    FullPrefix(table);
  }

  lemma PurityArithmetic(top: nat, n: nat)
    requires 1 <= top <= n
    ensures var purity := top as real / n as real;
      && 1.0 / n as real <= purity <= 1.0
      && n as real * (1.0 - purity) == (n - top) as real
      && (purity == 1.0 <==> top == n)
  {
    var purity := top as real / n as real;
    assert purity * n as real == top as real;
    assert (1.0 / n as real) * n as real == 1.0;
  }

  /** The columns of a group's statistics, as compute_cluster_stats fills them in.
      It exists only to unfold GroupStat for ClusterStatBounds. */
  lemma GroupStatColumns(id: int, group: seq<string>, log2: real -> real)
    requires group != []
    ensures var top := TopLabel(group);
      var purity := top.1 as real / |group| as real;
      GroupStat(id, group, log2) == ClusterStat(id, |group|, top.0, top.1, purity,
        |group| as real * (1.0 - purity), ComputeEntropy(group, log2), |Distinct(group)|)
  {
  }

  /** Size, top count, purity and ambiguity of one cluster: 1 <= top <= n,
      purity = top / n in [1/n, 1], ambiguity = n - top >= 0, and ambiguity
      is 0 exactly when purity is 1. */
  lemma ClusterStatBounds(rows: seq<Row>, id: int, log2: real -> real)
    requires GroupLabels(rows, id) != []
    ensures var s := ClusterStatOf(rows, id, log2);
      && s.clusterId == id
      && s.n == Count(ClusterIdColumn(rows), id)
      && 1 <= s.topLabelCount <= s.n
      && s.topLabelCount == Count(GroupLabels(rows, id), s.topLabel)
      && (forall l :: Count(GroupLabels(rows, id), l) <= s.topLabelCount)
      && s.purity == s.topLabelCount as real / s.n as real
      && 1.0 / s.n as real <= s.purity <= 1.0
      && s.ambiguity == (s.n - s.topLabelCount) as real
      && s.ambiguity >= 0.0
      && (s.ambiguity == 0.0 <==> s.purity == 1.0)
  {
    var s := ClusterStatOf(rows, id, log2);
    GroupStatColumns(id, GroupLabels(rows, id), log2);
    PurityArithmetic(s.topLabelCount, s.n);
  }

  /** A cluster is pure exactly when it holds a single distinct label, and
      then its entropy is 0. */
  lemma PureIffSingleLabel(rows: seq<Row>, id: int, log2: real -> real)
    requires GroupLabels(rows, id) != []
    ensures var s := ClusterStatOf(rows, id, log2);
      && s.nLabels >= 1
      && (s.purity == 1.0 <==> s.nLabels == 1)
      && (s.nLabels == 1 ==> s.entropy == 0.0)
  {
    var g := GroupLabels(rows, id);
    var s := ClusterStatOf(rows, id, log2);
    PurityArithmetic(s.topLabelCount, s.n);
    assert g[0] in Distinct(g);
    DistinctSingleton(g);
    CountAll(g, s.topLabel);
    if s.nLabels == 1 {
      CountAll(g, g[0]);
      assert Count(g, g[0]) == |g|;
    }
  }

  /** Under a logarithm negative below 1, a cluster's entropy is 0 exactly when it is pure. */
  lemma EntropyZeroIffPure(rows: seq<Row>, id: int, log2: real -> real)
    requires GroupLabels(rows, id) != []
    requires forall p :: 0.0 < p < 1.0 ==> log2(p) < 0.0
    ensures var s := ClusterStatOf(rows, id, log2);
      s.entropy >= 0.0 && (s.entropy == 0.0 <==> s.purity == 1.0)
  {
    PureIffSingleLabel(rows, id, log2);
    EntropyZeroIffSingleLabel(GroupLabels(rows, id), log2);
  }

  /** The table lists exactly the non-noise ids present. */
  lemma ClusterStatsTableIdsPresent(rows: seq<Row>, log2: real -> real)
    ensures var t := ClusterStatsTable(rows, log2);
      forall c :: (exists k :: 0 <= k < |t| && t[k].clusterId == c) <==> c != Noise && c in ClusterIdColumn(rows)
  {
    var t := ClusterStatsTable(rows, log2);
    var ids := ClusterIds(rows);
    forall c ensures (exists k :: 0 <= k < |t| && t[k].clusterId == c) <==> c != Noise && c in ClusterIdColumn(rows) {
      if c != Noise && c in ClusterIdColumn(rows) {
        var k :| 0 <= k < |ids| && ids[k] == c;
        assert t[k].clusterId == c;
      }
      if exists k :: 0 <= k < |t| && t[k].clusterId == c {
        var k :| 0 <= k < |t| && t[k].clusterId == c;
        assert ids[k] in ids;
      }
    }
  }

  /** The table is empty exactly when every row is noise. */
  lemma ClusterStatsTableEmptyIffAllNoise(rows: seq<Row>, log2: real -> real)
    ensures ClusterStatsTable(rows, log2) == [] <==> forall i :: 0 <= i < |rows| ==> rows[i].clusterId == Noise
  {
    var ids := ClusterIds(rows);
    var column := ClusterIdColumn(rows);
    if ids != [] {
      assert ids[0] in ids;
    } else {
      forall i | 0 <= i < |rows| ensures rows[i].clusterId == Noise {
        assert column[i] in column;
      }
    }
  }

  /** The shape of the table: one row per distinct non-noise cluster id, in
      ascending order, and no row at all when every point is noise. */
  lemma ClusterStatsTableRows(rows: seq<Row>, log2: real -> real)
    ensures var t := ClusterStatsTable(rows, log2);
      && |t| == |ClusterIds(rows)|
      && (forall k :: 0 <= k < |t| ==> t[k].clusterId == ClusterIds(rows)[k] && t[k].clusterId != Noise)
      && (forall j, k :: 0 <= j < k < |t| ==> t[j].clusterId < t[k].clusterId)
      && (forall c :: (exists k :: 0 <= k < |t| && t[k].clusterId == c) <==> c != Noise && c in ClusterIdColumn(rows))
      && (t == [] <==> forall i :: 0 <= i < |rows| ==> rows[i].clusterId == Noise)
  {
    var t := ClusterStatsTable(rows, log2);
    var ids := ClusterIds(rows);
    forall k | 0 <= k < |t| ensures t[k].clusterId != Noise {
      assert ids[k] in ids;
    }
    ClusterStatsTableIdsPresent(rows, log2);
    ClusterStatsTableEmptyIffAllNoise(rows, log2);
  }

  /** The sum of the n column. */
  function SumN(stats: seq<ClusterStat>): nat {
    if stats == [] then 0 else stats[0].n + SumN(stats[1..])
  }

  lemma {:induction false} SumNIsSumCounts(stats: seq<ClusterStat>, ids: seq<int>, xs: seq<int>)
    requires |stats| == |ids|
    requires forall k :: 0 <= k < |ids| ==> stats[k].n == Count(xs, ids[k])
    ensures SumN(stats) == SumCounts(ids, xs)
  {
    if stats != [] {
      SumNIsSumCounts(stats[1..], ids[1..], xs);
    }
  }

  /** Every non-noise row is counted in exactly one cluster: the n column sums
      to the number of non-noise rows. */
  lemma ClusterSizesSumToNonNoise(rows: seq<Row>, log2: real -> real)
    ensures SumN(ClusterStatsTable(rows, log2)) == |NonNoise(ClusterIdColumn(rows))|
  {
    var t := ClusterStatsTable(rows, log2);
    var ids := ClusterIds(rows);
    var xs := NonNoise(ClusterIdColumn(rows));
    forall k | 0 <= k < |ids| ensures t[k].n == Count(xs, ids[k]) {
      ClusterIdGroupNonEmpty(rows, ids[k]);
      ClusterStatBounds(rows, ids[k], log2);
    }
    SumNIsSumCounts(t, ids, xs);
    AscendingNoDup(ids);
    SumCountsCover(ids, xs);
  }

  // -------------------------------------------------------------- ranking

  ghost predicate ByAmbiguityDescending(stats: seq<ClusterStat>) {
    forall i, j :: 0 <= i < j < |stats| ==> stats[i].ambiguity >= stats[j].ambiguity
  }

  /** Inserts x before the first row whose ambiguity is not larger than x's. */
  function InsertByAmbiguity(x: ClusterStat, stats: seq<ClusterStat>): (r: seq<ClusterStat>)
    ensures multiset(r) == multiset(stats) + multiset{x}
    ensures forall y :: y in r ==> y == x || y in stats
  {
    if stats == [] then [x]
    else if stats[0].ambiguity <= x.ambiguity then [x] + stats
    else
      assert stats == [stats[0]] + stats[1..];
      [stats[0]] + InsertByAmbiguity(x, stats[1..])
  }

  /** In a list ordered by non-increasing ambiguity, no later row exceeds the first. */
  lemma HeadBoundsAmbiguity(stats: seq<ClusterStat>, y: ClusterStat)
    requires ByAmbiguityDescending(stats)
    requires stats != [] && y in stats[1..]
    ensures y.ambiguity <= stats[0].ambiguity
  {
    var m :| 0 <= m < |stats[1..]| && stats[1..][m] == y;
    assert stats[m + 1] == y;
  }

  lemma {:induction false} InsertByAmbiguitySorted(x: ClusterStat, stats: seq<ClusterStat>)
    requires ByAmbiguityDescending(stats)
    ensures ByAmbiguityDescending(InsertByAmbiguity(x, stats))
  {
    if stats != [] && stats[0].ambiguity > x.ambiguity {
      var rest := stats[1..];
      assert ByAmbiguityDescending(rest) by {
        forall i, j | 0 <= i < j < |rest| ensures rest[i].ambiguity >= rest[j].ambiguity {
          assert rest[i] == stats[i + 1] && rest[j] == stats[j + 1];
        }
      }
      var tail := InsertByAmbiguity(x, rest);
      InsertByAmbiguitySorted(x, rest);
      var r := [stats[0]] + tail;
      forall i, j | 0 <= i < j < |r| ensures r[i].ambiguity >= r[j].ambiguity {
        if i == 0 {
          var y := tail[j - 1];
          assert r[j] == y && y in tail;
          if y != x {
            HeadBoundsAmbiguity(stats, y);
          }
        } else {
          assert r[i] == tail[i - 1] && r[j] == tail[j - 1];
        }
      }
    }
  }

  /** rank_by_ambiguity: the same rows, ordered by non-increasing ambiguity. */
  function RankByAmbiguity(stats: seq<ClusterStat>): (ranked: seq<ClusterStat>)
    ensures multiset(ranked) == multiset(stats)
  {
    if stats == [] then []
    else
      assert stats == [stats[0]] + stats[1..];
      InsertByAmbiguity(stats[0], RankByAmbiguity(stats[1..]))
  }

  /** The ranking is ordered by non-increasing ambiguity. */
  lemma {:induction false} RankByAmbiguitySorted(stats: seq<ClusterStat>)
    ensures ByAmbiguityDescending(RankByAmbiguity(stats))
  {
    if stats != [] {
      RankByAmbiguitySorted(stats[1..]);
      InsertByAmbiguitySorted(stats[0], RankByAmbiguity(stats[1..]));
    }
  }

  // -------------------------------------------------------- failure modes

  const DefaultEntropyThreshold: real := 2.0
  const DefaultPurityThreshold: real := 0.5

  datatype FailureModes = FailureModes(overSplitting: seq<int>, overCompression: seq<int>)

  /** cluster_stats.index.tolist() */
  function StatIds(stats: seq<ClusterStat>): (ids: seq<int>)
    ensures |ids| == |stats|
    ensures forall k :: 0 <= k < |stats| ==> ids[k] == stats[k].clusterId
  {
    if stats == [] then [] else [stats[0].clusterId] + StatIds(stats[1..])
  }

  /** The ids of the rows with entropy >= threshold, in table order. */
  function HighEntropyIds(stats: seq<ClusterStat>, threshold: real): (ids: seq<int>)
    ensures IsSubsequence(ids, StatIds(stats))
    ensures forall c :: c in ids <==>
      exists k :: 0 <= k < |stats| && stats[k].clusterId == c && stats[k].entropy >= threshold
  {
    if stats == [] then []
    else
      var rest := HighEntropyIds(stats[1..], threshold);
      assert forall k :: 1 <= k < |stats| ==> stats[k] == stats[1..][k - 1];
      if stats[0].entropy >= threshold then [stats[0].clusterId] + rest else rest
  }

  /** The ids of the rows with purity <= threshold, in table order. */
  function LowPurityIds(stats: seq<ClusterStat>, threshold: real): (ids: seq<int>)
    ensures IsSubsequence(ids, StatIds(stats))
    ensures forall c :: c in ids <==>
      exists k :: 0 <= k < |stats| && stats[k].clusterId == c && stats[k].purity <= threshold
  {
    if stats == [] then []
    else
      var rest := LowPurityIds(stats[1..], threshold);
      assert forall k :: 1 <= k < |stats| ==> stats[k] == stats[1..][k - 1];
      if stats[0].purity <= threshold then [stats[0].clusterId] + rest else rest
  }

  /** identify_failure_modes: over-splitting (high entropy) and
      over-compression (low purity) clusters. */
  function IdentifyFailureModes(stats: seq<ClusterStat>, entropyThreshold: real, purityThreshold: real): (r: FailureModes)
    ensures IsSubsequence(r.overSplitting, StatIds(stats))
    ensures forall c :: c in r.overSplitting <==>
      exists k :: 0 <= k < |stats| && stats[k].clusterId == c && stats[k].entropy >= entropyThreshold
    ensures IsSubsequence(r.overCompression, StatIds(stats))
    ensures forall c :: c in r.overCompression <==>
      exists k :: 0 <= k < |stats| && stats[k].clusterId == c && stats[k].purity <= purityThreshold
  {
    FailureModes(HighEntropyIds(stats, entropyThreshold), LowPurityIds(stats, purityThreshold))
  }

  /** A cluster whose entropy reaches a positive threshold, or whose purity
      is at most a threshold below 1, holds at least two distinct labels. */
  lemma FlaggedClusterIsMixed(rows: seq<Row>, id: int, log2: real -> real, entropyThreshold: real, purityThreshold: real)
    requires GroupLabels(rows, id) != []
    requires entropyThreshold > 0.0 && purityThreshold < 1.0
    requires var s := ClusterStatOf(rows, id, log2);
      s.entropy >= entropyThreshold || s.purity <= purityThreshold
    ensures |Distinct(GroupLabels(rows, id))| >= 2
  {
    PureIffSingleLabel(rows, id, log2);
  }

  /** A flagged id names a real cluster with at least two distinct labels. */
  lemma FlaggedIdIsMixed(rows: seq<Row>, log2: real -> real, c: int, entropyThreshold: real, purityThreshold: real)
    requires entropyThreshold > 0.0 && purityThreshold < 1.0
    requires var modes := IdentifyFailureModes(ClusterStatsTable(rows, log2), entropyThreshold, purityThreshold);
      c in modes.overSplitting || c in modes.overCompression
    ensures c in ClusterIds(rows) && |Distinct(GroupLabels(rows, c))| >= 2
  {
    var t := ClusterStatsTable(rows, log2);
    var k :| 0 <= k < |t| && t[k].clusterId == c &&
      (t[k].entropy >= entropyThreshold || t[k].purity <= purityThreshold);
    var ids := ClusterIds(rows);
    assert ids[k] == c;
    ClusterIdGroupNonEmpty(rows, c);
    assert t[k] == ClusterStatOf(rows, c, log2);
    FlaggedClusterIsMixed(rows, c, log2, entropyThreshold, purityThreshold);
  }

  /** With a positive entropy threshold and a purity threshold below 1 (the
      defaults 2.0 and 0.5 are such), only clusters holding two or more
      distinct labels are ever flagged. */
  lemma FlaggedClustersAreMixed(rows: seq<Row>, log2: real -> real, entropyThreshold: real, purityThreshold: real)
    requires entropyThreshold > 0.0 && purityThreshold < 1.0
    ensures var modes := IdentifyFailureModes(ClusterStatsTable(rows, log2), entropyThreshold, purityThreshold);
      forall c :: c in modes.overSplitting || c in modes.overCompression ==>
        c in ClusterIds(rows) && |Distinct(GroupLabels(rows, c))| >= 2
  {
    var modes := IdentifyFailureModes(ClusterStatsTable(rows, log2), entropyThreshold, purityThreshold);
    forall c | c in modes.overSplitting || c in modes.overCompression
      ensures c in ClusterIds(rows) && |Distinct(GroupLabels(rows, c))| >= 2
    {
      FlaggedIdIsMixed(rows, log2, c, entropyThreshold, purityThreshold);
    }
  }

  // ----------------------------------------------------- label distribution

  /** get_label_distribution: for one cluster id (noise included), each label's row count. */
  function GetLabelDistribution(metadata: seq<Row>, clusterId: int): (dist: map<string, nat>)
    ensures forall l :: l in dist <==>
      exists i :: 0 <= i < |metadata| && metadata[i].clusterId == clusterId && metadata[i].classLabel == l
    ensures forall l :: l in dist ==> dist[l] == Count(IdLabelColumn(metadata), (clusterId, l)) > 0
  {
    var group := GroupLabels(metadata, clusterId);
    map l | l in group :: Count(group, l)
  }

  /** The distribution agrees with the cluster's statistics: as many keys as
      distinct labels, and the top label's count is the largest value. */
  lemma LabelDistributionMatchesStats(rows: seq<Row>, id: int, log2: real -> real)
    requires GroupLabels(rows, id) != []
    ensures var s := ClusterStatOf(rows, id, log2);
      var dist := GetLabelDistribution(rows, id);
      && |dist| == s.nLabels
      && s.topLabel in dist && dist[s.topLabel] == s.topLabelCount
      && forall l :: l in dist ==> dist[l] <= s.topLabelCount
  {
    var g := GroupLabels(rows, id);
    var dist := GetLabelDistribution(rows, id);
    var d := Distinct(g);
    assert dist.Keys == set l | l in d;
    NoDupCard(d);
    assert |dist| == |dist.Keys|;
  }

  // ------------------------------------------- all-noise input (see README)

  /** What compute_cluster_stats returns as written: pd.DataFrame(), a frame
      with no columns, when every point is noise. */
  datatype StatsFrame = NoColumns | StatsColumns(table: seq<ClusterStat>)

  function ComputeClusterStatsAsWritten(rows: seq<Row>, log2: real -> real): (frame: StatsFrame)
    ensures frame == NoColumns <==> forall i :: 0 <= i < |rows| ==> rows[i].clusterId == Noise
    ensures frame.StatsColumns? ==> frame.table == ClusterStatsTable(rows, log2) != []
  {
    ClusterStatsTableRows(rows, log2);
    if NonNoise(ClusterIdColumn(rows)) == [] then NoColumns else StatsColumns(ClusterStatsTable(rows, log2))
  }

  /** rank_by_ambiguity as written: sorting by a missing "ambiguity" column raises KeyError. */
  function RankByAmbiguityAsWritten(frame: StatsFrame): (r: Result<seq<ClusterStat>, string>)
    ensures r.Err? <==> frame == NoColumns
    ensures r.Ok? ==> r.value == RankByAmbiguity(frame.table)
    ensures r.Ok? ==> multiset(r.value) == multiset(frame.table) && ByAmbiguityDescending(r.value)
  {
    match frame
    case NoColumns => Err("KeyError: 'ambiguity'")
    case StatsColumns(t) => RankByAmbiguitySorted(t); Ok(RankByAmbiguity(t))
  }

  /** identify_failure_modes as written: selecting a missing "entropy" column raises KeyError. */
  function IdentifyFailureModesAsWritten(frame: StatsFrame, entropyThreshold: real, purityThreshold: real)
    : (r: Result<FailureModes, string>)
    ensures r.Err? <==> frame == NoColumns
    ensures r.Ok? ==> r.value == IdentifyFailureModes(frame.table, entropyThreshold, purityThreshold)
  {
    match frame
    case NoColumns => Err("KeyError: 'entropy'")
    case StatsColumns(t) => Ok(IdentifyFailureModes(t, entropyThreshold, purityThreshold))
  }

  /** As written, a run in which every point is noise fails in the audit step. */
  lemma AllNoiseAuditRaises(rows: seq<Row>, log2: real -> real)
    requires forall i :: 0 <= i < |rows| ==> rows[i].clusterId == Noise
    ensures RankByAmbiguityAsWritten(ComputeClusterStatsAsWritten(rows, log2)).Err?
    ensures IdentifyFailureModesAsWritten(ComputeClusterStatsAsWritten(rows, log2),
                                          DefaultEntropyThreshold, DefaultPurityThreshold).Err?
  {
  }

  /** With the empty table of the model, the same run yields an empty ranking
      and no flagged cluster. */
  lemma AllNoiseAuditIsEmpty(rows: seq<Row>, log2: real -> real, entropyThreshold: real, purityThreshold: real)
    requires forall i :: 0 <= i < |rows| ==> rows[i].clusterId == Noise
    ensures ClusterStatsTable(rows, log2) == []
    ensures RankByAmbiguity(ClusterStatsTable(rows, log2)) == []
    ensures IdentifyFailureModes(ClusterStatsTable(rows, log2), entropyThreshold, purityThreshold)
         == FailureModes([], [])
  {
    ClusterStatsTableRows(rows, log2);
  }
}
