/** The pipeline's configuration (src/config.py): hyperparameter records
    with their defaults, the validation PipelineConfig runs when it is
    built, and the in-place resolution of the four paths. */
module Config {
  import opened Results
  import opened Paths

  datatype UmapConfig = UmapConfig(
    nNeighbors: int,
    minDist: real,
    metric: string,
    nComponents: int,
    randomState: int)

  const DefaultUmap: UmapConfig := UmapConfig(30, 0.1, "cosine", 2, 42)

  datatype HdbscanConfig = HdbscanConfig(
    minClusterSize: int,
    /** None means "the same as minClusterSize". */
    minSamples: Option<int>,
    metric: string,
    clusterSelectionMethod: string)

  const DefaultHdbscan: HdbscanConfig := HdbscanConfig(50, None, "euclidean", "eom")

  datatype VisualizationConfig = VisualizationConfig(
    topKLabels: int,
    samplesPerLabel: int,
    scatterSampleSize: int,
    pointSize: int,
    figureDpi: int,
    stripMaxPanels: int,
    dashboardSampleSize: int,
    hoverImageSize: int)

  const DefaultVisualization: VisualizationConfig := VisualizationConfig(6, 5, 12000, 6, 200, 12, 5000, 220)

  const DefaultEmbeddingsFile: string := "data/gravityspy_processed/embeddings.npy"
  const DefaultMetadataFile: string := "data/gravityspy_processed/embeddings_metadata.csv"
  const DefaultOutputDir: string := "findings/outputs"
  const DefaultFiguresDir: string := "findings/figures"

  /** Input files and output directories; resolve rewrites them in place. */
  class PathConfig {
    var embeddingsFile: string
    var metadataFile: string
    var outputDir: string
    var figuresDir: string

    /** PathConfig(): the repository-relative defaults. */
    constructor Default()
      ensures embeddingsFile == DefaultEmbeddingsFile && metadataFile == DefaultMetadataFile
      ensures outputDir == DefaultOutputDir && figuresDir == DefaultFiguresDir
    {
      embeddingsFile := DefaultEmbeddingsFile;
      metadataFile := DefaultMetadataFile;
      outputDir := DefaultOutputDir;
      figuresDir := DefaultFiguresDir;
    }

    /** PathConfig(embeddings_file, metadata_file, output_dir, figures_dir). */
    constructor (embeddingsFile: string, metadataFile: string, outputDir: string, figuresDir: string)
      ensures this.embeddingsFile == embeddingsFile && this.metadataFile == metadataFile
      ensures this.outputDir == outputDir && this.figuresDir == figuresDir
    {
      this.embeddingsFile := embeddingsFile;
      this.metadataFile := metadataFile;
      this.outputDir := outputDir;
      this.figuresDir := figuresDir;
    }

    /** resolve: each of the four paths is replaced by itself joined under
        repoRoot, and the same object is returned. */
    method Resolve(repoRoot: string) returns (resolved: PathConfig)
      modifies this
      ensures resolved == this
      ensures embeddingsFile == JoinUnder(repoRoot, old(embeddingsFile))
      ensures metadataFile == JoinUnder(repoRoot, old(metadataFile))
      ensures outputDir == JoinUnder(repoRoot, old(outputDir))
      ensures figuresDir == JoinUnder(repoRoot, old(figuresDir))
    {
      embeddingsFile := JoinUnder(repoRoot, embeddingsFile);
      metadataFile := JoinUnder(repoRoot, metadataFile);
      outputDir := JoinUnder(repoRoot, outputDir);
      figuresDir := JoinUnder(repoRoot, figuresDir);
      resolved := this;
    }
  }

  /** Resolving twice under the same absolute root gives the same paths as
      resolving once, and every resolved path is absolute. */
  method ResolveTwice(paths: PathConfig, repoRoot: string) returns (resolved: PathConfig)
    requires IsAbsolute(repoRoot)
    modifies paths
    ensures resolved == paths
    ensures paths.embeddingsFile == JoinUnder(repoRoot, old(paths.embeddingsFile))
    ensures paths.metadataFile == JoinUnder(repoRoot, old(paths.metadataFile))
    ensures paths.outputDir == JoinUnder(repoRoot, old(paths.outputDir))
    ensures paths.figuresDir == JoinUnder(repoRoot, old(paths.figuresDir))
    ensures IsAbsolute(paths.embeddingsFile) && IsAbsolute(paths.metadataFile)
    ensures IsAbsolute(paths.outputDir) && IsAbsolute(paths.figuresDir)
  {
    ghost var e, m, o, f := paths.embeddingsFile, paths.metadataFile, paths.outputDir, paths.figuresDir;
    var once := paths.Resolve(repoRoot);
    resolved := once.Resolve(repoRoot);
    JoinUnderIdempotent(repoRoot, e);
    JoinUnderIdempotent(repoRoot, m);
    JoinUnderIdempotent(repoRoot, o);
    JoinUnderIdempotent(repoRoot, f);
  }

  datatype PipelineConfig = PipelineConfig(
    paths: PathConfig,
    umap: UmapConfig,
    hdbscan: HdbscanConfig,
    visualization: VisualizationConfig,
    randomSeed: int,
    recomputeUmap: bool,
    recomputeClusters: bool,
    deepDiveClusters: seq<int>)

  const NComponentsError: string := "UMAP n_components must be 2 for visualization"
  const MinClusterSizeError: string := "HDBSCAN min_cluster_size must be >= 2"

  /** PipelineConfig(...) with __post_init__: the record, or the ValueError
      message of the first check that fails (n_components before
      min_cluster_size). */
  function NewPipelineConfig(paths: PathConfig, umap: UmapConfig, hdbscan: HdbscanConfig,
                             visualization: VisualizationConfig, randomSeed: int,
                             recomputeUmap: bool, recomputeClusters: bool,
                             deepDiveClusters: seq<int>): (r: Result<PipelineConfig, string>)
    ensures r.Ok? <==> umap.nComponents == 2 && hdbscan.minClusterSize >= 2
    ensures r.Ok? ==> r.value == PipelineConfig(paths, umap, hdbscan, visualization, randomSeed,
                                                 recomputeUmap, recomputeClusters, deepDiveClusters)
    ensures umap.nComponents != 2 ==> r == Err(NComponentsError)
    ensures umap.nComponents == 2 && hdbscan.minClusterSize < 2 ==> r == Err(MinClusterSizeError)
  {
    if umap.nComponents != 2 then Err(NComponentsError)
    else if hdbscan.minClusterSize < 2 then Err(MinClusterSizeError)
    else Ok(PipelineConfig(paths, umap, hdbscan, visualization, randomSeed,
                           recomputeUmap, recomputeClusters, deepDiveClusters))
  }

  /** The defaults pass both checks of __post_init__. */
  lemma DefaultsAreValid(paths: PathConfig)
    ensures NewPipelineConfig(paths, DefaultUmap, DefaultHdbscan, DefaultVisualization,
                              42, false, false, [33, 41]).Ok?
  {
  }

  /** get_default_config: PipelineConfig() with every default; it always succeeds. */
  method GetDefaultConfig() returns (r: Result<PipelineConfig, string>)
    ensures r.Ok?
    ensures r.value.umap == DefaultUmap && r.value.hdbscan == DefaultHdbscan
    ensures r.value.visualization == DefaultVisualization
    ensures r.value.randomSeed == 42 && !r.value.recomputeUmap && !r.value.recomputeClusters
    ensures r.value.deepDiveClusters == [33, 41]
    ensures fresh(r.value.paths)
    ensures r.value.paths.embeddingsFile == DefaultEmbeddingsFile
    ensures r.value.paths.metadataFile == DefaultMetadataFile
    ensures r.value.paths.outputDir == DefaultOutputDir
    ensures r.value.paths.figuresDir == DefaultFiguresDir
  {
    var paths := new PathConfig.Default();
    DefaultsAreValid(paths);
    r := NewPipelineConfig(paths, DefaultUmap, DefaultHdbscan, DefaultVisualization,
                           42, false, false, [33, 41]);
  }
}
