/** Label cleaning for Gravity Spy metadata (src/preprocessing.py): the
    sample ID, the interferometer and the true class label are read back from
    an image's path, and rows with unknown or rare labels are dropped. */
module Preprocessing {
  import opened Sequences
  import opened Strings
  import opened Paths
  import opened Frame

  const Unknown: string := "unknown"

  /** parse_gravityspy_id: the second '_'-field of the file name when there
      are at least three fields, otherwise the file name's stem. */
  function ParseGravitySpyId(filepath: string): (id: string)
    ensures '/' !in id
    ensures |Split(Name(filepath), '_')| >= 3 ==> '_' !in id
    ensures |Split(Name(filepath), '_')| < 3 ==> id <= Name(filepath)
    ensures |Split(Name(filepath), '_')| >= 3 ==> id == Split(Name(filepath), '_')[1]
    ensures |Split(Name(filepath), '_')| < 3 ==> id == Stem(Name(filepath))
  {
    var filename := Name(filepath);
    var parts := Split(filename, '_');
    NotInSplit(filename, '_', '/');
    if |parts| >= 3 then parts[1] else Stem(filename)
  }

  /** The upper-cased path names the interferometer ifo: as a folder between
      '/'s or between backslashes, or at its very start. */
  predicate MentionsIfo(filepath: string, ifo: string) {
    var pathUpper := Upper(filepath);
    HasInfix(pathUpper, "/" + ifo + "/") || HasInfix(pathUpper, "\\" + ifo + "\\") || StartsWith(pathUpper, ifo)
  }

  /** parse_interferometer: the first '_'-field of the file name when it is
      "H1" or "L1"; otherwise a search of the upper-cased path, H1 before L1. */
  function ParseInterferometer(filepath: string): (ifo: string)
    ensures ifo == "H1" || ifo == "L1" || ifo == Unknown
    ensures var first := Split(Name(filepath), '_')[0];
      first == "H1" || first == "L1" ==> ifo == first
    ensures var first := Split(Name(filepath), '_')[0];
      first != "H1" && first != "L1" ==>
        && (ifo == "H1" <==> MentionsIfo(filepath, "H1"))
        && (ifo == "L1" <==> !MentionsIfo(filepath, "H1") && MentionsIfo(filepath, "L1"))
  {
    var parts := Split(Name(filepath), '_');
    if parts[0] == "H1" || parts[0] == "L1" then parts[0]
    else if MentionsIfo(filepath, "H1") then "H1"
    else if MentionsIfo(filepath, "L1") then "L1"
    else Unknown
  }

  /** A path through a folder named H1 or L1, in any letter case, is read as
      that interferometer when the file name does not start with one, and an
      L1 folder counts only when nothing in the path names H1. */
  lemma InterferometerFromFolder(dir: string, folder: string, rest: string)
    requires Upper(folder) == "H1" || Upper(folder) == "L1"
    requires var first := Split(Name(dir + "/" + folder + "/" + rest), '_')[0];
      first != "H1" && first != "L1"
    requires Upper(folder) == "L1" ==> !MentionsIfo(dir + "/" + folder + "/" + rest, "H1")
    ensures ParseInterferometer(dir + "/" + folder + "/" + rest) == Upper(folder)
  {
    var p := dir + "/" + folder + "/" + rest;
    var ifo := Upper(folder);
    UpperConcat(dir + "/" + folder + "/", rest);
    UpperConcat(dir + "/" + folder, "/");
    UpperConcat(dir + "/", folder);
    UpperConcat(dir, "/");
    assert Upper("/") == "/";
    assert Upper(p) == Upper(dir) + ("/" + ifo + "/") + Upper(rest);
    HasInfixConcat(Upper(dir), "/" + ifo + "/", Upper(rest));
  }

  /** parse_label_from_path: the name of the folder holding the file, or
      "unknown" when the path has no parent component. */
  function ParseLabelFromPath(filepath: string): (folder: string)
    ensures folder != "" && '/' !in folder
    ensures ParentName(filepath) == "" ==> folder == Unknown
    ensures ParentName(filepath) != "" ==> folder == ParentName(filepath)
  {
    var parent := ParentName(filepath);
    if parent == "" || parent == "." then Unknown else parent
  }

  /** A bare file name has no parent folder, so its label is unknown. */
  lemma BareFileNameIsUnknown(filename: string)
    requires '/' !in filename
    ensures ParseLabelFromPath(filename) == Unknown
  {
    SplitJoin([filename], '/');
    assert |Components(filename)| <= 1;
  }

  /** The file name of a Gravity Spy spectrogram: {IFO}_{ID}_spectrogram_{duration}.png */
  function SpectrogramFileName(ifo: string, id: string, duration: string): string {
    JoinWith([ifo, id, "spectrogram", duration + ".png"], '_')
  }

  /** The dataset layout: .../{class}/{file name}. */
  function SamplePath(dirs: seq<string>, classLabel: string, fileName: string): string {
    JoinWith(dirs + [classLabel, fileName], '/')
  }

  ghost predicate WellFormedSample(dirs: seq<string>, classLabel: string, ifo: string, id: string, duration: string) {
    && (forall k :: 0 <= k < |dirs| ==> '/' !in dirs[k])
    && classLabel != "" && classLabel != "." && '/' !in classLabel
    && '/' !in ifo && '/' !in id && '/' !in duration
    && '_' !in ifo && '_' !in id && '_' !in duration
  }

  /** The three parsers read back the fields a sample path was built from. */
  lemma ParsersRecoverSampleFields(dirs: seq<string>, classLabel: string, ifo: string, id: string, duration: string)
    requires WellFormedSample(dirs, classLabel, ifo, id, duration)
    ensures var p := SamplePath(dirs, classLabel, SpectrogramFileName(ifo, id, duration));
      && ParseGravitySpyId(p) == id
      && ParseLabelFromPath(p) == classLabel
      && (ifo == "H1" || ifo == "L1" ==> ParseInterferometer(p) == ifo)
  {
    var fields := [ifo, id, "spectrogram", duration + ".png"];
    var file := SpectrogramFileName(ifo, id, duration);
    SplitJoin(fields, '_');
    assert Split(file, '_') == fields;
    NotInJoin(fields, '_', '/');
    assert file != "" && file != "." by {
      assert file == ifo + ['_'] + JoinWith(fields[1..], '_');
      assert file[|ifo|] == '_';
    }
    var parts := dirs + [classLabel, file];
    ComponentsOfJoin(parts);
    KeepComponentsAppend(dirs, [classLabel, file]);
    assert [classLabel, file][1..] == [file] && [file][1..] == [];
    assert KeepComponents([file]) == [file];
    assert KeepComponents([classLabel, file]) == [classLabel] + KeepComponents([file]);
    var p := SamplePath(dirs, classLabel, file);
    assert Components(p) == KeepComponents(dirs) + [classLabel, file];
    assert Name(p) == file;
    assert ParentName(p) == classLabel;
  }

  /** One row of fix_metadata_labels: the parsed columns are added and the
      label is replaced by the folder label. */
  function EnrichRow(r: Row): (e: Row)
    ensures e.classLabel == ParseLabelFromPath(r.path) && e.gravityspyId == ParseGravitySpyId(r.path)
    ensures e.ifo == ParseInterferometer(r.path)
    ensures e.classLabel == e.labelFromPath && e.classLabel != "" && '/' !in e.classLabel
    ensures e.ifo == "H1" || e.ifo == "L1" || e.ifo == Unknown
    ensures '/' !in e.gravityspyId
    ensures e.path == r.path && e.umapX == r.umapX && e.umapY == r.umapY && e.clusterId == r.clusterId
  {
    var fromPath := ParseLabelFromPath(r.path);
    r.(gravityspyId := ParseGravitySpyId(r.path),
       ifo := ParseInterferometer(r.path),
       labelFromPath := fromPath,
       classLabel := fromPath)
  }

  /** fix_metadata_labels: a new frame with the same rows in the same order,
      each enriched from its own path. */
  function FixMetadataLabels(metadata: seq<Row>): (df: seq<Row>)
    ensures |df| == |metadata|
    ensures forall i :: 0 <= i < |df| ==>
      && df[i].classLabel == df[i].labelFromPath == ParseLabelFromPath(metadata[i].path)
      && df[i].gravityspyId == ParseGravitySpyId(metadata[i].path)
      && df[i].ifo == ParseInterferometer(metadata[i].path)
      && df[i].path == metadata[i].path
      && df[i].umapX == metadata[i].umapX && df[i].umapY == metadata[i].umapY
      && df[i].clusterId == metadata[i].clusterId
  {
    seq(|metadata|, i requires 0 <= i < |metadata| => EnrichRow(metadata[i]))
  }

  /** Fixing twice changes nothing: every added column depends on the path only. */
  lemma FixMetadataLabelsIdempotent(metadata: seq<Row>)
    ensures FixMetadataLabels(FixMetadataLabels(metadata)) == FixMetadataLabels(metadata)
  {
  }

  /** The rows whose label is not l, in order. */
  function DropLabel(rows: seq<Row>, l: string): (r: seq<Row>)
    ensures IsSubsequence(r, rows)
    ensures forall x :: x in r <==> x in rows && x.classLabel != l
    ensures forall m :: Count(Labels(r), m) == if m == l then 0 else Count(Labels(rows), m)
  {
    if rows == [] then []
    else if rows[0].classLabel == l then DropLabel(rows[1..], l)
    else [rows[0]] + DropLabel(rows[1..], l)
  }

  /** df[df["label"].isin(keep)]: the rows whose label is in keep, in order. */
  function KeepLabels(rows: seq<Row>, keep: set<string>): (r: seq<Row>)
    ensures IsSubsequence(r, rows)
    ensures forall x :: x in r <==> x in rows && x.classLabel in keep
    ensures forall m :: Count(Labels(r), m) == if m in keep then Count(Labels(rows), m) else 0
  {
    if rows == [] then []
    else if rows[0].classLabel in keep then [rows[0]] + KeepLabels(rows[1..], keep)
    else KeepLabels(rows[1..], keep)
  }

  /** The labels seen at least minLabelCount times: label_counts[label_counts >= min_label_count].index */
  function FrequentLabels(labels: seq<string>, minLabelCount: int): (valid: set<string>)
    ensures forall l :: l in valid <==> Count(labels, l) > 0 && Count(labels, l) >= minLabelCount
  {
    set l | l in labels && Count(labels, l) >= minLabelCount
  }

  /** filter_valid_samples: unknown labels are dropped, then every label seen
      fewer than minLabelCount times among the rest (the source's default
      min_label_count is 10). */
  function FilterValidSamples(metadata: seq<Row>, minLabelCount: int): (df: seq<Row>)
    ensures IsSubsequence(df, metadata)
    ensures forall i :: 0 <= i < |df| ==> df[i].classLabel != Unknown
  {
    var known := DropLabel(metadata, Unknown);
    var df := KeepLabels(known, FrequentLabels(Labels(known), minLabelCount));
    SubsequenceTransitive(df, known, metadata);
    KeptRowsAreKnown(df, known);
    df
  }

  /** Rows drawn from rows whose label is known have a known label. */
  lemma KeptRowsAreKnown(df: seq<Row>, known: seq<Row>)
    requires forall x :: x in df ==> x in known
    requires forall x :: x in known ==> x.classLabel != Unknown
    ensures forall i :: 0 <= i < |df| ==> df[i].classLabel != Unknown
  {
    forall i | 0 <= i < |df| ensures df[i].classLabel != Unknown {
      assert df[i] in df;
    }
  }

  /** A row survives the filter exactly when its label is known and occurs at
      least minLabelCount times; a surviving label keeps all of its rows. */
  lemma FilterValidSamplesKeepsFrequentLabels(metadata: seq<Row>, minLabelCount: int)
    ensures var df := FilterValidSamples(metadata, minLabelCount);
      forall x :: x in df <==>
        x in metadata && x.classLabel != Unknown && Count(Labels(metadata), x.classLabel) >= minLabelCount
    ensures var df := FilterValidSamples(metadata, minLabelCount);
      forall l :: l != Unknown ==>
        Count(Labels(df), l) == if Count(Labels(metadata), l) >= minLabelCount then Count(Labels(metadata), l) else 0
  {
    var known := DropLabel(metadata, Unknown);
    var valid := FrequentLabels(Labels(known), minLabelCount);
    var df := KeepLabels(known, valid);
    assert df == FilterValidSamples(metadata, minLabelCount);
    forall x ensures x in df <==>
      x in metadata && x.classLabel != Unknown && Count(Labels(metadata), x.classLabel) >= minLabelCount
    {
      if x in metadata {
        var i :| 0 <= i < |metadata| && metadata[i] == x;
        assert Labels(metadata)[i] == x.classLabel;
      }
    }
  }

  /** After fixing and filtering, every row's label is the folder that holds its image. */
  lemma CleanedLabelsAreFolders(metadata: seq<Row>, minLabelCount: int)
    ensures var df := FilterValidSamples(FixMetadataLabels(metadata), minLabelCount);
      forall i :: 0 <= i < |df| ==> df[i].classLabel == ParentName(df[i].path) != ""
  {
    var fixed := FixMetadataLabels(metadata);
    var df := FilterValidSamples(fixed, minLabelCount);
    forall i | 0 <= i < |df| ensures df[i].classLabel == ParentName(df[i].path) != "" {
      assert df[i] in df;
      var j :| 0 <= j < |fixed| && fixed[j] == df[i];
    }
  }
}
