/**
 * The __main__ block of imgaug.py: directory setup, the image phase, then,
 * when both label directories are given, the label phase. An exception that
 * nothing catches ends the run; whatever was written before it stays.
 */
module Pipeline {
  import opened Wrappers
  import opened Paths
  import opened Augmentation
  import opened Walk
  import opened Outcome
  import opened ImagePhase
  import opened LabelPhase

  /** The two optional label-directory arguments; None when the option is absent. */
  datatype Config = Config(inputLabel: Option<string>, outputLabel: Option<string>)

  /** Python truthiness of an optional path: present and not the empty string. */
  predicate Given(p: Option<string>)
  {
    p.Some? && p.value != ""
  }

  /**
   * Directory setup raises before any file is processed when --input_label is
   * given but --output_label is absent (os.path.isdir(None)) or empty (os.makedirs('')).
   */
  predicate SetupFails(cfg: Config)
  {
    Given(cfg.inputLabel) && !Given(cfg.outputLabel)
  }

  /** The label phase runs only when both label directories are given. */
  predicate LabelPhaseRuns(cfg: Config)
  {
    Given(cfg.inputLabel) && Given(cfg.outputLabel)
  }

  /** The output image and label directories, the label warnings, and how the run ended. */
  datatype RunResult = RunResult(
    images: map<string, Image>,
    labels: map<string, seq<string>>,
    warnings: seq<string>,
    status: Status)

  /**
   * A whole run. The output directories start with whatever they already
   * held. A setup failure writes nothing; an image-phase abort leaves the
   * label directory alone; without both label directories no label is written.
   */
  function RunSpec(cfg: Config, imageWalk: seq<WalkDir<ImageEntry>>, labelWalk: seq<WalkDir<LabelEntry>>,
                   images0: map<string, Image>, labels0: map<string, seq<string>>): (r: RunResult)
    ensures SetupFails(cfg) ==>
      r.images == images0 && r.labels == labels0 && r.status == Aborted(LabelDirUnusable)
    ensures !LabelPhaseRuns(cfg) ==> r.labels == labels0 && r.warnings == []
    ensures r.status.Aborted? && r.status.reason != LabelReadFailed ==> r.labels == labels0
    ensures images0.Keys <= r.images.Keys && labels0.Keys <= r.labels.Keys
  {
    if SetupFails(cfg) then RunResult(images0, labels0, [], Aborted(LabelDirUnusable))
    else
      var images := ImagesAfter(Flatten(imageWalk), ImageState(images0, Unbound, Running));
      if images.status != Running || !LabelPhaseRuns(cfg) then RunResult(images.out, labels0, [], images.status)
      else
        var labels := LabelsAfter(Flatten(labelWalk), LabelState(labels0, [], Running));
        RunResult(images.out, labels.out, labels.warnings, labels.status)
  }

  /** The __main__ block after argument parsing. */
  method Run(cfg: Config, imageWalk: seq<WalkDir<ImageEntry>>, labelWalk: seq<WalkDir<LabelEntry>>,
             images0: map<string, Image>, labels0: map<string, seq<string>>) returns (r: RunResult)
    ensures r == RunSpec(cfg, imageWalk, labelWalk, images0, labels0)
  {
    if Given(cfg.inputLabel) && !Given(cfg.outputLabel) {
      return RunResult(images0, labels0, [], Aborted(LabelDirUnusable));
    }
    var images := AugmentImages(imageWalk, images0);
    if images.status != Running {
      return RunResult(images.out, labels0, [], images.status);
    }
    if Given(cfg.inputLabel) && Given(cfg.outputLabel) {
      var labels := MirrorLabels(labelWalk, labels0);
      return RunResult(images.out, labels.out, labels.warnings, labels.status);
    }
    return RunResult(images.out, labels0, [], Running);
  }

  /**
   * A run that completes leaves in the image directory exactly what was there
   * plus the names of the writing entries, and, when the label phase ran, in
   * the label directory exactly what was there plus the "aug_" names of the
   * readable labels, with one warning per undecodable label.
   */
  lemma CompletedRunOutputs(cfg: Config, imageWalk: seq<WalkDir<ImageEntry>>, labelWalk: seq<WalkDir<LabelEntry>>,
                            images0: map<string, Image>, labels0: map<string, seq<string>>)
    requires RunSpec(cfg, imageWalk, labelWalk, images0, labels0).status == Running
    ensures var r := RunSpec(cfg, imageWalk, labelWalk, images0, labels0);
      && r.images.Keys == images0.Keys + WrittenKeys(Flatten(imageWalk))
      && (LabelPhaseRuns(cfg) ==>
            && r.labels.Keys == labels0.Keys + MirroredKeys(Flatten(labelWalk))
            && r.warnings == UndecodableNames(Flatten(labelWalk)))
  {
    ImageOutputKeys(Flatten(imageWalk), ImageState(images0, Unbound, Running));
    LabelOutputKeys(Flatten(labelWalk), LabelState(labels0, [], Running));
    LabelWarnings(Flatten(labelWalk), LabelState(labels0, [], Running));
  }
}
