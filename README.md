# imgaug data augmentation, modelled in Dafny

This project models `imgaug.py`, a script that augments an image dataset in bulk. The script runs in four steps:

- It makes sure the output image directory exists, and also the output label directory when `--input_label` is given.
- It walks the input image tree. Each file whose basename does not start with a dot is decoded with `cv2.imread` and written twice into one flat output directory: the original under `<name>`, and a brightness/contrast variant (`cv2.addWeighted(pic, 1.2, pic, 0, 30)`) under `aug_<name>`.
- When both label directories are given, it walks the label tree. Each visible label is read as UTF-8 text and its lines are written verbatim to `aug_<name>` in the output label directory. A UnicodeDecodeError gives a warning and no output file.
- Any other exception ends the run. What was already written stays.

The modules are:

- `Paths` covers `is_hidden_file`, with POSIX `basename` defined and characterised without it, and the `aug_` naming.
- `Augmentation` covers the per-sample transform. It uses exact integer arithmetic: `min(255, round(1.2 s + 30))`. The result saturates exactly from 188 on and there is never a rounding tie.
- `Walk` and `Outcome` cover `os.walk` as a sequence of directories with their file names, and how a run ends.
- `ImagePhase` covers the image loop. `AugmentDirectory` and `AugmentImages` are the two nested `for` loops. They are proved against the fold `ImagesAfter`, whose properties are proved as lemmas.
- `LabelPhase` covers the label loop in the same way: `MirrorDirectory`, `MirrorLabels` and `LabelsAfter`.
- `Pipeline` covers the `__main__` block after argument parsing: directory setup, phase 1, then phase 2 when both label directories are given.
- `Scenarios` holds small directory trees that show the behaviour end to end.

The file system is a value. An output directory is a map from file name to content that starts with whatever it already held. Each walked entry carries:

- its name;
- whether `os.path.isfile` holds for it;
- what `cv2.imread` would give: an image, `None`, or an exception.

Each label entry carries what reading it would give.

The code behaves in ways a reader may not expect, and the model follows it:

- **Non-regular entries are not skipped.** A visible entry for which `os.path.isfile` is false skips `imread` (lines 60-68), but lines 70-79 still run with `pic` left over from an earlier iteration. Three outcomes follow:
  - the previous image is written under this entry's names (`NonRegularEntryReusesPic`, `StaleBufferScenario`);
  - if `pic` was never assigned, the run aborts with a NameError (`UnboundPicScenario`);
  - if the last `imread` returned `None`, the run raises at line 72, 76 or 78 on the `None` value, before any file is written (`NonePicScenario`).
- **Isolating a failed decode has a limit.** A file whose `imread` returns `None` writes nothing, and the run is as without it when no non-regular entry follows it (`FailedDecodeIsolated`). A non-regular entry reached before the next `imread` that returns aborts the run instead of writing (`NonePicScenario`). A file whose `imread` raises leaves `pic` untouched, so it is always invisible to the run (`RaisingDecodeInvisible`).
- **Setup can abort.** When `--input_label` is given and `--output_label` is absent or empty, line 45 raises before any file is processed: `os.path.isdir(None)` or `os.makedirs('')`.
- **Flat names can collide.** The output is flat, so a file `x` and a later file `aug_x` (in any directory) both write `aug_x`, and the later write wins (`AugNameCollisionScenario`); the same holds for two files with one basename (`FlatOutputScenario`).
- **Labels are not paired with images.** Labels are mirrored whether or not the partner image was decoded (`LabelScenario`).

## Model

| member | source | states |
|---|---|---|
| Paths.Basename | imgaug.py:25 | os.path.basename: the text after the last '/' of the path, taken from the position ComponentStart finds; its defining facts are stated by BasenameSpec |
| Paths.BasenameSpec | imgaug.py:25 | the basename is the suffix of the path after its last '/', holds no '/', and is the whole path when there is no '/' (these facts fix it uniquely) |
| Paths.IsHiddenFile | imgaug.py:23-25 | is_hidden_file: the basename is non-empty and starts with '.'; characterised without Basename by IsHiddenFileIff |
| Paths.IsHiddenFileIff | imgaug.py:23-25 | a path is hidden exactly when a '.' opens its last component (at the start or right after a '/', with no '/' after it) |
| Paths.PlainNameHidden | imgaug.py:49-50 | for a walk file name (no '/') the basename is the name itself, so hidden means it starts with '.' |
| Paths.AugName | imgaug.py:79 | the output name is "aug_" followed by the original name, four characters longer |
| Paths.AugNameDiffers | imgaug.py:78-79 | the augmented copy never has the original's name, so the two writes never collide |
| Paths.AugNameInjective | imgaug.py:91 | distinct label names give distinct output label names |
| Paths.AugNameNotHidden | imgaug.py:79 | the "aug_" name of a walk name is never hidden |
| Augmentation.AugmentSample | imgaug.py:70-72 | the result is at least 30 and never darker than the input; it is 255 exactly when the input is at least 188; below that it is within one half of 1.2 s + 30 |
| Augmentation.AugmentSampleMonotonic | imgaug.py:70-72 | a brighter input sample never gives a darker output |
| Augmentation.AugmentSampleCompounds | imgaug.py:70-72 | augmenting twice brightens further unless already saturated (the transform is not idempotent) |
| Augmentation.AugmentSamples | imgaug.py:72 | same length, and each sample is transformed on its own |
| Augmentation.Augment | imgaug.py:72 | same height, width and channels, a well-formed image stays well-formed, every sample transformed on its own |
| Augmentation.AugmentAt | imgaug.py:72 | each channel of each pixel of the augmented image is the transform of the same channel of the same pixel |
| ImagePhase.WritePair | imgaug.py:78-79 | the two imwrite calls add exactly the name and its "aug_" name, holding the image and its augmented copy, and change no other file |
| ImagePhase.ImageStep | imgaug.py:49-79 | a hidden entry changes nothing; no existing output file disappears; only the entry's two names can change; only a visible non-regular entry can abort, and an abort writes nothing |
| ImagePhase.ImagesAfter | imgaug.py:48-79 | an aborted run stays as it is, and no output file disappears |
| ImagePhase.ImagesAfterAppend | imgaug.py:48-49 | walking a + b is walking a, then b from where a left off (pic carried across directories) |
| ImagePhase.ImagesAfterSplit | imgaug.py:48-49 | the run seen from one entry: the prefix, that entry's iteration, then the rest |
| ImagePhase.AugmentEntry | imgaug.py:53-79 | one iteration for a visible entry gives exactly ImageStep: imread for a regular file, then addWeighted and the two imwrite calls on whatever pic holds |
| ImagePhase.AugmentDirectory | imgaug.py:49-79 | the inner loop over one directory's files gives exactly the fold of ImageStep over them, pic carried in and out |
| ImagePhase.AugmentImages | imgaug.py:48-79 | the nested loops give exactly the fold over the flattened walk, starting with pic unassigned |
| ImagePhase.ImageOutputKeys | imgaug.py:48-79 | the output keeps every earlier file and gains only the names of writing entries; a completed run gains exactly those |
| ImagePhase.StepKeys | imgaug.py:59-79 | one iteration keeps every output file and adds at most the entry's two names, exactly those when the run goes on |
| ImagePhase.WrittenKeysNotHidden | imgaug.py:50-79 | no name the image phase writes is hidden |
| ImagePhase.HiddenFilesNeverWritten | imgaug.py:50-51 | every file the run adds to the output directory has a visible name |
| ImagePhase.UntouchedFileKept | imgaug.py:78-79 | an output file whose name no writing entry (a visible decoded file or a visible non-regular entry) targets keeps its content; hidden and undecodable entries leave it alone |
| ImagePhase.DecodedStep | imgaug.py:60-79 | a visible regular file that decodes writes the image under its name and the augmented copy under "aug_" + name, and the run goes on |
| ImagePhase.DecodedImageStored | imgaug.py:60-79 | a visible regular file that decodes is in the output under its name and as its augmented copy under "aug_" + name, unless a later writing entry targets one of those names; later hidden or undecodable files with the same name leave the pair in place |
| ImagePhase.StepPic | imgaug.py:60-68 | one iteration that does not abort leaves pic as the reference PicAfter says |
| ImagePhase.PicCarriedOver | imgaug.py:60-68 | while the run goes on, pic is the outcome of the last visible regular entry whose imread returned, or its start value if none |
| ImagePhase.NonRegularEntryReusesPic | imgaug.py:60-79 | a visible non-regular entry writes the left-over image under its own names, or aborts without writing when pic is unassigned or None |
| ImagePhase.NonRegularStep | imgaug.py:59-79 | a visible non-regular entry writes the image pic holds, or aborts without writing when pic is unassigned or None |
| ImagePhase.RegularEntriesIgnorePic | imgaug.py:60-68 | entries that are hidden or regular files write the same and end the same whatever pic was before them |
| ImagePhase.FailedDecodeIsolated | imgaug.py:61-68 | a file imread cannot decode changes neither output nor outcome, when only regular or hidden entries follow it |
| ImagePhase.RaisingDecodeInvisible | imgaug.py:61-68 | a file whose imread raises leaves the whole run state exactly as if it were absent |
| LabelPhase.LabelStep | imgaug.py:85-101 | a hidden label changes nothing; a readable label adds exactly its lines under "aug_" + name; a decode error adds exactly a warning with its name and the loop goes on; the step aborts exactly when a visible label's read fails otherwise, and then writes nothing |
| LabelPhase.LabelsAfter | imgaug.py:84-101 | an aborted run stays as it is; no output label disappears; warnings only grow; the only abort is a read failure |
| LabelPhase.LabelsAfterAppend | imgaug.py:84-85 | walking a + b is walking a, then b from where a left off |
| LabelPhase.LabelsAfterSplit | imgaug.py:84-85 | the run seen from one label: the prefix, that label's iteration, then the rest |
| LabelPhase.MirrorDirectory | imgaug.py:85-101 | the inner label loop gives exactly the fold of LabelStep over one directory |
| LabelPhase.MirrorLabels | imgaug.py:84-101 | the nested label loops give exactly the fold over the flattened label walk |
| LabelPhase.LabelOutputKeys | imgaug.py:91-98 | the label directory keeps its files and gains only the "aug_" names of readable labels; a completed run gains exactly those |
| LabelPhase.LabelWarnings | imgaug.py:100-101 | a completed run has warned exactly about the undecodable visible labels, in walk order |
| LabelPhase.LabelRunCompletes | imgaug.py:94-101 | when no visible label fails to read except by a decoding error, the label phase runs to the end |
| LabelPhase.MirroredKeysAugmented | imgaug.py:91 | every name the label phase adds starts with "aug_" |
| LabelPhase.UntouchedLabelKept | imgaug.py:91-101 | an output label that no writing label (a visible label that reads) maps to keeps its content; hidden, undecodable and unreadable labels leave it alone |
| LabelPhase.LabelMirrored | imgaug.py:94-98 | a readable visible label appears under "aug_" + name with exactly its lines, unless a later readable visible label has the same name; later undecodable labels with that name leave it in place |
| LabelPhase.UndecodableLabelNotWritten | imgaug.py:94-101 | a label that fails UTF-8 decoding creates no output file |
| LabelPhase.MirroredKeysExclude | imgaug.py:100-101 | the "aug_" name of a label that never reads successfully is not among the mirrored names |
| Pipeline.Given | imgaug.py:45 | Python truthiness of an optional path option: present and not the empty string |
| Pipeline.SetupFails | imgaug.py:45 | setup raises when --input_label is given but --output_label is absent or empty |
| Pipeline.LabelPhaseRuns | imgaug.py:83 | the label phase runs only when both label options are given |
| Pipeline.RunSpec | imgaug.py:43-101 | a setup failure writes nothing; without both label directories no label is written or warned about; an image-phase abort leaves labels alone; no existing output file disappears |
| Pipeline.Run | imgaug.py:43-101 | the __main__ block gives exactly RunSpec |
| Pipeline.CompletedRunOutputs | imgaug.py:48-101 | a completed run adds exactly the writing entries' names to the image directory and, if labels ran, exactly the readable labels' "aug_" names, with one warning per undecodable label |
| Scenarios.ImageOnlyRun | imgaug.py:83 | without label directories, a run over one directory is the image phase over its files |
| Scenarios.VisibleThenHiddenImages | imgaug.py:49-79 | a visible image followed by a hidden one writes only the visible image's pair |
| Scenarios.VisibleAndHiddenScenario | imgaug.py:48-80 | a directory with cat.jpg and .hidden.jpg gives exactly cat.jpg and aug_cat.jpg |
| Scenarios.SameNameTwiceImages | imgaug.py:78-79 | two files with one name: the second pair overwrites the first |
| Scenarios.FlatOutputScenario | imgaug.py:48-79 | same-named files in two directories of the walk: the later one wins in the flat output |
| Scenarios.AugNameCollisionScenario | imgaug.py:78-79 | a file x and a later file aug_x: the later file's original occupies aug_x, its augmented copy aug_aug_x |
| Scenarios.StaleBufferScenario | imgaug.py:59-79 | a non-regular entry after an image writes that image's pixels under its own names |
| Scenarios.UnboundPicScenario | imgaug.py:59-72 | a non-regular entry before any image aborts the run with nothing written |
| Scenarios.NonePicScenario | imgaug.py:61-79 | after imread returns None, a non-regular entry aborts the run, keeping only the earlier pair |
| Scenarios.ThreeLabels | imgaug.py:84-101 | a readable, an undecodable and a hidden label: one output file and one warning |
| Scenarios.UndecodedImage | imgaug.py:60-65 | an image imread returns None for writes nothing and leaves None in pic |
| Scenarios.BothPhasesRun | imgaug.py:83-101 | with both label directories given and a completed image phase, the run is the image phase followed by the label phase |
| Scenarios.LabelScenario | imgaug.py:83-101 | labels are mirrored even when the partner image could not be decoded |

## Left out

- Argument parsing and the checks on `--input_img` and `--output_img` (lines 6-20, 32-35) are left out. The model starts with the parsed label options.
- Verbose output and progress messages are left out, because they do not affect the files. Label warnings are recorded as the label's name, not its full path.
- The order in which `os.walk` lists directories and files is left open. The model takes the walk as given.
- The image and label output directories are two separate maps. If `--output_img` and `--output_label` name the same directory, the label writes (`aug_<label name>`) land among the images and can overwrite them; the model does not capture this aliasing.
- The walk is not tied to the outputs. `os.walk` lists each directory when it reaches it, so if the output directory lies inside the input tree, files written earlier can be walked and augmented again (`aug_aug_...`). The model does not capture this, because its walk is fixed before the run starts.
- Failures of `os.makedirs` for the output directories (permissions, say) are left out. Only the setup failure caused by an absent or empty `--output_label` is modelled.
- Failures of `cv2.imwrite` and of opening the output label file are left out. Every write is modelled as succeeding. For example, `cv2.imwrite` raising on an unknown extension is not modelled.
- The image codecs are left out. What `imread` returns is an input, and its channel count (three by default) is not constrained. Files written by `imwrite` are modelled by the image they hold, not by their encoded bytes.
- Augmentation.AugmentSample uses exact integers in tenths instead of OpenCV's floating point. They agree because `1.2 s + 30` is always at least 0.1 away from a half.
- UTF-8 decoding and newline translation happen inside the abstract label read. A label's lines are an input, and any read failure other than a decoding error aborts the run.
- The directory names of the walk play no part, because the output is flat.
- The training wrapper `start_trainv9.py` is not part of this model.
