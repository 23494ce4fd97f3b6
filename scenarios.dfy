/**
 * Small directory trees that show the behaviour of imgaug.py, including the
 * two quirks of its image loop: the flat output and the pic left over from an
 * earlier iteration. File names are arbitrary walk names (no '/'); whether
 * each is hidden is given by its first character.
 */
module Scenarios {
  import opened Wrappers
  import opened Paths
  import opened Augmentation
  import opened Walk
  import opened Outcome
  import opened ImagePhase
  import opened LabelPhase
  import opened Pipeline

  const NoLabels := Config(None, None)
  const Fresh := ImageState(map[], Unbound, Running)

  /** A walk name that is not hidden. */
  predicate Visible(n: string)
  {
    '/' !in n && |n| > 0 && n[0] != '.'
  }

  /** A walk name that is hidden. */
  predicate Hidden(n: string)
  {
    '/' !in n && |n| > 0 && n[0] == '.'
  }

  lemma VisibleNotHidden(n: string)
    requires Visible(n)
    ensures !IsHiddenFile(n)
  {
    PlainNameHidden(n);
  }

  lemma HiddenIsHidden(n: string)
    requires Hidden(n)
    ensures IsHiddenFile(n)
  {
    PlainNameHidden(n);
  }

  /** Without label directories, a run over one directory is the image phase over its files. */
  lemma ImageOnlyRun(root: string, es: seq<ImageEntry>, images0: map<string, Image>)
    ensures var r := RunSpec(NoLabels, [WalkDir(root, es)], [], images0, map[]);
      var p := ImagesAfter(es, ImageState(images0, Unbound, Running));
      r == RunResult(p.out, map[], [], p.status)
  {
    assert Flatten([WalkDir(root, es)]) == es by {
      assert [WalkDir(root, es)][1..] == [];
    }
  }

  lemma VisibleThenHiddenImages(n: string, h: string, img: Image, other: Image)
    requires Visible(n) && Hidden(h)
    ensures ImagesAfter([ImageEntry(n, true, Decoded(img)), ImageEntry(h, true, Decoded(other))], Fresh)
      == ImageState(WritePair(map[], n, img), Bound(img), Running)
  {
    var a := ImageEntry(n, true, Decoded(img));
    var b := ImageEntry(h, true, Decoded(other));
    VisibleNotHidden(n);
    HiddenIsHidden(h);
    var s1 := ImageStep(Fresh, a);
    assert s1 == ImageState(WritePair(map[], n, img), Bound(img), Running);
    assert [a, b][1..] == [b];
    assert [b][1..] == [];
    assert ImagesAfter([a, b], Fresh) == ImagesAfter([b], s1);
    assert ImageStep(s1, b) == s1;
  }

  /**
   * A directory holding cat.jpg and .hidden.jpg: the output directory ends up
   * with exactly cat.jpg and aug_cat.jpg; the hidden file never appears.
   */
  lemma VisibleAndHiddenScenario(root: string, n: string, h: string, img: Image, other: Image)
    requires Visible(n) && Hidden(h)
    ensures var r := RunSpec(NoLabels,
        [WalkDir(root, [ImageEntry(n, true, Decoded(img)), ImageEntry(h, true, Decoded(other))])],
        [], map[], map[]);
      && r.status == Running
      && r.images.Keys == {n, AugName(n)}
      && r.images[n] == img && r.images[AugName(n)] == Augment(img)
  {
    ImageOnlyRun(root, [ImageEntry(n, true, Decoded(img)), ImageEntry(h, true, Decoded(other))], map[]);
    VisibleThenHiddenImages(n, h, img, other);
  }

  lemma SameNameTwiceImages(n: string, first: Image, second: Image)
    requires Visible(n)
    ensures ImagesAfter([ImageEntry(n, true, Decoded(first)), ImageEntry(n, true, Decoded(second))], Fresh)
      == ImageState(WritePair(WritePair(map[], n, first), n, second), Bound(second), Running)
  {
    var x1 := ImageEntry(n, true, Decoded(first));
    var x2 := ImageEntry(n, true, Decoded(second));
    VisibleNotHidden(n);
    var s1 := ImageStep(Fresh, x1);
    assert s1 == ImageState(WritePair(map[], n, first), Bound(first), Running);
    assert ImageStep(s1, x2) == ImageState(WritePair(WritePair(map[], n, first), n, second), Bound(second), Running);
    assert [x1, x2][1..] == [x2];
    assert [x2][1..] == [];
    assert ImagesAfter([x1, x2], Fresh) == ImagesAfter([x2], s1);
  }

  /** Flat output: files with the same name in two directories of the walk; the later one wins. */
  lemma FlatOutputScenario(root: string, sub: string, n: string, first: Image, second: Image)
    requires Visible(n)
    ensures var walk := [WalkDir(root, [ImageEntry(n, true, Decoded(first))]),
                         WalkDir(sub, [ImageEntry(n, true, Decoded(second))])];
      var r := ImagesAfter(Flatten(walk), Fresh);
      && r.status == Running
      && r.out.Keys == {n, AugName(n)}
      && r.out[n] == second && r.out[AugName(n)] == Augment(second)
  {
    var x1 := ImageEntry(n, true, Decoded(first));
    var x2 := ImageEntry(n, true, Decoded(second));
    var walk := [WalkDir(root, [x1]), WalkDir(sub, [x2])];
    assert Flatten(walk) == [x1, x2] by {
      var tail := [WalkDir(sub, [x2])];
      assert walk[1..] == tail && tail[1..] == [];
      assert Flatten(tail) == [x2] + Flatten([]);
      assert Flatten(walk) == [x1] + Flatten(tail);
    }
    SameNameTwiceImages(n, first, second);
    AugNameDiffers(n);
  }

  /** A file x and a later file aug_x both write aug_x: the later entry's original wins there. */
  lemma AugNameCollisionScenario(n: string, first: Image, second: Image)
    requires Visible(n)
    ensures var r := ImagesAfter([ImageEntry(n, true, Decoded(first)), ImageEntry(AugName(n), true, Decoded(second))], Fresh);
      && r.status == Running
      && r.out.Keys == {n, AugName(n), AugName(AugName(n))}
      && r.out[n] == first
      && r.out[AugName(n)] == second
      && r.out[AugName(AugName(n))] == Augment(second)
  {
    var x1 := ImageEntry(n, true, Decoded(first));
    var x2 := ImageEntry(AugName(n), true, Decoded(second));
    VisibleNotHidden(n);
    AugNameNotHidden(n);
    AugNameDiffers(AugName(n));
    assert AugName(AugName(n)) != n by {
      assert |AugName(AugName(n))| == |n| + 8;
    }
    var s1 := ImageStep(Fresh, x1);
    assert s1 == ImageState(WritePair(map[], n, first), Bound(first), Running);
    assert ImageStep(s1, x2) == ImageState(WritePair(s1.out, AugName(n), second), Bound(second), Running);
    assert [x1, x2][1..] == [x2];
    assert [x2][1..] == [];
    assert ImagesAfter([x1, x2], Fresh) == ImagesAfter([x2], s1);
  }

  /** A non-regular entry after a decoded image is written with that image's pixels under its own names. */
  lemma StaleBufferScenario(a: string, p: string, img: Image)
    requires Visible(a) && Visible(p)
    ensures var r := ImagesAfter([ImageEntry(a, true, Decoded(img)), ImageEntry(p, false, DecodeRaised)], Fresh);
      && r.status == Running
      && p in r.out && r.out[p] == img
      && AugName(p) in r.out && r.out[AugName(p)] == Augment(img)
  {
    var ea := ImageEntry(a, true, Decoded(img));
    var ep := ImageEntry(p, false, DecodeRaised);
    VisibleNotHidden(a);
    VisibleNotHidden(p);
    var s1 := ImageStep(Fresh, ea);
    assert [ea, ep][1..] == [ep];
    assert [ep][1..] == [];
    assert ImagesAfter([ea, ep], Fresh) == ImagesAfter([ep], s1);
  }

  /** A non-regular entry before any image: pic is unbound and the run aborts with nothing written. */
  lemma UnboundPicScenario(p: string, a: string, img: Image)
    requires Visible(p)
    ensures var r := ImagesAfter([ImageEntry(p, false, DecodeRaised), ImageEntry(a, true, Decoded(img))], Fresh);
      r.status == Aborted(PicUnbound) && r.out == map[]
  {
    var ep := ImageEntry(p, false, DecodeRaised);
    var ea := ImageEntry(a, true, Decoded(img));
    VisibleNotHidden(p);
    assert [ep, ea][1..] == [ea];
    assert ImagesAfter([ep, ea], Fresh) == ImagesAfter([ea], ImageStep(Fresh, ep));
  }

  /**
   * An image imread returns None for leaves None in pic, and a non-regular
   * entry after it then aborts the run: the isolation of a failed file does
   * not hold for the non-regular entries that follow it.
   */
  lemma NonePicScenario(a: string, b: string, p: string, img: Image)
    requires Visible(a) && Visible(b) && Visible(p)
    ensures var r := ImagesAfter([ImageEntry(a, true, Decoded(img)), ImageEntry(b, true, DecodedNone),
                                  ImageEntry(p, false, DecodeRaised)], Fresh);
      && r.status == Aborted(PicIsNone)
      && r.out == WritePair(map[], a, img)
  {
    var ea := ImageEntry(a, true, Decoded(img));
    var eb := ImageEntry(b, true, DecodedNone);
    var ep := ImageEntry(p, false, DecodeRaised);
    VisibleNotHidden(a);
    VisibleNotHidden(b);
    VisibleNotHidden(p);
    var s1 := ImageStep(Fresh, ea);
    assert s1 == ImageState(WritePair(map[], a, img), Bound(img), Running);
    var s2 := ImageStep(s1, eb);
    assert s2 == ImageState(WritePair(map[], a, img), NoneValue, Running);
    assert [ea, eb, ep][1..] == [eb, ep];
    assert [eb, ep][1..] == [ep];
    assert ImagesAfter([ea, eb, ep], Fresh) == ImagesAfter([eb, ep], s1);
    assert ImagesAfter([eb, ep], s1) == ImagesAfter([ep], s2);
  }

  lemma ThreeLabels(c: string, b: string, h: string, lines: seq<string>)
    requires Visible(c) && Visible(b) && Hidden(h)
    ensures LabelsAfter([LabelEntry(c, Lines(lines)), LabelEntry(b, NotUtf8), LabelEntry(h, Lines(lines))],
                        LabelState(map[], [], Running))
      == LabelState(map[AugName(c) := lines], [b], Running)
  {
    var ec := LabelEntry(c, Lines(lines));
    var eb := LabelEntry(b, NotUtf8);
    var eh := LabelEntry(h, Lines(lines));
    VisibleNotHidden(c);
    VisibleNotHidden(b);
    HiddenIsHidden(h);
    var s0 := LabelState(map[], [], Running);
    var s1 := LabelStep(s0, ec);
    assert s1 == LabelState(map[AugName(c) := lines], [], Running);
    var s2 := LabelStep(s1, eb);
    assert s2 == LabelState(map[AugName(c) := lines], [b], Running);
    assert [ec, eb, eh][1..] == [eb, eh];
    assert [eb, eh][1..] == [eh];
    assert [eh][1..] == [];
    assert LabelsAfter([ec, eb, eh], s0) == LabelsAfter([eb, eh], s1);
    assert LabelsAfter([eb, eh], s1) == LabelsAfter([eh], s2);
    assert LabelStep(s2, eh) == s2;
  }

  lemma UndecodedImage(n: string)
    requires Visible(n)
    ensures ImagesAfter([ImageEntry(n, true, DecodedNone)], Fresh) == ImageState(map[], NoneValue, Running)
  {
    VisibleNotHidden(n);
    assert [ImageEntry(n, true, DecodedNone)][1..] == [];
  }

  /** With both label directories given and a completed image phase, the run is the two phases in turn. */
  lemma BothPhasesRun(cfg: Config, iw: seq<WalkDir<ImageEntry>>, lw: seq<WalkDir<LabelEntry>>)
    requires LabelPhaseRuns(cfg)
    requires ImagesAfter(Flatten(iw), Fresh).status == Running
    ensures var images := ImagesAfter(Flatten(iw), Fresh);
      var labels := LabelsAfter(Flatten(lw), LabelState(map[], [], Running));
      RunSpec(cfg, iw, lw, map[], map[]) == RunResult(images.out, labels.out, labels.warnings, labels.status)
  {
  }

  /**
   * Labels: a readable label is mirrored, an undecodable one is warned about
   * and not written, a hidden one is skipped; and an image that imread could
   * not decode does not stop its label from being mirrored (no pairing guarantee).
   */
  lemma LabelScenario(img: string, c: string, b: string, h: string, lines: seq<string>)
    requires Visible(img) && Visible(c) && Visible(b) && Hidden(h)
    ensures var r := RunSpec(Config(Some("labels"), Some("out_labels")),
        [WalkDir("images", [ImageEntry(img, true, DecodedNone)])],
        [WalkDir("labels", [LabelEntry(c, Lines(lines)), LabelEntry(b, NotUtf8), LabelEntry(h, Lines(lines))])],
        map[], map[]);
      && r.status == Running
      && r.images == map[]
      && r.labels == map[AugName(c) := lines]
      && r.warnings == [b]
  {
    var ies := [ImageEntry(img, true, DecodedNone)];
    var les := [LabelEntry(c, Lines(lines)), LabelEntry(b, NotUtf8), LabelEntry(h, Lines(lines))];
    var iw := [WalkDir("images", ies)];
    var lw := [WalkDir("labels", les)];
    assert Flatten(iw) == ies by { assert iw[1..] == []; }
    assert Flatten(lw) == les by { assert lw[1..] == []; }
    UndecodedImage(img);
    ThreeLabels(c, b, h, lines);
    BothPhasesRun(Config(Some("labels"), Some("out_labels")), iw, lw);
  }
}
