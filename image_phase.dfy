/**
 * Phase 1 of imgaug.py: every non-hidden entry of the image walk is decoded,
 * augmented, and written twice into the flat output directory, under its own
 * basename and under "aug_" + basename.
 */
module ImagePhase {
  import opened Paths
  import opened Augmentation
  import opened Walk
  import opened Outcome

  /** What cv2.imread gives for a regular file: an image, None, or an exception. */
  datatype Decoded = Decoded(image: Image) | DecodedNone | DecodeRaised

  /** A file name listed by the walk, whether os.path.isfile holds of it, and what imread would give. */
  datatype ImageEntry = ImageEntry(name: string, isFile: bool, decoded: Decoded)

  /**
   * The script's variable pic, which survives from one iteration to the next:
   * never assigned, assigned None by a failed imread, or holding an image.
   */
  datatype Pic = Unbound | NoneValue | Bound(image: Image)

  /** The output image directory (file name to image), pic, and whether the run goes on. */
  datatype ImageState = ImageState(out: map<string, Image>, pic: Pic, status: Status)

  /** The two imwrite calls: the original under name, then the augmented copy under "aug_" + name. */
  function WritePair(out: map<string, Image>, name: string, img: Image): (r: map<string, Image>)
    ensures r.Keys == out.Keys + {name, AugName(name)}
    ensures r[name] == img && r[AugName(name)] == Augment(img)
    ensures forall k :: k in out && k != name && k != AugName(name) ==> r[k] == out[k]
  {
    AugNameDiffers(name);
    out[name := img][AugName(name) := Augment(img)]
  }

  /** Does entry e, if the run reaches it and goes on, write the output file k? */
  predicate Touches(e: ImageEntry, k: string)
  {
    Writes(e) && (k == e.name || k == AugName(e.name))
  }

  /** One iteration of the inner loop. */
  function ImageStep(st: ImageState, e: ImageEntry): (r: ImageState)
    requires st.status == Running
    ensures IsHiddenFile(e.name) ==> r == st
    ensures forall k :: k in st.out ==> k in r.out
    ensures forall k :: k in r.out && !Touches(e, k) ==> k in st.out && r.out[k] == st.out[k]
    ensures r.status != Running ==> !IsHiddenFile(e.name) && !e.isFile
    ensures r.status != Running ==> r.out == st.out
  {
    if IsHiddenFile(e.name) then st
    else if e.isFile && e.decoded.DecodeRaised? then st
    else if e.isFile && e.decoded.DecodedNone? then st.(pic := NoneValue)
    else
      var pic := if e.isFile then Bound(e.decoded.image) else st.pic;
      match pic
      case Unbound => st.(status := Aborted(PicUnbound))
      case NoneValue => st.(status := Aborted(PicIsNone))
      case Bound(img) => ImageState(WritePair(st.out, e.name, img), pic, Running)
  }

  /** The state after the loop has processed the entries es, starting from st; an abort ends it. */
  function ImagesAfter(es: seq<ImageEntry>, st: ImageState): (r: ImageState)
    ensures st.status != Running ==> r == st
    ensures forall k :: k in st.out ==> k in r.out
  {
    if es == [] || st.status != Running then st
    else ImagesAfter(es[1..], ImageStep(st, es[0]))
  }

  /** Processing a + b is processing a, then b from where a left off. */
  lemma {:induction false} ImagesAfterAppend(a: seq<ImageEntry>, b: seq<ImageEntry>, st: ImageState)
    ensures ImagesAfter(a + b, st) == ImagesAfter(b, ImagesAfter(a, st))
    decreases |a|
  {
    if a != [] && st.status == Running {
      assert (a + b)[0] == a[0] && (a + b)[1..] == a[1..] + b;
      ImagesAfterAppend(a[1..], b, ImageStep(st, a[0]));
    } else if a == [] {
      assert a + b == b;
    }
  }

  /** The run seen from entry i: what came before, entry i itself, and what follows. */
  lemma ImagesAfterSplit(es: seq<ImageEntry>, i: nat, st: ImageState)
    requires i < |es| && ImagesAfter(es[..i], st).status == Running
    ensures ImagesAfter(es, st) == ImagesAfter(es[i + 1..], ImageStep(ImagesAfter(es[..i], st), es[i]))
  {
    assert es == es[..i] + ([es[i]] + es[i + 1..]);
    ImagesAfterAppend(es[..i], [es[i]] + es[i + 1..], st);
    assert ([es[i]] + es[i + 1..])[1..] == es[i + 1..];
  }

  /**
   * The body of the inner loop for a visible entry: imread for a regular
   * file, then addWeighted and the two imwrite calls on whatever pic holds.
   */
  method AugmentEntry(e: ImageEntry, out0: map<string, Image>, pic0: Pic) returns (st: ImageState)
    requires !IsHiddenFile(e.name)
    ensures st == ImageStep(ImageState(out0, pic0, Running), e)
  {
    var pic := pic0;
    if e.isFile {
      match e.decoded
      case DecodeRaised =>
        return ImageState(out0, pic, Running);
      case DecodedNone =>
        return ImageState(out0, NoneValue, Running);
      case Decoded(img) =>
        pic := Bound(img);
    }
    match pic
    case Unbound =>
      return ImageState(out0, pic, Aborted(PicUnbound));
    case NoneValue =>
      return ImageState(out0, pic, Aborted(PicIsNone));
    case Bound(img) =>
      var turned := Augment(img);
      var out := out0[e.name := img];
      out := out[AugName(e.name) := turned];
      return ImageState(out, pic, Running);
  }

  /** The inner loop of imgaug.py: the files of one directory, pic carried in and out. */
  method AugmentDirectory(files: seq<ImageEntry>, out0: map<string, Image>, pic0: Pic) returns (st: ImageState)
    ensures st == ImagesAfter(files, ImageState(out0, pic0, Running))
  {
    ghost var spec := ImagesAfter(files, ImageState(out0, pic0, Running));
    var out := out0;
    var pic := pic0;
    for i := 0 to |files|
      invariant spec == ImagesAfter(files[i..], ImageState(out, pic, Running))
    {
      assert files[i..][1..] == files[i + 1..];
      if IsHiddenFile(files[i].name) {
        continue;
      }
      st := AugmentEntry(files[i], out, pic);
      if st.status != Running {
        return;
      }
      out, pic := st.out, st.pic;
    }
    return ImageState(out, pic, Running);
  }

  /** The outer loop of imgaug.py over the directories of the walk; an abort ends the run. */
  method AugmentImages(walk: seq<WalkDir<ImageEntry>>, out0: map<string, Image>) returns (st: ImageState)
    ensures st == ImagesAfter(Flatten(walk), ImageState(out0, Unbound, Running))
  {
    ghost var spec := ImagesAfter(Flatten(walk), ImageState(out0, Unbound, Running));
    var out := out0;
    var pic := Unbound;
    for d := 0 to |walk|
      invariant spec == ImagesAfter(Flatten(walk[d..]), ImageState(out, pic, Running))
    {
      assert walk[d..][0] == walk[d] && walk[d..][1..] == walk[d + 1..];
      ImagesAfterAppend(walk[d].files, Flatten(walk[d + 1..]), ImageState(out, pic, Running));
      st := AugmentDirectory(walk[d].files, out, pic);
      if st.status != Running {
        return;
      }
      out, pic := st.out, st.pic;
    }
    return ImageState(out, pic, Running);
  }

  /** An entry that, if the run goes on past it, has written its pair of output files. */
  predicate Writes(e: ImageEntry)
  {
    !IsHiddenFile(e.name) && (!e.isFile || e.decoded.Decoded?)
  }

  /** The output names entry e writes when the run goes on past it. */
  function EntryKeys(e: ImageEntry): set<string>
  {
    if Writes(e) then {e.name, AugName(e.name)} else {}
  }

  /** The output names written by the entries es when the run does not abort. */
  function WrittenKeys(es: seq<ImageEntry>): set<string>
  {
    if es == [] then {} else EntryKeys(es[0]) + WrittenKeys(es[1..])
  }

  /** One iteration adds at most the entry's own names, and exactly those when the run goes on. */
  lemma StepKeys(st: ImageState, e: ImageEntry)
    requires st.status == Running
    ensures var r := ImageStep(st, e);
      && st.out.Keys <= r.out.Keys <= st.out.Keys + EntryKeys(e)
      && (r.status == Running ==> r.out.Keys == st.out.Keys + EntryKeys(e))
  {
  }

  /**
   * The output directory keeps what it held (os.makedirs leaves existing
   * contents alone) and gains only the names of writing entries; a run that
   * completes gains exactly those names.
   */
  lemma {:induction false} ImageOutputKeys(es: seq<ImageEntry>, st: ImageState)
    requires st.status == Running
    ensures st.out.Keys <= ImagesAfter(es, st).out.Keys <= st.out.Keys + WrittenKeys(es)
    ensures ImagesAfter(es, st).status == Running ==>
      ImagesAfter(es, st).out.Keys == st.out.Keys + WrittenKeys(es)
  {
    if es != [] {
      var next := ImageStep(st, es[0]);
      StepKeys(st, es[0]);
      assert ImagesAfter(es, st) == ImagesAfter(es[1..], next);
      assert WrittenKeys(es) == EntryKeys(es[0]) + WrittenKeys(es[1..]);
      if next.status == Running {
        ImageOutputKeys(es[1..], next);
      }
    }
  }

  /** No written name is hidden when the walk's names are plain file names. */
  lemma {:induction false} WrittenKeysNotHidden(es: seq<ImageEntry>)
    requires forall e :: e in es ==> '/' !in e.name
    ensures forall k :: k in WrittenKeys(es) ==> !IsHiddenFile(k)
  {
    if es != [] {
      AugNameNotHidden(es[0].name);
      WrittenKeysNotHidden(es[1..]);
    }
  }

  /** Hidden files never reach the output directory: every name the run adds is visible. */
  lemma HiddenFilesNeverWritten(es: seq<ImageEntry>, st: ImageState)
    requires st.status == Running
    requires forall e :: e in es ==> '/' !in e.name
    ensures forall k :: k in ImagesAfter(es, st).out && k !in st.out ==> !IsHiddenFile(k)
  {
    ImageOutputKeys(es, st);
    WrittenKeysNotHidden(es);
  }

  /** An output file that no visible entry names keeps its content. */
  lemma {:induction false} UntouchedFileKept(es: seq<ImageEntry>, st: ImageState, k: string)
    requires k in st.out
    requires forall i :: 0 <= i < |es| ==> !Touches(es[i], k)
    ensures k in ImagesAfter(es, st).out && ImagesAfter(es, st).out[k] == st.out[k]
  {
    if es != [] && st.status == Running {
      assert !Touches(es[0], k);
      UntouchedFileKept(es[1..], ImageStep(st, es[0]), k);
    }
  }

  /**
   * A visible regular file that decodes to img ends up in the output as img
   * under its name and as Augment(img) under "aug_" + its name, provided the
   * run reached it and no later visible entry writes either name (the output
   * is flat, so a later entry with the same basename overwrites it).
   */
  lemma DecodedImageStored(es: seq<ImageEntry>, st: ImageState, i: nat)
    requires st.status == Running && i < |es|
    requires !IsHiddenFile(es[i].name) && es[i].isFile && es[i].decoded.Decoded?
    requires ImagesAfter(es[..i], st).status == Running
    requires forall j :: i < j < |es| ==> !Touches(es[j], es[i].name) && !Touches(es[j], AugName(es[i].name))
    ensures var r := ImagesAfter(es, st).out;
      es[i].name in r && r[es[i].name] == es[i].decoded.image &&
      AugName(es[i].name) in r && r[AugName(es[i].name)] == Augment(es[i].decoded.image)
  {
    var e := es[i];
    ImagesAfterSplit(es, i, st);
    var after := ImageStep(ImagesAfter(es[..i], st), e);
    DecodedStep(ImagesAfter(es[..i], st), e);
    NoLaterTouch(es, i, e.name);
    NoLaterTouch(es, i, AugName(e.name));
    UntouchedFileKept(es[i + 1..], after, e.name);
    UntouchedFileKept(es[i + 1..], after, AugName(e.name));
  }

  /** A visible regular file that decodes writes its pair and the run goes on. */
  lemma DecodedStep(st: ImageState, e: ImageEntry)
    requires st.status == Running
    requires !IsHiddenFile(e.name) && e.isFile && e.decoded.Decoded?
    ensures var r := ImageStep(st, e);
      && r.status == Running
      && e.name in r.out && r.out[e.name] == e.decoded.image
      && AugName(e.name) in r.out && r.out[AugName(e.name)] == Augment(e.decoded.image)
  {
    assert ImageStep(st, e) == ImageState(WritePair(st.out, e.name, e.decoded.image), Bound(e.decoded.image), Running);
  }

  /** The entries after i, renumbered from 0, still leave k alone. */
  lemma NoLaterTouch(es: seq<ImageEntry>, i: nat, k: string)
    requires i < |es|
    requires forall j :: i < j < |es| ==> !Touches(es[j], k)
    ensures var rest := es[i + 1..];
      forall j :: 0 <= j < |rest| ==> !Touches(rest[j], k)
  {
    var rest := es[i + 1..];
    forall j | 0 <= j < |rest|
      ensures !Touches(rest[j], k)
    {
      assert rest[j] == es[i + 1 + j];
    }
  }

  /**
   * Reference definition of the carried-over pic: the outcome of the last
   * visible regular entry whose imread returned (an image or None); p when
   * there is none. A raising imread leaves pic as it was.
   */
  function PicAfter(es: seq<ImageEntry>, p: Pic): Pic
  {
    if es == [] then p
    else
      var e := es[|es| - 1];
      if !IsHiddenFile(e.name) && e.isFile && e.decoded.Decoded? then Bound(e.decoded.image)
      else if !IsHiddenFile(e.name) && e.isFile && e.decoded.DecodedNone? then NoneValue
      else PicAfter(es[..|es| - 1], p)
  }

  /** The pic after one iteration that does not abort, in the terms of PicAfter. */
  lemma StepPic(st: ImageState, e: ImageEntry)
    requires st.status == Running
    ensures var r := ImagesAfter([e], st);
      r.status == Running ==> r.pic == PicAfter([e], st.pic)
  {
    assert [e][1..] == [];
    assert [e][..0] == [];
  }

  /** While the run goes on, pic is exactly PicAfter of the entries processed so far. */
  lemma {:induction false} PicCarriedOver(es: seq<ImageEntry>, st: ImageState)
    requires st.status == Running
    requires ImagesAfter(es, st).status == Running
    ensures ImagesAfter(es, st).pic == PicAfter(es, st.pic)
    decreases |es|
  {
    if es != [] {
      var init := es[..|es| - 1];
      var last := es[|es| - 1];
      assert es == init + [last];
      ImagesAfterAppend(init, [last], st);
      var mid := ImagesAfter(init, st);
      assert mid.status == Running;
      PicCarriedOver(init, st);
      StepPic(mid, last);
      assert es[..|es| - 1] == init;
    }
  }

  /**
   * A visible entry that is not a regular file skips imread but still writes:
   * the pic left by earlier iterations goes out under this entry's name and
   * its "aug_" name; with no image left over the run aborts, writing nothing.
   */
  lemma NonRegularEntryReusesPic(es: seq<ImageEntry>, st: ImageState, i: nat)
    requires st.status == Running && i < |es|
    requires !IsHiddenFile(es[i].name) && !es[i].isFile
    requires ImagesAfter(es[..i], st).status == Running
    ensures var before := ImagesAfter(es[..i], st);
      var after := ImagesAfter(es[..i + 1], st);
      var p := PicAfter(es[..i], st.pic);
      && (p.Bound? ==> after.status == Running && after.out == WritePair(before.out, es[i].name, p.image))
      && (p == Unbound ==> after.status == Aborted(PicUnbound) && after.out == before.out)
      && (p == NoneValue ==> after.status == Aborted(PicIsNone) && after.out == before.out)
  {
    assert es[..i + 1] == es[..i] + [es[i]];
    ImagesAfterAppend(es[..i], [es[i]], st);
    PicCarriedOver(es[..i], st);
    NonRegularStep(ImagesAfter(es[..i], st), es[i]);
  }

  /** One visible non-regular entry, in terms of the pic it finds. */
  lemma NonRegularStep(st: ImageState, e: ImageEntry)
    requires st.status == Running && !IsHiddenFile(e.name) && !e.isFile
    ensures var after := ImagesAfter([e], st);
      && (st.pic.Bound? ==> after.status == Running && after.out == WritePair(st.out, e.name, st.pic.image))
      && (st.pic == Unbound ==> after.status == Aborted(PicUnbound) && after.out == st.out)
      && (st.pic == NoneValue ==> after.status == Aborted(PicIsNone) && after.out == st.out)
  {
    assert [e][1..] == [];
  }

  /** Entries that are all hidden or regular files write the same whatever pic was before them. */
  lemma {:induction false} RegularEntriesIgnorePic(b: seq<ImageEntry>, s1: ImageState, s2: ImageState)
    requires s1.out == s2.out && s1.status == s2.status
    requires forall x :: x in b ==> IsHiddenFile(x.name) || x.isFile
    ensures ImagesAfter(b, s1).out == ImagesAfter(b, s2).out
    ensures ImagesAfter(b, s1).status == ImagesAfter(b, s2).status
  {
    if b != [] && s1.status == Running {
      assert b[0] in b;
      RegularEntriesIgnorePic(b[1..], ImageStep(s1, b[0]), ImageStep(s2, b[0]));
    }
  }

  /**
   * Per-file isolation: an image imread cannot decode (None or an exception)
   * writes nothing and does not stop the run, so the output is what it would
   * be without that file, as long as no non-regular entry follows it (one
   * that does would pick up the None that imread left in pic).
   */
  lemma FailedDecodeIsolated(a: seq<ImageEntry>, e: ImageEntry, b: seq<ImageEntry>, st: ImageState)
    requires st.status == Running
    requires !IsHiddenFile(e.name) && e.isFile && !e.decoded.Decoded?
    requires forall x :: x in b ==> IsHiddenFile(x.name) || x.isFile
    ensures ImagesAfter(a + [e] + b, st).out == ImagesAfter(a + b, st).out
    ensures ImagesAfter(a + [e] + b, st).status == ImagesAfter(a + b, st).status
  {
    ImagesAfterAppend(a + [e], b, st);
    ImagesAfterAppend(a, [e], st);
    ImagesAfterAppend(a, b, st);
    RegularEntriesIgnorePic(b, ImagesAfter(a + [e], st), ImagesAfter(a, st));
  }

  /** An imread that raises leaves pic untouched too, so that file is invisible to the run. */
  lemma RaisingDecodeInvisible(a: seq<ImageEntry>, e: ImageEntry, b: seq<ImageEntry>, st: ImageState)
    requires e.isFile && e.decoded == DecodeRaised
    ensures ImagesAfter(a + [e] + b, st) == ImagesAfter(a + b, st)
  {
    ImagesAfterAppend(a + [e], b, st);
    ImagesAfterAppend(a, [e], st);
    ImagesAfterAppend(a, b, st);
  }
}
