/**
 * The brightness/contrast transform of imgaug.py: OpenCV's
 * addWeighted(pic, 1.2, pic, 0, 30), which computes 1.2 * s + 0 * s + 30 for
 * every sample s, rounds to the nearest integer and saturates to 0..255.
 * The model uses exact integers in tenths instead of floating point.
 */
module Augmentation {

  /** An unsigned 8-bit image sample. */
  type Sample = x: int | 0 <= x < 256

  /** Contrast 1.2 and brightness 30, written in tenths. */
  const ContrastTenths: int := 12
  const BrightnessTenths: int := 300

  /**
   * A decoded image: height x width x channels samples, stored row by row,
   * pixel by pixel, channel by channel (the layout of an OpenCV matrix).
   */
  datatype Image = Image(height: nat, width: nat, channels: nat, samples: seq<Sample>)
  {
    predicate Valid()
    {
      |samples| == height * width * channels
    }

    /** The sample of channel k of the pixel in row y, column x. */
    function At(y: nat, x: nat, k: nat): Sample
      requires Valid() && y < height && x < width && k < channels
    {
      IndexInRange(height, width, channels, y, x, k);
      samples[(y * width + x) * channels + k]
    }
  }

  /** The flat position of (y, x, k) lies inside an h x w x c buffer. */
  lemma IndexInRange(h: nat, w: nat, c: nat, y: nat, x: nat, k: nat)
    requires y < h && x < w && k < c
    ensures (y * w + x) * c + k < h * w * c
  {
    assert y * w + x < h * w by {
      assert y * w <= (h - 1) * w;
    }
    assert (y * w + x + 1) * c <= (h * w) * c;
  }

  /**
   * One sample of addWeighted(pic, 1.2, pic, 0, 30): the result saturates at
   * 255 exactly from 188 on, it is never below the input and never below 30,
   * and below saturation it is the integer nearest to 1.2 * s + 30 (strictly
   * nearer than one half, so there is never a tie to break).
   */
  function AugmentSample(s: Sample): (r: Sample)
    ensures 30 <= r && s <= r
    ensures r == 255 <==> s >= 188
    ensures s < 188 ==>
      10 * r - 5 < ContrastTenths * s + BrightnessTenths < 10 * r + 5
  {
    var rounded := (ContrastTenths * s + BrightnessTenths + 5) / 10;
    if rounded > 255 then 255 else rounded
  }

  /** Brighter input never gives a darker output. */
  lemma AugmentSampleMonotonic(s: Sample, t: Sample)
    requires s <= t
    ensures AugmentSample(s) <= AugmentSample(t)
  {
  }

  /** The transform is not idempotent: applying it again brightens further until saturation. */
  lemma AugmentSampleCompounds(s: Sample)
    ensures AugmentSample(AugmentSample(s)) >= AugmentSample(s)
    ensures AugmentSample(s) < 255 ==> AugmentSample(AugmentSample(s)) > AugmentSample(s)
  {
  }

  /** Sample-by-sample application of the transform to a flat buffer. */
  function AugmentSamples(s: seq<Sample>): (r: seq<Sample>)
    ensures |r| == |s|
    ensures forall i :: 0 <= i < |s| ==> r[i] == AugmentSample(s[i])
  {
    if s == [] then [] else [AugmentSample(s[0])] + AugmentSamples(s[1..])
  }

  /**
   * The augmented image: the same height, width and channel count, and every
   * sample transformed on its own.
   */
  function Augment(img: Image): (r: Image)
    ensures r.height == img.height && r.width == img.width && r.channels == img.channels
    ensures |r.samples| == |img.samples|
    ensures img.Valid() ==> r.Valid()
    ensures forall i :: 0 <= i < |img.samples| ==> r.samples[i] == AugmentSample(img.samples[i])
  {
    img.(samples := AugmentSamples(img.samples))
  }

  /**
   * Pixel view of Augment: channel k of pixel (y, x) of the augmented image is
   * the transform of the same channel of the same pixel, hence in 30..255 and
   * no darker than the original.
   */
  lemma AugmentAt(img: Image, y: nat, x: nat, k: nat)
    requires img.Valid() && y < img.height && x < img.width && k < img.channels
    ensures Augment(img).Valid()
    ensures Augment(img).At(y, x, k) == AugmentSample(img.At(y, x, k))
    ensures 30 <= Augment(img).At(y, x, k) && img.At(y, x, k) <= Augment(img).At(y, x, k)
  {
    IndexInRange(img.height, img.width, img.channels, y, x, k);
  }
}
