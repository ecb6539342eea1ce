/** The dimension rule of `resizeImageIfNeeded`: images larger than
    `MAX_DIMENSION` on either side are scaled so the longer side is exactly
    `MAX_DIMENSION`, the other side by the same ratio, rounded. */
module Resize {
  import opened Rounding
  import opened Results

  const MaxDimension: nat := 1920

  datatype Dims = Dims(width: nat, height: nat)

  datatype ResizeError = InvalidDimension

  predicate Fits(d: Dims)
  {
    d.width <= MaxDimension && d.height <= MaxDimension
  }

  /** The canvas size the page computes for a w x h image. A wider-than-tall
      image keeps width 1920; any other oversized image (a square included)
      keeps height 1920. The other side is `Math.round(short / long * 1920)`. */
  function TargetSize(w: nat, h: nat): (r: Dims)
    ensures Fits(r)
    ensures Fits(Dims(w, h)) ==> r == Dims(w, h)
    ensures !Fits(Dims(w, h)) && w > h ==>
      r.width == MaxDimension && 2 * w * r.height <= 2 * h * 1920 + w < 2 * w * (r.height + 1)
    ensures !Fits(Dims(w, h)) && w <= h ==>
      r.height == MaxDimension && 2 * h * r.width <= 2 * w * 1920 + h < 2 * h * (r.width + 1)
  {
    if w > MaxDimension || h > MaxDimension then
      if w > h then
        var sh := RoundHalfUp(h * 1920, w);
        ScaledSideFits(h, w);
        Dims(MaxDimension, sh)
      else
        var sw := RoundHalfUp(w * 1920, h);
        ScaledSideFits(w, h);
        Dims(sw, MaxDimension)
    else
      Dims(w, h)
  }

  /** The shorter side, scaled by 1920 over the longer, is at most 1920. */
  lemma ScaledSideFits(short: nat, long: nat)
    requires 0 < long && short <= long
    ensures RoundHalfUp(short * 1920, long) <= 1920
  {
    var r := RoundHalfUp(short * 1920, long);
    if r > 1920 {
      assert 2 * long * r == r * (2 * long) && 2 * long * 1921 == 1921 * (2 * long);
      MulLe(1921, r, 2 * long);
    }
  }

  /** Resizing is idempotent: a computed size is left alone by a second pass. */
  lemma TargetSizeIdempotent(w: nat, h: nat)
    ensures TargetSize(TargetSize(w, h).width, TargetSize(w, h).height) == TargetSize(w, h)
  {
  }

  /** The longer side of an oversized image becomes 1920; a square goes to 1920 x 1920. */
  lemma LongerSideBecomesMax(w: nat, h: nat)
    requires !Fits(Dims(w, h))
    ensures w > h ==> TargetSize(w, h).width == MaxDimension
    ensures w <= h ==> TargetSize(w, h).height == MaxDimension
    ensures w == h ==> TargetSize(w, h) == Dims(MaxDimension, MaxDimension)
  {
    if w == h {
      RoundHalfUpUnique(w * 1920, h, MaxDimension);
    }
  }

  /** For an image with both sides at least one pixel, the computed size has a
      zero side exactly when the shorter side is under 1/3840 of the longer:
      the rounding has no lower bound. */
  lemma ZeroSideIff(w: nat, h: nat)
    requires w >= 1 && h >= 1
    ensures (TargetSize(w, h).width == 0 || TargetSize(w, h).height == 0)
            <==> (w > h && 3840 * h < w) || (w <= h && 3840 * w < h)
  {
    if !Fits(Dims(w, h)) {
      if w > h {
        RoundHalfUpZeroIff(h * 1920, w);
      } else {
        RoundHalfUpZeroIff(w * 1920, h);
      }
    }
  }

  /** A 3000 x 1000 image is given a 1920 x 640 canvas. */
  lemma WideImageExample()
    ensures TargetSize(3000, 1000) == Dims(1920, 640)
    ensures CheckedTargetSize(3000, 1000) == Success(Dims(1920, 640))
  {
    RoundHalfUpUnique(1000 * 1920, 3000, 640);
  }

  /** A 5000 x 1 image is given a canvas 1920 wide and 0 high. */
  lemma ThinImageCollapses()
    ensures TargetSize(5000, 1) == Dims(1920, 0)
  {
    RoundHalfUpUnique(1 * MaxDimension, 5000, 0);
  }

  /** The size the pipeline needs: the page's rule, refusing a result with an
      empty side (a zero-height canvas can neither be read back nor encoded). */
  function CheckedTargetSize(w: nat, h: nat): (r: Result<Dims, ResizeError>)
    ensures r.Success? <==> TargetSize(w, h).width >= 1 && TargetSize(w, h).height >= 1
    ensures r.Success? ==> r.value == TargetSize(w, h) && Fits(r.value)
    ensures r.Success? ==> r.value.width >= 1 && r.value.height >= 1
    ensures r.Failure? ==> r.error == InvalidDimension
  {
    var t := TargetSize(w, h);
    if t.width == 0 || t.height == 0 then Failure(InvalidDimension) else Success(t)
  }

  /** The checked rule accepts every non-empty image whose shorter side is at
      least 1/3840 of its longer side, and rejects 5000 x 1. */
  lemma CheckedTargetSizeAccepts(w: nat, h: nat)
    requires w >= 1 && h >= 1
    ensures CheckedTargetSize(w, h).Success?
            <==> !((w > h && 3840 * h < w) || (w <= h && 3840 * w < h))
    ensures CheckedTargetSize(5000, 1) == Failure(InvalidDimension)
  {
    ZeroSideIff(w, h);
    ThinImageCollapses();
  }
}
