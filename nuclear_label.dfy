/**
 * Post-processing of the nuclei the detector returns (the relabel step of
 * `individualiseNuclei`; the older batch command repeats it line for line):
 * small objects are deleted, the label raster is promoted to 16 bits when
 * more than 255 objects remain, and the survivors are painted 1..K.
 */
module NuclearLabel {
  import opened Regions

  /** The objects whose area reaches the threshold, in their original order. */
  function Survivors(rois: seq<Roi>, areaThreshold: int): (r: seq<Roi>)
    ensures |r| <= |rois|
  {
    if |rois| == 0 then []
    else (if rois[0].area < areaThreshold as real then [] else [rois[0]]) + Survivors(rois[1..], areaThreshold)
  }

  /** An object survives exactly when it was detected and is not smaller than the threshold. */
  lemma {:induction false} SurvivorMembers(rois: seq<Roi>, areaThreshold: int, x: Roi)
    ensures x in Survivors(rois, areaThreshold) <==> x in rois && x.area >= areaThreshold as real
  {
    if |rois| > 0 {
      SurvivorMembers(rois[1..], areaThreshold, x);
      assert rois == [rois[0]] + rois[1..];
    }
  }

  /** Filtering keeps relative order: it distributes over concatenation. */
  lemma {:induction false} SurvivorsConcat(a: seq<Roi>, b: seq<Roi>, areaThreshold: int)
    ensures Survivors(a + b, areaThreshold) == Survivors(a, areaThreshold) + Survivors(b, areaThreshold)
  {
    if |a| > 0 {
      assert (a + b)[1..] == a[1..] + b;
      SurvivorsConcat(a[1..], b, areaThreshold);
    } else {
      assert a + b == b;
    }
  }

  /**
   * The label raster after survivor k (0-based) has been filled with k + 1,
   * for every survivor in ascending order: a later fill overwrites an earlier one.
   */
  function Painted(s: seq<int>, rois: seq<Roi>): (r: seq<int>)
    ensures |r| == |s|
  {
    if |rois| == 0 then s
    else Filled(Painted(s, rois[..|rois| - 1]), rois[|rois| - 1].pixels, |rois|)
  }

  /**
   * On a cleared raster a pixel holds 0 when no survivor covers it, and
   * otherwise k + 1 for the last survivor k that covers it.
   */
  lemma {:induction false} PaintedPixel(s: seq<int>, rois: seq<Roi>, p: int)
    requires 0 <= p < |s|
    requires forall q :: 0 <= q < |s| ==> s[q] == 0
    ensures Painted(s, rois)[p] == LastCover(rois, p) + 1
  {
    if |rois| > 0 {
      var init := rois[..|rois| - 1];
      PaintedPixel(s, init, p);
      if p !in rois[|rois| - 1].pixels {
        assert LastCover(rois, p) == LastCover(init, p);
      }
    }
  }

  /** In 8-bit mode every label value fits in a byte. */
  lemma LabelsFitByte(s: seq<int>, rois: seq<Roi>)
    requires forall q :: 0 <= q < |s| ==> s[q] == 0
    requires |rois| <= 255
    ensures forall p :: 0 <= p < |s| ==> 0 <= Painted(s, rois)[p] <= 255
  {
    forall p | 0 <= p < |s| ensures 0 <= Painted(s, rois)[p] <= 255 {
      PaintedPixel(s, rois, p);
    }
  }

  /** Taking index `i` into the suffix filter adds object `i` exactly when it survives. */
  lemma SurvivorsStep(rois: seq<Roi>, areaThreshold: int, i: int)
    requires 0 <= i < |rois|
    ensures Survivors(rois[i..], areaThreshold)
         == (if rois[i].area < areaThreshold as real then [] else [rois[i]]) + Survivors(rois[i + 1..], areaThreshold)
  {
    assert rois[i..][0] == rois[i];
    assert rois[i..][1..] == rois[i + 1..];
  }

  /**
   * The deletion loop: walks the object list from the last index down and
   * deletes every object whose area is below `areaThreshold`.
   */
  method DeleteSmall(rois: seq<Roi>, areaThreshold: int) returns (survivors: seq<Roi>)
    ensures survivors == Survivors(rois, areaThreshold)
  {
    survivors := rois;
    var i := |rois| - 1;
    while i >= 0
      invariant -1 <= i < |rois|
      invariant survivors == rois[..i + 1] + Survivors(rois[i + 1..], areaThreshold)
    {
      SurvivorsStep(rois, areaThreshold, i);
      assert survivors[..i] == rois[..i];
      assert survivors[i + 1..] == Survivors(rois[i + 1..], areaThreshold);
      assert rois[..i + 1] == rois[..i] + [rois[i]];
      if rois[i].area < areaThreshold as real {
        survivors := survivors[..i] + survivors[i + 1..];
      }
      i := i - 1;
    }
    assert rois[0..] == rois;
  }

  /**
   * The relabel step: clears the raster, deletes every object with area
   * below `areaThreshold`, decides the bit depth from the survivor count,
   * and paints survivor i with i + 1. Returns the object list that is saved
   * with the raster.
   */
  method Relabel(raster: array<int>, rois: seq<Roi>, areaThreshold: int) returns (survivors: seq<Roi>, sixteenBit: bool)
    modifies raster
    ensures survivors == Survivors(rois, areaThreshold)
    ensures sixteenBit <==> |survivors| > 255
    ensures raster[..] == Painted(Constant(raster.Length, 0), survivors)
  {
    FillAll(raster, 0);
    var cleared := raster[..];
    survivors := DeleteSmall(rois, areaThreshold);
    sixteenBit := |survivors| > 255;
    for k := 0 to |survivors|
      invariant raster[..] == Painted(cleared, survivors[..k])
    {
      assert survivors[..k + 1][..k] == survivors[..k];
      FillRegion(raster, survivors[k].pixels, k + 1);
    }
    assert survivors[..|survivors|] == survivors;
  }
}
