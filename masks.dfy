/**
 * Intersection of mask images (`Masks.and`): a copy of the first image with
 * every pixel outside each later image's selection painted 0, and the
 * selection re-extracted from the pixels left at 255.
 */
module Masks {
  import opened Regions

  /** A pixel survives a mask when the mask has no selection or the pixel lies in it. */
  predicate Admits(m: MaskImage, p: Pixel)
  {
    m.roi.None? || p in m.roi.value
  }

  /**
   * Applies `fillOutside` with 0 for each of `masks` in turn. ImageJ's
   * `fillOutside` does nothing for a missing selection.
   */
  function Intersected(s: seq<int>, masks: seq<MaskImage>): (r: seq<int>)
    ensures |r| == |s|
    ensures forall p :: 0 <= p < |s| ==>
      r[p] == if forall k :: 0 <= k < |masks| ==> Admits(masks[k], p) then s[p] else 0
  {
    if |masks| == 0 then s
    else
      var last := masks[|masks| - 1];
      var before := Intersected(s, masks[..|masks| - 1]);
      assert forall k :: 0 <= k < |masks| - 1 ==> masks[..|masks| - 1][k] == masks[k];
      if last.roi.None? then before else FilledOutside(before, last.roi.value, 0)
  }

  /** The image `and` returns: the intersected copy with its selection re-extracted at 255. */
  function Combined(imps: seq<MaskImage>): MaskImage
    requires |imps| >= 1
  {
    var s := Intersected(imps[0].samples, imps[1..]);
    MaskImage(s, Selection(s))
  }

  /** `Masks.and(imps...)`: the inputs are copied, never modified. */
  method And(imps: seq<MaskImage>) returns (result: MaskImage)
    requires |imps| >= 1
    ensures result == Combined(imps)
    ensures |result.samples| == |imps[0].samples|
    ensures forall p :: 0 <= p < |result.samples| ==>
      result.samples[p] == if forall k :: 1 <= k < |imps| ==> Admits(imps[k], p) then imps[0].samples[p] else 0
  {
    var ip := Duplicate(imps[0].samples);
    for i := 1 to |imps|
      invariant ip[..] == Intersected(imps[0].samples, imps[1..i])
    {
      assert imps[1..i + 1][..i - 1] == imps[1..i];
      var roi := imps[i].roi;
      if roi.Some? {
        FillOutside(ip, roi.value, 0);
      }
    }
    assert imps[1..|imps|] == imps[1..];
    result := MaskImage(ip[..], Selection(ip[..]));
  }

  /** The later masks act as a set: their order does not matter. */
  lemma OrderFree(s: seq<int>, a: seq<MaskImage>, b: seq<MaskImage>)
    requires multiset(a) == multiset(b)
    ensures Intersected(s, a) == Intersected(s, b)
  {
    forall p | 0 <= p < |s| ensures Intersected(s, a)[p] == Intersected(s, b)[p] {
      SameAdmission(a, b, p);
    }
  }

  lemma SameAdmission(a: seq<MaskImage>, b: seq<MaskImage>, p: Pixel)
    requires multiset(a) == multiset(b)
    ensures (forall k :: 0 <= k < |a| ==> Admits(a[k], p)) <==> (forall k :: 0 <= k < |b| ==> Admits(b[k], p))
  {
    if forall k :: 0 <= k < |a| ==> Admits(a[k], p) {
      forall k | 0 <= k < |b| ensures Admits(b[k], p) {
        assert b[k] in multiset(b);
        var j :| 0 <= j < |a| && a[j] == b[k];
      }
    }
    if forall k :: 0 <= k < |b| ==> Admits(b[k], p) {
      forall k | 0 <= k < |a| ensures Admits(a[k], p) {
        assert a[k] in multiset(a);
        var j :| 0 <= j < |b| && b[j] == a[k];
      }
    }
  }

  /** A mask that is already among the later masks changes nothing when repeated. */
  lemma RepeatFree(s: seq<int>, masks: seq<MaskImage>, m: MaskImage)
    requires m in masks
    ensures Intersected(s, masks + [m]) == Intersected(s, masks)
  {
    var j :| 0 <= j < |masks| && masks[j] == m;
    var ext := masks + [m];
    forall p | 0 <= p < |s| ensures Intersected(s, ext)[p] == Intersected(s, masks)[p] {
      assert ext[j] == m && ext[|masks|] == m;
      assert forall k :: 0 <= k < |masks| ==> ext[k] == masks[k];
    }
  }

  /** With a single image the result is a copy of it. */
  lemma SingleImage(img: MaskImage)
    ensures Combined([img]).samples == img.samples
  {
    assert [img][1..] == [];
  }
}
