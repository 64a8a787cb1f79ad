/**
 * Crosstalk cleaning of a four-channel fluorescence image (the "Clean
 * Channels" command).
 *
 * Channels are 8-bit rasters. ImageJ's byte arithmetic saturates: a
 * difference below 0 becomes 0, and `multiply(c)` rounds the product half up
 * (`Math.round`) before clamping to 0..255. The morphological dilation by a
 * disk of radius 2 is a library operation and is a parameter here.
 */
module CleanChannels {
  import opened Regions

  predicate IsByte(v: int) { 0 <= v <= 255 }

  predicate Bytes(s: seq<int>)
  {
    forall p :: 0 <= p < |s| ==> IsByte(s[p])
  }

  /** Saturation to the byte range. */
  function Clamp(v: int): (r: int)
    ensures IsByte(r)
    ensures IsByte(v) ==> r == v
    ensures v < 0 ==> r == 0
  {
    if v < 0 then 0 else if v > 255 then 255 else v
  }

  /** One pixel of an ImageJ byte `subtract`. */
  function Sub8(a: int, b: int): int
  {
    Clamp(a - b)
  }

  /** One pixel of an ImageJ byte `multiply(c)`. */
  function Scale8(v: int, c: real): int
  {
    Clamp((v as real * c + 0.5).Floor)
  }

  /** Halving a byte rounds half up: `multiply(0.5)` maps v to (v + 1) / 2. */
  lemma HalfRoundsUp(v: int)
    requires IsByte(v)
    ensures Scale8(v, 0.5) == (v + 1) / 2
  {
    var q := (v + 1) / 2;
    var x := v as real * 0.5 + 0.5;
    assert x == (v + 1) as real / 2.0;
    assert q as real <= x < q as real + 1.0;
  }

  /** Pixelwise saturating difference of two equally sized rasters. */
  function Difference(a: seq<int>, b: seq<int>): (r: seq<int>)
    requires |a| == |b|
    ensures |r| == |a|
    ensures forall p :: 0 <= p < |a| ==> r[p] == Sub8(a[p], b[p])
  {
    seq(|a|, p requires 0 <= p < |a| => Sub8(a[p], b[p]))
  }

  /** Pixelwise byte product with `c`. */
  function Scaled(a: seq<int>, c: real): (r: seq<int>)
    ensures |r| == |a|
    ensures forall p :: 0 <= p < |a| ==> r[p] == Scale8(a[p], c)
  {
    seq(|a|, p requires 0 <= p < |a| => Scale8(a[p], c))
  }

  /**
   * The double-pass clean of `base` against `pass`, given the dilation of
   * `base`: the part of `pass` brighter than the dilated base, halved, is
   * taken off `base`.
   */
  function PassCleaned(base: seq<int>, pass: seq<int>, dilated: seq<int>): (r: seq<int>)
    requires |pass| == |base| && |dilated| == |base|
    ensures |r| == |base|
  {
    Difference(base, Scaled(Difference(pass, dilated), 0.5))
  }

  /**
   * A cleaned pixel never exceeds the base pixel, and it is the base pixel
   * exactly where the passer is no brighter than the dilated base (or the
   * base is already 0).
   */
  lemma PassCleanedBounds(base: seq<int>, pass: seq<int>, dilated: seq<int>)
    requires |pass| == |base| && |dilated| == |base|
    requires Bytes(base) && Bytes(pass) && Bytes(dilated)
    ensures Bytes(PassCleaned(base, pass, dilated))
    ensures forall p :: 0 <= p < |base| ==> PassCleaned(base, pass, dilated)[p] <= base[p]
    ensures forall p :: 0 <= p < |base| ==>
      (PassCleaned(base, pass, dilated)[p] == base[p] <==> pass[p] <= dilated[p] || base[p] == 0)
  {
    var dulled := Difference(pass, dilated);
    var halved := Scaled(dulled, 0.5);
    forall p | 0 <= p < |base|
      ensures PassCleaned(base, pass, dilated)[p] <= base[p]
      ensures PassCleaned(base, pass, dilated)[p] == base[p] <==> pass[p] <= dilated[p] || base[p] == 0
    {
      HalfRoundsUp(dulled[p]);
      assert halved[p] == (dulled[p] + 1) / 2;
      if pass[p] <= dilated[p] {
        assert dulled[p] == 0;
      } else {
        assert dulled[p] >= 1;
      }
    }
  }

  /** `ImageCalculator.run(a, b, "subtract create")`: a new raster a - b. */
  method SubtractCreate(a: seq<int>, b: seq<int>) returns (c: array<int>)
    requires |a| == |b|
    ensures fresh(c) && c[..] == Difference(a, b)
  {
    c := new int[|a|];
    for p := 0 to |a|
      invariant forall q :: 0 <= q < p ==> c[q] == Sub8(a[q], b[q])
    {
      c[p] := Sub8(a[p], b[p]);
    }
  }

  /** `ImageCalculator.run(a, b, "subtract")`: a - b written into `a`. */
  method SubtractInPlace(a: array<int>, b: seq<int>)
    requires |b| == a.Length
    modifies a
    ensures a[..] == Difference(old(a[..]), b)
  {
    for p := 0 to a.Length
      invariant forall q :: 0 <= q < p ==> a[q] == Sub8(old(a[q]), b[q])
      invariant forall q :: p <= q < a.Length ==> a[q] == old(a[q])
    {
      a[p] := Sub8(a[p], b[p]);
    }
  }

  /** `ip.multiply(c)` on a byte processor, in place. */
  method Multiply(a: array<int>, c: real)
    modifies a
    ensures a[..] == Scaled(old(a[..]), c)
  {
    for p := 0 to a.Length
      invariant forall q :: 0 <= q < p ==> a[q] == Scale8(old(a[q]), c)
      invariant forall q :: p <= q < a.Length ==> a[q] == old(a[q])
    {
      a[p] := Scale8(a[p], c);
    }
  }

  /**
   * `passClean`: dilates a copy of the base, subtracts it from the passer into
   * a new raster, halves that, and subtracts the result from the base in place.
   */
  method PassClean(base: array<int>, pass: seq<int>, dilate: seq<int> -> seq<int>)
    requires |pass| == base.Length && |dilate(base[..])| == base.Length
    modifies base
    ensures base[..] == PassCleaned(old(base[..]), pass, dilate(old(base[..])))
  {
    var dilated := dilate(base[..]);
    var dulled := SubtractCreate(pass, dilated);
    Multiply(dulled, 0.5);
    SubtractInPlace(base, dulled[..]);
  }

  /** `List.indexOf`: the first position of `role` in `names`, if any. */
  function IndexOf(names: seq<string>, role: string): (r: Option<nat>)
    ensures r.None? <==> role !in names
    ensures r.Some? ==> r.value < |names| && names[r.value] == role
    ensures r.Some? ==> forall j :: 0 <= j < r.value ==> names[j] != role
  {
    if |names| == 0 then None
    else if names[0] == role then Some(0)
    else
      var rest := IndexOf(names[1..], role);
      if rest.None? then None else Some(rest.value + 1)
  }

  /**
   * The split image has a channel for `role`, if any name selects it:
   * otherwise `imps[index]` is out of bounds.
   */
  predicate Fits(names: seq<string>, channels: seq<seq<int>>, role: string)
  {
    IndexOf(names, role).Some? ==> IndexOf(names, role).value < |channels|
  }

  /** Every role that is looked up has a channel. */
  predicate RolesFit(names: seq<string>, channels: seq<seq<int>>)
  {
    Fits(names, channels, "myo") && Fits(names, channels, "endo")
    && Fits(names, channels, "marker") && Fits(names, channels, "nuclei")
  }

  /** The channel assigned to `role`: the one at its first position among the names. */
  function ChannelFor(names: seq<string>, channels: seq<seq<int>>, role: string): Option<seq<int>>
    requires Fits(names, channels, role)
  {
    var i := IndexOf(names, role);
    if i.Some? then Some(channels[i.value]) else None
  }

  /** A file saved into the image folder's "channels" directory. */
  datatype Saved = Saved(name: string, samples: seq<int>)

  function Names(saved: seq<Saved>): (r: seq<string>)
    ensures |r| == |saved|
    ensures forall k :: 0 <= k < |saved| ==> r[k] == saved[k].name
  {
    seq(|saved|, k requires 0 <= k < |saved| => saved[k].name)
  }

  /** The samples of the last file saved under `name` (a later save overwrites). */
  function SavedAs(saved: seq<Saved>, name: string): Option<seq<int>>
  {
    if |saved| == 0 then None
    else if saved[|saved| - 1].name == name then Some(saved[|saved| - 1].samples)
    else SavedAs(saved[..|saved| - 1], name)
  }

  /** The nuclei channel after its passes: against myo first, then against endo, each if present. */
  function NucleiCleaned(nuclei: seq<int>, myo: Option<seq<int>>, endo: Option<seq<int>>,
                         dilate: seq<int> -> seq<int>): seq<int>
    requires forall s: seq<int> :: |dilate(s)| == |s|
    requires myo.Some? ==> |myo.value| == |nuclei|
    requires endo.Some? ==> |endo.value| == |nuclei|
  {
    var once := if myo.Some? then PassCleaned(nuclei, myo.value, dilate(nuclei)) else nuclei;
    if endo.Some? then PassCleaned(once, endo.value, dilate(once)) else once
  }

  /** Every channel of the split image has the same number of samples. */
  predicate SameSize(channels: seq<seq<int>>)
  {
    forall j, k :: 0 <= j < |channels| && 0 <= k < |channels| ==> |channels[j]| == |channels[k]|
  }

  /** A lookup finds the later of two runs of saves first. */
  lemma {:induction false} SavedAsConcat(a: seq<Saved>, b: seq<Saved>, name: string)
    ensures SavedAs(a + b, name) == if SavedAs(b, name).Some? then SavedAs(b, name) else SavedAs(a, name)
    decreases |b|
  {
    if |b| > 0 {
      assert (a + b)[..|a + b| - 1] == a + b[..|b| - 1];
      SavedAsConcat(a, b[..|b| - 1], name);
    } else {
      assert a + b == a;
    }
  }

  /** The nuclei steps of `cleanChannels`: its channel cleaned against myo, then endo, where present. */
  method CleanNuclei(names: seq<string>, channels: seq<seq<int>>, dilate: seq<int> -> seq<int>)
    returns (cleaned: Option<seq<int>>)
    requires RolesFit(names, channels) && SameSize(channels)
    requires forall s: seq<int> :: |dilate(s)| == |s|
    ensures var nuclei := ChannelFor(names, channels, "nuclei");
            cleaned == if nuclei.None? then None
                       else Some(NucleiCleaned(nuclei.value, ChannelFor(names, channels, "myo"),
                                               ChannelFor(names, channels, "endo"), dilate))
  {
    var myoIndex := IndexOf(names, "myo");
    var endoIndex := IndexOf(names, "endo");
    var nucleiIndex := IndexOf(names, "nuclei");
    if nucleiIndex.None? {
      return None;
    }
    var nuclei := Duplicate(channels[nucleiIndex.value]);
    if myoIndex.Some? {
      PassClean(nuclei, channels[myoIndex.value], dilate);
    }
    if endoIndex.Some? {
      PassClean(nuclei, channels[endoIndex.value], dilate);
    }
    cleaned := Some(nuclei[..]);
  }

  /**
   * The myo/endo steps of `cleanChannels`, run only when both exist: myo
   * minus a scaled duplicate of endo, and endo minus the original myo.
   */
  method CleanPair(names: seq<string>, channels: seq<seq<int>>, crosstalk: real)
    returns (cleaned: Option<(seq<int>, seq<int>)>)
    requires RolesFit(names, channels) && SameSize(channels)
    ensures var myo := ChannelFor(names, channels, "myo");
            var endo := ChannelFor(names, channels, "endo");
            cleaned == if myo.None? || endo.None? then None
                       else Some((Difference(myo.value, Scaled(endo.value, crosstalk)),
                                  Difference(endo.value, myo.value)))
  {
    var myoIndex := IndexOf(names, "myo");
    var endoIndex := IndexOf(names, "endo");
    if myoIndex.None? || endoIndex.None? {
      return None;
    }
    var endoSuppressed := Duplicate(channels[endoIndex.value]);
    Multiply(endoSuppressed, crosstalk);
    var cleanedMyo := SubtractCreate(channels[myoIndex.value], endoSuppressed[..]);
    var cleanedEndo := SubtractCreate(channels[endoIndex.value], channels[myoIndex.value]);
    cleaned := Some((cleanedMyo[..], cleanedEndo[..]));
  }

  /** The files `cleanChannels` saves, in order, from the results of its three steps. */
  function Layout(nuclei: Option<seq<int>>, pair: Option<(seq<int>, seq<int>)>, marker: Option<seq<int>>): seq<Saved>
  {
    (if nuclei.Some? then [Saved("nuclei.tif", nuclei.value)] else [])
    + (if pair.Some? then [Saved("myo.tif", pair.value.0), Saved("endo.tif", pair.value.1)] else [])
    + (if marker.Some? then [Saved("marker.tif", marker.value)] else [])
  }

  /** Each step's result is saved once under its own name, in the order nuclei, myo, endo, marker. */
  lemma LayoutLookups(nuclei: Option<seq<int>>, pair: Option<(seq<int>, seq<int>)>, marker: Option<seq<int>>)
    ensures Names(Layout(nuclei, pair, marker))
         == (if nuclei.Some? then ["nuclei.tif"] else [])
          + (if pair.Some? then ["myo.tif", "endo.tif"] else [])
          + (if marker.Some? then ["marker.tif"] else [])
    ensures SavedAs(Layout(nuclei, pair, marker), "nuclei.tif") == nuclei
    ensures SavedAs(Layout(nuclei, pair, marker), "myo.tif") == if pair.Some? then Some(pair.value.0) else None
    ensures SavedAs(Layout(nuclei, pair, marker), "endo.tif") == if pair.Some? then Some(pair.value.1) else None
    ensures SavedAs(Layout(nuclei, pair, marker), "marker.tif") == marker
  {
    var first := if nuclei.Some? then [Saved("nuclei.tif", nuclei.value)] else [];
    var second := if pair.Some? then [Saved("myo.tif", pair.value.0), Saved("endo.tif", pair.value.1)] else [];
    var third := if marker.Some? then [Saved("marker.tif", marker.value)] else [];
    assert Layout(nuclei, pair, marker) == first + second + third;
    assert Names(first + second + third) == Names(first) + Names(second) + Names(third);
    assert Names(first) == if nuclei.Some? then ["nuclei.tif"] else [];
    assert Names(second) == if pair.Some? then ["myo.tif", "endo.tif"] else [];
    assert Names(third) == if marker.Some? then ["marker.tif"] else [];
    assert "nuclei.tif"[0] != "marker.tif"[0];
    assert |"myo.tif"| != |"endo.tif"| && |"myo.tif"| != |"nuclei.tif"| && |"myo.tif"| != |"marker.tif"|;
    assert |"endo.tif"| != |"nuclei.tif"| && |"endo.tif"| != |"marker.tif"|;
    LayoutLookup(nuclei, pair, marker, "nuclei.tif");
    LayoutLookup(nuclei, pair, marker, "myo.tif");
    LayoutLookup(nuclei, pair, marker, "endo.tif");
    LayoutLookup(nuclei, pair, marker, "marker.tif");
  }

  /** The lookup of one name in the layout: the last of the three parts that saved it. */
  lemma LayoutLookup(nuclei: Option<seq<int>>, pair: Option<(seq<int>, seq<int>)>, marker: Option<seq<int>>,
                     name: string)
    ensures var fromMarker := if marker.Some? && name == "marker.tif" then marker else None;
            var fromPair := if pair.Some? && name == "endo.tif" then Some(pair.value.1)
                            else if pair.Some? && name == "myo.tif" then Some(pair.value.0)
                            else None;
            var fromNuclei := if name == "nuclei.tif" then nuclei else None;
            SavedAs(Layout(nuclei, pair, marker), name)
            == if fromMarker.Some? then fromMarker else if fromPair.Some? then fromPair else fromNuclei
  {
    var first := if nuclei.Some? then [Saved("nuclei.tif", nuclei.value)] else [];
    var second := if pair.Some? then [Saved("myo.tif", pair.value.0), Saved("endo.tif", pair.value.1)] else [];
    var third := if marker.Some? then [Saved("marker.tif", marker.value)] else [];
    assert Layout(nuclei, pair, marker) == first + second + third;
    SavedAsConcat(first + second, third, name);
    SavedAsConcat(first, second, name);
    if nuclei.Some? { SavedAsSingle(Saved("nuclei.tif", nuclei.value), name); }
    if marker.Some? { SavedAsSingle(Saved("marker.tif", marker.value), name); }
    if pair.Some? {
      assert second == [Saved("myo.tif", pair.value.0)] + [Saved("endo.tif", pair.value.1)];
      SavedAsConcat([Saved("myo.tif", pair.value.0)], [Saved("endo.tif", pair.value.1)], name);
      SavedAsSingle(Saved("myo.tif", pair.value.0), name);
      SavedAsSingle(Saved("endo.tif", pair.value.1), name);
    }
  }

  lemma SavedAsSingle(entry: Saved, name: string)
    ensures SavedAs([entry], name) == if entry.name == name then Some(entry.samples) else None
  {
    assert [entry][..0] == [];
  }

  /**
   * `cleanChannels` over the split channels, named by the four dialog
   * choices: nuclei is cleaned against the original myo and endo and saved;
   * when both myo and endo exist, myo loses `crosstalk` times endo and endo
   * loses the original myo; marker is saved as it is. Roles that no name
   * selects produce no file. A name selecting a channel the image does not
   * have throws (`None`) before anything is saved.
   */
  method Clean(names: seq<string>, channels: seq<seq<int>>, crosstalk: real, dilate: seq<int> -> seq<int>)
    returns (result: Option<seq<Saved>>)
    requires SameSize(channels)
    requires forall s: seq<int> :: |dilate(s)| == |s|
    ensures result.None? <==> !RolesFit(names, channels)
    ensures result.Some? ==>
            Names(result.value)
            == (if "nuclei" in names then ["nuclei.tif"] else [])
             + (if "myo" in names && "endo" in names then ["myo.tif", "endo.tif"] else [])
             + (if "marker" in names then ["marker.tif"] else [])
    ensures result.Some? ==>
            var nuclei := ChannelFor(names, channels, "nuclei");
            SavedAs(result.value, "nuclei.tif")
            == if nuclei.None? then None
               else Some(NucleiCleaned(nuclei.value, ChannelFor(names, channels, "myo"),
                                       ChannelFor(names, channels, "endo"), dilate))
    ensures result.Some? ==>
            var myo := ChannelFor(names, channels, "myo");
            var endo := ChannelFor(names, channels, "endo");
            && SavedAs(result.value, "myo.tif")
               == (if myo.None? || endo.None? then None else Some(Difference(myo.value, Scaled(endo.value, crosstalk))))
            && SavedAs(result.value, "endo.tif")
               == (if myo.None? || endo.None? then None else Some(Difference(endo.value, myo.value)))
    ensures result.Some? ==> SavedAs(result.value, "marker.tif") == ChannelFor(names, channels, "marker")
  {
    var myoIndex := IndexOf(names, "myo");
    var endoIndex := IndexOf(names, "endo");
    var markerIndex := IndexOf(names, "marker");
    var nucleiIndex := IndexOf(names, "nuclei");
    if (myoIndex.Some? && myoIndex.value >= |channels|) || (endoIndex.Some? && endoIndex.value >= |channels|)
       || (markerIndex.Some? && markerIndex.value >= |channels|) || (nucleiIndex.Some? && nucleiIndex.value >= |channels|)
    {
      return None;
    }
    var nuclei := CleanNuclei(names, channels, dilate);
    var pair := CleanPair(names, channels, crosstalk);
    var marker := ChannelFor(names, channels, "marker");
    LayoutLookups(nuclei, pair, marker);
    result := Some(Layout(nuclei, pair, marker));
  }

  /**
   * No cleaned channel is brighter than its source anywhere, and the nuclei
   * channel is untouched wherever neither the myo nor the endo pass is
   * brighter than the dilated nuclei it meets.
   */
  lemma CleaningOnlyDarkens(nuclei: seq<int>, myo: seq<int>, endo: seq<int>, crosstalk: real,
                            dilate: seq<int> -> seq<int>)
    requires |myo| == |nuclei| && |endo| == |nuclei|
    requires Bytes(nuclei) && Bytes(myo) && Bytes(endo)
    requires forall s: seq<int> :: |dilate(s)| == |s|
    requires forall s: seq<int> :: Bytes(s) ==> Bytes(dilate(s))
    ensures var n := NucleiCleaned(nuclei, Some(myo), Some(endo), dilate);
            forall p :: 0 <= p < |nuclei| ==> 0 <= n[p] <= nuclei[p]
    ensures forall p :: 0 <= p < |myo| ==> 0 <= Difference(myo, Scaled(endo, crosstalk))[p] <= myo[p]
    ensures forall p :: 0 <= p < |endo| ==> 0 <= Difference(endo, myo)[p] <= endo[p]
  {
    var once := PassCleaned(nuclei, myo, dilate(nuclei));
    PassCleanedBounds(nuclei, myo, dilate(nuclei));
    PassCleanedBounds(once, endo, dilate(once));
  }
}
