/**
 * The quantification tally (the "Quantify" command): for every object list
 * in an image folder's "zips" directory, the objects whose mean marker
 * intensity exceeds the threshold are counted and marked on a label raster;
 * then the areas of the saved masks and sublayers are listed.
 *
 * Mean intensity and area are library measurements and are parameters, as
 * is the decimal rendering of a measured area.
 */
module Quantify {
  import opened Regions
  import Text
  import Masks

  /** Fill value of an active object on the marker raster. */
  const ActiveColour := 106
  /** Fill value of an inactive object on the marker raster. */
  const InactiveColour := 46

  /** An object is active when its mean marker intensity is strictly above the threshold scaled to 8 bits. */
  predicate Active(mean: Region -> real, markerThreshold: real, roi: Roi)
  {
    mean(roi.pixels) > markerThreshold * 255.0
  }

  /** The number of active objects. */
  function CountActive(rois: seq<Roi>, mean: Region -> real, markerThreshold: real): (n: nat)
    ensures n <= |rois|
    ensures n == |rois| <==> forall k :: 0 <= k < |rois| ==> Active(mean, markerThreshold, rois[k])
    ensures n == 0 <==> forall k :: 0 <= k < |rois| ==> !Active(mean, markerThreshold, rois[k])
  {
    if |rois| == 0 then 0
    else
      var init := rois[..|rois| - 1];
      var rest := CountActive(init, mean, markerThreshold);
      assert forall k :: 0 <= k < |init| ==> init[k] == rois[k];
      rest + if Active(mean, markerThreshold, rois[|rois| - 1]) then 1 else 0
  }

  /** The raster after each object in order is filled with its activity colour; later fills win. */
  function ActivityPainted(s: seq<int>, rois: seq<Roi>, mean: Region -> real, markerThreshold: real): (r: seq<int>)
    ensures |r| == |s|
  {
    if |rois| == 0 then s
    else
      var last := rois[|rois| - 1];
      Filled(ActivityPainted(s, rois[..|rois| - 1], mean, markerThreshold), last.pixels,
             if Active(mean, markerThreshold, last) then ActiveColour else InactiveColour)
  }

  /**
   * On a cleared raster a pixel is 0 when no object covers it; otherwise it
   * carries the colour of the last object that covers it.
   */
  lemma {:induction false} ActivityPixel(s: seq<int>, rois: seq<Roi>, mean: Region -> real, markerThreshold: real,
                                         p: int)
    requires 0 <= p < |s|
    requires forall q :: 0 <= q < |s| ==> s[q] == 0
    ensures var k := LastCover(rois, p);
            ActivityPainted(s, rois, mean, markerThreshold)[p]
            == if k < 0 then 0
               else if Active(mean, markerThreshold, rois[k]) then ActiveColour
               else InactiveColour
  {
    if |rois| > 0 {
      var init := rois[..|rois| - 1];
      ActivityPixel(s, init, mean, markerThreshold, p);
      if p !in rois[|rois| - 1].pixels {
        var k := LastCover(init, p);
        assert LastCover(rois, p) == k;
        assert k >= 0 ==> init[k] == rois[k];
      }
    }
  }

  /** The inner loop of `process` for one object list: colours each object and counts the active ones. */
  method Tally(labelIp: array<int>, rois: seq<Roi>, mean: Region -> real, markerThreshold: real)
    returns (numberActive: nat)
    modifies labelIp
    ensures numberActive == CountActive(rois, mean, markerThreshold)
    ensures labelIp[..] == ActivityPainted(old(labelIp[..]), rois, mean, markerThreshold)
  {
    numberActive := 0;
    for i := 0 to |rois|
      invariant numberActive == CountActive(rois[..i], mean, markerThreshold)
      invariant labelIp[..] == ActivityPainted(old(labelIp[..]), rois[..i], mean, markerThreshold)
    {
      assert rois[..i + 1][..i] == rois[..i];
      if Active(mean, markerThreshold, rois[i]) {
        FillRegion(labelIp, rois[i].pixels, ActiveColour);
        numberActive := numberActive + 1;
      } else {
        FillRegion(labelIp, rois[i].pixels, InactiveColour);
      }
    }
    assert rois[..|rois|] == rois;
  }

  /**
   * `updatePreview`: when both preview windows are visible, colours every
   * object onto the activity raster by the same rule as `process` (without
   * clearing it first); otherwise the raster is left as it is.
   */
  method UpdatePreview(activityIp: array<int>, visible: bool, rois: seq<Roi>, mean: Region -> real,
                       markerThreshold: real)
    modifies activityIp
    ensures visible ==> activityIp[..] == ActivityPainted(old(activityIp[..]), rois, mean, markerThreshold)
    ensures !visible ==> activityIp[..] == old(activityIp[..])
  {
    if visible {
      var ignored := Tally(activityIp, rois, mean, markerThreshold);
    }
  }

  /** A file of the "zips" directory: its name and the objects it holds. */
  datatype ZipFile = ZipFile(name: string, rois: seq<Roi>)

  /** A marker raster saved as "marker_<tissue>.tif". */
  datatype Marker = Marker(name: string, samples: seq<int>)

  /** The tissue name of an object list: its file name without the first and last four characters. */
  function TissueName(fileName: string): (r: string)
    requires |fileName| >= 8
    ensures |r| == |fileName| - 8
    ensures fileName == fileName[..4] + r + fileName[|fileName| - 4..]
  {
    fileName[4..|fileName| - 4]
  }

  /**
   * Whether a file is tallied: its path ends in ".zip". The path is the
   * directory followed by the name, so its last four characters are the name's.
   */
  predicate IsZip(fileName: string)
    requires |fileName| >= 4
  {
    fileName[|fileName| - 4..] == ".zip"
  }

  /** The two count lines of one tissue: active first, then total. */
  function CountLines(tissue: string, active: nat, total: nat): seq<string>
  {
    ["count_" + tissue + "_active=" + Text.IntToString(active),
     "count_" + tissue + "_total=" + Text.IntToString(total)]
  }

  /** The count lines of every ".zip" file, in listing order. */
  function ZipData(zips: seq<ZipFile>, mean: Region -> real, markerThreshold: real): seq<string>
    requires forall k :: 0 <= k < |zips| ==> |zips[k].name| >= 8
  {
    if |zips| == 0 then []
    else
      var init := zips[..|zips| - 1];
      var z := zips[|zips| - 1];
      ZipData(init, mean, markerThreshold)
      + if IsZip(z.name) then CountLines(TissueName(z.name), CountActive(z.rois, mean, markerThreshold), |z.rois|)
        else []
  }

  /** The marker rasters of every ".zip" file, in listing order, each painted on a cleared raster. */
  function ZipMarkers(zips: seq<ZipFile>, size: nat, mean: Region -> real, markerThreshold: real): seq<Marker>
    requires forall k :: 0 <= k < |zips| ==> |zips[k].name| >= 8
  {
    if |zips| == 0 then []
    else
      var init := zips[..|zips| - 1];
      var z := zips[|zips| - 1];
      ZipMarkers(init, size, mean, markerThreshold)
      + if IsZip(z.name)
        then [Marker("marker_" + TissueName(z.name) + ".tif",
                     ActivityPainted(Constant(size, 0), z.rois, mean, markerThreshold))]
        else []
  }

  /** Each tallied object list contributes exactly two count lines and one marker raster. */
  lemma {:induction false} ZipDataShape(zips: seq<ZipFile>, size: nat, mean: Region -> real, markerThreshold: real)
    requires forall k :: 0 <= k < |zips| ==> |zips[k].name| >= 8
    ensures |ZipData(zips, mean, markerThreshold)| == 2 * |ZipMarkers(zips, size, mean, markerThreshold)|
  {
    if |zips| > 0 {
      ZipDataShape(zips[..|zips| - 1], size, mean, markerThreshold);
    }
  }

  /** The count lines of a tissue render the active count and the total, and the first never exceeds the second. */
  lemma CountLinesReadBack(tissue: string, rois: seq<Roi>, mean: Region -> real, markerThreshold: real)
    ensures var a := CountActive(rois, mean, markerThreshold);
            var lines := CountLines(tissue, a, |rois|);
            var activePrefix := "count_" + tissue + "_active=";
            var totalPrefix := "count_" + tissue + "_total=";
            && lines[0][..|activePrefix|] == activePrefix && lines[1][..|totalPrefix|] == totalPrefix
            && Text.ParseDigits(lines[0][|activePrefix|..]) <= Text.ParseDigits(lines[1][|totalPrefix|..])
            && Text.ParseDigits(lines[1][|totalPrefix|..]) == |rois|
  {
    var a := CountActive(rois, mean, markerThreshold);
    var lines := CountLines(tissue, a, |rois|);
    Text.CountRoundTrip(a);
    Text.CountRoundTrip(|rois|);
    assert lines[0][|"count_" + tissue + "_active="|..] == Text.IntToString(a);
    assert lines[1][|"count_" + tissue + "_total="|..] == Text.IntToString(|rois|);
  }

  /**
   * The object-list loop of `process`: for every ".zip" file in order, the
   * raster is cleared, its objects are coloured and counted, the raster is
   * saved as its marker image and the two count lines are appended.
   */
  method TallyZips(labelIp: array<int>, zips: seq<ZipFile>, mean: Region -> real, markerThreshold: real)
    returns (data: seq<string>, markers: seq<Marker>)
    requires forall k :: 0 <= k < |zips| ==> |zips[k].name| >= 8
    modifies labelIp
    ensures data == ZipData(zips, mean, markerThreshold)
    ensures markers == ZipMarkers(zips, labelIp.Length, mean, markerThreshold)
  {
    data := [];
    markers := [];
    for i := 0 to |zips|
      invariant data == ZipData(zips[..i], mean, markerThreshold)
      invariant markers == ZipMarkers(zips[..i], labelIp.Length, mean, markerThreshold)
    {
      assert zips[..i + 1][..i] == zips[..i];
      var fileName := zips[i].name;
      var tissue := fileName[4..|fileName| - 4];
      if fileName[|fileName| - 4..] == ".zip" {
        FillAll(labelIp, 0);
        var numberActive := Tally(labelIp, zips[i].rois, mean, markerThreshold);
        markers := markers + [Marker("marker_" + tissue + ".tif", labelIp[..])];
        data := data + ["count_" + tissue + "_active=" + Text.IntToString(numberActive)];
        data := data + ["count_" + tissue + "_total=" + Text.IntToString(|zips[i].rois|)];
      }
    }
    assert zips[..|zips|] == zips;
  }

  /** The first "_"-separated token of a file name. */
  function FileType(fileName: string): string
    requires |Text.Split(fileName, '_')| > 0
  {
    Text.Split(fileName, '_')[0]
  }

  /**
   * The image `new ImagePlus` opens for `name` in the "masks" directory. A
   * missing file opens as an image without a selection, which `Masks.and`
   * treats as no restriction.
   */
  function Opened(folder: map<string, MaskImage>, name: string): MaskImage
  {
    if name in folder then folder[name] else MaskImage([], None)
  }

  /**
   * The area lines of one file of the "masks" directory: a "mask" file gives
   * its area; a "sublayer" file gives its area within the myocardium mask,
   * then within the endocardium mask; any other file gives nothing.
   */
  function AreaLines(fileName: string, folder: map<string, MaskImage>, areaOf: MaskImage -> real,
                     showReal: real -> string): seq<string>
    requires |Text.Split(fileName, '_')| > 0
    requires fileName in folder
  {
    if FileType(fileName) == "mask" then
      [fileName + "=" + showReal(areaOf(folder[fileName]))]
    else if FileType(fileName) == "sublayer" then
      [fileName + "(myo)=" + showReal(areaOf(Masks.Combined([folder[fileName], Opened(folder, "mask_myo.tif")]))),
       fileName + "(endo)=" + showReal(areaOf(Masks.Combined([folder[fileName], Opened(folder, "mask_endo.tif")])))]
    else []
  }

  /** Every listed name can be split on "_" to a first token and is present in the folder. */
  predicate Listable(files: seq<string>, folder: map<string, MaskImage>)
  {
    forall k :: 0 <= k < |files| ==> |Text.Split(files[k], '_')| > 0 && files[k] in folder
  }

  /** The area lines of every listed file, in listing order. */
  function MaskData(files: seq<string>, folder: map<string, MaskImage>, areaOf: MaskImage -> real,
                    showReal: real -> string): seq<string>
    requires Listable(files, folder)
  {
    if |files| == 0 then []
    else
      var init := files[..|files| - 1];
      assert Listable(init, folder);
      MaskData(init, folder, areaOf, showReal) + AreaLines(files[|files| - 1], folder, areaOf, showReal)
  }

  /** The area lines of one more listed file extend the area lines of the files before it. */
  lemma MaskDataStep(files: seq<string>, folder: map<string, MaskImage>, areaOf: MaskImage -> real,
                     showReal: real -> string, i: int)
    requires Listable(files, folder) && 0 <= i < |files|
    ensures Listable(files[..i], folder) && Listable(files[..i + 1], folder)
    ensures MaskData(files[..i + 1], folder, areaOf, showReal)
         == MaskData(files[..i], folder, areaOf, showReal) + AreaLines(files[i], folder, areaOf, showReal)
  {
    assert files[..i + 1][..i] == files[..i];
  }

  /**
   * The keys of the area lines of one file: the name of a "mask" file, the
   * name of a "sublayer" file tagged "(myo)" and then "(endo)", and nothing
   * for any other file.
   */
  function FileKeys(f: string): seq<string>
    requires |Text.Split(f, '_')| > 0
  {
    if FileType(f) == "mask" then [f]
    else if FileType(f) == "sublayer" then [f + "(myo)", f + "(endo)"]
    else []
  }

  /** The keys of the area lines, file by file in listing order. */
  function AreaKeys(files: seq<string>): seq<string>
    requires forall k :: 0 <= k < |files| ==> |Text.Split(files[k], '_')| > 0
  {
    if |files| == 0 then [] else AreaKeys(files[..|files| - 1]) + FileKeys(files[|files| - 1])
  }

  /** Every line starts with its key followed by "=", one line per key. */
  predicate KeyedBy(lines: seq<string>, keys: seq<string>)
  {
    |lines| == |keys| && forall k :: 0 <= k < |keys| ==> keys[k] + "=" <= lines[k]
  }

  /** Keyed runs of lines concatenate to a keyed run. */
  lemma KeyedConcat(a: seq<string>, ka: seq<string>, b: seq<string>, kb: seq<string>)
    requires KeyedBy(a, ka) && KeyedBy(b, kb)
    ensures KeyedBy(a + b, ka + kb)
  {
    forall k | 0 <= k < |ka + kb| ensures (ka + kb)[k] + "=" <= (a + b)[k] {
      if k >= |ka| {
        assert (ka + kb)[k] == kb[k - |ka|] && (a + b)[k] == b[k - |ka|];
      }
    }
  }

  /** The area lines of one file carry that file's keys. */
  lemma AreaLinesKeyed(f: string, folder: map<string, MaskImage>, areaOf: MaskImage -> real,
                       showReal: real -> string)
    requires |Text.Split(f, '_')| > 0 && f in folder
    ensures KeyedBy(AreaLines(f, folder, areaOf, showReal), FileKeys(f))
  {
    var lines := AreaLines(f, folder, areaOf, showReal);
    if FileType(f) == "mask" {
      assert lines[0] == (f + "=") + showReal(areaOf(folder[f]));
    } else if FileType(f) == "sublayer" {
      assert lines[0] == (f + "(myo)=") + showReal(areaOf(Masks.Combined([folder[f], Opened(folder, "mask_myo.tif")])));
      assert lines[1] == (f + "(endo)=") + showReal(areaOf(Masks.Combined([folder[f], Opened(folder, "mask_endo.tif")])));
    }
  }

  /** Each area line is its key followed by "=", one line per key, in the order of the keys. */
  lemma {:induction false} MaskDataKeys(files: seq<string>, folder: map<string, MaskImage>,
                                        areaOf: MaskImage -> real, showReal: real -> string)
    requires Listable(files, folder)
    ensures |MaskData(files, folder, areaOf, showReal)| == |AreaKeys(files)|
    ensures forall k :: 0 <= k < |AreaKeys(files)| ==>
              AreaKeys(files)[k] + "=" <= MaskData(files, folder, areaOf, showReal)[k]
  {
    if |files| > 0 {
      var init := files[..|files| - 1];
      var f := files[|files| - 1];
      assert Listable(init, folder);
      MaskDataKeys(init, folder, areaOf, showReal);
      AreaLinesKeyed(f, folder, areaOf, showReal);
      KeyedConcat(MaskData(init, folder, areaOf, showReal), AreaKeys(init),
                  AreaLines(f, folder, areaOf, showReal), FileKeys(f));
    }
  }

  /**
   * A tissue mask missing from the folder restricts nothing: the sublayer's
   * line for that tissue reports the sublayer's own area, re-extracted at 255.
   */
  lemma MissingTissueMask(fileName: string, folder: map<string, MaskImage>, areaOf: MaskImage -> real,
                          showReal: real -> string)
    requires |Text.Split(fileName, '_')| > 0 && fileName in folder
    requires FileType(fileName) == "sublayer"
    ensures var own := folder[fileName].samples;
            var lines := AreaLines(fileName, folder, areaOf, showReal);
            && |lines| == 2
            && ("mask_myo.tif" !in folder ==> lines[0] == fileName + "(myo)=" + showReal(areaOf(MaskImage(own, Selection(own)))))
            && ("mask_endo.tif" !in folder ==> lines[1] == fileName + "(endo)=" + showReal(areaOf(MaskImage(own, Selection(own)))))
  {
    var own := folder[fileName].samples;
    var absent := MaskImage([], None);
    assert [folder[fileName], absent][1..] == [absent];
    assert Masks.Intersected(own, [absent]) == own;
  }

  /** The mask-area loop of `process`; sublayers are intersected with each tissue mask by `Masks.and`. */
  method MaskLines(files: seq<string>, folder: map<string, MaskImage>, areaOf: MaskImage -> real,
                   showReal: real -> string) returns (data: seq<string>)
    requires Listable(files, folder)
    ensures data == MaskData(files, folder, areaOf, showReal)
  {
    data := [];
    for i := 0 to |files|
      invariant data == MaskData(files[..i], folder, areaOf, showReal)
    {
      MaskDataStep(files, folder, areaOf, showReal, i);
      var fileName := files[i];
      var fileType := Text.Split(fileName, '_')[0];
      var lines: seq<string> := [];
      if fileType == "mask" {
        lines := [fileName + "=" + showReal(areaOf(folder[fileName]))];
      } else if fileType == "sublayer" {
        var myo := Masks.And([folder[fileName], Opened(folder, "mask_myo.tif")]);
        var endo := Masks.And([folder[fileName], Opened(folder, "mask_endo.tif")]);
        lines := [fileName + "(myo)=" + showReal(areaOf(myo)), fileName + "(endo)=" + showReal(areaOf(endo))];
      }
      assert lines == AreaLines(fileName, folder, areaOf, showReal);
      data := data + lines;
    }
    assert files[..|files|] == files;
  }

  /**
   * `process` for one image folder: the count lines of the object lists come
   * first, then the area lines of the masks; the marker rasters are saved
   * along the way.
   */
  method Process(labelIp: array<int>, zips: seq<ZipFile>, maskFiles: seq<string>, folder: map<string, MaskImage>,
                 mean: Region -> real, markerThreshold: real, areaOf: MaskImage -> real, showReal: real -> string)
    returns (data: seq<string>, markers: seq<Marker>)
    requires forall k :: 0 <= k < |zips| ==> |zips[k].name| >= 8
    requires Listable(maskFiles, folder)
    modifies labelIp
    ensures data == ZipData(zips, mean, markerThreshold) + MaskData(maskFiles, folder, areaOf, showReal)
    ensures markers == ZipMarkers(zips, labelIp.Length, mean, markerThreshold)
  {
    FillAll(labelIp, 0);
    var counts;
    counts, markers := TallyZips(labelIp, zips, mean, markerThreshold);
    var areas := MaskLines(maskFiles, folder, areaOf, showReal);
    data := counts + areas;
  }
}
