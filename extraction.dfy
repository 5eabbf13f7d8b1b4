/** What `__getitem__` returns, stated as values: the entry is resolved to
    an image and a box, the buffered crop is cut out and the label looked
    up. Loading failures are explicit errors. */
module Extraction {
  import opened PyBuiltins
  import opened Arrays
  import opened Records
  import opened Crop
  import opened SampleIndex

  /** The step both `__getitem__` methods share once a box is chosen: the
      buffered crop of the image and the category's position as label. The
      crop is the corrected one; it is the slice as written whenever the
      clamped ends are not negative. */
  function CutSample<T>(img: Image<T>, bb: BoundingBox, names: seq<string>): (r: Result<Sample<T>>)
    requires img.Shaped()
    ensures r.Ok? <==> bb.category in names
    ensures r.Err? ==> r.error == CategoryNotFound(bb.category)
    ensures r.Ok? ==>
      && r.value.image == CropImage(img, CropRect(bb.box, img.height, img.width))
      && |r.value.classLabel| == 1
      && 0 <= r.value.classLabel[0] < |names|
      && names[r.value.classLabel[0]] == bb.category
      && (forall k :: 0 <= k < r.value.classLabel[0] ==> names[k] != bb.category)
    ensures r.Ok? && CropRect(bb.box, img.height, img.width).r2 >= 0 && CropRect(bb.box, img.height, img.width).c2 >= 0
      ==> r.value.image == CropImageAsWritten(img, CropRect(bb.box, img.height, img.width))
    ensures r.Ok? ==>
      r.value.image.d0 <= img.height && r.value.image.d1 <= img.width && r.value.image.d2 == 1
    ensures r.Ok? && BufferedInside(bb.box, img.height, img.width) && 0 <= bb.box.h && 0 <= bb.box.w ==>
      r.value.image.d0 == bb.box.h + 2 * Buffer && r.value.image.d1 == bb.box.w + 2 * Buffer
  {
    var rect := CropRect(bb.box, img.height, img.width);
    var image := CropImage(img, rect);
    assert rect.r2 >= 0 && rect.c2 >= 0 ==> image == CropImageAsWritten(img, rect) by {
      if rect.r2 >= 0 && rect.c2 >= 0 {
        AsWrittenAgrees(img, rect);
      }
    }
    match Label(names, bb.category)
    case Err(e) => Err(e)
    case Ok(l) => Ok(Sample(image, [l]))
  }

  /** `FMOWDataset.__getitem__`: the image at the key, its sidecar, and the
      first box only. */
  function TrainSample<T>(index: map<int, Path>, idx: int, disk: Disk<T>, names: seq<string>)
    : (r: Result<Sample<T>>)
    requires disk.Shaped()
    ensures idx !in index ==> r == Err(MissingKey(idx))
    ensures idx in index && index[idx] !in disk.images ==> r == Err(ImageUnreadable(index[idx]))
    ensures idx in index && index[idx] in disk.images && Sidecar(index[idx]) !in disk.metadata ==>
      r == Err(MetadataUnreadable(Sidecar(index[idx])))
    ensures idx in index && index[idx] in disk.images && Sidecar(index[idx]) in disk.metadata ==>
      var boxes := Boxes(disk.metadata[Sidecar(index[idx])].boundingBoxes);
      r == if |boxes| == 0 then Err(NoBoxes) else CutSample(disk.images[index[idx]], boxes[0], names)
  {
    if idx !in index then Err(MissingKey(idx))
    else
      var imageP := index[idx];
      var metadataP := Sidecar(imageP);
      if imageP !in disk.images then Err(ImageUnreadable(imageP))
      else if metadataP !in disk.metadata then Err(MetadataUnreadable(metadataP))
      else match FirstBox(disk.metadata[metadataP].boundingBoxes)
        case Err(e) => Err(e)
        case Ok(bb) => CutSample(disk.images[imageP], bb, names)
  }

  /** `FMOWDataset_test.__getitem__`: the entry is decoded into an image
      path and a box position, which selects the box (negative positions
      counting from the end, as in Python). */
  function TestSample<T>(index: map<int, string>, idx: int, disk: Disk<T>, names: seq<string>)
    : (r: Result<Sample<T>>)
    requires disk.Shaped()
    ensures idx !in index ==> r == Err(MissingKey(idx))
    ensures idx in index && DecodeKey(index[idx]).Err? ==> r == Err(MalformedKey(index[idx]))
    ensures idx in index && DecodeKey(index[idx]).Ok? ==>
      var (p, pos) := DecodeKey(index[idx]).value;
      && (p !in disk.images ==> r == Err(ImageUnreadable(p)))
      && (p in disk.images && Sidecar(p) !in disk.metadata ==> r == Err(MetadataUnreadable(Sidecar(p))))
      && (p in disk.images && Sidecar(p) in disk.metadata ==>
           var boxes := Boxes(disk.metadata[Sidecar(p)].boundingBoxes);
           r == if 0 <= pos < |boxes| then CutSample(disk.images[p], boxes[pos], names)
                else if -|boxes| <= pos < 0 then CutSample(disk.images[p], boxes[|boxes| + pos], names)
                else Err(BoxIndexOutOfRange(pos)))
  {
    if idx !in index then Err(MissingKey(idx))
    else match DecodeKey(index[idx])
      case Err(e) => Err(e)
      case Ok((imageP, boxIndex)) =>
        var metadataP := Sidecar(imageP);
        if imageP !in disk.images then Err(ImageUnreadable(imageP))
        else if metadataP !in disk.metadata then Err(MetadataUnreadable(metadataP))
        else match SelectBox(disk.metadata[metadataP].boundingBoxes, boxIndex)
          case Err(e) => Err(e)
          case Ok(bb) => CutSample(disk.images[imageP], bb, names)
  }

  /** Every entry of the training subsample is a regular `…_rgb.jpg` file
      whose sidecar is the `…_rgb.json` of the same base name. */
  lemma TrainEntryIsRgb<T>(disk: Disk<T>, dataset: Path, names: seq<string>, draw: seq<int>, k: int)
    requires IsDraw(draw, |TrainImages(disk, dataset, names)|, SampleSize)
    requires 0 <= k < SampleSize
    ensures var e := Indexed(Drawn(TrainImages(disk, dataset, names), draw))[k];
      EndsWith(e, RgbSuffix) && e in disk.isFile && EndsWith(Sidecar(e), "_rgb.json")
  {
    var found := TrainImages(disk, dataset, names);
    TrainImagesSelected(disk, dataset, names);
    assert EndsWith(found[draw[k]], RgbSuffix);
    SidecarOfRgb(found[draw[k]]);
  }

  /** Every test entry is `path:i` for a regular `…_rgb.jpg` file the test
      walk discovered and a position `i` below its box count. */
  lemma TestEntryIsRgb<T>(disk: Disk<T>, dataset: Path, k: int) returns (p: Path, i: nat)
    requires SidecarsReadable(TestImages(disk, dataset), disk)
    requires 0 <= k < |TestKeys(TestImages(disk, dataset), disk)|
    ensures Indexed(TestKeys(TestImages(disk, dataset), disk))[k] == EncodeKey(p, i)
    ensures EndsWith(p, RgbSuffix) && p in disk.isFile && p in TestImages(disk, dataset)
    ensures Sidecar(p) in disk.metadata && i < BoxesOf(disk, p)
  {
    var paths := TestImages(disk, dataset);
    var j;
    j, i := TestKeyAt(paths, disk, k);
    p := paths[j];
    WalkImagesSelected(disk.Walk(TestDir(dataset)), disk.isFile);
  }

  /** An index built by the test indexer over readable images whose paths
      hold no `:` never yields a malformed key or a box position out of range:
      entry `k` is `path:i` for discovered image `j`, decodes back to that
      pair, and resolves to the crop of box `i` of that image. */
  lemma TestEntryResolves<T>(disk: Disk<T>, paths: seq<Path>, names: seq<string>, k: nat)
    returns (j: nat, i: nat)
    requires disk.Shaped() && SidecarsReadable(paths, disk)
    requires forall m :: 0 <= m < |paths| ==> ':' !in paths[m] && paths[m] in disk.images
    requires k < |TestKeys(paths, disk)|
    ensures j < |paths| && Sidecar(paths[j]) in disk.metadata && i < BoxesOf(disk, paths[j])
    ensures TestKeys(paths, disk)[k] == EncodeKey(paths[j], i)
    ensures DecodeKey(TestKeys(paths, disk)[k]) == Ok((paths[j], i as int))
    ensures TestSample(Indexed(TestKeys(paths, disk)), k, disk, names)
      == CutSample(disk.images[paths[j]], Boxes(disk.metadata[Sidecar(paths[j])].boundingBoxes)[i], names)
  {
    j, i := TestKeyAt(paths, disk, k);
    KeyRoundTrip(paths[j], i);
  }
}
