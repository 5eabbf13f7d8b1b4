/** The records of the Functional Map of World corpus as the dataset code
    sees them: parsed bounding-box metadata, the raw `(image, label)`
    sample, the errors an access can end in, and the small lookups done on
    them (sidecar path, box selection, label). */
module Records {
  import opened PyBuiltins
  import opened Arrays

  type Path = string

  /** The ways a dataset operation fails; each stands for the Python
      exception the code raises at that point. */
  datatype Error =
    | MissingKey(key: int)                 // KeyError on `self.map[idx]`
    | NoBoxes                              // IndexError on `[...][0]` of an empty list
    | BoxIndexOutOfRange(position: int)    // IndexError on `[...][box_index]`
    | CategoryNotFound(category: string)   // ValueError from `list.index`
    | MalformedKey(entry: string)          // ValueError from the split/int decode
    | ImageUnreadable(path: Path)          // cv2.imread failed
    | MetadataUnreadable(path: Path)       // open/json.load failed
    | SampleLargerThanPopulation(population: nat, size: nat) // np.random.choice

  datatype Result<T> = Ok(value: T) | Err(error: Error)

  /** The `box` field of a record: `[x, y, width, height]` in pixels. */
  datatype Box = Box(x: int, y: int, w: int, h: int)

  /** One bounding-box record: its rectangle and its category name. */
  datatype BoundingBox = BoundingBox(box: Box, category: string)

  /** The `bounding_boxes` field, which the corpus stores either as one bare
      record or as a list of records. */
  datatype BoxField = Single(record: BoundingBox) | Many(records: seq<BoundingBox>)

  /** A parsed metadata sidecar. */
  datatype Metadata = Metadata(boundingBoxes: BoxField)

  /** A sample: an image array and a one-element label array. */
  datatype Sample<T> = Sample(image: Tensor3<T>, classLabel: seq<int>)

  /** The sidecar of an image, `image_p[:-3] + 'json'`: the path without its
      last three characters, followed by `json`. */
  function Sidecar(p: Path): (r: Path)
    ensures |p| >= 3 ==> r == p[..|p| - 3] + "json"
    ensures |p| < 3 ==> r == "json"
  {
    Slice(p, 0, -3) + "json"
  }

  /** An RGB image `…_rgb.jpg` has the sidecar `…_rgb.json` of the same
      base name. */
  lemma SidecarOfRgb(p: Path)
    requires EndsWith(p, "_rgb.jpg")
    ensures EndsWith(Sidecar(p), "_rgb.json")
    ensures |Sidecar(p)| == |p| + 1
    ensures Sidecar(p)[..|p| - 4] == p[..|p| - 4]
  {
    assert p[|p| - 8..] == "_rgb.jpg";
    var s := Sidecar(p);
    assert p[|p| - 8..|p| - 3] == "_rgb.";
    assert s[|s| - 9..] == p[|p| - 8..|p| - 3] + "json";
  }

  /** The boxes of a record as a list, a bare record standing for a list
      of one (the test code's normalisation). */
  function Boxes(f: BoxField): (bs: seq<BoundingBox>)
    ensures f.Single? ==> bs == [f.record]
    ensures f.Many? ==> bs == f.records
  {
    match f
    case Single(b) => [b]
    case Many(bs) => bs
  }

  /** The number of boxes a metadata record holds. */
  function BoxCount(m: Metadata): (n: nat)
    ensures m.boundingBoxes.Single? ==> n == 1
    ensures m.boundingBoxes.Many? ==> n == |m.boundingBoxes.records|
  {
    |Boxes(m.boundingBoxes)|
  }

  /** The training code's normalisation: a list is reduced to its first
      element, a bare record is kept. It selects exactly the box at
      position 0 of the test code's normalised list. */
  function FirstBox(f: BoxField): (r: Result<BoundingBox>)
    ensures r.Ok? <==> |Boxes(f)| > 0
    ensures r.Ok? ==> r.value == Boxes(f)[0]
    ensures r.Err? ==> r.error == NoBoxes
  {
    match f
    case Single(b) => Ok(b)
    case Many(bs) => if |bs| == 0 then Err(NoBoxes) else Ok(bs[0])
  }

  /** The test code's selection `metadata['bounding_boxes'][box_index]`
      after normalisation, with Python's negative positions. */
  function SelectBox(f: BoxField, position: int): (r: Result<BoundingBox>)
    ensures r.Ok? <==> -|Boxes(f)| <= position < |Boxes(f)|
    ensures 0 <= position < |Boxes(f)| ==> r == Ok(Boxes(f)[position])
    ensures -|Boxes(f)| <= position < 0 ==> r == Ok(Boxes(f)[|Boxes(f)| + position])
    ensures r.Err? ==> r.error == BoxIndexOutOfRange(position)
  {
    match At(Boxes(f), position)
    case Some(b) => Ok(b)
    case None => Err(BoxIndexOutOfRange(position))
  }

  /** `fmow_class_names_mini.index(category)`: the first 0-based position
      of the category in the configured list; fails when it is absent. */
  function Label(names: seq<string>, category: string): (r: Result<nat>)
    ensures r.Ok? <==> category in names
    ensures r.Ok? ==> r.value < |names| && names[r.value] == category
    ensures r.Ok? ==> forall k :: 0 <= k < r.value ==> names[k] != category
    ensures r.Err? ==> r.error == CategoryNotFound(category)
  {
    match IndexOf(names, category)
    case Some(k) =>
      assert forall j :: 0 <= j < k ==> names[j] == names[..k][j];
      Ok(k)
    case None => Err(CategoryNotFound(category))
  }
}
