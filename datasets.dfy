/** The two dataset objects. Each fills its `map` field in nested loops
    while a `curr_index` counter hands out the keys; the training set then
    replaces its map by a renumbered subsample. `GetItem` reads the map and
    returns the sample the extraction functions describe. */
module Datasets {
  import opened PyBuiltins
  import opened Arrays
  import opened Records
  import opened SampleIndex
  import opened Extraction

  /** `FMOWDataset`: the training set. */
  class FmowTrain {
    /** `self.map` */
    var index: map<int, Path>
    /** `self.curr_index` */
    var currIndex: nat
    /** The entries `index` holds, by key. */
    ghost var found: seq<Path>

    ghost predicate Valid()
      reads this
    {
      index == Indexed(found)
    }

    constructor ()
      ensures Valid() && found == [] && currIndex == 0
    {
      index := map[];
      currIndex := 0;
      found := [];
    }

    /** `populate_map` for one category: the walk under its directory,
        keeping regular files named `…_rgb.jpg`, each under the next key. */
    method PopulateMap(steps: seq<WalkStep>, isFile: set<Path>)
      requires Valid() && currIndex == |found|
      modifies this
      ensures Valid() && currIndex == |found|
      ensures found == old(found) + WalkImages(steps, isFile)
    {
      ghost var start := found;
      WalkImagesEnds(steps, isFile);
      assert start + [] == start;
      var i := 0;
      while i < |steps|
        invariant 0 <= i <= |steps|
        invariant Valid() && currIndex == |found|
        invariant found == start + WalkImages(steps[..i], isFile)
      {
        AddStep(steps[i].root, steps[i].files, isFile);
        WalkImagesNext(steps, isFile, i);
        AppendAssoc(start, WalkImages(steps[..i], isFile), StepImages(steps[i].root, steps[i].files, isFile));
        i := i + 1;
      }
    }

    /** The inner loop of `populate_map`: the files of one walk step. */
    method AddStep(root: Path, files: seq<string>, isFile: set<Path>)
      requires Valid() && currIndex == |found|
      modifies this
      ensures Valid() && currIndex == |found|
      ensures found == old(found) + StepImages(root, files, isFile)
    {
      ghost var start := found;
      StepImagesEnds(root, files, isFile);
      assert start + [] == start;
      var j := 0;
      while j < |files|
        invariant 0 <= j <= |files|
        invariant Valid() && currIndex == |found|
        invariant found == start + StepImages(root, files[..j], isFile)
      {
        var file := files[j];
        StepImagesNext(root, files, isFile, j);
        ghost var added := if Selected(root, file, isFile) then [PathJoin(root, file)] else [];
        AppendAssoc(start, StepImages(root, files[..j], isFile), added);
        ghost var prev := found;
        if EndsWith(file, RgbSuffix) {
          var image := PathJoin(root, file);
          if image in isFile {
            Insert(image);
          }
        }
        assert found == prev + added;
        j := j + 1;
      }
    }

    /** `self.map[self.curr_index] = image; self.curr_index += 1` */
    method Insert(image: Path)
      requires Valid() && currIndex == |found|
      modifies this
      ensures Valid() && currIndex == |found|
      ensures found == old(found) + [image]
    {
      IndexedAppend(found, image);
      index := index[currIndex := image];
      currIndex := currIndex + 1;
      found := found + [image];
    }

    /** The subsample: with at least `SampleSize` entries, the drawn
        positions become the keys `0..SampleSize-1` in the order drawn;
        with fewer, the draw without replacement fails and nothing changes. */
    method Subsample(draw: seq<int>) returns (ok: bool)
      requires Valid()
      requires |found| >= SampleSize ==> IsDraw(draw, |found|, SampleSize)
      modifies this
      ensures ok <==> old(|found|) >= SampleSize
      ensures !ok ==> index == old(index) && found == old(found)
      ensures ok ==> Valid() && found == Drawn(old(found), draw)
      ensures currIndex == old(currIndex)
    {
      IndexedSize(found);
      if |index| < SampleSize {
        return false;
      }
      var source := index;
      ghost var all := found;
      var miniMap: map<int, Path> := map[];
      ghost var picked: seq<Path> := [];
      var i := 0;
      while i < |draw|
        invariant 0 <= i <= |draw|
        invariant currIndex == old(currIndex)
        invariant picked == Drawn(all, draw[..i])
        invariant miniMap == Indexed(picked)
      {
        IndexedAppend(picked, all[draw[i]]);
        miniMap := miniMap[i := source[draw[i]]];
        picked := picked + [all[draw[i]]];
        i := i + 1;
      }
      assert draw[..i] == draw;
      index := miniMap;
      found := picked;
      ok := true;
    }

    /** `__getitem__`, up to the transform. */
    method GetItem<T>(idx: int, disk: Disk<T>, names: seq<string>) returns (r: Result<Sample<T>>)
      requires disk.Shaped()
      ensures r == TrainSample(index, idx, disk, names)
    {
      if idx !in index {
        return Err(MissingKey(idx));
      }
      var imageP := index[idx];
      var metadataP := Sidecar(imageP);
      if imageP !in disk.images {
        return Err(ImageUnreadable(imageP));
      }
      if metadataP !in disk.metadata {
        return Err(MetadataUnreadable(metadataP));
      }
      var image := disk.images[imageP];
      var boundingBoxes := disk.metadata[metadataP].boundingBoxes;
      if boundingBoxes.Many? {
        if |boundingBoxes.records| == 0 {
          return Err(NoBoxes);
        }
        boundingBoxes := Single(boundingBoxes.records[0]);
      }
      r := CutSample(image, boundingBoxes.record, names);
    }
  }

  /** `FMOWDataset.__init__`: every configured category's images in turn,
      then the subsample; fails when fewer than `SampleSize` images were
      discovered. */
  method NewFmowTrain<T>(dataset: Path, names: seq<string>, disk: Disk<T>, draw: seq<int>)
    returns (r: Result<FmowTrain>)
    requires var n := |TrainImages(disk, dataset, names)|; n >= SampleSize ==> IsDraw(draw, n, SampleSize)
    ensures var n := |TrainImages(disk, dataset, names)|;
      && (r.Ok? <==> n >= SampleSize)
      && (r.Err? ==> r.error == SampleLargerThanPopulation(n, SampleSize))
      && (r.Ok? ==> && fresh(r.value) && r.value.Valid()
                    && r.value.found == Drawn(TrainImages(disk, dataset, names), draw)
                    && |r.value.index| == SampleSize
                    && r.value.currIndex == n)
  {
    var ds := new FmowTrain();
    TrainImagesEnds(disk, dataset, names);
    var k := 0;
    while k < |names|
      invariant 0 <= k <= |names|
      invariant fresh(ds)
      invariant ds.Valid() && ds.currIndex == |ds.found|
      invariant ds.found == TrainImages(disk, dataset, names[..k])
    {
      TrainImagesNext(disk, dataset, names, k);
      ds.PopulateMap(disk.Walk(TrainDir(dataset, names[k])), disk.isFile);
      k := k + 1;
    }
    var population := ds.currIndex;
    var ok := ds.Subsample(draw);
    if !ok {
      return Err(SampleLargerThanPopulation(population, SampleSize));
    }
    IndexedSize(ds.found);
    return Ok(ds);
  }

  /** `FMOWDataset_test`: the test set. */
  class FmowTest {
    /** `self.map` */
    var index: map<int, string>
    /** `self.curr_index` */
    var currIndex: nat
    /** The entries `index` holds, by key. */
    ghost var entries: seq<string>

    ghost predicate Valid()
      reads this
    {
      index == Indexed(entries) && currIndex == |entries|
    }

    constructor ()
      ensures Valid() && entries == []
    {
      index := map[];
      currIndex := 0;
      entries := [];
    }

    /** The walk of `__init__`: one entry `path:i` per box of every regular
        `…_rgb.jpg` file, a bare record counting as one box. Stops with the
        sidecar's path when a sidecar cannot be read. */
    method IndexTestDir<T>(steps: seq<WalkStep>, disk: Disk<T>) returns (missing: Option<Path>)
      requires Valid() && entries == []
      modifies this
      ensures missing.None? <==> SidecarsReadable(WalkImages(steps, disk.isFile), disk)
      ensures missing.Some? ==> missing.value !in disk.metadata
      ensures missing.None? ==> Valid() && entries == TestKeys(WalkImages(steps, disk.isFile), disk)
    {
      WalkImagesEnds(steps, disk.isFile);
      var i := 0;
      while i < |steps|
        invariant 0 <= i <= |steps|
        invariant Valid()
        invariant SidecarsReadable(WalkImages(steps[..i], disk.isFile), disk)
        invariant entries == TestKeys(WalkImages(steps[..i], disk.isFile), disk)
      {
        WalkImagesNext(steps, disk.isFile, i);
        ghost var done;
        missing, done := IndexFiles(steps[i].root, steps[i].files, disk, WalkImages(steps[..i], disk.isFile));
        if missing.Some? {
          WalkImagesPrefix(steps, disk.isFile, i + 1);
          UnreadablePrefix(WalkImages(steps[..i + 1], disk.isFile), WalkImages(steps, disk.isFile), disk);
          return;
        }
        i := i + 1;
      }
      return None;
    }

    /** The files of one walk step, appended after the images `before`
        already indexed. */
    method IndexFiles<T>(root: Path, files: seq<string>, disk: Disk<T>, ghost before: seq<Path>)
      returns (missing: Option<Path>, ghost done: seq<Path>)
      requires Valid() && SidecarsReadable(before, disk) && entries == TestKeys(before, disk)
      modifies this
      ensures done == before + StepImages(root, files, disk.isFile)
      ensures missing.Some? ==> missing.value !in disk.metadata && !SidecarsReadable(done, disk)
      ensures missing.None? ==> Valid() && SidecarsReadable(done, disk) && entries == TestKeys(done, disk)
    {
      StepImagesEnds(root, files, disk.isFile);
      assert before + [] == before;
      done := before;
      var j := 0;
      while j < |files|
        invariant 0 <= j <= |files|
        invariant done == before + StepImages(root, files[..j], disk.isFile)
        invariant Valid() && SidecarsReadable(done, disk) && entries == TestKeys(done, disk)
      {
        ghost var added;
        missing, added := IndexFile(root, files[j], disk, done);
        if missing.Some? {
          NotReadableAt(root, files, disk, before, j);
          done := before + StepImages(root, files, disk.isFile);
          return;
        }
        StepImagesNext(root, files, disk.isFile, j);
        AppendAssoc(before, StepImages(root, files[..j], disk.isFile), added);
        done := done + added;
        j := j + 1;
      }
      return None, done;
    }

    /** One file of a walk step: a regular `…_rgb.jpg` file adds one key
        per box of its sidecar; any other file adds nothing. */
    method IndexFile<T>(root: Path, file: string, disk: Disk<T>, ghost done: seq<Path>)
      returns (missing: Option<Path>, ghost added: seq<Path>)
      requires Valid() && SidecarsReadable(done, disk) && entries == TestKeys(done, disk)
      modifies this
      ensures added == if Selected(root, file, disk.isFile) then [PathJoin(root, file)] else []
      ensures missing.Some? ==>
        && Selected(root, file, disk.isFile)
        && missing.value == Sidecar(PathJoin(root, file))
        && missing.value !in disk.metadata
      ensures missing.None? ==>
        Valid() && SidecarsReadable(done + added, disk) && entries == TestKeys(done + added, disk)
    {
      added := if Selected(root, file, disk.isFile) then [PathJoin(root, file)] else [];
      if EndsWith(file, RgbSuffix) {
        var imageP := PathJoin(root, file);
        if imageP in disk.isFile {
          var metadataP := Sidecar(imageP);
          if metadataP !in disk.metadata {
            return Some(metadataP), added;
          }
          TestKeysAppend(done, imageP, disk);
          AddKeys(imageP, BoxCount(disk.metadata[metadataP]));
          return None, added;
        }
      }
      assert done + [] == done;
      return None, added;
    }

    /** `for i, bb in enumerate(boxes)`: one key per box position, each
        under the next counter value. */
    method AddKeys(imageP: Path, count: nat)
      requires Valid()
      modifies this
      ensures Valid() && entries == old(entries) + ImageKeys(imageP, count)
    {
      var i := 0;
      while i < count
        invariant 0 <= i <= count
        invariant Valid() && entries == old(entries) + ImageKeys(imageP, i)
      {
        IndexedAppend(entries, EncodeKey(imageP, i));
        index := index[currIndex := EncodeKey(imageP, i)];
        currIndex := currIndex + 1;
        entries := entries + [EncodeKey(imageP, i)];
        assert ImageKeys(imageP, i + 1) == ImageKeys(imageP, i) + [EncodeKey(imageP, i)];
        i := i + 1;
      }
    }

    /** `__getitem__`, up to the transform. */
    method GetItem<T>(idx: int, disk: Disk<T>, names: seq<string>) returns (r: Result<Sample<T>>)
      requires disk.Shaped()
      ensures r == TestSample(index, idx, disk, names)
    {
      if idx !in index {
        return Err(MissingKey(idx));
      }
      var decoded := DecodeKey(index[idx]);
      if decoded.Err? {
        return Err(decoded.error);
      }
      var (imageP, boxIndex) := decoded.value;
      var metadataP := Sidecar(imageP);
      if imageP !in disk.images {
        return Err(ImageUnreadable(imageP));
      }
      if metadataP !in disk.metadata {
        return Err(MetadataUnreadable(metadataP));
      }
      var image := disk.images[imageP];
      var boundingBoxes := disk.metadata[metadataP].boundingBoxes;
      if boundingBoxes.Single? {
        boundingBoxes := Many([boundingBoxes.record]);
      }
      var bb := At(boundingBoxes.records, boxIndex);
      if bb.None? {
        return Err(BoxIndexOutOfRange(boxIndex));
      }
      r := CutSample(image, bb.value, names);
    }
  }

  /** An unreadable sidecar at file `j` of a step makes the images of the
      whole step unreadable. */
  lemma NotReadableAt<T>(root: Path, files: seq<string>, disk: Disk<T>, before: seq<Path>, j: nat)
    requires j < |files| && Selected(root, files[j], disk.isFile)
    requires Sidecar(PathJoin(root, files[j])) !in disk.metadata
    ensures !SidecarsReadable(before + StepImages(root, files, disk.isFile), disk)
  {
    var done := before + StepImages(root, files[..j], disk.isFile);
    var p := PathJoin(root, files[j]);
    StepImagesNext(root, files, disk.isFile, j);
    AppendAssoc(before, StepImages(root, files[..j], disk.isFile), [p]);
    assert !SidecarsReadable(done + [p], disk);
    StepImagesPrefix(root, files, disk.isFile, j + 1);
    PrefixAfter(before, StepImages(root, files[..j + 1], disk.isFile), StepImages(root, files, disk.isFile));
    UnreadablePrefix(done + [p], before + StepImages(root, files, disk.isFile), disk);
  }

  /** A common front keeps one list a prefix of another. */
  lemma PrefixAfter(front: seq<Path>, a: seq<Path>, b: seq<Path>)
    requires IsPrefix(a, b)
    ensures IsPrefix(front + a, front + b)
  {
    assert (front + b)[..|front + a|] == front + b[..|a|];
  }

  /** An unreadable sidecar in a prefix of a list of images is one of the
      whole list. */
  lemma {:induction false} UnreadablePrefix<T>(a: seq<Path>, b: seq<Path>, disk: Disk<T>)
    requires IsPrefix(a, b) && !SidecarsReadable(a, disk)
    ensures !SidecarsReadable(b, disk)
    decreases |b|
  {
    if |a| == |b| {
      assert a == b[..|b|] == b;
    } else {
      var front := b[..|b| - 1];
      assert front[..|a|] == b[..|a|];
      UnreadablePrefix(a, front, disk);
    }
  }

  /** `FMOWDataset_test.__init__`: the test directory's walk. */
  method NewFmowTest<T>(dataset: Path, disk: Disk<T>) returns (r: Result<FmowTest>)
    ensures r.Ok? <==> SidecarsReadable(TestImages(disk, dataset), disk)
    ensures r.Err? ==> r.error.MetadataUnreadable? && r.error.path !in disk.metadata
    ensures r.Ok? ==> && fresh(r.value) && r.value.Valid()
                      && r.value.entries == TestKeys(TestImages(disk, dataset), disk)
                      && |r.value.index| == TotalBoxes(TestImages(disk, dataset), disk)
  {
    var ds := new FmowTest();
    var missing := ds.IndexTestDir(disk.Walk(TestDir(dataset)), disk);
    if missing.Some? {
      return Err(MetadataUnreadable(missing.value));
    }
    TestKeysSize(TestImages(disk, dataset), disk);
    return Ok(ds);
  }
}
