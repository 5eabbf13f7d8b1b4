/** The buffered crop both `__getitem__` methods cut out of an image: the
    box grown by a 16-pixel margin on every side, its start clamped to 0
    and its end to the image size, then sliced out with a channel axis
    added (`image[r1:r2, c1:c2, np.newaxis]`). */
module Crop {
  import opened PyBuiltins
  import opened Arrays
  import opened Records

  /** The margin, in pixels, added on every side of a box. */
  const Buffer: int := 16

  /** Rows `r1..r2` and columns `c1..c2`, ends exclusive. */
  datatype Rect = Rect(r1: int, r2: int, c1: int, c2: int)

  predicate InRows(r: Rect, i: int) { r.r1 <= i < r.r2 }

  predicate InCols(r: Rect, j: int) { r.c1 <= j < r.c2 }

  /** The box grown by the margin, before any clamping. */
  function Buffered(b: Box): Rect {
    Rect(b.y - Buffer, b.y + b.h + Buffer, b.x - Buffer, b.x + b.w + Buffer)
  }

  /** The buffered box lies wholly inside a `height` by `width` image. */
  predicate BufferedInside(b: Box, height: nat, width: nat) {
    var g := Buffered(b);
    0 <= g.r1 && g.r2 <= height && 0 <= g.c1 && g.c2 <= width
  }

  /** The box itself lies inside the image. */
  predicate BoxInside(b: Box, height: nat, width: nat) {
    0 <= b.y && 0 <= b.h && b.y + b.h <= height && 0 <= b.x && 0 <= b.w && b.x + b.w <= width
  }

  /** The length of the range `lo..hi`, zero when it is empty. */
  function Span(lo: int, hi: int): nat {
    if lo < hi then hi - lo else 0
  }

  /** The clamped crop rectangle. Its bounds stay inside the image, it
      holds exactly the rows and columns that are both in the image and in
      the buffered box, and when the buffered box fits in the image it is
      that box: `(h + 32)` rows by `(w + 32)` columns. */
  function CropRect(b: Box, height: nat, width: nat): (r: Rect)
    ensures 0 <= r.r1 && 0 <= r.c1 && r.r2 <= height && r.c2 <= width
    ensures forall i :: InRows(r, i) <==> 0 <= i < height && InRows(Buffered(b), i)
    ensures forall j :: InCols(r, j) <==> 0 <= j < width && InCols(Buffered(b), j)
    ensures BufferedInside(b, height, width) ==>
      r == Buffered(b) && r.r2 - r.r1 == b.h + 2 * Buffer && r.c2 - r.c1 == b.w + 2 * Buffer
    ensures BoxInside(b, height, width) ==>
      r.r1 <= b.y && b.y + b.h <= r.r2 && r.c1 <= b.x && b.x + b.w <= r.c2
  {
    var r1 := b.y - Buffer;
    var r2 := b.y + b.h + Buffer;
    var c1 := b.x - Buffer;
    var c2 := b.x + b.w + Buffer;
    Rect(if r1 > 0 then r1 else 0, if r2 < height then r2 else height,
         if c1 > 0 then c1 else 0, if c2 < width then c2 else width)
  }

  /** `s[lo:hi]` for bounds already clamped into the sequence. */
  function Window<T>(s: seq<T>, lo: int, hi: int): (r: seq<T>)
    requires 0 <= lo && hi <= |s|
    ensures |r| == Span(lo, hi)
    ensures forall k :: 0 <= k < |r| ==> r[k] == s[lo + k]
  {
    if lo < hi then s[lo..hi] else []
  }

  /** `image[r1:r2, c1:c2, np.newaxis]` for an in-bounds rectangle: a
      `Span(r1, r2)` by `Span(c1, c2)` by 1 array whose pixel `(i, j)` is
      pixel `(r1 + i, c1 + j)` of the image. */
  function CropImage<T>(img: Image<T>, r: Rect): (t: Tensor3<T>)
    requires img.Shaped()
    requires 0 <= r.r1 && 0 <= r.c1 && r.r2 <= img.height && r.c2 <= img.width
    ensures t.Shaped() && t.d2 == 1
    ensures t.d0 == Span(r.r1, r.r2) && t.d1 == Span(r.c1, r.c2)
    ensures forall i, j :: 0 <= i < t.d0 && 0 <= j < t.d1 ==>
      t.at[i][j][0] == img.px[r.r1 + i][r.c1 + j]
  {
    var rows := Window(img.px, r.r1, r.r2);
    var cols := Span(r.c1, r.c2);
    var t := Tensor3(|rows|, cols, 1,
      seq(|rows|, i requires 0 <= i < |rows| =>
        seq(cols, j requires 0 <= j < cols => [Window(rows[i], r.c1, r.c2)[j]])));
    assert forall i, j :: 0 <= i < |rows| && 0 <= j < cols ==>
      t.at[i][j][0] == Window(rows[i], r.c1, r.c2)[j] == rows[i][r.c1 + j];
    t
  }

  /** The crop of a box is the part of the image under the buffered box:
      every image pixel under it appears in the crop, shifted by the crop's
      origin, and every crop pixel is such an image pixel. */
  lemma CropIsIntersection<T>(img: Image<T>, b: Box, row: int, col: int)
    requires img.Shaped()
    ensures var r := CropRect(b, img.height, img.width);
      var t := CropImage(img, r);
      (0 <= row < img.height && 0 <= col < img.width &&
       InRows(Buffered(b), row) && InCols(Buffered(b), col))
      <==> (0 <= row - r.r1 < t.d0 && 0 <= col - r.c1 < t.d1)
    ensures var r := CropRect(b, img.height, img.width);
      var t := CropImage(img, r);
      0 <= row - r.r1 < t.d0 && 0 <= col - r.c1 < t.d1 ==>
        t.at[row - r.r1][col - r.c1][0] == img.px[row][col]
  {
    var r := CropRect(b, img.height, img.width);
    assert InRows(r, row) <==> 0 <= row < img.height && InRows(Buffered(b), row);
    assert InCols(r, col) <==> 0 <= col < img.width && InCols(Buffered(b), col);
  }

  /** The bounds numpy actually uses for `image[r1:r2, c1:c2]`: each one
      normalised with Python's slice rules, so a negative end counts from
      the far edge. */
  function SliceRect(r: Rect, height: nat, width: nat): (n: Rect)
    ensures 0 <= n.r1 && n.r2 <= height && 0 <= n.c1 && n.c2 <= width
    ensures 0 <= r.r1 <= height ==> n.r1 == r.r1
    ensures 0 <= r.c1 <= width ==> n.c1 == r.c1
    ensures 0 <= r.r2 <= height ==> n.r2 == r.r2
    ensures 0 <= r.c2 <= width ==> n.c2 == r.c2
    ensures -(height as int) <= r.r2 < 0 ==> n.r2 == height + r.r2
    ensures -(width as int) <= r.c2 < 0 ==> n.c2 == width + r.c2
  {
    Rect(SliceBound(r.r1, height), SliceBound(r.r2, height), SliceBound(r.c1, width), SliceBound(r.c2, width))
  }

  /** The slice as the source writes it: the window of the normalised
      bounds, whatever the signs of the bounds given. */
  function CropImageAsWritten<T>(img: Image<T>, r: Rect): (t: Tensor3<T>)
    requires img.Shaped()
    ensures t.Shaped() && t.d2 == 1
    ensures t.d0 == Span(SliceBound(r.r1, img.height), SliceBound(r.r2, img.height))
    ensures t.d1 == Span(SliceBound(r.c1, img.width), SliceBound(r.c2, img.width))
    ensures forall i, j :: 0 <= i < t.d0 && 0 <= j < t.d1 ==>
      t.at[i][j][0] == img.px[SliceBound(r.r1, img.height) + i][SliceBound(r.c1, img.width) + j]
  {
    CropImage(img, SliceRect(r, img.height, img.width))
  }

  /** Row by row, the normalised window is Python's slice of the image. */
  lemma AsWrittenIsSlice<T>(img: Image<T>, r: Rect, i: nat)
    requires img.Shaped()
    requires i < CropImageAsWritten(img, r).d0
    ensures Slice(img.px, r.r1, r.r2)[i] == img.px[SliceBound(r.r1, img.height) + i]
    ensures |Slice(img.px, r.r1, r.r2)| == CropImageAsWritten(img, r).d0
    ensures forall j :: 0 <= j < CropImageAsWritten(img, r).d1 ==>
      CropImageAsWritten(img, r).at[i][j][0] == Slice(Slice(img.px, r.r1, r.r2)[i], r.c1, r.c2)[j]
  {
  }

  /** With ends that are not negative, the slice as written is the
      in-bounds crop. */
  lemma AsWrittenAgrees<T>(img: Image<T>, r: Rect)
    requires img.Shaped()
    requires 0 <= r.r1 && 0 <= r.c1 && 0 <= r.r2 <= img.height && 0 <= r.c2 <= img.width
    ensures CropImageAsWritten(img, r) == CropImage(img, r)
  {
    var n := SliceRect(r, img.height, img.width);
    assert n.r2 == r.r2 && n.c2 == r.c2;
    assert n == r || Span(n.r1, n.r2) == Span(r.r1, r.r2) == 0 || Span(n.c1, n.c2) == Span(r.c1, r.c2) == 0;
    var s, t := CropImageAsWritten(img, r), CropImage(img, r);
    if n != r {
      Extensionality(s, t);
    }
  }

  /** A box lying wholly above the image, in a 100 by 100 image: its
      buffered rows -76..-34 miss the image, yet the clamped end -34 is a
      negative slice end, so the crop as written takes rows 0..66. */
  lemma NegativeEndWraps<T>(img: Image<T>)
    requires img.Shaped() && img.height == 100 && img.width == 100
    ensures var b := Box(10, -60, 10, 10);
      var r := CropRect(b, 100, 100);
      && r == Rect(0, -34, 0, 36)
      && (forall i :: !(0 <= i < 100 && InRows(Buffered(b), i)))
      && CropImageAsWritten(img, r).d0 == 66
      && CropImage(img, r).d0 == 0
  {
  }
}
