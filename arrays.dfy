/** The numpy arrays the dataset code handles: a grayscale image (height by
    width) as decoded from disk, and three-axis arrays with an explicit shape
    (numpy keeps the shape even when an axis has length zero). */
module Arrays {

  /** A single-channel image, `img[row][column]`. */
  datatype Image<T> = Image(height: nat, width: nat, px: seq<seq<T>>) {
    predicate Shaped() {
      |px| == height && forall i :: 0 <= i < |px| ==> |px[i]| == width
    }
  }

  /** A three-axis array of shape `(d0, d1, d2)`, `at[i][j][k]`. */
  datatype Tensor3<T> = Tensor3(d0: nat, d1: nat, d2: nat, at: seq<seq<seq<T>>>) {
    predicate Shaped() {
      && |at| == d0
      && (forall i :: 0 <= i < d0 ==> |at[i]| == d1)
      && (forall i, j :: 0 <= i < d0 && 0 <= j < d1 ==> |at[i][j]| == d2)
    }
  }

  /** Two arrays of the same shape with the same elements are equal. */
  lemma Extensionality<T>(s: Tensor3<T>, t: Tensor3<T>)
    requires s.Shaped() && t.Shaped()
    requires s.d0 == t.d0 && s.d1 == t.d1 && s.d2 == t.d2
    requires forall i, j, k :: 0 <= i < s.d0 && 0 <= j < s.d1 && 0 <= k < s.d2 ==>
      s.at[i][j][k] == t.at[i][j][k]
    ensures s == t
  {
    forall i | 0 <= i < s.d0 ensures s.at[i] == t.at[i] {
      forall j | 0 <= j < s.d1 ensures s.at[i][j] == t.at[i][j] {
        assert |s.at[i][j]| == |t.at[i][j]| == s.d2;
      }
    }
  }

  /** numpy's `a.transpose((2, 0, 1))`: axes (H, W, C) become (C, H, W). */
  function ChannelFirst<T>(t: Tensor3<T>): (r: Tensor3<T>)
    requires t.Shaped()
    ensures r.Shaped() && r.d0 == t.d2 && r.d1 == t.d0 && r.d2 == t.d1
    ensures forall c, h, w :: 0 <= c < t.d2 && 0 <= h < t.d0 && 0 <= w < t.d1 ==>
      r.at[c][h][w] == t.at[h][w][c]
  {
    Tensor3(t.d2, t.d0, t.d1,
      seq(t.d2, c requires 0 <= c < t.d2 =>
        seq(t.d0, h requires 0 <= h < t.d0 =>
          seq(t.d1, w requires 0 <= w < t.d1 => t.at[h][w][c]))))
  }

  /** numpy's `a.transpose((1, 2, 0))`: axes (C, H, W) become (H, W, C). */
  function ChannelLast<T>(t: Tensor3<T>): (r: Tensor3<T>)
    requires t.Shaped()
    ensures r.Shaped() && r.d0 == t.d1 && r.d1 == t.d2 && r.d2 == t.d0
    ensures forall h, w, c :: 0 <= h < t.d1 && 0 <= w < t.d2 && 0 <= c < t.d0 ==>
      r.at[h][w][c] == t.at[c][h][w]
  {
    Tensor3(t.d1, t.d2, t.d0,
      seq(t.d1, h requires 0 <= h < t.d1 =>
        seq(t.d2, w requires 0 <= w < t.d2 =>
          seq(t.d0, c requires 0 <= c < t.d0 => t.at[c][h][w]))))
  }

  /** The two permutations undo each other. */
  lemma ChannelRoundTrip<T>(t: Tensor3<T>)
    requires t.Shaped()
    ensures ChannelLast(ChannelFirst(t)) == t
    ensures ChannelFirst(ChannelLast(t)) == t
  {
    Extensionality(ChannelLast(ChannelFirst(t)), t);
    Extensionality(ChannelFirst(ChannelLast(t)), t);
  }
}
