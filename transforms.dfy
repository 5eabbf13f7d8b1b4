/** `ToTensor`, the last transform of the chain: it moves the channel axis
    to the front and passes the label through. (`Rescale` and `Normalize`
    are not part of this model.) */
module Transforms {
  import opened Arrays
  import opened Records

  /** `ToTensor.__call__`: `image.transpose((2, 0, 1))`, so that
      `out[c][h][w] == img[h][w][c]`, with the label unchanged. */
  function ToTensor<T>(s: Sample<T>): (r: Sample<T>)
    requires s.image.Shaped()
    ensures r.classLabel == s.classLabel
    ensures r.image.Shaped()
    ensures r.image.d0 == s.image.d2 && r.image.d1 == s.image.d0 && r.image.d2 == s.image.d1
    ensures forall c, h, w :: 0 <= c < s.image.d2 && 0 <= h < s.image.d0 && 0 <= w < s.image.d1 ==>
      r.image.at[c][h][w] == s.image.at[h][w][c]
  {
    Sample(ChannelFirst(s.image), s.classLabel)
  }

  /** No information is lost: moving the channel axis back to the end
      gives the sample that went in. */
  lemma ToTensorInvertible<T>(s: Sample<T>)
    requires s.image.Shaped()
    ensures Sample(ChannelLast(ToTensor(s).image), ToTensor(s).classLabel) == s
  {
    ChannelRoundTrip(s.image);
  }
}
