/** The element-wise stages of the particle-counting pipeline: decoding the
    camera's byte buffer into one integer per pixel, inverting intensities, and
    thresholding to a 0/255 mask.  Each works in place on (or fills) an int array
    as the source does. */
module PixelOps {

  /** A Java `byte`: signed, two's complement. */
  newtype int8 = x: int | -128 <= x < 128

  /** `b & 0xff`: the unsigned value of a byte. */
  function Unsigned(b: int8): (r: nat)
    ensures r < 256 && (r - b as int) % 256 == 0
  {
    if b < 0 then b as int + 256 else b as int
  }

  /** The byte whose unsigned value is v, the narrowing `(byte) v`. */
  function Signed(v: nat): (b: int8)
    requires v < 256
    ensures Unsigned(b) == v
  {
    if v >= 128 then (v - 256) as int8 else v as int8
  }

  /** 256^d, which is `1 << (8 * d)` for d in 0..3. */
  function Pow256(d: nat): (r: nat)
    ensures r >= 1
  {
    if d == 0 then 1 else 256 * Pow256(d - 1)
  }

  /** Value of a byte string read most significant byte first. */
  function BigEndian(bs: seq<int8>): nat
  {
    if |bs| == 0 then 0 else BigEndian(bs[..|bs| - 1]) * 256 + Unsigned(bs[|bs| - 1])
  }

  /** The d-byte big-endian encoding of v. */
  function ToBigEndian(v: nat, d: nat): (bs: seq<int8>)
    ensures |bs| == d
  {
    if d == 0 then [] else ToBigEndian(v / 256, d - 1) + [Signed(v % 256)]
  }

  /** d bytes hold a value in [0, 256^d - 1]. */
  lemma {:induction false} BigEndianBound(bs: seq<int8>)
    ensures 0 <= BigEndian(bs) < Pow256(|bs|)
  {
    if |bs| > 0 {
      BigEndianBound(bs[..|bs| - 1]);
    }
  }

  /** Decoding undoes encoding for every value that fits in d bytes. */
  lemma {:induction false} DecodeEncode(v: nat, d: nat)
    requires v < Pow256(d)
    ensures BigEndian(ToBigEndian(v, d)) == v
  {
    if d > 0 {
      var bs := ToBigEndian(v, d);
      assert bs[..|bs| - 1] == ToBigEndian(v / 256, d - 1);
      DecodeEncode(v / 256, d - 1);
    }
  }

  /** Encoding undoes decoding: the byte string is recovered exactly. */
  lemma {:induction false} EncodeDecode(bs: seq<int8>)
    ensures ToBigEndian(BigEndian(bs), |bs|) == bs
  {
    if |bs| > 0 {
      var init := bs[..|bs| - 1];
      var v := BigEndian(bs);
      assert v / 256 == BigEndian(init) && v % 256 == Unsigned(bs[|bs| - 1]);
      EncodeDecode(init);
      assert Signed(v % 256) == bs[|bs| - 1];
      assert bs == init + [bs[|bs| - 1]];
    }
  }

  /** The value of pixel i of a buffer with `depth` bytes per pixel. */
  function PixelValue(img: seq<int8>, depth: nat, i: nat): nat
    requires depth * i + depth <= |img|
  {
    BigEndian(img[depth * i .. depth * i + depth])
  }

  lemma PixelInBuffer(depth: nat, n: nat, i: nat)
    requires i < n
    ensures depth * i + depth <= depth * n
  {
    assert depth * n - (depth * i + depth) == depth * (n - i - 1);
    assert depth * (n - i - 1) >= 0;
  }

  /** imageToPixels: one integer per pixel, filled from `depth` big-endian
      bytes each; the inner loop shifts the value left by 8 bits and ors in the
      next unsigned byte.  Since the shifted value has its low 8 bits clear, the
      `|=` adds the byte, and for depth <= 3 the shifts never leave 32 bits. */
  method ImageToPixels(img: array<int8>, width: nat, height: nat, depth: nat)
      returns (pixels: array<int>)
    requires depth <= 3
    requires depth * (width * height) <= img.Length
    ensures fresh(pixels) && pixels.Length == width * height
    ensures forall i :: 0 <= i < pixels.Length ==>
      depth * i + depth <= img.Length && pixels[i] == PixelValue(img[..], depth, i)
  {
    pixels := new int[width * height];
    for i := 0 to pixels.Length
      invariant forall k :: 0 <= k < i ==>
        depth * k + depth <= img.Length && pixels[k] == PixelValue(img[..], depth, k)
    {
      PixelInBuffer(depth, width * height, i);
      pixels[i] := 0;
      for d := 0 to depth
        invariant pixels[i] == BigEndian(img[depth * i .. depth * i + d])
        invariant forall k :: 0 <= k < i ==> pixels[k] == PixelValue(img[..], depth, k)
      {
        assert img[depth * i .. depth * i + d + 1][..d] == img[depth * i .. depth * i + d];
        pixels[i] := pixels[i] * 256 + Unsigned(img[depth * i + d]);
      }
      assert img[depth * i .. depth * i + depth] == img[..][depth * i .. depth * i + depth];
    }
  }

  /** Every decoded pixel lies in [0, 256^depth - 1]. */
  lemma PixelValueBound(img: seq<int8>, depth: nat, i: nat)
    requires depth * i + depth <= |img|
    ensures 0 <= PixelValue(img, depth, i) < Pow256(depth)
  {
    BigEndianBound(img[depth * i .. depth * i + depth]);
  }

  // ---------------------------------------------------------------------------
  // invert

  /** `(1 << (8 * depth)) - v - 1`. */
  function InvertValue(depth: nat, v: int): int
  {
    Pow256(depth) - v - 1
  }

  /** The inverted image, pixel by pixel. */
  function Inverted(depth: nat, s: seq<int>): (r: seq<int>)
    ensures |r| == |s|
  {
    seq(|s|, i requires 0 <= i < |s| => InvertValue(depth, s[i]))
  }

  /** A pixel of `depth` bytes. */
  predicate InRange(depth: nat, s: seq<int>)
  {
    forall i :: 0 <= i < |s| ==> 0 <= s[i] < Pow256(depth)
  }

  /** invert: replaces each pixel v by 256^depth - 1 - v, in place. */
  method Invert(pixels: array<int>, depth: nat)
    requires depth <= 3
    modifies pixels
    ensures pixels[..] == Inverted(depth, old(pixels[..]))
  {
    for i := 0 to pixels.Length
      invariant forall k :: 0 <= k < i ==> pixels[k] == InvertValue(depth, old(pixels[k]))
      invariant forall k :: i <= k < pixels.Length ==> pixels[k] == old(pixels[k])
    {
      pixels[i] := Pow256(depth) - pixels[i] - 1;
    }
  }

  /** Inversion keeps pixels in range and is its own inverse. */
  lemma InvertedInRange(depth: nat, s: seq<int>)
    requires InRange(depth, s)
    ensures InRange(depth, Inverted(depth, s))
    ensures Inverted(depth, Inverted(depth, s)) == s
  {
  }

  // ---------------------------------------------------------------------------
  // threshold

  /** 255 above the threshold, 0 otherwise. */
  function ThresholdValue(t: int, v: int): int
  {
    if v > t then 255 else 0
  }

  /** The thresholded image, pixel by pixel. */
  function Thresholded(t: int, s: seq<int>): (r: seq<int>)
    ensures |r| == |s|
  {
    seq(|s|, i requires 0 <= i < |s| => ThresholdValue(t, s[i]))
  }

  /** Every pixel is 0 or 255. */
  predicate IsMask(s: seq<int>)
  {
    forall i :: 0 <= i < |s| ==> s[i] == 0 || s[i] == 255
  }

  /** threshold: pixel := pixel > t ? 255 : 0, in place. */
  method Threshold(pixels: array<int>, t: int)
    modifies pixels
    ensures pixels[..] == Thresholded(t, old(pixels[..]))
  {
    for i := 0 to pixels.Length
      invariant forall k :: 0 <= k < i ==> pixels[k] == ThresholdValue(t, old(pixels[k]))
      invariant forall k :: i <= k < pixels.Length ==> pixels[k] == old(pixels[k])
    {
      pixels[i] := if pixels[i] > t then 255 else 0;
    }
  }

  /** Thresholding yields a mask, and re-thresholding a mask with a threshold
      in [0, 255) changes nothing. */
  lemma ThresholdedMask(t: int, s: seq<int>)
    ensures IsMask(Thresholded(t, s))
    ensures 0 <= t < 255 ==> Thresholded(t, Thresholded(t, s)) == Thresholded(t, s)
  {
  }

  /** The threshold decides each pixel in both directions. */
  lemma ThresholdedAt(t: int, s: seq<int>, i: int)
    requires 0 <= i < |s|
    ensures Thresholded(t, s)[i] == 255 <==> s[i] > t
    ensures Thresholded(t, s)[i] == 0 <==> s[i] <= t
  {
  }
}
