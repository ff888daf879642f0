/** The particle-counting pipeline of the image analysis: decode the camera's
    byte buffer, invert it so that dark particles become bright, blur it along
    both axes, threshold it to a 0/255 mask, fill the holes of that mask and
    count the particles that remain.  Saving the intermediate images to disk is
    output only and is not part of this model. */
module ImageAnalysis {

  import Grid
  import PixelOps
  import Blur
  import HoleFilling
  import ParticleCounting

  /** The n pixels decoded from a buffer of `depth` bytes per pixel. */
  function Decoded(img: seq<PixelOps.int8>, depth: nat, n: nat): (r: seq<int>)
    requires depth * n <= |img|
    ensures |r| == n
  {
    seq(n, i requires 0 <= i < n =>
      PixelOps.PixelInBuffer(depth, n, i);
      PixelOps.PixelValue(img, depth, i))
  }

  /** Both blur passes: along the rows of the w-by-h image, then along the rows
      of the transposed h-by-w result, which restores the orientation. */
  function Blurred2D(w: nat, h: nat, sigma: int, s: seq<int>): (r: seq<int>)
    requires |s| == w * h
    ensures |r| == w * h
    ensures sigma <= 1 ==> r == s
  {
    if sigma <= 1 then s
    else
      var once := Blur.Blurred(w, h, sigma, s);
      Blur.Blurred(h, w, sigma, once)
  }

  /** The image after pretreatment.  Whatever the input, it is a 0/255 mask. */
  ghost function Pretreated(w: nat, h: nat, depth: nat, sigma: int, threshold: int, s: seq<int>): (r: seq<int>)
    requires |s| == w * h
    ensures |r| == w * h && PixelOps.IsMask(r)
  {
    var mask := PixelOps.Thresholded(threshold, Blurred2D(w, h, sigma, PixelOps.Inverted(depth, s)));
    PixelOps.ThresholdedMask(threshold, Blurred2D(w, h, sigma, PixelOps.Inverted(depth, s)));
    HoleFilling.FilledMask(w, h, mask);
    HoleFilling.Filled(w, h, mask)
  }

  /** What a blur pass demands: no window reaches past the end of the buffer. */
  predicate BlurFits(w: nat, h: nat, sigma: int)
  {
    (sigma <= 1 || h == 0 || sigma < w) && (sigma <= 1 || w == 0 || sigma < h)
  }

  /** pretreatImage(pixels, width, height, depth, sigma, threshold). */
  method PretreatImage(pixels: array<int>, width: nat, height: nat, depth: nat, sigma: int, threshold: int)
    requires pixels.Length == width * height && depth <= 3
    requires BlurFits(width, height, sigma) && (width == 0 <==> height == 0)
    modifies pixels
    ensures pixels[..] == Pretreated(width, height, depth, sigma, threshold, old(pixels[..]))
  {
    ghost var s := pixels[..];
    // Detect black particles, so invert image
    PixelOps.Invert(pixels, depth);
    ghost var inverted := pixels[..];
    // One pass blurs along x and transposes; the second restores the orientation
    Blur.MeanBlur(pixels, width, height, sigma);
    Blur.MeanBlur(pixels, height, width, sigma);
    assert pixels[..] == Blurred2D(width, height, sigma, inverted);
    PixelOps.Threshold(pixels, threshold);
    // Particles have a bright spot in the centre: fill it
    HoleFilling.FillHoles(pixels, width, height);
  }

  /** The number of particles the pipeline reports for a camera buffer. */
  ghost function ParticlesIn(img: seq<PixelOps.int8>, width: nat, height: nat, depth: nat,
                             sigma: int, threshold: int, minSize: int): nat
    requires depth * (width * height) <= |img|
  {
    var s := Decoded(img, depth, width * height);
    ParticleCounting.ParticleCount(width, height, Pretreated(width, height, depth, sigma, threshold, s), minSize)
  }

  /** getParticleCount(img, width, height, depth, sigma, threshold, minSize). */
  method GetParticleCount(img: array<PixelOps.int8>, width: nat, height: nat, depth: nat,
                          sigma: int, threshold: int, minSize: int) returns (count: int)
    requires depth <= 3 && depth * (width * height) <= img.Length
    requires BlurFits(width, height, sigma) && (width == 0 <==> height == 0)
    ensures count == ParticlesIn(img[..], width, height, depth, sigma, threshold, minSize)
  {
    var pixels := PixelOps.ImageToPixels(img, width, height, depth);
    assert pixels[..] == Decoded(img[..], depth, width * height);
    PretreatImage(pixels, width, height, depth, sigma, threshold);
    count := ParticleCounting.CountParticles(pixels, width, height, minSize);
  }

  // ---------------------------------------------------------------------------
  // Properties of the pipeline

  /** Raising the minimum size never raises the reported count. */
  lemma ParticlesInMonotone(img: seq<PixelOps.int8>, width: nat, height: nat, depth: nat,
                            sigma: int, threshold: int, m1: int, m2: int)
    requires depth * (width * height) <= |img| && m1 <= m2
    ensures ParticlesIn(img, width, height, depth, sigma, threshold, m2)
         <= ParticlesIn(img, width, height, depth, sigma, threshold, m1)
  {
    var s := Decoded(img, depth, width * height);
    ParticleCounting.ParticleCountMonotone(width, height, Pretreated(width, height, depth, sigma, threshold, s), m1, m2);
  }

  /** A uniform image pretreats to a uniform mask: 255 throughout when its
      inverted value exceeds the threshold, 0 throughout otherwise. */
  lemma PretreatedUniform(w: nat, h: nat, depth: nat, sigma: int, threshold: int, v: int)
    ensures Pretreated(w, h, depth, sigma, threshold, seq(w * h, _ => v))
         == seq(w * h, _ => if PixelOps.InvertValue(depth, v) > threshold then 255 else 0)
  {
    var n := w * h;
    var c := PixelOps.InvertValue(depth, v);
    var inverted := PixelOps.Inverted(depth, seq(n, _ => v));
    assert inverted == seq(n, _ => c);
    if sigma > 1 {
      Blur.BlurredConstant(w, h, sigma, c);
      Blur.BlurredConstant(h, w, sigma, c);
      assert seq(h * w, _ => c) == seq(n, _ => c);
    }
    assert Blurred2D(w, h, sigma, inverted) == seq(n, _ => c);
    var m := if c > threshold then 255 else 0;
    assert PixelOps.Thresholded(threshold, seq(n, _ => c)) == seq(n, _ => m);
    if m == 0 {
      HoleFilling.FilledBlank(w, h);
    } else {
      HoleFilling.FilledSolid(w, h, 255);
    }
  }

  /** A uniformly dark picture (inverted value above the threshold) is one
      particle covering the whole image; a uniformly bright one has none. */
  lemma UniformCount(img: seq<PixelOps.int8>, width: nat, height: nat, depth: nat,
                     sigma: int, threshold: int, minSize: int, v: int)
    requires depth * (width * height) <= |img|
    requires Decoded(img, depth, width * height) == seq(width * height, _ => v)
    ensures ParticlesIn(img, width, height, depth, sigma, threshold, minSize)
         == if PixelOps.InvertValue(depth, v) > threshold && 0 < width * height && minSize < width * height
            then 1 else 0
  {
    PretreatedUniform(width, height, depth, sigma, threshold, v);
    if PixelOps.InvertValue(depth, v) > threshold {
      ParticleCounting.SolidCount(width, height, 255, minSize);
    } else {
      ParticleCounting.BlankCount(width, height, seq(width * height, _ => 0), minSize);
    }
  }
}
