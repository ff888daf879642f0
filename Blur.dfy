/** meanBlur: a sliding-window box blur along the rows of an image that writes
    its result transposed.  Applied once to a w-by-h image and once more to the
    resulting h-by-w image it blurs in both directions and restores the
    orientation.  Samples left of column 0 and at or right of the last column are
    both replaced by the row's first sample. */
module Blur {

  import Grid

  /** Java's `/` on int: the quotient truncated toward zero. */
  function JavaDiv(a: int, b: int): int
    requires b > 0
  {
    if a >= 0 then a / b else -((-a) / b)
  }

  /** Sample j of row y: the pixel in column j when 0 <= j < w, and the row's
      first pixel otherwise. */
  function Sample(w: nat, s: seq<int>, y: nat, j: int): int
    requires 0 < w && y * w + w <= |s|
  {
    if j < 0 || j >= w then s[y * w] else s[y * w + j]
  }

  /** Sum of the samples of row y in columns lo .. hi - 1. */
  function WindowSum(w: nat, s: seq<int>, y: nat, lo: int, hi: int): int
    requires 0 < w && y * w + w <= |s|
    decreases hi - lo
  {
    if hi <= lo then 0 else WindowSum(w, s, y, lo, hi - 1) + Sample(w, s, y, hi - 1)
  }

  /** The blurred value of pixel (x, y): the mean of the 2 * sigma + 1 samples
      centred on column x, divided as Java divides. */
  function BlurAt(w: nat, h: nat, sigma: nat, s: seq<int>, y: nat, x: nat): int
    requires |s| == w * h && y < h && x < w
  {
    Grid.IndexBound(w, h, y, w - 1);
    JavaDiv(WindowSum(w, s, y, x - sigma, x + sigma + 1), 2 * sigma + 1)
  }

  /** The output of one pass: entry x * h + y holds the blurred pixel (x, y). */
  function Blurred(w: nat, h: nat, sigma: nat, s: seq<int>): (r: seq<int>)
    requires |s| == w * h
    ensures |r| == w * h
  {
    seq(w * h, k requires 0 <= k < w * h =>
      Grid.RowBound(h, w, k);
      BlurAt(w, h, sigma, s, k % h, k / h))
  }

  /** Rows 0 .. y - 1 of the output, and columns 0 .. x - 1 of row y, hold their
      blurred values: pixel (xx, yy) at the transposed position xx * h + yy. */
  ghost predicate Done(w: nat, h: nat, sigma: nat, s: seq<int>, t: seq<int>, y: nat, x: nat)
    requires |s| == w * h && |t| == w * h
  {
    forall yy: nat, xx: nat {:trigger BlurAt(w, h, sigma, s, yy, xx)} ::
      yy < h && xx < w && (yy < y || (yy == y && xx < x)) ==>
        (Grid.IndexBound(h, w, xx, yy); t[xx * h + yy] == BlurAt(w, h, sigma, s, yy, xx))
  }

  /** Dropping the leftmost sample of a window. */
  lemma {:induction false} WindowSumDropFirst(w: nat, s: seq<int>, y: nat, lo: int, hi: int)
    requires 0 < w && y * w + w <= |s| && lo < hi
    ensures WindowSum(w, s, y, lo + 1, hi) == WindowSum(w, s, y, lo, hi) - Sample(w, s, y, lo)
    decreases hi - lo
  {
    if lo + 1 < hi {
      WindowSumDropFirst(w, s, y, lo, hi - 1);
    }
  }

  /** Distinct pixels have distinct transposed positions. */
  lemma TransposedInjective(h: nat, x: nat, y: nat, xx: nat, yy: nat)
    requires y < h && yy < h && (x != xx || y != yy)
    ensures x * h + y != xx * h + yy
  {
    Grid.RowCol(h, x, y);
    Grid.RowCol(h, xx, yy);
  }

  /** Writing the blurred pixel (x, y) at x * h + y extends the finished part. */
  lemma DoneStep(w: nat, h: nat, sigma: nat, s: seq<int>, t: seq<int>, y: nat, x: nat)
    requires |s| == w * h && |t| == w * h && y < h && x < w
    requires Done(w, h, sigma, s, t, y, x)
    ensures x * h + y < w * h
    ensures Done(w, h, sigma, s, t[x * h + y := BlurAt(w, h, sigma, s, y, x)], y, x + 1)
  {
    Grid.IndexBound(h, w, x, y);
    var t' := t[x * h + y := BlurAt(w, h, sigma, s, y, x)];
    forall yy: nat, xx: nat | yy < h && xx < w && (yy < y || (yy == y && xx < x + 1))
      ensures xx * h + yy < w * h && t'[xx * h + yy] == BlurAt(w, h, sigma, s, yy, xx)
    {
      Grid.IndexBound(h, w, xx, yy);
      if xx != x || yy != y {
        TransposedInjective(h, x, y, xx, yy);
      }
    }
  }

  /** Entry k of the output is pixel (k / h, k % h). */
  lemma DoneAt(w: nat, h: nat, sigma: nat, s: seq<int>, t: seq<int>, k: nat)
    requires |s| == w * h && |t| == w * h && h > 0 && k < w * h
    requires Done(w, h, sigma, s, t, h, 0)
    ensures k / h < w && t[k] == BlurAt(w, h, sigma, s, k % h, k / h)
  {
    Grid.RowBound(h, w, k);
    var yy, xx := k % h, k / h;
    assert k == xx * h + yy;
    assert t[xx * h + yy] == BlurAt(w, h, sigma, s, yy, xx);
  }

  /** With every row finished the output is the whole pass. */
  lemma DoneAll(w: nat, h: nat, sigma: nat, s: seq<int>, t: seq<int>)
    requires |s| == w * h && |t| == w * h && h > 0
    requires Done(w, h, sigma, s, t, h, 0)
    ensures t == Blurred(w, h, sigma, s)
  {
    forall k | 0 <= k < w * h
      ensures t[k] == Blurred(w, h, sigma, s)[k]
    {
      DoneAt(w, h, sigma, s, t, k);
    }
  }

  /** One row of meanBlur: initialise the window, then slide it along the row,
      writing each mean into the transposed position of temp. */
  method BlurRow(pixels: array<int>, temp: array<int>, width: nat, height: nat, sigma: int, y: nat)
    requires pixels != temp
    requires pixels.Length == width * height && temp.Length == width * height
    requires 1 < sigma < width && y < height
    requires Done(width, height, sigma, pixels[..], temp[..], y, 0)
    modifies temp
    ensures Done(width, height, sigma, pixels[..], temp[..], y + 1, 0)
  {
    ghost var s := pixels[..];
    var size := 2 * sigma + 1;
    Grid.IndexBound(width, height, y, width - 1);
    // Initialise window
    var partialSum := 0;
    for i := -sigma to sigma + 1
      invariant partialSum == WindowSum(width, s, y, -sigma, i)
    {
      partialSum := partialSum + if i < 0 then pixels[y * width] else pixels[y * width + i];
    }
    // Bulk
    for x := 0 to width
      invariant partialSum == WindowSum(width, s, y, x - sigma, x + sigma + 1)
      invariant Done(width, height, sigma, s, temp[..], y, x)
    {
      DoneStep(width, height, sigma, s, temp[..], y, x);
      temp[x * height + y] := JavaDiv(partialSum, size);
      partialSum := partialSum +
        if x + sigma + 1 >= width then pixels[y * width] else pixels[y * width + x + sigma + 1];
      WindowSumDropFirst(width, s, y, x - sigma, x + sigma + 2);
      partialSum := partialSum -
        if x - sigma < 0 then pixels[y * width] else pixels[y * width + x - sigma];
    }
  }

  /** meanBlur(pixels, width, height, sigma). */
  method MeanBlur(pixels: array<int>, width: nat, height: nat, sigma: int)
    requires pixels.Length == width * height
    requires sigma <= 1 || height == 0 || sigma < width
    modifies pixels
    ensures sigma <= 1 ==> pixels[..] == old(pixels[..])
    ensures sigma > 1 ==> pixels[..] == Blurred(width, height, sigma, old(pixels[..]))
  {
    if sigma <= 1 {
      // the source prints "Kernel too small. No blurring was performed."
      return;
    }
    var temp := new int[pixels.Length];
    for y := 0 to height
      invariant pixels[..] == old(pixels[..])
      invariant height > 0 ==> Done(width, height, sigma, pixels[..], temp[..], y, 0)
    {
      BlurRow(pixels, temp, width, height, sigma, y);
    }
    if height > 0 {
      DoneAll(width, height, sigma, pixels[..], temp[..]);
    } else {
      assert temp[..] == [] == Blurred(width, height, sigma, pixels[..]);
    }
    // System.arraycopy(temp, 0, pixels, 0, width * height)
    forall k | 0 <= k < width * height {
      pixels[k] := temp[k];
    }
    assert pixels[..] == temp[..];
  }

  // ---------------------------------------------------------------------------
  // Properties of one pass

  /** Every sample of row y lies within [lo, hi]. */
  predicate RowWithin(w: nat, s: seq<int>, y: nat, lo: int, hi: int)
    requires 0 < w && y * w + w <= |s|
  {
    forall j :: 0 <= j < w ==> lo <= Sample(w, s, y, j) <= hi
  }

  /** A sum of n samples each within [lo, hi] lies within [n * lo, n * hi]. */
  lemma {:induction false} WindowSumBounds(w: nat, s: seq<int>, y: nat, a: int, b: int, lo: int, hi: int)
    requires 0 < w && y * w + w <= |s| && a <= b
    requires RowWithin(w, s, y, lo, hi)
    ensures (b - a) * lo <= WindowSum(w, s, y, a, b) <= (b - a) * hi
    decreases b - a
  {
    if a < b {
      WindowSumBounds(w, s, y, a, b - 1, lo, hi);
      assert Sample(w, s, y, b - 1) == Sample(w, s, y, if 0 <= b - 1 < w then b - 1 else 0);
      assert (b - a) * lo == (b - 1 - a) * lo + lo;
      assert (b - a) * hi == (b - 1 - a) * hi + hi;
    }
  }

  /** Floor division of a value within [n * lo, n * hi] by n lies within [lo, hi]. */
  lemma FloorDivBounds(v: int, n: int, lo: int, hi: int)
    requires n > 0 && n * lo <= v <= n * hi
    ensures lo <= v / n <= hi
  {
    var q, r := v / n, v % n;
    assert v == q * n + r;
    if q < lo {
      Grid.MulAtLeast(lo - q, n);
    }
    if q > hi {
      Grid.MulAtLeast(q - hi, n);
    }
  }

  /** The same holds for Java's truncating division. */
  lemma JavaDivBounds(v: int, n: int, lo: int, hi: int)
    requires n > 0 && n * lo <= v <= n * hi
    ensures lo <= JavaDiv(v, n) <= hi
  {
    if v >= 0 {
      FloorDivBounds(v, n, lo, hi);
    } else {
      assert n * -hi == -(n * hi) && n * -lo == -(n * lo);
      FloorDivBounds(-v, n, -hi, -lo);
    }
  }

  /** Every blurred pixel lies between any lower and upper bound of its source row. */
  lemma BlurAtBounds(w: nat, h: nat, sigma: nat, s: seq<int>, y: nat, x: nat, lo: int, hi: int)
    requires |s| == w * h && y < h && x < w
    requires (Grid.IndexBound(w, h, y, w - 1); RowWithin(w, s, y, lo, hi))
    ensures lo <= BlurAt(w, h, sigma, s, y, x) <= hi
  {
    Grid.IndexBound(w, h, y, w - 1);
    var n := 2 * sigma + 1;
    WindowSumBounds(w, s, y, x - sigma, x + sigma + 1, lo, hi);
    JavaDivBounds(WindowSum(w, s, y, x - sigma, x + sigma + 1), n, lo, hi);
  }

  /** A constant image of value c blurs to the same constant image. */
  lemma BlurredConstant(w: nat, h: nat, sigma: nat, c: int)
    ensures Blurred(w, h, sigma, seq(w * h, _ => c)) == seq(w * h, _ => c)
  {
    var s := seq(w * h, _ => c);
    forall k | 0 <= k < w * h
      ensures Blurred(w, h, sigma, s)[k] == c
    {
      Grid.RowBound(h, w, k);
      var y, x := k % h, k / h;
      Grid.IndexBound(w, h, y, w - 1);
      assert RowWithin(w, s, y, c, c);
      BlurAtBounds(w, h, sigma, s, y, x, c, c);
    }
  }
}
