/** Geometry of an image stored row-major in one flat array: `w` pixels per row,
    `h` rows, pixel (x, y) at index y * w + x.  The neighbour relation is the one
    the flood fills of the image analysis use, written with the same index tests:
    left when k % w != 0, above when k / w != 0, right when k % w != w - 1, below
    when k / w != h - 1.  Paths and connectivity over a set of admitted pixels are
    defined here once and shared by hole filling and particle counting. */
module Grid {

  /** j is one of the (up to) four 4-connected neighbours of k. */
  predicate Adjacent(w: nat, h: nat, k: int, j: int)
  {
    0 < w && 0 <= k < w * h && 0 <= j < w * h &&
    (   (j == k - 1 && k % w != 0)
     || (j == k - w && k / w != 0)
     || (j == k + 1 && k % w != w - 1)
     || (j == k + w && k / w != h - 1))
  }

  /** k lies in the first or last column or in the first or last row. */
  predicate OnBorder(w: nat, h: nat, k: int)
  {
    0 < w && 0 <= k < w * h &&
    (k % w == 0 || k % w == w - 1 || k / w == 0 || k / w == h - 1)
  }

  /** A non-empty sequence of admitted pixels, each adjacent to the next. */
  ghost predicate IsPath(w: nat, h: nat, S: set<int>, p: seq<int>)
  {
    && |p| > 0
    && (forall m :: 0 <= m < |p| ==> p[m] in S)
    && (forall m :: 0 <= m < |p| - 1 ==> Adjacent(w, h, p[m], p[m + 1]))
  }

  /** There is a path through S from i to j. */
  ghost predicate Connected(w: nat, h: nat, S: set<int>, i: int, j: int)
  {
    exists p :: IsPath(w, h, S, p) && p[0] == i && p[|p| - 1] == j
  }

  /** There is a path through S from some border pixel to k. */
  ghost predicate ConnectedToBorder(w: nat, h: nat, S: set<int>, k: int)
  {
    exists b :: OnBorder(w, h, b) && Connected(w, h, S, b, k)
  }

  /** Every admitted neighbour of a pixel of V is in V. */
  ghost predicate Closed(w: nat, h: nat, S: set<int>, V: set<int>)
  {
    forall k, j :: k in V && Adjacent(w, h, k, j) && j in S ==> j in V
  }

  // ---------------------------------------------------------------------------
  // Index arithmetic

  lemma MulNonneg(a: int, b: int)
    requires a >= 0 && b >= 0
    ensures a * b >= 0
  {}

  lemma MulAtLeast(d: int, w: int)
    requires d >= 1 && w >= 0
    ensures d * w >= w
  {
    MulNonneg(d - 1, w);
    assert d * w == (d - 1) * w + w;
  }

  /** Index y * w + x of a pixel splits back into its column and row. */
  lemma RowCol(w: nat, y: nat, x: nat)
    requires x < w
    ensures (y * w + x) % w == x && (y * w + x) / w == y
  {
    var k := y * w + x;
    var q, r := k / w, k % w;
    assert k == q * w + r;
    if q < y {
      MulAtLeast(y - q, w);
    } else if q > y {
      MulAtLeast(q - y, w);
    }
  }

  /** An index of an image of h rows lies in one of those rows. */
  lemma RowBound(w: nat, h: nat, k: nat)
    requires 0 < w && k < w * h
    ensures k / w < h
  {
  }

  /** Pixel (x, y) of a w-by-h image has an index below w * h. */
  lemma IndexBound(w: nat, h: nat, y: nat, x: nat)
    requires x < w && y < h
    ensures y * w + x < w * h
  {
    MulAtLeast(h - y, w);
    assert (h - y) * w == h * w - y * w;
  }

  /** The source's four neighbour tests keep the neighbour's index inside the image. */
  lemma NeighboursInRange(w: nat, h: nat, k: int)
    requires 0 < w && 0 <= k < w * h
    ensures k % w != 0 ==> k - 1 >= 0
    ensures k / w != 0 ==> k - w >= 0
    ensures k % w != w - 1 ==> k + 1 < w * h
    ensures k / w != h - 1 ==> k + w < w * h
  {
    var q, r := k / w, k % w;
    assert k == q * w + r;
    RowBound(w, h, k);
    if r != w - 1 {
      IndexBound(w, h, q, r + 1);
    }
    if q != h - 1 {
      IndexBound(w, h, q + 1, r);
      assert (q + 1) * w + r == k + w;
    }
    if q != 0 {
      assert k - w == (q - 1) * w + r;
      MulNonneg(q - 1, w);
    }
  }

  lemma LeftBack(w: nat, h: nat, k: int)
    requires 0 < w && 0 <= k < w * h && k % w != 0
    ensures Adjacent(w, h, k - 1, k)
  {
    var q, r := k / w, k % w;
    assert k == q * w + r;
    RowCol(w, q, r - 1);
    assert k - 1 == q * w + (r - 1);
  }

  lemma RightBack(w: nat, h: nat, k: int)
    requires 0 < w && 0 <= k < w * h && k % w != w - 1
    ensures Adjacent(w, h, k + 1, k)
  {
    NeighboursInRange(w, h, k);
    var q, r := k / w, k % w;
    assert k == q * w + r;
    RowCol(w, q, r + 1);
    assert k + 1 == q * w + (r + 1);
  }

  lemma UpBack(w: nat, h: nat, k: int)
    requires 0 < w && 0 <= k < w * h && k / w != 0
    ensures Adjacent(w, h, k - w, k)
  {
    var q, r := k / w, k % w;
    assert k == q * w + r;
    RowBound(w, h, k);
    assert k - w == (q - 1) * w + r;
    RowCol(w, q - 1, r);
  }

  lemma DownBack(w: nat, h: nat, k: int)
    requires 0 < w && 0 <= k < w * h && k / w != h - 1
    ensures Adjacent(w, h, k + w, k)
  {
    NeighboursInRange(w, h, k);
    var q, r := k / w, k % w;
    assert k == q * w + r;
    assert k + w == (q + 1) * w + r;
    RowCol(w, q + 1, r);
  }

  /** Adjacency is symmetric. */
  lemma AdjacentSymmetric(w: nat, h: nat, k: int, j: int)
    requires Adjacent(w, h, k, j)
    ensures Adjacent(w, h, j, k)
  {
    if j == k - 1 && k % w != 0 {
      LeftBack(w, h, k);
    } else if j == k + 1 && k % w != w - 1 {
      RightBack(w, h, k);
    } else if j == k - w && k / w != 0 {
      UpBack(w, h, k);
    } else {
      DownBack(w, h, k);
    }
  }

  // ---------------------------------------------------------------------------
  // Paths

  /** A single admitted pixel is connected to itself. */
  lemma ConnectedRefl(w: nat, h: nat, S: set<int>, i: int)
    requires i in S
    ensures Connected(w, h, S, i, i)
  {
    assert IsPath(w, h, S, [i]);
  }

  /** A path may be extended by one admitted neighbour of its last pixel. */
  lemma ConnectedExtend(w: nat, h: nat, S: set<int>, i: int, j: int, k: int)
    requires Connected(w, h, S, i, j) && Adjacent(w, h, j, k) && k in S
    ensures Connected(w, h, S, i, k)
  {
    var p :| IsPath(w, h, S, p) && p[0] == i && p[|p| - 1] == j;
    var q := p + [k];
    assert forall m :: 0 <= m < |q| - 1 ==> q[m] == p[m];
    assert IsPath(w, h, S, q);
  }

  /** A border pixel's connection extends the same way. */
  lemma BorderExtend(w: nat, h: nat, S: set<int>, j: int, k: int)
    requires ConnectedToBorder(w, h, S, j) && Adjacent(w, h, j, k) && k in S
    ensures ConnectedToBorder(w, h, S, k)
  {
    var b :| OnBorder(w, h, b) && Connected(w, h, S, b, j);
    ConnectedExtend(w, h, S, b, j, k);
  }

  /** Paths run both ways. */
  lemma ConnectedSymmetric(w: nat, h: nat, S: set<int>, i: int, j: int)
    requires Connected(w, h, S, i, j)
    ensures Connected(w, h, S, j, i)
  {
    var p :| IsPath(w, h, S, p) && p[0] == i && p[|p| - 1] == j;
    var r := seq(|p|, m requires 0 <= m < |p| => p[|p| - 1 - m]);
    forall m | 0 <= m < |r| - 1
      ensures Adjacent(w, h, r[m], r[m + 1])
    {
      assert r[m] == p[|p| - 1 - m] && r[m + 1] == p[|p| - 2 - m];
      AdjacentSymmetric(w, h, p[|p| - 2 - m], p[|p| - 1 - m]);
    }
    assert IsPath(w, h, S, r);
  }

  /** Paths compose. */
  lemma ConnectedTrans(w: nat, h: nat, S: set<int>, i: int, j: int, k: int)
    requires Connected(w, h, S, i, j) && Connected(w, h, S, j, k)
    ensures Connected(w, h, S, i, k)
  {
    var p :| IsPath(w, h, S, p) && p[0] == i && p[|p| - 1] == j;
    var q :| IsPath(w, h, S, q) && q[0] == j && q[|q| - 1] == k;
    var r := p + q[1..];
    forall m | 0 <= m < |r| - 1
      ensures Adjacent(w, h, r[m], r[m + 1])
    {
      if m < |p| - 1 {
        assert r[m] == p[m] && r[m + 1] == p[m + 1];
      } else {
        assert r[m] == q[m - |p| + 1] && r[m + 1] == q[m - |p| + 2];
      }
    }
    assert IsPath(w, h, S, r);
  }

  /** A set that contains the start of a path and is closed under admitted
      neighbours contains the whole path, in particular its end. */
  lemma {:induction false} ClosedContainsPath(w: nat, h: nat, S: set<int>, V: set<int>, p: seq<int>)
    requires IsPath(w, h, S, p) && p[0] in V && Closed(w, h, S, V)
    ensures p[|p| - 1] in V
  {
    if |p| > 1 {
      var q := p[..|p| - 1];
      assert IsPath(w, h, S, q);
      ClosedContainsPath(w, h, S, V, q);
      assert Adjacent(w, h, p[|p| - 2], p[|p| - 1]);
    }
  }

  /** Connectivity is closed: whatever is connected to a pixel of a closed set
      lies in that set. */
  lemma ClosedContainsConnected(w: nat, h: nat, S: set<int>, V: set<int>, i: int, j: int)
    requires i in V && Closed(w, h, S, V) && Connected(w, h, S, i, j)
    ensures j in V
  {
    var p :| IsPath(w, h, S, p) && p[0] == i && p[|p| - 1] == j;
    ClosedContainsPath(w, h, S, V, p);
  }

  /** A pixel off the border all of whose neighbours are outside S is connected
      to no border pixel through S. */
  lemma EnclosedNotConnected(w: nat, h: nat, S: set<int>, k: int)
    requires 0 < w && 0 <= k < w * h && !OnBorder(w, h, k)
    requires forall j :: Adjacent(w, h, k, j) ==> j !in S
    ensures !ConnectedToBorder(w, h, S, k)
  {
    if ConnectedToBorder(w, h, S, k) {
      var b :| OnBorder(w, h, b) && Connected(w, h, S, b, k);
      var p :| IsPath(w, h, S, p) && p[0] == b && p[|p| - 1] == k;
      assert |p| > 1;
      assert Adjacent(w, h, p[|p| - 2], k) && p[|p| - 2] in S;
      AdjacentSymmetric(w, h, p[|p| - 2], k);
      assert false;
    }
  }

  /** In an image whose every pixel is admitted, the top-left pixel reaches each
      pixel of column 0 ... */
  lemma {:induction false} ColumnConnected(w: nat, h: nat, S: set<int>, y: nat)
    requires 0 < w && y < h
    requires forall j :: 0 <= j < w * h ==> j in S
    ensures Connected(w, h, S, 0, y * w)
    decreases y
  {
    IndexBound(w, h, y, 0);
    if y == 0 {
      ConnectedRefl(w, h, S, 0);
    } else {
      ColumnConnected(w, h, S, y - 1);
      RowCol(w, y - 1, 0);
      assert (y - 1) * w + w == y * w;
      ConnectedExtend(w, h, S, 0, (y - 1) * w, y * w);
    }
  }

  /** ... and through its row every other pixel. */
  lemma {:induction false} FullyConnected(w: nat, h: nat, S: set<int>, y: nat, x: nat)
    requires x < w && y < h
    requires forall j :: 0 <= j < w * h ==> j in S
    ensures Connected(w, h, S, 0, y * w + x)
    decreases x
  {
    if x == 0 {
      ColumnConnected(w, h, S, y);
    } else {
      FullyConnected(w, h, S, y, x - 1);
      RowCol(w, y, x - 1);
      IndexBound(w, h, y, x);
      ConnectedExtend(w, h, S, 0, y * w + x - 1, y * w + x);
    }
  }

  /** Every pixel of a fully admitted image is connected to the top-left pixel. */
  lemma AllConnected(w: nat, h: nat, S: set<int>, k: int)
    requires 0 <= k < w * h
    requires forall j :: 0 <= j < w * h ==> j in S
    ensures Connected(w, h, S, 0, k)
  {
    RowBound(w, h, k);
    assert k == (k / w) * w + k % w;
    FullyConnected(w, h, S, k / w, k % w);
  }
}
