/** fillHoles: background pixels enclosed by foreground become foreground.
    The source first re-marks every 0 pixel with the temporary value 2, then
    resets the 2-pixels on the image border to 0 and floods breadth-first from
    them through 4-connected 2-pixels, and finally turns every 2 still left into
    255.  A pixel whose original value is 2 is indistinguishable from a re-marked
    0, so the background the flood runs through is the set of pixels whose value
    is 0 or 2. */
module HoleFilling {

  import Grid
  import PixelOps

  /** Pixel k is background for the flood: its value is 0 or 2. */
  predicate Bg(s: seq<int>, k: int)
  {
    0 <= k < |s| && (s[k] == 0 || s[k] == 2)
  }

  /** The set of background pixels. */
  ghost function Background(s: seq<int>): (B: set<int>)
    ensures forall k :: k in B <==> Bg(s, k)
  {
    set k | 0 <= k < |s| && Bg(s, k)
  }

  /** Result of fillHoles at pixel k: background reachable from the border
      through background is 0, enclosed background is 255, and every other
      pixel keeps its value. */
  ghost function FilledAt(w: nat, h: nat, s: seq<int>, k: int): int
    requires 0 <= k < |s|
  {
    if Bg(s, k) then
      (if Grid.ConnectedToBorder(w, h, Background(s), k) then 0 else 255)
    else s[k]
  }

  /** The image fillHoles leaves behind. */
  ghost function Filled(w: nat, h: nat, s: seq<int>): (r: seq<int>)
    ensures |r| == |s|
    ensures forall k :: 0 <= k < |s| && !Bg(s, k) ==> r[k] == s[k]
    ensures forall k :: 0 <= k < |s| && Bg(s, k) ==> r[k] == 0 || r[k] == 255
  {
    seq(|s|, k requires 0 <= k < |s| => FilledAt(w, h, s, k))
  }

  // ---------------------------------------------------------------------------
  // The state of the flood

  /** Every background pixel is either still 2 (undetermined) or already 0
      (known outside); every other pixel keeps its value. */
  ghost predicate Marked(s: seq<int>, t: seq<int>)
  {
    |t| == |s| &&
    forall k :: 0 <= k < |s| ==> if Bg(s, k) then t[k] == 0 || t[k] == 2 else t[k] == s[k]
  }

  /** Pixel k, if 0, is connected to the border through background.  Kept as a
      predicate of its own so that the invariant below states it pixel by
      pixel only where a proof asks for it. */
  ghost predicate Reached(w: nat, h: nat, s: seq<int>, t: seq<int>, k: int)
  {
    0 <= k < |t| && t[k] == 0 ==> Grid.ConnectedToBorder(w, h, Background(s), k)
  }

  /** The invariant of the flood, with `P` the pixels taken off the queue whose
      neighbours are still being examined:
      - every 0 pixel is connected to the border through background (soundness);
      - the queue holds 0 pixels;
      - a 0 pixel that is neither queued nor pending has no background neighbour
        left at 2. */
  ghost predicate Flood(w: nat, h: nat, s: seq<int>, t: seq<int>, q: seq<int>, P: set<int>)
  {
    && |s| == w * h
    && Marked(s, t)
    && (forall k :: 0 <= k < |s| ==> Reached(w, h, s, t, k))
    && (forall m :: 0 <= m < |q| ==> 0 <= q[m] < |s| && t[q[m]] == 0)
    && (forall k, j ::
          0 <= k < |s| && t[k] == 0 && k !in q && k !in P && Grid.Adjacent(w, h, k, j) && Bg(s, j)
          ==> t[j] == 0)
  }

  /** Every background pixel on the border is 0. */
  ghost predicate BorderDone(w: nat, h: nat, s: seq<int>, t: seq<int>)
    requires |t| == |s|
  {
    forall k :: Grid.OnBorder(w, h, k) && Bg(s, k) && k < |s| ==> t[k] == 0
  }

  /** The pixels still marked 2. */
  ghost function Undetermined(t: seq<int>): set<int>
  {
    set k | 0 <= k < |t| && t[k] == 2
  }

  /** Seeding a border background pixel: it is connected to the border by itself. */
  lemma SeedStep(w: nat, h: nat, s: seq<int>, t: seq<int>, q: seq<int>, k: int)
    requires Flood(w, h, s, t, q, {})
    requires forall i :: 0 <= i < |s| && t[i] == 0 ==> i in q
    requires Grid.OnBorder(w, h, k) && t[k] == 2
    ensures Flood(w, h, s, t[k := 0], q + [k], {})
    ensures forall i :: 0 <= i < |s| && t[k := 0][i] == 0 ==> i in q + [k]
  {
    var B := Background(s);
    var t' := t[k := 0];
    var q' := q + [k];
    forall i | 0 <= i < |s|
      ensures Reached(w, h, s, t', i)
    {
      if i == k {
        Grid.ConnectedRefl(w, h, B, k);
      } else {
        assert Reached(w, h, s, t, i);
      }
    }
    forall m | 0 <= m < |q'|
      ensures 0 <= q'[m] < |s| && t'[q'[m]] == 0
    {
      if m < |q| { assert q'[m] == q[m]; }
    }
  }

  /** Marking background neighbour j of a dequeued 0 pixel i. */
  lemma MarkStep(w: nat, h: nat, s: seq<int>, t: seq<int>, q: seq<int>, i: int, j: int)
    requires Flood(w, h, s, t, q, {i})
    requires 0 <= i < |s| && t[i] == 0 && Grid.Adjacent(w, h, i, j) && t[j] == 2
    ensures Flood(w, h, s, t[j := 0], q + [j], {i})
    ensures BorderDone(w, h, s, t) ==> BorderDone(w, h, s, t[j := 0])
    ensures Undetermined(t[j := 0]) == Undetermined(t) - {j} && j in Undetermined(t)
  {
    var B := Background(s);
    var t' := t[j := 0];
    var q' := q + [j];
    forall k | 0 <= k < |s|
      ensures Reached(w, h, s, t', k)
    {
      if k == j {
        assert Reached(w, h, s, t, i);
        Grid.BorderExtend(w, h, B, i, j);
      } else {
        assert Reached(w, h, s, t, k);
      }
    }
    forall m | 0 <= m < |q'|
      ensures 0 <= q'[m] < |s| && t'[q'[m]] == 0
    {
      if m < |q| { assert q'[m] == q[m]; }
    }
    forall k, j' | 0 <= k < |s| && t'[k] == 0 && k !in q' && k !in {i} &&
          Grid.Adjacent(w, h, k, j') && Bg(s, j')
      ensures t'[j'] == 0
    {
      assert k != j && k !in q;
    }
  }

  /** After all four neighbours of i are examined, i needs no pending mark. */
  lemma CloseStep(w: nat, h: nat, s: seq<int>, t: seq<int>, q: seq<int>, i: int)
    requires Flood(w, h, s, t, q, {i}) && 0 <= i < |s|
    requires i % w != 0 ==> (Bg(s, i - 1) ==> t[i - 1] == 0)
    requires i / w != 0 ==> (Bg(s, i - w) ==> t[i - w] == 0)
    requires i % w != w - 1 ==> (Bg(s, i + 1) ==> t[i + 1] == 0)
    requires i / w != h - 1 ==> (Bg(s, i + w) ==> t[i + w] == 0)
    ensures Flood(w, h, s, t, q, {})
  {
    forall k, j |
      0 <= k < |s| && t[k] == 0 && k !in q && Grid.Adjacent(w, h, k, j) && Bg(s, j)
      ensures t[j] == 0
    {
      if k != i {
        assert k !in {i};
      }
    }
  }

  /** When the queue is empty, the 0 pixels are exactly the background pixels
      connected to the border. */
  lemma FloodComplete(w: nat, h: nat, s: seq<int>, t: seq<int>)
    requires Flood(w, h, s, t, [], {}) && BorderDone(w, h, s, t)
    ensures forall k {:trigger FilledAt(w, h, s, k)} :: 0 <= k < |s| ==>
      FilledAt(w, h, s, k) == if t[k] == 2 then 255 else t[k]
  {
    var B := Background(s);
    var V := set k | 0 <= k < |s| && t[k] == 0;
    assert Grid.Closed(w, h, B, V);
    forall k | 0 <= k < |s|
      ensures FilledAt(w, h, s, k) == if t[k] == 2 then 255 else t[k]
    {
      if Bg(s, k) {
        assert Reached(w, h, s, t, k);
        if Grid.ConnectedToBorder(w, h, B, k) {
          var b :| Grid.OnBorder(w, h, b) && Grid.Connected(w, h, B, b, k);
          var p :| Grid.IsPath(w, h, B, p) && p[0] == b && p[|p| - 1] == k;
          assert b in B;
          Grid.ClosedContainsConnected(w, h, B, V, b, k);
        }
      }
    }
  }

  /** Background pixel k, if any, is already known to be outside. */
  ghost predicate Out(s: seq<int>, t: seq<int>, k: int)
  {
    Bg(s, k) && k < |t| ==> t[k] == 0
  }

  /** Both ends of row y are done. */
  ghost predicate SidesDone(w: nat, s: seq<int>, t: seq<int>, y: int)
  {
    Out(s, t, y * w) && Out(s, t, y * w + w - 1)
  }

  /** Both ends of column x are done. */
  ghost predicate EndsDone(w: nat, h: nat, s: seq<int>, t: seq<int>, x: int)
  {
    Out(s, t, x) && Out(s, t, (h - 1) * w + x)
  }

  /** Pixels already reset to 0 stay 0, so finished rows and columns stay finished. */
  lemma ZerosPersist(w: nat, h: nat, s: seq<int>, t0: seq<int>, t: seq<int>)
    requires |t0| == |t| == |s|
    requires forall k :: 0 <= k < |s| && t0[k] == 0 ==> t[k] == 0
    ensures forall y :: SidesDone(w, s, t0, y) ==> SidesDone(w, s, t, y)
    ensures forall x :: EndsDone(w, h, s, t0, x) ==> EndsDone(w, h, s, t, x)
  {
  }

  /** The two edge loops between them cover the whole border. */
  lemma EdgesBorder(w: nat, h: nat, s: seq<int>, t: seq<int>)
    requires |t| == |s| == w * h
    requires forall y :: 0 <= y < h ==> SidesDone(w, s, t, y)
    requires forall x :: 0 <= x < w ==> EndsDone(w, h, s, t, x)
    ensures BorderDone(w, h, s, t)
  {
    forall k | Grid.OnBorder(w, h, k) && Bg(s, k) && k < |s|
      ensures t[k] == 0
    {
      var y, x := k / w, k % w;
      assert k == y * w + x;
      Grid.RowBound(w, h, k);
      if x == 0 || x == w - 1 {
        assert SidesDone(w, s, t, y);
      } else {
        assert EndsDone(w, h, s, t, x);
      }
    }
  }

  /** Marks one more pixel 0 when it is a 2 on the border. */
  method SeedBorder(pixels: array<int>, width: nat, height: nat, i: int, q: seq<int>, ghost s: seq<int>)
      returns (q': seq<int>)
    requires pixels.Length == |s| && Grid.OnBorder(width, height, i)
    requires Flood(width, height, s, pixels[..], q, {})
    requires forall k :: 0 <= k < |s| && pixels[k] == 0 ==> k in q
    modifies pixels
    ensures Flood(width, height, s, pixels[..], q', {})
    ensures forall k :: 0 <= k < |s| && pixels[k] == 0 ==> k in q'
    ensures Bg(s, i) ==> pixels[i] == 0
    ensures forall k :: 0 <= k < |s| && old(pixels[k]) == 0 ==> pixels[k] == 0
  {
    q' := q;
    if pixels[i] == 2 {
      SeedStep(width, height, s, pixels[..], q, i);
      pixels[i] := 0;
      q' := q + [i];
    }
  }

  /** One of the four neighbour tests of the flood: when `edge` (the source's
      test that i has a neighbour j in that direction) holds and j is still 2,
      j is reset to 0 and queued. */
  method Visit(pixels: array<int>, width: nat, height: nat, i: int, edge: bool, j: int,
               queue: seq<int>, ghost s: seq<int>)
      returns (queue': seq<int>, ghost marks: nat)
    requires pixels.Length == |s| && Flood(width, height, s, pixels[..], queue, {i})
    requires 0 <= i < |s| && pixels[i] == 0 && (edge ==> Grid.Adjacent(width, height, i, j))
    modifies pixels
    ensures Flood(width, height, s, pixels[..], queue', {i}) && pixels[i] == 0
    ensures edge ==> (Bg(s, j) ==> pixels[j] == 0)
    ensures forall k :: 0 <= k < |s| && old(pixels[k]) == 0 ==> pixels[k] == 0
    ensures old(BorderDone(width, height, s, pixels[..])) ==> BorderDone(width, height, s, pixels[..])
    ensures |Undetermined(pixels[..])| == |old(Undetermined(pixels[..]))| - marks
    ensures |queue'| == |queue| + marks
  {
    queue', marks := queue, 0;
    if edge && pixels[j] == 2 {
      MarkStep(width, height, s, pixels[..], queue, i, j);
      pixels[j] := 0;
      queue', marks := queue + [j], 1;
    }
  }

  /** Two of the neighbour tests of the flood, one after the other. */
  method VisitPair(pixels: array<int>, width: nat, height: nat, i: int, edge1: bool, j1: int, edge2: bool, j2: int,
                   queue: seq<int>, ghost s: seq<int>)
      returns (queue': seq<int>, ghost marks: nat)
    requires pixels.Length == |s| && Flood(width, height, s, pixels[..], queue, {i})
    requires 0 <= i < |s| && pixels[i] == 0
    requires (edge1 ==> Grid.Adjacent(width, height, i, j1)) && (edge2 ==> Grid.Adjacent(width, height, i, j2))
    modifies pixels
    ensures Flood(width, height, s, pixels[..], queue', {i}) && pixels[i] == 0
    ensures edge1 ==> (Bg(s, j1) ==> pixels[j1] == 0)
    ensures edge2 ==> (Bg(s, j2) ==> pixels[j2] == 0)
    ensures forall k :: 0 <= k < |s| && old(pixels[k]) == 0 ==> pixels[k] == 0
    ensures old(BorderDone(width, height, s, pixels[..])) ==> BorderDone(width, height, s, pixels[..])
    ensures |Undetermined(pixels[..])| == |old(Undetermined(pixels[..]))| - marks
    ensures |queue'| == |queue| + marks
  {
    ghost var m1, m2;
    queue', m1 := Visit(pixels, width, height, i, edge1, j1, queue, s);
    queue', m2 := Visit(pixels, width, height, i, edge2, j2, queue', s);
    marks := m1 + m2;
  }

  /** One round of the flood: the background neighbours of the dequeued pixel i
      that are still 2 are reset to 0 and queued, in the order left, above,
      right, below. */
  method Spread(pixels: array<int>, width: nat, height: nat, i: int, queue: seq<int>, ghost s: seq<int>)
      returns (queue': seq<int>, ghost marks: nat)
    requires pixels.Length == |s| && Flood(width, height, s, pixels[..], queue, {i})
    requires BorderDone(width, height, s, pixels[..])
    requires 0 <= i < |s| && pixels[i] == 0
    modifies pixels
    ensures Flood(width, height, s, pixels[..], queue', {})
    ensures BorderDone(width, height, s, pixels[..])
    ensures |Undetermined(pixels[..])| == |old(Undetermined(pixels[..]))| - marks
    ensures |queue'| == |queue| + marks
  {
    Grid.NeighboursInRange(width, height, i);
    ghost var m1, m2;
    queue', m1 := VisitPair(pixels, width, height, i, i % width != 0, i - 1, i / width != 0, i - width, queue, s);
    queue', m2 := VisitPair(pixels, width, height, i, i % width != width - 1, i + 1,
                            i / width != height - 1, i + width, queue', s);
    marks := m1 + m2;
    CloseStep(width, height, s, pixels[..], queue', i);
  }

  /** The vertical-edges loop of fillHoles: the first and the last pixel of
      every row, if 2, are reset to 0 and queued. */
  method SeedColumns(pixels: array<int>, width: nat, height: nat, queue0: seq<int>, ghost s: seq<int>)
      returns (queue: seq<int>)
    requires pixels.Length == |s| && Flood(width, height, s, pixels[..], queue0, {})
    requires forall k :: 0 <= k < |s| && pixels[k] == 0 ==> k in queue0
    requires 0 < height ==> 0 < width
    modifies pixels
    ensures Flood(width, height, s, pixels[..], queue, {})
    ensures forall k :: 0 <= k < |s| && pixels[k] == 0 ==> k in queue
    ensures forall yy :: 0 <= yy < height ==> SidesDone(width, s, pixels[..], yy)
  {
    queue := queue0;
    // Vertical edges
    for y := 0 to height
      invariant Flood(width, height, s, pixels[..], queue, {})
      invariant forall k :: 0 <= k < |s| && pixels[k] == 0 ==> k in queue
      invariant forall yy :: 0 <= yy < y ==> SidesDone(width, s, pixels[..], yy)
    {
      Grid.IndexBound(width, height, y, 0);
      Grid.IndexBound(width, height, y, width - 1);
      Grid.RowCol(width, y, 0);
      Grid.RowCol(width, y, width - 1);
      ghost var t0 := pixels[..];
      var i := y * width;
      queue := SeedBorder(pixels, width, height, i, queue, s);
      i := y * width + width - 1;
      queue := SeedBorder(pixels, width, height, i, queue, s);
      ZerosPersist(width, height, s, t0, pixels[..]);
    }
  }

  /** The horizontal-edges loop of fillHoles: the first and the last pixel of
      every column, if 2, are reset to 0 and queued. */
  method SeedRows(pixels: array<int>, width: nat, height: nat, queue0: seq<int>, ghost s: seq<int>)
      returns (queue: seq<int>)
    requires pixels.Length == |s| && Flood(width, height, s, pixels[..], queue0, {})
    requires forall k :: 0 <= k < |s| && pixels[k] == 0 ==> k in queue0
    requires forall yy :: 0 <= yy < height ==> SidesDone(width, s, pixels[..], yy)
    requires 0 < width ==> 0 < height
    modifies pixels
    ensures Flood(width, height, s, pixels[..], queue, {})
    ensures forall yy :: 0 <= yy < height ==> SidesDone(width, s, pixels[..], yy)
    ensures forall xx :: 0 <= xx < width ==> EndsDone(width, height, s, pixels[..], xx)
  {
    queue := queue0;
    // Horizontal edges
    for x := 0 to width
      invariant Flood(width, height, s, pixels[..], queue, {})
      invariant forall k :: 0 <= k < |s| && pixels[k] == 0 ==> k in queue
      invariant forall yy :: 0 <= yy < height ==> SidesDone(width, s, pixels[..], yy)
      invariant forall xx :: 0 <= xx < x ==> EndsDone(width, height, s, pixels[..], xx)
    {
      Grid.IndexBound(width, height, height - 1, x);
      Grid.RowCol(width, 0, x);
      Grid.RowCol(width, height - 1, x);
      ghost var t0 := pixels[..];
      var i := x;
      queue := SeedBorder(pixels, width, height, i, queue, s);
      i := (height - 1) * width + x;
      queue := SeedBorder(pixels, width, height, i, queue, s);
      ZerosPersist(width, height, s, t0, pixels[..]);
    }
  }

  /** fillHoles(pixels, width, height). */
  method FillHoles(pixels: array<int>, width: nat, height: nat)
    requires pixels.Length == width * height && (width == 0 <==> height == 0)
    modifies pixels
    ensures pixels[..] == Filled(width, height, old(pixels[..]))
  {
    ghost var s := pixels[..];
    ghost var B := Background(s);
    // Set all background pixels to the temporary value 2
    for i := 0 to pixels.Length
      invariant forall k :: 0 <= k < i ==> pixels[k] == (if s[k] == 0 then 2 else s[k])
      invariant forall k :: i <= k < pixels.Length ==> pixels[k] == s[k]
    {
      if pixels[i] == 0 {
        pixels[i] := 2;
      }
    }
    var queue: seq<int> := [];
    assert Flood(width, height, s, pixels[..], queue, {});

    queue := SeedColumns(pixels, width, height, queue, s);
    queue := SeedRows(pixels, width, height, queue, s);
    EdgesBorder(width, height, s, pixels[..]);

    // Walk the queue: every background neighbour of a known outside pixel is outside
    while |queue| > 0
      invariant Flood(width, height, s, pixels[..], queue, {})
      invariant BorderDone(width, height, s, pixels[..])
      decreases |Undetermined(pixels[..])|, |queue|
    {
      var i := queue[0];
      queue := queue[1..];
      ghost var marks;
      queue, marks := Spread(pixels, width, height, i, queue, s);
    }
    FloodComplete(width, height, s, pixels[..]);

    // All pixels not reset to 0 are inside: set them to 255
    ghost var t := pixels[..];
    for i := 0 to pixels.Length
      invariant forall k :: 0 <= k < i ==> pixels[k] == FilledAt(width, height, s, k)
      invariant forall k :: i <= k < pixels.Length ==> pixels[k] == t[k]
    {
      if pixels[i] == 2 {
        pixels[i] := 255;
      }
    }
  }

  // ---------------------------------------------------------------------------
  // Properties of the filled image

  /** Every pixel of a path that starts on the border is connected to the border. */
  lemma PrefixReach(w: nat, h: nat, S: set<int>, p: seq<int>, m: int)
    requires Grid.IsPath(w, h, S, p) && Grid.OnBorder(w, h, p[0]) && 0 <= m < |p|
    ensures Grid.ConnectedToBorder(w, h, S, p[m])
  {
    var q := p[..m + 1];
    assert Grid.IsPath(w, h, S, q) && q[0] == p[0] && q[|q| - 1] == p[m];
  }

  /** Filling an already filled image changes nothing: the background left
      after filling is exactly the part connected to the border, and every
      path witnessing such a connection runs through that part only. */
  lemma FilledIdempotent(w: nat, h: nat, s: seq<int>)
    ensures Filled(w, h, Filled(w, h, s)) == Filled(w, h, s)
  {
    var t := Filled(w, h, s);
    var B := Background(s);
    var C := Background(t);
    forall k | 0 <= k < |t|
      ensures Filled(w, h, t)[k] == t[k]
    {
      if Bg(t, k) {
        assert Bg(s, k) && Grid.ConnectedToBorder(w, h, B, k);
        var b :| Grid.OnBorder(w, h, b) && Grid.Connected(w, h, B, b, k);
        var p :| Grid.IsPath(w, h, B, p) && p[0] == b && p[|p| - 1] == k;
        forall m | 0 <= m < |p|
          ensures p[m] in C
        {
          PrefixReach(w, h, B, p, m);
          assert t[p[m]] == 0;
        }
        assert Grid.IsPath(w, h, C, p);
        assert Grid.Connected(w, h, C, b, k);
      }
    }
  }

  /** On a 0/255 mask the background is the set of 0 pixels, filling yields a
      mask again, and a pixel ends up 0 exactly when it was 0 and connected to
      the border through 0 pixels. */
  lemma FilledMask(w: nat, h: nat, s: seq<int>)
    requires PixelOps.IsMask(s)
    ensures Background(s) == set k | 0 <= k < |s| && s[k] == 0
    ensures PixelOps.IsMask(Filled(w, h, s))
    ensures forall k :: 0 <= k < |s| ==>
      (Filled(w, h, s)[k] == 0 <==> s[k] == 0 && Grid.ConnectedToBorder(w, h, Background(s), k))
  {
  }

  /** A background pixel off the border none of whose neighbours is background
      is a hole and is filled. */
  lemma EnclosedHoleFilled(w: nat, h: nat, s: seq<int>, k: int)
    requires |s| == w * h && Bg(s, k) && !Grid.OnBorder(w, h, k)
    requires forall j :: Grid.Adjacent(w, h, k, j) ==> !Bg(s, j)
    ensures Filled(w, h, s)[k] == 255
  {
    Grid.EnclosedNotConnected(w, h, Background(s), k);
  }

  /** A background pixel next to a background border pixel stays background. */
  lemma OpenHoleKept(w: nat, h: nat, s: seq<int>, b: int, k: int)
    requires |s| == w * h && Bg(s, b) && Bg(s, k) && Grid.OnBorder(w, h, b) && Grid.Adjacent(w, h, b, k)
    ensures Filled(w, h, s)[k] == 0
  {
    var B := Background(s);
    Grid.ConnectedRefl(w, h, B, b);
    Grid.ConnectedExtend(w, h, B, b, b, k);
  }

  /** A 3-by-3 ring of foreground around a one-pixel hole becomes solid. */
  lemma RingBecomesSolid()
    ensures Filled(3, 3, [255, 255, 255, 255, 0, 255, 255, 255, 255]) == seq(9, _ => 255)
  {
    var s := [255, 255, 255, 255, 0, 255, 255, 255, 255];
    EnclosedHoleFilled(3, 3, s, 4);
  }

  /** Open the ring at the top and the hole stays background. */
  lemma NotchStaysOpen()
    ensures Filled(3, 3, [255, 0, 255, 255, 0, 255, 255, 255, 255]) == [255, 0, 255, 255, 0, 255, 255, 255, 255]
  {
    var s := [255, 0, 255, 255, 0, 255, 255, 255, 255];
    Grid.ConnectedRefl(3, 3, Background(s), 1);
    OpenHoleKept(3, 3, s, 1, 4);
  }

  /** An all-background image has no hole: it stays all background. */
  lemma FilledBlank(w: nat, h: nat)
    ensures Filled(w, h, seq(w * h, _ => 0)) == seq(w * h, _ => 0)
  {
    var s := seq(w * h, _ => 0);
    forall k | 0 <= k < w * h
      ensures FilledAt(w, h, s, k) == 0
    {
      Grid.AllConnected(w, h, Background(s), k);
      assert Grid.OnBorder(w, h, 0);
    }
  }

  /** An image without background is left as it is. */
  lemma FilledSolid(w: nat, h: nat, c: int)
    requires c != 0 && c != 2
    ensures Filled(w, h, seq(w * h, _ => c)) == seq(w * h, _ => c)
  {
  }
}
