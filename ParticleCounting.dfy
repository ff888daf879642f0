/** countParticles: labels the 4-connected regions of positive pixels one at a
    time, in row-major order of their first pixel, by a breadth-first walk that
    overwrites every pixel it reaches with -1, and counts the regions whose area
    exceeds `minSize`.  The walk also counts perimeter edges, which the source
    computes for a circularity test it has switched off; the count does not
    depend on it. */
module ParticleCounting {

  import Grid

  /** The foreground: pixels with a positive value. */
  ghost function Pos(s: seq<int>): (P: set<int>)
    ensures forall k :: k in P <==> 0 <= k < |s| && s[k] > 0
  {
    set k | 0 <= k < |s| && s[k] > 0
  }

  /** The particle of pixel i: every pixel connected to i through foreground. */
  ghost function Region(w: nat, h: nat, s: seq<int>, i: int): set<int>
  {
    set k | 0 <= k < |s| && Grid.Connected(w, h, Pos(s), i, k)
  }

  /** i is the first pixel of its particle in row-major order. */
  ghost predicate FirstOfRegion(w: nat, h: nat, s: seq<int>, i: int)
  {
    0 <= i < |s| && s[i] > 0 && forall j :: 0 <= j < i ==> !Grid.Connected(w, h, Pos(s), j, i)
  }

  /** Pixel i starts a particle whose area exceeds minSize. */
  ghost predicate CountsAt(w: nat, h: nat, s: seq<int>, minSize: int, i: int)
  {
    FirstOfRegion(w, h, s, i) && |Region(w, h, s, i)| > minSize
  }

  /** The number of pixels below n that start a particle whose area exceeds
      minSize. */
  ghost function CountBelow(w: nat, h: nat, s: seq<int>, minSize: int, n: int): nat
    decreases n
  {
    if n <= 0 then 0 else CountBelow(w, h, s, minSize, n - 1) + if CountsAt(w, h, s, minSize, n - 1) then 1 else 0
  }

  /** The number of particles whose area exceeds minSize. */
  ghost function ParticleCount(w: nat, h: nat, s: seq<int>, minSize: int): nat
  {
    CountBelow(w, h, s, minSize, |s|)
  }

  // ---------------------------------------------------------------------------
  // The state of one walk

  /** Pixel k is in the particle of i.  A predicate of its own so that the walk
      invariant states it only where a proof asks for it. */
  ghost predicate InRegion(w: nat, h: nat, s: seq<int>, i: int, k: int)
  {
    Grid.Connected(w, h, Pos(s), i, k)
  }

  /** Pixel k is in the particle of some pixel before i. */
  ghost predicate Rooted(w: nat, h: nat, s: seq<int>, k: int, i: int)
  {
    exists j :: 0 <= j < i && Grid.Connected(w, h, Pos(s), j, k)
  }

  /** The invariant of the walk from i: `V` holds the pixels of earlier
      particles, `D` those reached by this walk (all marked -1 in `t`), `done`
      those dequeued, `q` the queue, and `pend` a dequeued pixel whose
      neighbours are still being examined.  Every reached pixel is foreground in
      the particle of i, not in `V`, and dequeued or queued exactly once; every
      foreground neighbour of a finished pixel is reached. */
  ghost predicate Walk(w: nat, h: nat, s: seq<int>, i: int, V: set<int>, D: set<int>, done: set<int>,
                       q: seq<int>, t: seq<int>, pend: set<int>)
  {
    && |t| == |s| == w * h
    && (forall k :: 0 <= k < |s| ==> t[k] == if k in V || k in D then -1 else s[k])
    && (forall k :: k in D ==> 0 <= k < |s| && s[k] > 0 && k !in V)
    && (forall k {:trigger InRegion(w, h, s, i, k)} :: k in D ==> InRegion(w, h, s, i, k))
    && done <= D
    && (forall k :: k in D ==> k in done || k in q)
    && (forall m :: 0 <= m < |q| ==> q[m] in D && q[m] !in done)
    && (forall m, m' :: 0 <= m < m' < |q| ==> q[m] != q[m'])
    && (forall k, j :: k in done && k !in pend && Grid.Adjacent(w, h, k, j) && 0 <= j < |s| && s[j] > 0
          ==> j in D)
  }

  /** Taking the head of the queue makes it the pending pixel. */
  lemma WalkDequeue(w: nat, h: nat, s: seq<int>, i: int, V: set<int>, D: set<int>, done: set<int>,
                    q: seq<int>, t: seq<int>)
    requires Walk(w, h, s, i, V, D, done, q, t, {}) && |q| > 0
    ensures Walk(w, h, s, i, V, D, done + {q[0]}, q[1..], t, {q[0]})
    ensures q[0] in D && 0 <= q[0] < |s| && |done + {q[0]}| == |done| + 1
    ensures |Pos(s) - (done + {q[0]})| < |Pos(s) - done|
  {
    var idx := q[0];
    assert idx !in done;
    assert Pos(s) - (done + {idx}) == (Pos(s) - done) - {idx};
    var q' := q[1..];
    forall k | k in D
      ensures k in done + {idx} || k in q'
    {
      if k !in done && k != idx {
        assert k in q;
        var m :| 0 <= m < |q| && q[m] == k;
        assert m != 0 && q'[m - 1] == k;
      }
    }
    forall m | 0 <= m < |q'|
      ensures q'[m] in D && q'[m] !in done + {idx}
    {
      assert q'[m] == q[m + 1];
    }
    forall m, m' | 0 <= m < m' < |q'|
      ensures q'[m] != q'[m']
    {
      assert q'[m] == q[m + 1] && q'[m'] == q[m' + 1];
    }
  }

  /** With the queue empty, the reached pixels are exactly the particle of i. */
  lemma WalkDone(w: nat, h: nat, s: seq<int>, i: int, V: set<int>, D: set<int>, done: set<int>, t: seq<int>)
    requires Walk(w, h, s, i, V, D, done, [], t, {}) && i in D
    ensures D == done && D == Region(w, h, s, i)
    ensures Grid.Closed(w, h, Pos(s), D)
  {
    forall k | k in D
      ensures k in done
    {
      assert k in done || k in [];
    }
    assert D == done;
    forall k | k in Region(w, h, s, i)
      ensures k in D
    {
      Grid.ClosedContainsConnected(w, h, Pos(s), D, i, k);
    }
    forall k | k in D
      ensures k in Region(w, h, s, i)
    {
      assert InRegion(w, h, s, i, k);
    }
  }

  /** After the four neighbours of idx are examined, idx is finished. */
  lemma WalkClose(w: nat, h: nat, s: seq<int>, i: int, V: set<int>, D: set<int>, done: set<int>,
                  q: seq<int>, t: seq<int>, idx: int)
    requires Walk(w, h, s, i, V, D, done, q, t, {idx}) && 0 <= idx < |s|
    requires idx % w != 0 ==> (0 <= idx - 1 < |s| && s[idx - 1] > 0 ==> idx - 1 in D)
    requires idx % w != w - 1 ==> (0 <= idx + 1 < |s| && s[idx + 1] > 0 ==> idx + 1 in D)
    requires idx / w != 0 ==> (0 <= idx - w < |s| && s[idx - w] > 0 ==> idx - w in D)
    requires idx / w != h - 1 ==> (0 <= idx + w < |s| && s[idx + w] > 0 ==> idx + w in D)
    ensures Walk(w, h, s, i, V, D, done, q, t, {})
  {
    forall k, j | k in done && Grid.Adjacent(w, h, k, j) && 0 <= j < |s| && s[j] > 0
      ensures j in D
    {
      if k != idx {
        assert k !in {idx};
      }
    }
  }

  /** One of the four neighbour tests of the walk from the dequeued pixel idx:
      when `edge` (the source's test that idx has no neighbour j in that
      direction) holds or j is background, a perimeter edge is counted;
      otherwise an unreached foreground j is marked -1 and queued. */
  method Probe(pixels: array<int>, width: nat, height: nat, idx: int, edge: bool, j: int,
               queue: seq<int>, perimeter: int,
               ghost s: seq<int>, ghost i: int, ghost V: set<int>, ghost D: set<int>, ghost done: set<int>)
      returns (queue': seq<int>, perimeter': int, ghost D': set<int>)
    requires pixels.Length == |s| && Walk(width, height, s, i, V, D, done, queue, pixels[..], {idx})
    requires Grid.Closed(width, height, Pos(s), V)
    requires idx in done && (!edge ==> Grid.Adjacent(width, height, idx, j))
    modifies pixels
    ensures Walk(width, height, s, i, V, D', done, queue', pixels[..], {idx})
    ensures D <= D'
    ensures !edge && 0 <= j < |s| && s[j] > 0 ==> j in D'
    ensures perimeter <= perimeter' <= perimeter + 1
  {
    queue', perimeter', D' := queue, perimeter, D;
    if edge || pixels[j] == 0 {
      perimeter' := perimeter + 1;
    } else if pixels[j] > 0 {
      assert InRegion(width, height, s, i, idx);
      Grid.ConnectedExtend(width, height, Pos(s), i, idx, j);
      assert InRegion(width, height, s, i, j);
      queue' := queue + [j];
      pixels[j] := -1;
      D' := D + {j};
      assert forall k :: k in D' ==> k in done || k in queue';
      assert forall m :: 0 <= m < |queue'| ==> queue'[m] in D' && queue'[m] !in done;
    } else if s[j] > 0 {
      // j is marked -1 and is foreground: it is reached here, not in an earlier particle
      if j in V {
        Grid.AdjacentSymmetric(width, height, idx, j);
      }
    }
  }

  /** The four neighbour tests of countParticles for the dequeued pixel idx,
      in the source's order left, right, top, bottom. */
  method ExamineNeighbours(pixels: array<int>, width: nat, height: nat, idx: int, queue: seq<int>, perimeter: int,
                           ghost s: seq<int>, ghost i: int, ghost V: set<int>, ghost D: set<int>, ghost done: set<int>)
      returns (queue': seq<int>, perimeter': int, ghost D': set<int>)
    requires pixels.Length == |s| && Walk(width, height, s, i, V, D, done, queue, pixels[..], {idx})
    requires Grid.Closed(width, height, Pos(s), V)
    requires idx in done && 0 <= idx < |s|
    modifies pixels
    ensures Walk(width, height, s, i, V, D', done, queue', pixels[..], {})
    ensures D <= D'
    ensures perimeter <= perimeter' <= perimeter + 4
  {
    queue', perimeter', D' := queue, perimeter, D;
    Grid.NeighboursInRange(width, height, idx);
    // Left
    queue', perimeter', D' := Probe(pixels, width, height, idx, idx % width == 0, idx - 1, queue', perimeter', s, i, V, D', done);
    // Right
    queue', perimeter', D' := Probe(pixels, width, height, idx, idx % width == width - 1, idx + 1, queue', perimeter', s, i, V, D', done);
    // Top
    queue', perimeter', D' := Probe(pixels, width, height, idx, idx / width == 0, idx - width, queue', perimeter', s, i, V, D', done);
    // Bottom
    queue', perimeter', D' := Probe(pixels, width, height, idx, idx / width == height - 1, idx + width, queue', perimeter', s, i, V, D', done);
    WalkClose(width, height, s, i, V, D', done, queue', pixels[..], idx);
  }

  /** The breadth-first walk of countParticles from the unvisited foreground
      pixel i: its area is the size of i's particle, every pixel of the
      particle is marked -1 and nothing else changes. */
  method MeasureParticle(pixels: array<int>, width: nat, height: nat, i: int, ghost s: seq<int>, ghost V: set<int>)
      returns (area: int, perimeter: int, ghost D: set<int>)
    requires pixels.Length == |s| == width * height && 0 <= i < |s| && pixels[i] > 0
    requires Grid.Closed(width, height, Pos(s), V)
    requires forall k :: 0 <= k < |s| ==> pixels[k] == if k in V then -1 else s[k]
    modifies pixels
    ensures D == Region(width, height, s, i) && i in D && area == |D|
    ensures forall k :: k in D ==> 0 <= k < |s| && s[k] > 0 && k !in V
    ensures Grid.Closed(width, height, Pos(s), D)
    ensures forall k :: 0 <= k < |s| ==> pixels[k] == if k in V || k in D then -1 else s[k]
    ensures 0 <= perimeter <= 4 * area
  {
    Grid.ConnectedRefl(width, height, Pos(s), i);
    pixels[i] := -1;
    var queue := [i];
    area := 0;
    perimeter := 0;
    ghost var done: set<int> := {};
    D := {i};
    assert InRegion(width, height, s, i, i);
    while |queue| > 0
      invariant Walk(width, height, s, i, V, D, done, queue, pixels[..], {})
      invariant i in D && area == |done|
      invariant 0 <= perimeter <= 4 * area
      decreases |Pos(s) - done|
    {
      ghost var before := |Pos(s) - done|;
      area := area + 1;
      WalkDequeue(width, height, s, i, V, D, done, queue, pixels[..]);
      var idx := queue[0];
      queue := queue[1..];
      done := done + {idx};
      queue, perimeter, D := ExamineNeighbours(pixels, width, height, idx, queue, perimeter, s, i, V, D, done);
      assert |Pos(s) - done| < before;
    }
    WalkDone(width, height, s, i, V, D, done, pixels[..]);
  }

  /** A foreground pixel outside every earlier particle starts a new one. */
  lemma FirstUnvisited(w: nat, h: nat, s: seq<int>, V: set<int>, i: int)
    requires 0 <= i < |s| && s[i] > 0 && i !in V && Grid.Closed(w, h, Pos(s), V)
    requires forall j :: 0 <= j < i && s[j] > 0 ==> j in V
    ensures FirstOfRegion(w, h, s, i)
  {
    forall j | 0 <= j < i
      ensures !Grid.Connected(w, h, Pos(s), j, i)
    {
      if Grid.Connected(w, h, Pos(s), j, i) {
        var p :| Grid.IsPath(w, h, Pos(s), p) && p[0] == j && p[|p| - 1] == i;
        assert j in Pos(s);
        Grid.ClosedContainsConnected(w, h, Pos(s), V, j, i);
      }
    }
  }

  /** The invariant of the outer loop of countParticles before pixel i: `V`,
      the pixels visited so far, is the union of the particles of the
      foreground pixels before i. */
  ghost predicate Visited(w: nat, h: nat, s: seq<int>, V: set<int>, i: int)
  {
    && 0 <= i <= |s|
    && (forall k :: k in V ==> 0 <= k < |s| && s[k] > 0)
    && Grid.Closed(w, h, Pos(s), V)
    && (forall j :: 0 <= j < i && s[j] > 0 ==> j in V)
    && (forall k {:trigger Rooted(w, h, s, k, i)} :: k in V ==> Rooted(w, h, s, k, i))
  }

  /** A background or visited pixel starts no particle. */
  lemma VisitedSkip(w: nat, h: nat, s: seq<int>, minSize: int, V: set<int>, i: int)
    requires Visited(w, h, s, V, i) && 0 <= i < |s| && (i in V || s[i] < 1)
    ensures CountBelow(w, h, s, minSize, i + 1) == CountBelow(w, h, s, minSize, i)
    ensures Visited(w, h, s, V, i + 1)
  {
    if i in V {
      assert Rooted(w, h, s, i, i);
    }
    assert !CountsAt(w, h, s, minSize, i);
    forall k | k in V
      ensures Rooted(w, h, s, k, i + 1)
    {
      assert Rooted(w, h, s, k, i);
    }
  }

  /** After the walk from an unvisited foreground pixel i, its particle joins V. */
  lemma VisitedStep(w: nat, h: nat, s: seq<int>, minSize: int, V: set<int>, D: set<int>, i: int)
    requires Visited(w, h, s, V, i) && 0 <= i < |s| && FirstOfRegion(w, h, s, i)
    requires D == Region(w, h, s, i) && i in D && Grid.Closed(w, h, Pos(s), D)
    requires forall k :: k in D ==> 0 <= k < |s| && s[k] > 0
    ensures CountBelow(w, h, s, minSize, i + 1)
      == CountBelow(w, h, s, minSize, i) + if |D| > minSize then 1 else 0
    ensures Visited(w, h, s, V + D, i + 1)
  {
    forall k | k in V + D
      ensures Rooted(w, h, s, k, i + 1)
    {
      if k in V {
        assert Rooted(w, h, s, k, i);
      } else {
        assert Grid.Connected(w, h, Pos(s), i, k);
      }
    }
  }

  /** Once every pixel has been passed, V holds exactly the foreground. */
  lemma VisitedAll(w: nat, h: nat, s: seq<int>, V: set<int>)
    requires Visited(w, h, s, V, |s|)
    ensures forall k :: 0 <= k < |s| ==> (k in V <==> s[k] > 0)
  {
  }

  /** The body of countParticles' loop for an unvisited foreground pixel i:
      measure its particle and count it when its area exceeds minSize. */
  method CountParticle(pixels: array<int>, width: nat, height: nat, minSize: int, i: int,
                       particleCount: int, ghost s: seq<int>, ghost V: set<int>)
      returns (particleCount': int, ghost V': set<int>)
    requires pixels.Length == |s| == width * height && 0 <= i < |s| && pixels[i] >= 1
    requires Visited(width, height, s, V, i)
    requires forall k :: 0 <= k < |s| ==> pixels[k] == if k in V then -1 else s[k]
    requires particleCount == CountBelow(width, height, s, minSize, i)
    modifies pixels
    ensures Visited(width, height, s, V', i + 1)
    ensures forall k :: 0 <= k < |s| ==> pixels[k] == if k in V' then -1 else s[k]
    ensures particleCount' == CountBelow(width, height, s, minSize, i + 1)
  {
    FirstUnvisited(width, height, s, V, i);
    var area, perimeter;
    ghost var D;
    area, perimeter, D := MeasureParticle(pixels, width, height, i, s, V);
    particleCount' := particleCount;
    if area > minSize {
      particleCount' := particleCount + 1;
    }
    VisitedStep(width, height, s, minSize, V, D, i);
    V' := V + D;
  }

  /** countParticles(pixels, width, height, minSize). */
  method CountParticles(pixels: array<int>, width: nat, height: nat, minSize: int) returns (particleCount: int)
    requires pixels.Length == width * height
    modifies pixels
    ensures particleCount == ParticleCount(width, height, old(pixels[..]), minSize)
    ensures forall k :: 0 <= k < pixels.Length ==>
      pixels[k] == if old(pixels[k]) > 0 then -1 else old(pixels[k])
  {
    ghost var s := pixels[..];
    ghost var V: set<int> := {};
    particleCount := 0;
    for i := 0 to pixels.Length
      invariant Visited(width, height, s, V, i)
      invariant forall k :: 0 <= k < |s| ==> pixels[k] == if k in V then -1 else s[k]
      invariant particleCount == CountBelow(width, height, s, minSize, i)
    {
      // Skip background or already visited pixels
      if pixels[i] < 1 {
        VisitedSkip(width, height, s, minSize, V, i);
        continue;
      }
      particleCount, V := CountParticle(pixels, width, height, minSize, i, particleCount, s, V);
    }
    VisitedAll(width, height, s, V);
  }

  // ---------------------------------------------------------------------------
  // Properties of the particle count

  /** The pixels below n that start a particle larger than minSize. */
  ghost function Starts(w: nat, h: nat, s: seq<int>, minSize: int, n: int): set<int>
  {
    set i | 0 <= i < n && CountsAt(w, h, s, minSize, i)
  }

  /** The count is the number of counted particle starts: nothing is counted twice. */
  lemma {:induction false} CountBelowIsStarts(w: nat, h: nat, s: seq<int>, minSize: int, n: nat)
    ensures CountBelow(w, h, s, minSize, n) == |Starts(w, h, s, minSize, n)|
  {
    if n > 0 {
      CountBelowIsStarts(w, h, s, minSize, n - 1);
      var prev := Starts(w, h, s, minSize, n - 1);
      if CountsAt(w, h, s, minSize, n - 1) {
        assert Starts(w, h, s, minSize, n) == prev + {n - 1};
      } else {
        assert Starts(w, h, s, minSize, n) == prev;
      }
    }
  }

  /** Raising the minimum size never raises the count. */
  lemma {:induction false} CountBelowMonotone(w: nat, h: nat, s: seq<int>, m1: int, m2: int, n: int)
    requires m1 <= m2
    ensures CountBelow(w, h, s, m2, n) <= CountBelow(w, h, s, m1, n)
  {
    if n > 0 {
      CountBelowMonotone(w, h, s, m1, m2, n - 1);
    }
  }

  lemma ParticleCountMonotone(w: nat, h: nat, s: seq<int>, m1: int, m2: int)
    requires m1 <= m2
    ensures ParticleCount(w, h, s, m2) <= ParticleCount(w, h, s, m1)
  {
    CountBelowMonotone(w, h, s, m1, m2, |s|);
  }

  /** A path starts at an admitted pixel. */
  lemma ConnectedStart(w: nat, h: nat, S: set<int>, i: int, j: int)
    requires Grid.Connected(w, h, S, i, j)
    ensures i in S
  {
    var p :| Grid.IsPath(w, h, S, p) && p[0] == i && p[|p| - 1] == j;
  }

  /** Two different particle starts have disjoint particles. */
  lemma FirstsDisjoint(w: nat, h: nat, s: seq<int>, i: int, j: int)
    requires FirstOfRegion(w, h, s, i) && FirstOfRegion(w, h, s, j) && i != j
    ensures Region(w, h, s, i) !! Region(w, h, s, j)
  {
    if i > j {
      FirstsDisjoint(w, h, s, j, i);
    } else {
      forall k | k in Region(w, h, s, i)
        ensures k !in Region(w, h, s, j)
      {
        if k in Region(w, h, s, j) {
          Grid.ConnectedSymmetric(w, h, Pos(s), j, k);
          Grid.ConnectedTrans(w, h, Pos(s), i, k, j);
          assert false;
        }
      }
    }
  }

  /** Walking back from any pixel connected to k reaches a particle start. */
  lemma {:induction false} StartBefore(w: nat, h: nat, s: seq<int>, c: int, k: int)
    requires 0 <= c && Grid.Connected(w, h, Pos(s), c, k)
    ensures exists i :: FirstOfRegion(w, h, s, i) && Grid.Connected(w, h, Pos(s), i, k)
    decreases c
  {
    ConnectedStart(w, h, Pos(s), c, k);
    if !FirstOfRegion(w, h, s, c) {
      var j :| 0 <= j < c && Grid.Connected(w, h, Pos(s), j, c);
      Grid.ConnectedTrans(w, h, Pos(s), j, c, k);
      StartBefore(w, h, s, j, k);
    }
  }

  /** Every foreground pixel lies in the particle of exactly one start. */
  lemma OneStartPerPixel(w: nat, h: nat, s: seq<int>, k: int)
    requires 0 <= k < |s| && s[k] > 0
    ensures exists i :: FirstOfRegion(w, h, s, i) && k in Region(w, h, s, i)
    ensures forall i, j ::
      (FirstOfRegion(w, h, s, i) && k in Region(w, h, s, i) &&
       FirstOfRegion(w, h, s, j) && k in Region(w, h, s, j)) ==> i == j
  {
    Grid.ConnectedRefl(w, h, Pos(s), k);
    StartBefore(w, h, s, k, k);
    var i :| FirstOfRegion(w, h, s, i) && Grid.Connected(w, h, Pos(s), i, k);
    assert k in Region(w, h, s, i);
    forall i, j | FirstOfRegion(w, h, s, i) && k in Region(w, h, s, i)
               && FirstOfRegion(w, h, s, j) && k in Region(w, h, s, j)
      ensures i == j
    {
      if i != j {
        FirstsDisjoint(w, h, s, i, j);
      }
    }
  }

  /** A set holding i, closed under foreground neighbours and connected to i
      throughout, is the particle of i. */
  lemma RegionOfClosed(w: nat, h: nat, s: seq<int>, i: int, D: set<int>)
    requires i in D && Grid.Closed(w, h, Pos(s), D)
    requires forall k :: k in D ==> 0 <= k < |s| && Grid.Connected(w, h, Pos(s), i, k)
    ensures Region(w, h, s, i) == D
  {
    forall k | k in Region(w, h, s, i)
      ensures k in D
    {
      Grid.ClosedContainsConnected(w, h, Pos(s), D, i, k);
    }
  }

  /** Two foreground pixels of one row with a gap between them are two particles. */
  lemma SeparatedDots(minSize: int)
    ensures ParticleCount(3, 1, [255, 0, 255], minSize) == if minSize < 1 then 2 else 0
  {
    var s := [255, 0, 255];
    assert Pos(s) == {0, 2};
    Grid.ConnectedRefl(3, 1, Pos(s), 0);
    Grid.ConnectedRefl(3, 1, Pos(s), 2);
    RegionOfClosed(3, 1, s, 0, {0});
    RegionOfClosed(3, 1, s, 2, {2});
    assert FirstOfRegion(3, 1, s, 0);
    assert FirstOfRegion(3, 1, s, 2) by {
      forall j | 0 <= j < 2
        ensures !Grid.Connected(3, 1, Pos(s), j, 2)
      {
        if Grid.Connected(3, 1, Pos(s), j, 2) {
          ConnectedStart(3, 1, Pos(s), j, 2);
          Grid.ClosedContainsConnected(3, 1, Pos(s), {0}, j, 2);
        }
      }
    }
    assert !FirstOfRegion(3, 1, s, 1);
  }

  /** A solid 2-by-2 block is one particle of area 4. */
  lemma SolidBlock(minSize: int)
    ensures ParticleCount(2, 2, [255, 255, 255, 255], minSize) == if minSize < 4 then 1 else 0
  {
    var s := [255, 255, 255, 255];
    var S := Pos(s);
    assert S == {0, 1, 2, 3};
    assert Grid.Adjacent(2, 2, 0, 1) && Grid.Adjacent(2, 2, 0, 2) && Grid.Adjacent(2, 2, 2, 3);
    Grid.ConnectedRefl(2, 2, S, 0);
    Grid.ConnectedExtend(2, 2, S, 0, 0, 1);
    Grid.ConnectedExtend(2, 2, S, 0, 0, 2);
    Grid.ConnectedExtend(2, 2, S, 0, 2, 3);
    RegionOfClosed(2, 2, s, 0, S);
    assert FirstOfRegion(2, 2, s, 0);
    assert !FirstOfRegion(2, 2, s, 1) && !FirstOfRegion(2, 2, s, 2) && !FirstOfRegion(2, 2, s, 3);
    assert |S| == 4;
    var c := if minSize < 4 then 1 else 0;
    assert CountBelow(2, 2, s, minSize, 1) == c;
    assert CountBelow(2, 2, s, minSize, 2) == c;
    assert CountBelow(2, 2, s, minSize, 3) == c;
  }

  /** The indices 0, 1, ..., n - 1: n of them. */
  ghost function Indices(n: nat): (r: set<int>)
    ensures forall k :: k in r <==> 0 <= k < n
    ensures |r| == n
  {
    if n == 0 then {} else Indices(n - 1) + {n - 1}
  }

  /** An image without foreground has no particle. */
  lemma BlankCount(w: nat, h: nat, s: seq<int>, minSize: int)
    requires forall k :: 0 <= k < |s| ==> s[k] <= 0
    ensures ParticleCount(w, h, s, minSize) == 0
  {
    CountBelowIsStarts(w, h, s, minSize, |s|);
    assert Starts(w, h, s, minSize, |s|) == {};
  }

  /** A w-by-h image that is foreground throughout is one particle of area w * h. */
  lemma SolidCount(w: nat, h: nat, c: int, minSize: int)
    requires c > 0
    ensures ParticleCount(w, h, seq(w * h, _ => c), minSize)
      == if 0 < w * h && minSize < w * h then 1 else 0
  {
    var s := seq(w * h, _ => c);
    var n := w * h;
    CountBelowIsStarts(w, h, s, minSize, n);
    if n > 0 {
      forall k | 0 <= k < n
        ensures Grid.Connected(w, h, Pos(s), 0, k)
      {
        Grid.AllConnected(w, h, Pos(s), k);
      }
      assert Region(w, h, s, 0) == Indices(n);
      assert FirstOfRegion(w, h, s, 0);
      forall i | 0 < i < n
        ensures !FirstOfRegion(w, h, s, i)
      {
        assert Grid.Connected(w, h, Pos(s), 0, i);
      }
      if minSize < n {
        assert Starts(w, h, s, minSize, n) == {0};
      } else {
        assert Starts(w, h, s, minSize, n) == {};
      }
    } else {
      assert Starts(w, h, s, minSize, n) == {};
    }
  }
}
