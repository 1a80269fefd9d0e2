/** The particle network drawn each frame: boundary reflection and pulse
    target of every point, and the pass that joins close pairs of points
    with a line. Coordinates are exact reals, an idealisation of the
    browser's doubles. */
module Network {

  datatype Vec = Vec(x: real, y: real)

  /** A network point. `targetSize` is the size the point's pulse eases
      toward; it starts at 0 and is recomputed every frame. */
  datatype Point = Point(pos: Vec, vel: Vec, size: real, filled: bool, targetSize: real)

  const BASE_CONNECT_DIST: real := 70.0

  /** The audio level a frame uses: the measured amplitude while a loaded
      track is playing, and 0 otherwise. */
  function FrameLevel(audioLoaded: bool, isPlaying: bool, hasSong: bool, measured: real): (level: real)
    ensures audioLoaded && isPlaying && hasSong ==> level == measured
    ensures !(audioLoaded && isPlaying && hasSong) ==> level == 0.0
    ensures 0.0 <= measured <= 1.0 ==> 0.0 <= level <= 1.0
  {
    if audioLoaded && isPlaying && hasSong then measured else 0.0
  }

  // ---------------------------------------------------------------- reflection

  predicate OutsideX(p: Point, width: real) {
    p.pos.x < 0.0 || p.pos.x > width
  }

  predicate OutsideY(p: Point, height: real) {
    p.pos.y < 0.0 || p.pos.y > height
  }

  predicate InCanvas(v: Vec, width: real, height: real) {
    0.0 <= v.x <= width && 0.0 <= v.y <= height
  }

  /** Elastic boundary: each velocity component is negated, on its own,
      when the point lies outside the canvas on that axis. */
  function Reflect(p: Point, width: real, height: real): (r: Point)
    ensures r.pos == p.pos && r.size == p.size && r.filled == p.filled
    ensures r.targetSize == p.targetSize
    ensures r.vel.x == (if OutsideX(p, width) then -p.vel.x else p.vel.x)
    ensures r.vel.y == (if OutsideY(p, height) then -p.vel.y else p.vel.y)
  {
    var vx := if OutsideX(p, width) then -p.vel.x else p.vel.x;
    var vy := if OutsideY(p, height) then -p.vel.y else p.vel.y;
    p.(vel := Vec(vx, vy))
  }

  /** A point inside the canvas keeps its velocity. */
  lemma ReflectInside(p: Point, width: real, height: real)
    requires InCanvas(p.pos, width, height)
    ensures Reflect(p, width, height) == p
  {
  }

  /** Reflection only flips: the speed on each axis is unchanged, and a
      second reflection at the same position undoes the first, so within a
      frame a component changes sign at most once. */
  lemma ReflectInvolution(p: Point, width: real, height: real)
    ensures Reflect(Reflect(p, width, height), width, height) == p
    ensures var r := Reflect(p, width, height);
      r.vel.x * r.vel.x == p.vel.x * p.vel.x && r.vel.y * r.vel.y == p.vel.y * p.vel.y
  {
  }

  /** A point that has left the canvas while moving away from it is turned
      back toward it on that axis. */
  lemma ReflectTurnsBack(p: Point, width: real, height: real)
    ensures var r := Reflect(p, width, height);
      && (p.pos.x < 0.0 && p.vel.x < 0.0 ==> r.vel.x > 0.0)
      && (p.pos.x > width && p.vel.x > 0.0 ==> r.vel.x < 0.0)
      && (p.pos.y < 0.0 && p.vel.y < 0.0 ==> r.vel.y > 0.0)
      && (p.pos.y > height && p.vel.y > 0.0 ==> r.vel.y < 0.0)
  {
  }

  /** The test does not look at the direction of motion: a point outside an
      edge that is already heading back is turned away from the canvas again.
      A point can therefore stay outside for several frames, flipping each
      frame, when its step back is shorter than its overshoot. */
  lemma ReflectIgnoresDirection(p: Point, width: real, height: real)
    ensures var r := Reflect(p, width, height);
      && (p.pos.x < 0.0 && p.vel.x > 0.0 ==> r.vel.x < 0.0)
      && (p.pos.x > width && p.vel.x < 0.0 ==> r.vel.x > 0.0)
      && (p.pos.y < 0.0 && p.vel.y > 0.0 ==> r.vel.y < 0.0)
      && (p.pos.y > height && p.vel.y < 0.0 ==> r.vel.y > 0.0)
  {
  }

  // ---------------------------------------------------------------- pulse

  /** The size a point's pulse eases toward at a given audio level. */
  function PulseTarget(size: real, level: real): (t: real)
    ensures level == 0.0 ==> t == size
    ensures size >= 0.0 && level >= 0.0 ==> t >= size
    ensures size >= 0.0 && level <= 1.0 ==> t <= 3.0 * size
  {
    PulseGrowth(size, level);
    size * (1.0 + level * 2.0)
  }

  lemma PulseGrowth(size: real, level: real)
    ensures size >= 0.0 && level >= 0.0 ==> size * (1.0 + level * 2.0) >= size
    ensures size >= 0.0 && level <= 1.0 ==> size * (1.0 + level * 2.0) <= 3.0 * size
  {
    if size >= 0.0 && level >= 0.0 {
      NonNegativeProduct(size, level * 2.0);
    }
    if size >= 0.0 && level <= 1.0 {
      NonNegativeProduct(size, 2.0 - level * 2.0);
    }
  }

  /** A louder frame never asks for a smaller pulse. */
  lemma PulseTargetMonotone(size: real, l1: real, l2: real)
    requires size >= 0.0 && l1 <= l2
    ensures PulseTarget(size, l1) <= PulseTarget(size, l2)
  {
    NonNegativeProduct(size, l2 - l1);
  }

  // ---------------------------------------------------------------- frame update

  /** One point's update in a frame, once p5 has moved it to `moved`:
      reflect at the canvas edges, then set the pulse target. */
  function UpdatePoint(p: Point, moved: Vec, level: real, width: real, height: real): (r: Point)
    ensures r.pos == moved && r.size == p.size && r.filled == p.filled
    ensures r.targetSize == PulseTarget(p.size, level)
    ensures r.vel == Reflect(p.(pos := moved), width, height).vel
  {
    var q := Reflect(p.(pos := moved), width, height);
    q.(targetSize := PulseTarget(q.size, level))
  }

  /** The frame's `for (let p of points)` loop: every point is updated in
      place, in order. */
  method UpdatePoints(ps: seq<Point>, moved: seq<Vec>, level: real, width: real, height: real)
    returns (qs: seq<Point>)
    requires |moved| == |ps|
    ensures |qs| == |ps|
    ensures forall i :: 0 <= i < |ps| ==> qs[i] == UpdatePoint(ps[i], moved[i], level, width, height)
  {
    qs := [];
    var k := 0;
    while k < |ps|
      invariant 0 <= k <= |ps| && |qs| == k
      invariant forall i :: 0 <= i < k ==> qs[i] == UpdatePoint(ps[i], moved[i], level, width, height)
    {
      qs := qs + [UpdatePoint(ps[k], moved[k], level, width, height)];
      k := k + 1;
    }
  }

  // ---------------------------------------------------------------- connections

  /** The connection threshold of a frame. */
  function ConnectDist(level: real): (c: real)
    ensures level >= 0.0 ==> c >= BASE_CONNECT_DIST
    ensures 0.0 <= level <= 1.0 ==> c <= BASE_CONNECT_DIST + 200.0
  {
    BASE_CONNECT_DIST + level * 200.0
  }

  function SqDist(a: Vec, b: Vec): real {
    (a.x - b.x) * (a.x - b.x) + (a.y - b.y) * (a.y - b.y)
  }

  /** `dist(a, b) < c`, stated on squares. A distance is never negative, so
      a negative threshold joins nothing. */
  predicate Within(a: Vec, b: Vec, c: real) {
    0.0 <= c && SqDist(a, b) < c * c
  }

  lemma NonNegativeProduct(x: real, y: real)
    requires x >= 0.0 && y >= 0.0
    ensures x * y >= 0.0
  {
  }

  lemma PositiveProduct(x: real, y: real)
    requires x > 0.0 && y > 0.0
    ensures x * y > 0.0
  {
  }

  /** For non-negative lengths, comparing squares is comparing lengths, so
      `Within` agrees with the Euclidean test `dist(a, b) < c`. */
  lemma SquaresOrdered(d: real, c: real)
    requires d >= 0.0 && c >= 0.0
    ensures d < c <==> d * d < c * c
  {
    if d < c {
      PositiveProduct(c - d, c + d);
      assert c * c - d * d == (c - d) * (c + d);
    } else {
      assert d * d - c * c == (d - c) * (d + c);
      assert (d - c) * (d + c) >= 0.0;
    }
  }

  /** `Within` is the source's test `dist(a, b) < c` for every threshold `c`,
      where `d` is the Euclidean distance (the non-negative root of the
      squared distance). */
  lemma WithinIsDist(a: Vec, b: Vec, c: real, d: real)
    requires d >= 0.0 && d * d == SqDist(a, b)
    ensures Within(a, b, c) <==> d < c
  {
    if c >= 0.0 {
      SquaresOrdered(d, c);
    }
  }

  /** Pair `(i, j)` is joined by a line in a frame at `level`. */
  predicate Joined(ps: seq<Point>, level: real, i: nat, j: nat) {
    i < j < |ps| && Within(ps[i].pos, ps[j].pos, ConnectDist(level))
  }

  /** Lexicographic order on index pairs: the order the nested loop visits. */
  predicate Before(a: (nat, nat), b: (nat, nat)) {
    a.0 < b.0 || (a.0 == b.0 && a.1 < b.1)
  }

  /** Strictly increasing in visiting order, so no pair occurs twice. */
  ghost predicate Ascending(s: seq<(nat, nat)>) {
    forall k, l :: 0 <= k < l < |s| ==> Before(s[k], s[l])
  }

  /** The visits of the inner loop in row `i` before column `j`:
      `(i, i+1), .., (i, j-1)`. */
  function RowPrefix(i: nat, j: nat): seq<(nat, nat)>
    decreases j
  {
    if j <= i + 1 then [] else RowPrefix(i, j - 1) + [(i, j - 1)]
  }

  /** The visits of rows `0 .. i-1` of the pass over `n` points. */
  function RowsBelow(i: nat, n: nat): seq<(nat, nat)> {
    if i == 0 then [] else RowsBelow(i - 1, n) + RowPrefix(i - 1, n)
  }

  /** The joined pairs among the visits `s`, in the order visited. */
  function Drawn(ps: seq<Point>, level: real, s: seq<(nat, nat)>): seq<(nat, nat)>
    decreases |s|
  {
    if s == [] then []
    else
      var last := s[|s| - 1];
      Drawn(ps, level, s[..|s| - 1]) + (if Joined(ps, level, last.0, last.1) then [last] else [])
  }

  /** The number of pairs `(a, b)` with `a < i` and `a < b < n`. */
  function PairsBelow(i: nat, n: nat): nat
    requires i <= n
  {
    if i == 0 then 0 else PairsBelow(i - 1, n) + (n - i)
  }

  lemma {:induction false} PairsBelowAll(n: nat)
    ensures PairsBelow(n, n) * 2 == n * (n - 1)
  {
    PairsBelowClosed(n, n);
  }

  lemma {:induction false} PairsBelowClosed(i: nat, n: nat)
    requires i <= n
    ensures PairsBelow(i, n) * 2 == i * (2 * n - i - 1)
  {
    if i > 0 {
      PairsBelowClosed(i - 1, n);
    }
  }

  lemma AscendingConcat(a: seq<(nat, nat)>, b: seq<(nat, nat)>)
    requires Ascending(a) && Ascending(b)
    requires forall k, l :: 0 <= k < |a| && 0 <= l < |b| ==> Before(a[k], b[l])
    ensures Ascending(a + b)
  {
    var s := a + b;
    forall k, l | 0 <= k < l < |s|
      ensures Before(s[k], s[l])
    {
      if l < |a| {
        assert s[k] == a[k] && s[l] == a[l];
      } else if k >= |a| {
        assert s[k] == b[k - |a|] && s[l] == b[l - |a|];
      } else {
        assert s[k] == a[k] && s[l] == b[l - |a|];
      }
    }
  }

  /** Row `i` up to column `j` is `(i, i+1), .., (i, j-1)`, position by
      position. */
  lemma {:induction false} RowPrefixShape(i: nat, j: nat)
    ensures |RowPrefix(i, j)| == if j <= i + 1 then 0 else j - i - 1
    ensures forall k :: 0 <= k < |RowPrefix(i, j)| ==> RowPrefix(i, j)[k] == (i, i + 1 + k)
    decreases j
  {
    if j > i + 1 {
      RowPrefixShape(i, j - 1);
    }
  }

  /** Row `i` up to column `j` visits `(i, b)` for `i < b < j`, once each,
      in increasing order. */
  lemma RowPrefixFacts(i: nat, j: nat)
    ensures |RowPrefix(i, j)| == if j <= i + 1 then 0 else j - i - 1
    ensures forall k :: 0 <= k < |RowPrefix(i, j)| ==> RowPrefix(i, j)[k].0 == i
    ensures forall q :: q in RowPrefix(i, j) <==> q.0 == i && i < q.1 < j
    ensures Ascending(RowPrefix(i, j))
  {
    var r := RowPrefix(i, j);
    RowPrefixShape(i, j);
    forall q: (nat, nat) | q.0 == i && i < q.1 < j
      ensures q in r
    {
      assert r[q.1 - i - 1] == q;
    }
  }

  lemma {:induction false} RowsBelowLength(i: nat, n: nat)
    requires i <= n
    ensures |RowsBelow(i, n)| == PairsBelow(i, n)
  {
    if i > 0 {
      RowsBelowLength(i - 1, n);
      RowPrefixShape(i - 1, n);
    }
  }

  lemma {:induction false} RowsBelowMembers(i: nat, n: nat)
    requires i <= n
    ensures forall q :: q in RowsBelow(i, n) <==> q.0 < q.1 < n && q.0 < i
  {
    if i > 0 {
      RowsBelowMembers(i - 1, n);
      RowPrefixFacts(i - 1, n);
      var a, b := RowsBelow(i - 1, n), RowPrefix(i - 1, n);
      assert forall q :: q in a + b <==> q in a || q in b;
    }
  }

  lemma {:induction false} RowsBelowAscending(i: nat, n: nat)
    requires i <= n
    ensures Ascending(RowsBelow(i, n))
    ensures forall k :: 0 <= k < |RowsBelow(i, n)| ==> RowsBelow(i, n)[k].0 < i
  {
    if i > 0 {
      var a, b := RowsBelow(i - 1, n), RowPrefix(i - 1, n);
      RowsBelowAscending(i - 1, n);
      RowPrefixFacts(i - 1, n);
      AscendingConcat(a, b);
      assert forall k :: 0 <= k < |a + b| ==> (a + b)[k] == if k < |a| then a[k] else b[k - |a|];
    }
  }

  /** Rows `0 .. i-1` visit exactly the pairs `a < b < n` with `a < i`,
      once each, in increasing order. */
  lemma RowsBelowFacts(i: nat, n: nat)
    requires i <= n
    ensures |RowsBelow(i, n)| == PairsBelow(i, n)
    ensures forall q :: q in RowsBelow(i, n) <==> q.0 < q.1 < n && q.0 < i
    ensures Ascending(RowsBelow(i, n))
  {
    RowsBelowLength(i, n);
    RowsBelowMembers(i, n);
    RowsBelowAscending(i, n);
  }

  /** A pair is drawn exactly when it was visited and is joined. */
  lemma {:induction false} DrawnMembers(ps: seq<Point>, level: real, s: seq<(nat, nat)>)
    ensures forall q :: q in Drawn(ps, level, s) <==> q in s && Joined(ps, level, q.0, q.1)
    decreases |s|
  {
    if s != [] {
      var init, last := s[..|s| - 1], s[|s| - 1];
      assert s == init + [last];
      DrawnMembers(ps, level, init);
    }
  }

  /** Lines are drawn in the order the pairs were visited. */
  lemma {:induction false} DrawnAscending(ps: seq<Point>, level: real, s: seq<(nat, nat)>)
    requires Ascending(s)
    ensures Ascending(Drawn(ps, level, s))
    decreases |s|
  {
    if s != [] {
      var init, last := s[..|s| - 1], s[|s| - 1];
      var d := Drawn(ps, level, init);
      assert s == init + [last];
      DrawnAscending(ps, level, init);
      if Joined(ps, level, last.0, last.1) {
        DrawnMembers(ps, level, init);
        forall k | 0 <= k < |d|
          ensures Before(d[k], last)
        {
          assert d[k] in d;
          var m :| 0 <= m < |init| && init[m] == d[k];
          assert s[m] == d[k];
        }
        AscendingConcat(d, [last]);
      }
    }
  }

  /** Drawing the visits of two stretches of the pass one after the other. */
  lemma {:induction false} DrawnAppend(ps: seq<Point>, level: real, a: seq<(nat, nat)>, b: seq<(nat, nat)>)
    ensures Drawn(ps, level, a + b) == Drawn(ps, level, a) + Drawn(ps, level, b)
    decreases |b|
  {
    if b == [] {
      assert a + b == a;
    } else {
      var init, last := b[..|b| - 1], b[|b| - 1];
      assert (a + b)[..|a + b| - 1] == a + init;
      DrawnAppend(ps, level, a, init);
    }
  }

  /** One more column of row `i`: the pair `(i, j)` is visited, and drawn
      exactly when it is joined. */
  lemma RowStep(ps: seq<Point>, level: real, i: nat, j: nat)
    requires i < j
    ensures RowPrefix(i, j + 1) == RowPrefix(i, j) + [(i, j)]
    ensures Drawn(ps, level, RowPrefix(i, j + 1))
         == Drawn(ps, level, RowPrefix(i, j)) + if Joined(ps, level, i, j) then [(i, j)] else []
  {
    var s := RowPrefix(i, j + 1);
    assert s[..|s| - 1] == RowPrefix(i, j);
  }

  /** The inner loop of the pass, row `i`: visits `(i, i+1) .. (i, n-1)`
      and draws the pairs within the threshold. */
  method ConnectRow(ps: seq<Point>, level: real, i: nat, visited0: seq<(nat, nat)>, drawn0: seq<(nat, nat)>)
    returns (visited: seq<(nat, nat)>, drawn: seq<(nat, nat)>)
    requires i < |ps|
    ensures visited == visited0 + RowPrefix(i, |ps|)
    ensures drawn == drawn0 + Drawn(ps, level, RowPrefix(i, |ps|))
  {
    var n := |ps|;
    visited, drawn := visited0, drawn0;
    var j := i + 1;
    while j < n
      invariant i + 1 <= j <= n
      invariant visited == visited0 + RowPrefix(i, j)
      invariant drawn == drawn0 + Drawn(ps, level, RowPrefix(i, j))
    {
      RowStep(ps, level, i, j);
      visited := visited + [(i, j)];
      if Joined(ps, level, i, j) {
        drawn := drawn + [(i, j)];
      }
      j := j + 1;
    }
  }

  /** The connection pass: for `i < j` in index order, the pair is visited,
      and a line is drawn when the two points are closer than the frame's
      threshold. `visited` lists every pair looked at, `drawn` the lines. */
  method ConnectionPass(ps: seq<Point>, level: real) returns (visited: seq<(nat, nat)>, drawn: seq<(nat, nat)>)
    ensures visited == RowsBelow(|ps|, |ps|) && drawn == Drawn(ps, level, visited)
    ensures forall q :: q in visited <==> q.0 < q.1 < |ps|
    ensures Ascending(visited)
    ensures |visited| * 2 == |ps| * (|ps| - 1)
    ensures forall q :: q in drawn <==> Joined(ps, level, q.0, q.1)
    ensures Ascending(drawn)
  {
    var n := |ps|;
    visited, drawn := [], [];
    var i := 0;
    while i < n
      invariant 0 <= i <= n
      invariant visited == RowsBelow(i, n)
      invariant drawn == Drawn(ps, level, visited)
    {
      DrawnAppend(ps, level, visited, RowPrefix(i, n));
      visited, drawn := ConnectRow(ps, level, i, visited, drawn);
      i := i + 1;
    }
    PassFacts(ps, level);
  }

  /** What the whole pass visits and draws, stated on the reference
      enumeration. */
  lemma PassFacts(ps: seq<Point>, level: real)
    ensures var visited := RowsBelow(|ps|, |ps|);
      && (forall q :: q in visited <==> q.0 < q.1 < |ps|)
      && Ascending(visited)
      && |visited| * 2 == |ps| * (|ps| - 1)
      && (forall q :: q in Drawn(ps, level, visited) <==> Joined(ps, level, q.0, q.1))
      && Ascending(Drawn(ps, level, visited))
  {
    var n := |ps|;
    RowsBelowFacts(n, n);
    PairsBelowAll(n);
    DrawnMembers(ps, level, RowsBelow(n, n));
    DrawnAscending(ps, level, RowsBelow(n, n));
  }

  /** With no audio (level 0), no drawn line is as long as the base
      connection distance. */
  lemma QuietLinesShort(ps: seq<Point>, i: nat, j: nat)
    requires Joined(ps, 0.0, i, j)
    ensures SqDist(ps[i].pos, ps[j].pos) < BASE_CONNECT_DIST * BASE_CONNECT_DIST
  {
  }

  /** A pair joined at one level is joined at every louder level: the
      connection graph only grows with the audio level. */
  lemma JoinedMonotone(ps: seq<Point>, l1: real, l2: real, i: nat, j: nat)
    requires l1 <= l2
    requires Joined(ps, l1, i, j)
    ensures Joined(ps, l2, i, j)
  {
    var c1, c2 := ConnectDist(l1), ConnectDist(l2);
    assert 0.0 <= c1 <= c2;
    NonNegativeProduct(c1, c2 - c1);
    NonNegativeProduct(c2, c2 - c1);
    assert c1 * c1 <= c1 * c2 <= c2 * c2;
  }

  // ---------------------------------------------------------------- whole frame

  /** The network part of one `draw` call: choose the frame's level, update
      every point (p5 has already moved point `i` to `moved[i]`), then join
      the close pairs of the updated points. */
  method DrawFrame(ps: seq<Point>, moved: seq<Vec>, audioLoaded: bool, isPlaying: bool, hasSong: bool,
                   measured: real, width: real, height: real)
    returns (qs: seq<Point>, drawn: seq<(nat, nat)>)
    requires |moved| == |ps|
    ensures |qs| == |ps|
    ensures forall i :: 0 <= i < |ps| ==>
      qs[i] == UpdatePoint(ps[i], moved[i], FrameLevel(audioLoaded, isPlaying, hasSong, measured), width, height)
    ensures forall q :: q in drawn <==> Joined(qs, FrameLevel(audioLoaded, isPlaying, hasSong, measured), q.0, q.1)
    ensures forall q :: q in drawn ==> q.0 < q.1 < |qs|
    ensures Ascending(drawn)
    ensures !(audioLoaded && isPlaying && hasSong) ==>
      forall q :: q in drawn ==> SqDist(qs[q.0].pos, qs[q.1].pos) < BASE_CONNECT_DIST * BASE_CONNECT_DIST
  {
    var level := FrameLevel(audioLoaded, isPlaying, hasSong, measured);
    qs := UpdatePoints(ps, moved, level, width, height);
    var visited;
    visited, drawn := ConnectionPass(qs, level);
    if !(audioLoaded && isPlaying && hasSong) {
      forall q | q in drawn
        ensures SqDist(qs[q.0].pos, qs[q.1].pos) < BASE_CONNECT_DIST * BASE_CONNECT_DIST
      {
        QuietLinesShort(qs, q.0, q.1);
      }
    }
  }
}
