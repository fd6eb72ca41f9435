/**
 * Vision.kt: colour matching and the three scans the bot runs over a frame
 * (the button strip, the path edge grid, and the path colour vote).
 */
module Vision {
  import opened Optional
  import opened Pixels

  /** `pathColor`, the brown of the runner's path. A `val`: nothing reassigns it. */
  const PathColor: int := 0x8D6E63
  /** `tolerance`: declared by the class and read by none of its members. */
  const Tolerance: int := 5000
  /** The literal bound `isColorMatch` compares against. */
  const MatchLimit: int := 40
  /** The literal fallback of `calibratePathColor`. */
  const DefaultPathColor: int := 0x8D6E63

  const InGame: string := "in_game"

  /** The reference colours of `getCurrentState`, in the order its `when` tries them. */
  const ButtonColors: seq<(int, string)> :=
    [(0x2196F3, "start"), (0xFFAA00, "win"), (0xFF4444, "end"), (0x8BC34A, "end")]

  // ---------------------------------------------------------------------------
  // Colour matching

  function Abs(n: int): nat {
    if n < 0 then -n else n
  }

  /** Sum of the absolute per-channel differences on the red, green and blue bytes. */
  function ChannelDistance(c1: int, c2: int): nat {
    Abs(Red(c1) - Red(c2)) + Abs(Green(c1) - Green(c2)) + Abs(Blue(c1) - Blue(c2))
  }

  /** `isColorMatch`: a match never lets one channel differ by 40 or more. */
  function ColorMatch(c1: int, c2: int): (m: bool)
    ensures m ==> Abs(Red(c1) - Red(c2)) < 40 && Abs(Green(c1) - Green(c2)) < 40 && Abs(Blue(c1) - Blue(c2)) < 40
    ensures Red(c1) == Red(c2) && Green(c1) == Green(c2) && Blue(c1) == Blue(c2) ==> m
  {
    ChannelDistance(c1, c2) < MatchLimit
  }

  /** On packed colours the match compares the RGB bytes only: alpha plays no part. */
  lemma ColorMatchArgb(a1: int, r1: int, g1: int, b1: int, a2: int, r2: int, g2: int, b2: int)
    requires IsByte(a1) && IsByte(r1) && IsByte(g1) && IsByte(b1)
    requires IsByte(a2) && IsByte(r2) && IsByte(g2) && IsByte(b2)
    ensures ColorMatch(Argb(a1, r1, g1, b1), Argb(a2, r2, g2, b2))
            <==> Abs(r1 - r2) + Abs(g1 - g2) + Abs(b1 - b2) < 40
  {
    ArgbChannels(a1, r1, g1, b1);
    ArgbChannels(a2, r2, g2, b2);
  }

  /** Only bits 0-23 of either argument matter. */
  lemma ColorMatchLow24(c1: int, c2: int)
    ensures ColorMatch(c1, c2) == ColorMatch(Masked(c1), Masked(c2))
  {
    MaskedChannels(c1);
    MaskedChannels(c2);
  }

  lemma ColorMatchSymmetric(c1: int, c2: int)
    ensures ColorMatch(c1, c2) == ColorMatch(c2, c1)
  {
  }

  lemma ColorMatchReflexive(c: int)
    ensures ColorMatch(c, c)
  {
  }

  /** The bound is the literal 40, not `tolerance`: a distance of 40 already fails. */
  lemma MatchBoundIsForty()
    ensures ColorMatch(0x000000, 0x000027)
    ensures !ColorMatch(0x000000, 0x000028) && ChannelDistance(0x000000, 0x000028) < Tolerance
  {
  }

  // ---------------------------------------------------------------------------
  // getCurrentState

  /** A state label with the point where it was seen (the source's `Pair`). */
  datatype Detection = Detection(name: string, at: Point)

  /**
   * The row where the bottom-30% scans begin or the top-70% scans end:
   * `(height * 0.7).toInt()`, taken here as `height * 7 / 10`.
   */
  function ScanCut(height: nat): (cut: nat)
    ensures cut <= height
  {
    height * 7 / 10
  }

  /** The label of the first entry of `refs` whose colour `color` matches. */
  function FirstMatch(color: int, refs: seq<(int, string)>): Option<string> {
    if refs == [] then None
    else if ColorMatch(color, refs[0].0) then Some(refs[0].1)
    else FirstMatch(color, refs[1..])
  }

  lemma {:induction false} FirstMatchSpec(color: int, refs: seq<(int, string)>)
    ensures FirstMatch(color, refs).Some? <==> exists i :: 0 <= i < |refs| && ColorMatch(color, refs[i].0)
    ensures FirstMatch(color, refs).Some? ==>
      exists i :: 0 <= i < |refs| && ColorMatch(color, refs[i].0)
        && FirstMatch(color, refs).value == refs[i].1
        && forall j :: 0 <= j < i ==> !ColorMatch(color, refs[j].0)
  {
    if refs != [] && !ColorMatch(color, refs[0].0) {
      FirstMatchSpec(color, refs[1..]);
      if FirstMatch(color, refs).Some? {
        var i :| 0 <= i < |refs[1..]| && ColorMatch(color, refs[1..][i].0)
          && FirstMatch(color, refs).value == refs[1..][i].1
          && forall j :: 0 <= j < i ==> !ColorMatch(color, refs[1..][j].0);
        assert refs[i + 1] == refs[1..][i];
        assert forall j :: 0 <= j < i + 1 ==> !ColorMatch(color, refs[j].0) by {
          forall j | 0 <= j < i + 1 ensures !ColorMatch(color, refs[j].0) {
            if j > 0 {
              assert refs[j] == refs[1..][j - 1];
            }
          }
        }
      } else {
        forall i | 0 <= i < |refs| ensures !ColorMatch(color, refs[i].0) {
          if i > 0 {
            assert refs[i] == refs[1..][i - 1];
          }
        }
      }
    }
  }

  /** The `when` of `getCurrentState`: the label of the first reference colour matched. */
  function ButtonLabel(color: int): Option<string> {
    FirstMatch(color, ButtonColors)
  }

  /**
   * A sample gets a label exactly when it matches one of the reference colours;
   * the label is that of the first one it matches, and is one of the three
   * button labels.
   */
  lemma ButtonLabelSpec(color: int)
    ensures ButtonLabel(color).Some? <==>
      exists i :: 0 <= i < |ButtonColors| && ColorMatch(color, ButtonColors[i].0)
    ensures ButtonLabel(color).Some? ==>
      exists i :: 0 <= i < |ButtonColors| && ColorMatch(color, ButtonColors[i].0)
        && ButtonLabel(color).value == ButtonColors[i].1
        && forall j :: 0 <= j < i ==> !ColorMatch(color, ButtonColors[j].0)
    ensures ButtonLabel(color).Some? ==> ButtonLabel(color).value in {"start", "win", "end"}
  {
    FirstMatchSpec(color, ButtonColors);
    if ButtonLabel(color).Some? {
      var i :| 0 <= i < |ButtonColors| && ButtonLabel(color).value == ButtonColors[i].1;
      assert ButtonColors[i].1 in {"start", "win", "end"};
    }
  }

  /** `v` is one of `start, start + step, ...` below `end`. */
  predicate OnLattice(v: int, start: int, end: int, step: int)
    requires 0 < step
  {
    start <= v < end && (v - start) % step == 0
  }

  predicate ButtonAt(f: Frame, x: int, y: int)
    requires f.Valid() && f.Contains(x, y)
  {
    ButtonLabel(Masked(f.Pixel(x, y))).Some?
  }

  /** What the strip scan of column `x` returns when started at row `y`. */
  function StripFrom(f: Frame, x: int, y: nat): Detection
    requires f.Valid() && 0 <= x < f.width
    decreases f.height - y
  {
    if y >= f.height then Detection(InGame, Point(0, 0))
    else match ButtonLabel(Masked(f.Pixel(x, y)))
      case Some(name) => Detection(name, Point(x, y))
      case None => StripFrom(f, x, y + 10)
  }

  /**
   * The scan reports one of the three button labels, at a scanned row of
   * column `x` whose sample carries that label, or else exactly
   * `("in_game", [0, 0])`.
   */
  lemma {:induction false} StripFromShape(f: Frame, x: int, y0: nat)
    requires f.Valid() && 0 <= x < f.width
    ensures var d := StripFrom(f, x, y0);
      && d.name in {"start", "win", "end", InGame}
      && (d.name != InGame ==>
            && d.at.x == x && OnLattice(d.at.y, y0, f.height, 10)
            && ButtonLabel(Masked(f.Pixel(x, d.at.y))) == Some(d.name))
      && (d.name == InGame ==> d.at == Point(0, 0))
    decreases f.height - y0
  {
    if y0 < f.height && ButtonLabel(Masked(f.Pixel(x, y0))).Some? {
      ButtonLabelSpec(Masked(f.Pixel(x, y0)));
    } else if y0 < f.height {
      StripFromShape(f, x, y0 + 10);
      var d := StripFrom(f, x, y0);
      if d.name != InGame {
        LatticeShift(d.at.y, y0, y0 + 10, f.height, 10);
      }
    }
  }

  /** The reported row is the first scanned row that carries a label. */
  lemma {:induction false} StripFromFirst(f: Frame, x: int, y0: nat)
    requires f.Valid() && 0 <= x < f.width
    ensures var d := StripFrom(f, x, y0);
      d.name != InGame ==> forall y :: OnLattice(y, y0, f.height, 10) && y < d.at.y ==> !ButtonAt(f, x, y)
    decreases f.height - y0
  {
    if y0 < f.height && !ButtonAt(f, x, y0) {
      StripFromFirst(f, x, y0 + 10);
      forall y | OnLattice(y, y0, f.height, 10) && y != y0
        ensures OnLattice(y, y0 + 10, f.height, 10)
      {
        LatticeShift(y, y0, y0 + 10, f.height, 10);
      }
    }
  }

  /** The scan falls through to `"in_game"` exactly when no scanned row carries a label. */
  lemma {:induction false} StripFromMiss(f: Frame, x: int, y0: nat)
    requires f.Valid() && 0 <= x < f.width
    ensures StripFrom(f, x, y0).name == InGame <==> forall y :: OnLattice(y, y0, f.height, 10) ==> !ButtonAt(f, x, y)
    decreases f.height - y0
  {
    if y0 < f.height {
      if ButtonAt(f, x, y0) {
        assert OnLattice(y0, y0, f.height, 10);
        assert StripFrom(f, x, y0).name == ButtonLabel(Masked(f.Pixel(x, y0))).value;
        ButtonLabelSpec(Masked(f.Pixel(x, y0)));
      } else {
        assert StripFrom(f, x, y0) == StripFrom(f, x, y0 + 10);
        StripFromMiss(f, x, y0 + 10);
        forall y | OnLattice(y, y0, f.height, 10) && y != y0
          ensures OnLattice(y, y0 + 10, f.height, 10)
        {
          LatticeShift(y, y0, y0 + 10, f.height, 10);
        }
        forall y | OnLattice(y, y0 + 10, f.height, 10)
          ensures OnLattice(y, y0, f.height, 10)
        {
          LatticeShift(y, y0, y0 + 10, f.height, 10);
        }
      }
    }
  }

  /** `getCurrentState`: scan the centre column from the 70% row down, ten rows at a time. */
  method GetCurrentState(screen: Frame) returns (d: Detection)
    requires screen.Valid()
    ensures d == StripFrom(screen, screen.width / 2, ScanCut(screen.height))
  {
    var width: int, height: int := screen.width, screen.height;
    var scanStartY := ScanCut(height);
    var centerX := width / 2;
    var y: nat := scanStartY;
    while y < height
      invariant StripFrom(screen, centerX, y) == StripFrom(screen, centerX, scanStartY)
      decreases height - y
    {
      var color := Masked(screen.Pixel(centerX, y));
      match ButtonLabel(color) {
        case Some(name) => return Detection(name, Point(centerX, y));
        case None =>
      }
      y := y + 10;
    }
    return Detection(InGame, Point(0, 0));
  }

  // ---------------------------------------------------------------------------
  // Scan grids

  lemma LatticeShift(v: int, x: int, x2: int, end: int, step: int)
    requires 0 < step && x2 == x + step
    ensures OnLattice(v, x2, end, step) ==> OnLattice(v, x, end, step)
    ensures OnLattice(v, x, end, step) && v != x ==> OnLattice(v, x2, end, step)
  {
    var a := v - x;
    var q, r := a / step, a % step;
    assert a == q * step + r;
    DivModOf(a - step, step, q - 1, r);
  }

  /** Row-major order: an earlier row, or the same row further left. */
  predicate Before(p: Point, q: Point) {
    p.y < q.y || (p.y == q.y && p.x < q.x)
  }

  predicate RowMajor(s: seq<Point>) {
    forall i, j :: 0 <= i < j < |s| ==> Before(s[i], s[j])
  }

  /** The points `(x, y), (x + step, y), ...` left of `xEnd`: one inner `for` loop. */
  function RowPoints(y: int, x: int, xEnd: int, step: int): seq<Point>
    requires 0 < step
    decreases xEnd - x
  {
    if x >= xEnd then [] else [Point(x, y)] + RowPoints(y, x + step, xEnd, step)
  }

  /** The points of the nested `for` loops: rows `y, y + yStep, ...`, each a `RowPoints`. */
  function GridPoints(x0: int, xEnd: int, xStep: int, y: int, yEnd: int, yStep: int): seq<Point>
    requires 0 < xStep && 0 < yStep
    decreases yEnd - y
  {
    if y >= yEnd then []
    else RowPoints(y, x0, xEnd, xStep) + GridPoints(x0, xEnd, xStep, y + yStep, yEnd, yStep)
  }

  /** A row visits only lattice columns of its own row, left to right. */
  lemma {:induction false} RowPointsSpec(y: int, x: int, xEnd: int, step: int)
    requires 0 < step
    ensures forall p :: p in RowPoints(y, x, xEnd, step) ==> p.y == y && OnLattice(p.x, x, xEnd, step)
    ensures RowMajor(RowPoints(y, x, xEnd, step))
    decreases xEnd - x
  {
    if x < xEnd {
      var rest := RowPoints(y, x + step, xEnd, step);
      RowPointsSpec(y, x + step, xEnd, step);
      forall p | p in rest ensures OnLattice(p.x, x, xEnd, step) && x < p.x {
        LatticeShift(p.x, x, x + step, xEnd, step);
      }
      RowMajorConcat([Point(x, y)], rest);
    }
  }

  /** A grid visits only lattice points, in row-major order. */
  lemma {:induction false} GridPointsSpec(x0: int, xEnd: int, xStep: int, y: int, yEnd: int, yStep: int)
    requires 0 < xStep && 0 < yStep
    ensures forall p :: p in GridPoints(x0, xEnd, xStep, y, yEnd, yStep) ==>
      OnLattice(p.x, x0, xEnd, xStep) && OnLattice(p.y, y, yEnd, yStep)
    ensures RowMajor(GridPoints(x0, xEnd, xStep, y, yEnd, yStep))
    decreases yEnd - y
  {
    if y < yEnd {
      var row := RowPoints(y, x0, xEnd, xStep);
      var rest := GridPoints(x0, xEnd, xStep, y + yStep, yEnd, yStep);
      RowPointsSpec(y, x0, xEnd, xStep);
      GridPointsSpec(x0, xEnd, xStep, y + yStep, yEnd, yStep);
      forall p | p in rest ensures OnLattice(p.y, y, yEnd, yStep) && y < p.y {
        LatticeShift(p.y, y, y + yStep, yEnd, yStep);
      }
      RowMajorConcat(row, rest);
    }
  }

  lemma RowMajorConcat(a: seq<Point>, b: seq<Point>)
    requires RowMajor(a) && RowMajor(b)
    requires forall p, q :: p in a && q in b ==> Before(p, q)
    ensures RowMajor(a + b)
  {
    forall i, j | 0 <= i < j < |a + b| ensures Before((a + b)[i], (a + b)[j]) {
      if j < |a| {
      } else if i >= |a| {
        assert (a + b)[i] == b[i - |a|] && (a + b)[j] == b[j - |a|];
      } else {
        assert (a + b)[i] in a && (a + b)[j] in b;
      }
    }
  }

  lemma {:induction false} RowComplete(y: int, x: int, xEnd: int, step: int, v: int)
    requires 0 < step && OnLattice(v, x, xEnd, step)
    ensures Point(v, y) in RowPoints(y, x, xEnd, step)
    decreases xEnd - x
  {
    if v != x {
      LatticeShift(v, x, x + step, xEnd, step);
      RowComplete(y, x + step, xEnd, step, v);
    }
  }

  /** Every lattice point of the scanned area is visited. */
  lemma {:induction false} GridComplete(x0: int, xEnd: int, xStep: int, y: int, yEnd: int, yStep: int, p: Point)
    requires 0 < xStep && 0 < yStep
    requires OnLattice(p.x, x0, xEnd, xStep) && OnLattice(p.y, y, yEnd, yStep)
    ensures p in GridPoints(x0, xEnd, xStep, y, yEnd, yStep)
    decreases yEnd - y
  {
    if p.y == y {
      RowComplete(y, x0, xEnd, xStep, p.x);
    } else {
      LatticeShift(p.y, y, y + yStep, yEnd, yStep);
      GridComplete(x0, xEnd, xStep, y + yStep, yEnd, yStep, p);
    }
  }

  predicate Inside(f: Frame, pts: seq<Point>) {
    forall p :: p in pts ==> f.Contains(p.x, p.y)
  }

  lemma RowInside(f: Frame, y: int, x: int, xEnd: int, step: int)
    requires 0 <= y < f.height && 0 <= x && xEnd <= f.width && 0 < step
    ensures Inside(f, RowPoints(y, x, xEnd, step))
  {
    RowPointsSpec(y, x, xEnd, step);
  }

  lemma GridInside(f: Frame, x0: int, xEnd: int, xStep: int, y: int, yEnd: int, yStep: int)
    requires 0 <= x0 && xEnd <= f.width && 0 <= y && yEnd <= f.height && 0 < xStep && 0 < yStep
    ensures Inside(f, GridPoints(x0, xEnd, xStep, y, yEnd, yStep))
  {
    GridPointsSpec(x0, xEnd, xStep, y, yEnd, yStep);
  }

  // ---------------------------------------------------------------------------
  // findPathEdge

  predicate PathAt(f: Frame, p: Point)
    requires f.Valid() && f.Contains(p.x, p.y)
  {
    ColorMatch(Masked(f.Pixel(p.x, p.y)), PathColor)
  }

  /** The points of `pts` whose sample matches the path colour, in the order of `pts`. */
  function PathPoints(f: Frame, pts: seq<Point>): seq<Point>
    requires f.Valid() && Inside(f, pts)
  {
    if pts == [] then []
    else
      assert pts[0] in pts;
      (if PathAt(f, pts[0]) then [pts[0]] else []) + PathPoints(f, pts[1..])
  }

  /** Filtering keeps exactly the matching points and keeps them in order. */
  lemma {:induction false} PathPointsFilter(f: Frame, pts: seq<Point>)
    requires f.Valid() && Inside(f, pts)
    ensures forall p :: p in PathPoints(f, pts) <==> p in pts && PathAt(f, p)
    ensures RowMajor(pts) ==> RowMajor(PathPoints(f, pts))
  {
    if pts != [] {
      var rest := PathPoints(f, pts[1..]);
      PathPointsFilter(f, pts[1..]);
      assert forall p :: p in pts <==> p == pts[0] || p in pts[1..];
      if RowMajor(pts) {
        assert forall q :: q in rest ==> Before(pts[0], q) by {
          forall q | q in rest ensures Before(pts[0], q) {
            var k :| 0 <= k < |pts[1..]| && pts[1..][k] == q;
            assert pts[k + 1] == q;
          }
        }
        if PathAt(f, pts[0]) {
          RowMajorConcat([pts[0]], rest);
        }
      }
    }
  }

  lemma {:induction false} PathPointsConcat(f: Frame, a: seq<Point>, b: seq<Point>)
    requires f.Valid() && Inside(f, a) && Inside(f, b)
    ensures Inside(f, a + b) && PathPoints(f, a + b) == PathPoints(f, a) + PathPoints(f, b)
  {
    assert Inside(f, a + b) by {
      forall p | p in a + b ensures f.Contains(p.x, p.y) {
        assert p in a || p in b;
      }
    }
    if a == [] {
      assert a + b == b;
    } else {
      assert (a + b)[0] == a[0];
      assert (a + b)[1..] == a[1..] + b;
      PathPointsConcat(f, a[1..], b);
    }
  }

  /** The hits of one row of `findPathEdge`, from column `x` on. */
  function RowEdges(f: Frame, y: int, x: int): seq<Point>
    requires f.Valid() && 0 <= y < f.height && 0 <= x
    decreases f.width - 50 - x
  {
    if x >= f.width - 50 then []
    else (if PathAt(f, Point(x, y)) then [Point(x, y)] else []) + RowEdges(f, y, x + 10)
  }

  /** The hits of `findPathEdge` from row `y` down to `scanEndY`. */
  function EdgesFrom(f: Frame, y: int, scanEndY: int): seq<Point>
    requires f.Valid() && 0 <= y && scanEndY <= f.height
    decreases scanEndY - y
  {
    if y >= scanEndY then [] else RowEdges(f, y, 50) + EdgesFrom(f, y + 5, scanEndY)
  }

  lemma {:induction false} RowEdgesFilter(f: Frame, y: int, x: int)
    requires f.Valid() && 0 <= y < f.height && 0 <= x
    ensures Inside(f, RowPoints(y, x, f.width - 50, 10))
    ensures RowEdges(f, y, x) == PathPoints(f, RowPoints(y, x, f.width - 50, 10))
    decreases f.width - 50 - x
  {
    var row := RowPoints(y, x, f.width - 50, 10);
    RowInside(f, y, x, f.width - 50, 10);
    if x < f.width - 50 {
      var rest := RowPoints(y, x + 10, f.width - 50, 10);
      RowEdgesFilter(f, y, x + 10);
      assert row[0] == Point(x, y) && row[1..] == rest;
      var hit := if PathAt(f, Point(x, y)) then [Point(x, y)] else [];
      calc {
        PathPoints(f, row);
        hit + PathPoints(f, rest);
        hit + RowEdges(f, y, x + 10);
      }
    }
  }

  /** The scan visits the grid rows in order and keeps the points matching the path colour. */
  lemma {:induction false} EdgesFromFilter(f: Frame, y: int, scanEndY: int)
    requires f.Valid() && 0 <= y && scanEndY <= f.height
    ensures Inside(f, GridPoints(50, f.width - 50, 10, y, scanEndY, 5))
    ensures EdgesFrom(f, y, scanEndY) == PathPoints(f, GridPoints(50, f.width - 50, 10, y, scanEndY, 5))
    decreases scanEndY - y
  {
    GridInside(f, 50, f.width - 50, 10, y, scanEndY, 5);
    if y < scanEndY {
      EdgesFromFilter(f, y + 5, scanEndY);
      RowEdgesFilter(f, y, 50);
      PathPointsConcat(f, RowPoints(y, 50, f.width - 50, 10), GridPoints(50, f.width - 50, 10, y + 5, scanEndY, 5));
    }
  }

  /**
   * The points `findPathEdge` reports are exactly the points of the grid
   * `x = 50, 60, ... < width - 50`, `y = 100, 105, ... < scanEndY` whose sample
   * matches the path colour; they come in row-major order, hence without
   * repetition, and each lies inside the frame.
   */
  lemma PathEdgesSpec(f: Frame, scanEndY: int)
    requires f.Valid() && scanEndY <= f.height
    ensures var hits := EdgesFrom(f, 100, scanEndY);
      && (forall p :: p in hits <==>
            OnLattice(p.x, 50, f.width - 50, 10) && OnLattice(p.y, 100, scanEndY, 5) && PathAt(f, p))
      && RowMajor(hits)
      && (forall i, j :: 0 <= i < j < |hits| ==> hits[i] != hits[j])
      && Inside(f, hits)
  {
    var grid := GridPoints(50, f.width - 50, 10, 100, scanEndY, 5);
    EdgesFromFilter(f, 100, scanEndY);
    GridPointsSpec(50, f.width - 50, 10, 100, scanEndY, 5);
    PathPointsFilter(f, grid);
    var hits := EdgesFrom(f, 100, scanEndY);
    forall p: Point | OnLattice(p.x, 50, f.width - 50, 10) && OnLattice(p.y, 100, scanEndY, 5) && PathAt(f, p)
      ensures p in hits
    {
      GridComplete(50, f.width - 50, 10, 100, scanEndY, 5, p);
    }
    forall i, j | 0 <= i < j < |hits| ensures hits[i] != hits[j] {
      assert Before(hits[i], hits[j]);
    }
  }

  lemma ConcatAssoc<T>(a: seq<T>, b: seq<T>, c: seq<T>)
    ensures (a + b) + c == a + (b + c)
  {
  }

  /** `findPathEdge`: collect the grid points matching `pathColor`, rows outer, columns inner. */
  method FindPathEdge(screen: Frame) returns (edges: seq<Point>)
    requires screen.Valid()
    ensures edges == EdgesFrom(screen, 100, ScanCut(screen.height))
  {
    edges := [];
    var height: int := screen.height;
    var scanEndY := ScanCut(height);
    var y: int := 100;
    while y < scanEndY
      invariant 100 <= y
      invariant edges + EdgesFrom(screen, y, scanEndY) == EdgesFrom(screen, 100, scanEndY)
      decreases scanEndY - y
    {
      ConcatAssoc(edges, RowEdges(screen, y, 50), EdgesFrom(screen, y + 5, scanEndY));
      edges := ScanEdgeRow(screen, y, edges);
      y := y + 5;
    }
  }

  /** The inner loop of `findPathEdge`: append the hits of row `y`. */
  method ScanEdgeRow(screen: Frame, y: int, edges0: seq<Point>) returns (edges: seq<Point>)
    requires screen.Valid() && 0 <= y < screen.height
    ensures edges == edges0 + RowEdges(screen, y, 50)
  {
    edges := edges0;
    var width: int := screen.width;
    var x := 50;
    while x < width - 50
      invariant 50 <= x
      invariant edges + RowEdges(screen, y, x) == edges0 + RowEdges(screen, y, 50)
      decreases width - 50 - x
    {
      var color := Masked(screen.Pixel(x, y));
      if ColorMatch(color, PathColor) {
        ConcatAssoc(edges, [Point(x, y)], RowEdges(screen, y, x + 10));
        edges := edges + [Point(x, y)];
      } else {
        assert RowEdges(screen, y, x) == RowEdges(screen, y, x + 10);
      }
      x := x + 10;
    }
  }

  // ---------------------------------------------------------------------------
  // calibratePathColor

  /** Samples the vote counts: neither within tolerance of white nor of black. */
  predicate Qualifies(c: int) {
    !ColorMatch(c, 0xFFFFFF) && !ColorMatch(c, 0x000000)
  }

  /** The colours one row of `calibratePathColor` samples, from column `x` on. */
  function RowSamples(f: Frame, y: int, x: int): seq<int>
    requires f.Valid() && 0 <= y < f.height && 0 <= x
    decreases f.width - 50 - x
  {
    if x >= f.width - 50 then [] else [Masked(f.Pixel(x, y))] + RowSamples(f, y, x + 20)
  }

  /** The colours `calibratePathColor` samples from row `y` down to `scanEndY`, in scan order. */
  function SamplesFrom(f: Frame, y: int, scanEndY: int): seq<int>
    requires f.Valid() && 0 <= y && scanEndY <= f.height
    decreases scanEndY - y
  {
    if y >= scanEndY then [] else RowSamples(f, y, 50) + SamplesFrom(f, y + 20, scanEndY)
  }

  /** The masked colours at `pts`, in order. */
  function Colors(f: Frame, pts: seq<Point>): seq<int>
    requires f.Valid() && Inside(f, pts)
  {
    if pts == [] then []
    else
      assert pts[0] in pts;
      [Masked(f.Pixel(pts[0].x, pts[0].y))] + Colors(f, pts[1..])
  }

  lemma {:induction false} ColorsAt(f: Frame, pts: seq<Point>)
    requires f.Valid() && Inside(f, pts)
    ensures |Colors(f, pts)| == |pts|
    ensures forall i :: 0 <= i < |pts| ==> Colors(f, pts)[i] == Masked(f.Pixel(pts[i].x, pts[i].y))
  {
    if pts != [] {
      ColorsAt(f, pts[1..]);
    }
  }

  lemma {:induction false} ColorsConcat(f: Frame, a: seq<Point>, b: seq<Point>)
    requires f.Valid() && Inside(f, a) && Inside(f, b)
    ensures Inside(f, a + b) && Colors(f, a + b) == Colors(f, a) + Colors(f, b)
  {
    assert Inside(f, a + b) by {
      forall p | p in a + b ensures f.Contains(p.x, p.y) {
        assert p in a || p in b;
      }
    }
    if a == [] {
      assert a + b == b;
    } else {
      assert (a + b)[0] == a[0];
      assert (a + b)[1..] == a[1..] + b;
      ColorsConcat(f, a[1..], b);
    }
  }

  lemma {:induction false} RowSamplesGrid(f: Frame, y: int, x: int)
    requires f.Valid() && 0 <= y < f.height && 0 <= x
    ensures Inside(f, RowPoints(y, x, f.width - 50, 20))
    ensures RowSamples(f, y, x) == Colors(f, RowPoints(y, x, f.width - 50, 20))
    decreases f.width - 50 - x
  {
    var row := RowPoints(y, x, f.width - 50, 20);
    RowInside(f, y, x, f.width - 50, 20);
    if x < f.width - 50 {
      var rest := RowPoints(y, x + 20, f.width - 50, 20);
      RowSamplesGrid(f, y, x + 20);
      assert row[0] == Point(x, y) && row[1..] == rest;
      calc {
        Colors(f, row);
        [Masked(f.Pixel(x, y))] + Colors(f, rest);
        [Masked(f.Pixel(x, y))] + RowSamples(f, y, x + 20);
      }
    }
  }

  /** The calibration scan samples the step-20 grid, row by row. */
  lemma {:induction false} SamplesFromGrid(f: Frame, y: int, scanEndY: int)
    requires f.Valid() && 0 <= y && scanEndY <= f.height
    ensures Inside(f, GridPoints(50, f.width - 50, 20, y, scanEndY, 20))
    ensures SamplesFrom(f, y, scanEndY) == Colors(f, GridPoints(50, f.width - 50, 20, y, scanEndY, 20))
    decreases scanEndY - y
  {
    GridInside(f, 50, f.width - 50, 20, y, scanEndY, 20);
    if y < scanEndY {
      SamplesFromGrid(f, y + 20, scanEndY);
      RowSamplesGrid(f, y, 50);
      ColorsConcat(f, RowPoints(y, 50, f.width - 50, 20), GridPoints(50, f.width - 50, 20, y + 20, scanEndY, 20));
    }
  }

  /** The samples that cast a vote, in scan order. */
  function Voters(s: seq<int>): seq<int> {
    if s == [] then []
    else Voters(s[..|s| - 1]) + (if Qualifies(s[|s| - 1]) then [s[|s| - 1]] else [])
  }

  /** Every qualifying sample votes once, and nothing else votes. */
  lemma {:induction false} VotersSpec(s: seq<int>)
    ensures forall c :: multiset(Voters(s))[c] == if Qualifies(c) then multiset(s)[c] else 0
    ensures forall c :: c in Voters(s) <==> c in s && Qualifies(c)
  {
    if s != [] {
      var prev, c := s[..|s| - 1], s[|s| - 1];
      assert s == prev + [c];
      VotersSpec(prev);
    }
  }

  /** The vote map after the votes `v`, in order. */
  function Tally(v: seq<int>): map<int, nat> {
    if v == [] then map[]
    else
      var votes, c := Tally(v[..|v| - 1]), v[|v| - 1];
      votes[c := (if c in votes then votes[c] else 0) + 1]
  }

  /** Each colour voted for has an entry counting its votes. */
  lemma {:induction false} TallyCounts(v: seq<int>)
    ensures forall c :: c in Tally(v) <==> c in v
    ensures forall c :: c in Tally(v) ==> Tally(v)[c] == multiset(v)[c]
  {
    if v != [] {
      var prev := v[..|v| - 1];
      assert v == prev + [v[|v| - 1]];
      TallyCounts(prev);
    }
  }

  /** Index of the first occurrence of `c` in `s`. */
  function FirstIndex(s: seq<int>, c: int): (i: nat)
    requires c in s
    ensures i < |s| && s[i] == c && forall j :: 0 <= j < i ==> s[j] != c
  {
    if c in s[..|s| - 1] then FirstIndex(s[..|s| - 1], c) else |s| - 1
  }

  /** The keys of `Tally(v)` in the order the vote map acquired them. */
  function FirstSeen(v: seq<int>): seq<int> {
    if v == [] then []
    else
      var prev, c := v[..|v| - 1], v[|v| - 1];
      if c !in prev then FirstSeen(prev) + [c] else FirstSeen(prev)
  }

  /** The insertion order holds each colour voted for once, ordered by first vote. */
  lemma {:induction false} FirstSeenOrder(v: seq<int>)
    ensures forall c :: c in FirstSeen(v) <==> c in v
    ensures forall i, j :: 0 <= i < j < |FirstSeen(v)| ==>
      FirstIndex(v, FirstSeen(v)[i]) < FirstIndex(v, FirstSeen(v)[j])
  {
    if v != [] {
      var prev, c := v[..|v| - 1], v[|v| - 1];
      assert v == prev + [c];
      FirstSeenOrder(prev);
      assert forall k :: k in prev ==> FirstIndex(v, k) == FirstIndex(prev, k);
    }
  }

  /** Every colour in the insertion order has a vote entry. */
  lemma FirstSeenVoted(v: seq<int>)
    ensures forall j :: 0 <= j < |FirstSeen(v)| ==> FirstSeen(v)[j] in Tally(v)
  {
    FirstSeenOrder(v);
    TallyCounts(v);
    forall j | 0 <= j < |FirstSeen(v)| ensures FirstSeen(v)[j] in Tally(v) {
      assert FirstSeen(v)[j] in FirstSeen(v);
    }
  }

  /** `maxByOrNull { it.value }` over `keys`: the first index holding the largest vote. */
  function FirstMaxIndex(keys: seq<int>, votes: map<int, nat>): (i: nat)
    requires |keys| > 0 && forall j :: 0 <= j < |keys| ==> keys[j] in votes
    ensures i < |keys|
    ensures forall j :: 0 <= j < |keys| ==> votes[keys[j]] <= votes[keys[i]]
    ensures forall j :: 0 <= j < i ==> votes[keys[j]] < votes[keys[i]]
  {
    if |keys| == 1 then 0
    else
      var b := FirstMaxIndex(keys[..|keys| - 1], votes);
      if votes[keys[b]] < votes[keys[|keys| - 1]] then |keys| - 1 else b
  }

  /** The winner of the votes `v`, if any vote was cast. */
  function Winner(v: seq<int>): Option<int> {
    var keys := FirstSeen(v);
    FirstSeenVoted(v);
    if |keys| == 0 then None else Some(keys[FirstMaxIndex(keys, Tally(v))])
  }

  /**
   * The winner exists exactly when a vote was cast; it has the most votes, and
   * every colour first voted for before it has strictly fewer.
   */
  lemma WinnerSpec(v: seq<int>)
    ensures Winner(v).None? <==> v == []
    ensures Winner(v).Some? ==>
      var r := Winner(v).value;
      && r in v
      && (forall c :: c in v ==> multiset(v)[c] <= multiset(v)[r])
      && (forall c :: c in v && FirstIndex(v, c) < FirstIndex(v, r) ==> multiset(v)[c] < multiset(v)[r])
  {
    var keys, votes := FirstSeen(v), Tally(v);
    FirstSeenOrder(v);
    TallyCounts(v);
    FirstSeenVoted(v);
    if v != [] {
      assert v[0] in v;
      assert |keys| > 0;
      var i := FirstMaxIndex(keys, votes);
      var r := keys[i];
      assert r in keys;
      forall c | c in v
        ensures multiset(v)[c] <= multiset(v)[r]
        ensures FirstIndex(v, c) < FirstIndex(v, r) ==> multiset(v)[c] < multiset(v)[r]
      {
        var j :| 0 <= j < |keys| && keys[j] == c;
        if FirstIndex(v, c) < FirstIndex(v, r) {
          assert j < i;
        }
      }
    }
  }

  /** The colour `calibratePathColor` returns after sampling `s`. */
  function Dominant(s: seq<int>): int {
    var w := Winner(Voters(s));
    if w.Some? then w.value else DefaultPathColor
  }

  /**
   * With no qualifying sample the result is the fallback; otherwise it is a
   * qualifying sample with the most occurrences, and every qualifying colour
   * that voted before it occurs strictly fewer times.
   */
  lemma DominantSpec(s: seq<int>)
    ensures (forall c :: c in s ==> !Qualifies(c)) ==> Dominant(s) == DefaultPathColor
    ensures (exists c :: c in s && Qualifies(c)) ==>
      var r, v := Dominant(s), Voters(s);
      && r in s && Qualifies(r) && r in v
      && (forall c :: c in s && Qualifies(c) ==> multiset(s)[c] <= multiset(s)[r])
      && (forall c :: c in v && r in v && FirstIndex(v, c) < FirstIndex(v, r) ==>
            multiset(s)[c] < multiset(s)[r])
  {
    var v := Voters(s);
    VotersSpec(s);
    WinnerSpec(v);
    if v != [] {
      assert v[0] in v;
    }
  }

  /**
   * After the scan `s` the vote map has an entry for exactly the qualifying
   * colours sampled, and each entry counts the samples of exactly that colour.
   */
  lemma VoteCounts(s: seq<int>)
    ensures forall c :: c in Tally(Voters(s)) <==> c in s && Qualifies(c)
    ensures forall c :: c in Tally(Voters(s)) ==> Tally(Voters(s))[c] == multiset(s)[c]
  {
    VotersSpec(s);
    TallyCounts(Voters(s));
  }

  /** A colour holding more than half of the votes is the result. */
  lemma MajorityWins(s: seq<int>, c: int)
    requires Qualifies(c) && 2 * multiset(s)[c] > |Voters(s)|
    ensures Dominant(s) == c
  {
    var v := Voters(s);
    VotersSpec(s);
    assert multiset(v)[c] > 0;
    WinnerSpec(v);
    var r := Dominant(s);
    if r != c {
      TwoCounts(v, c, r);
    }
  }

  lemma {:induction false} TwoCounts(v: seq<int>, c: int, d: int)
    requires c != d
    ensures multiset(v)[c] + multiset(v)[d] <= |v|
  {
    if v != [] {
      var prev := v[..|v| - 1];
      assert v == prev + [v[|v| - 1]];
      TwoCounts(prev, c, d);
    }
  }

  /**
   * A frame whose sampled game area shows the default path colour, and
   * otherwise only colours excluded as near-white or near-black, calibrates to
   * the path colour.
   */
  lemma PathColorCalibrates(f: Frame, scanEndY: int)
    requires f.Valid() && scanEndY <= f.height
    requires exists p: Point :: OnLattice(p.x, 50, f.width - 50, 20) && OnLattice(p.y, 100, scanEndY, 20)
                         && Masked(f.Pixel(p.x, p.y)) == PathColor
    requires forall p: Point :: OnLattice(p.x, 50, f.width - 50, 20) && OnLattice(p.y, 100, scanEndY, 20) ==>
      Masked(f.Pixel(p.x, p.y)) == PathColor || !Qualifies(Masked(f.Pixel(p.x, p.y)))
    ensures Dominant(SamplesFrom(f, 100, scanEndY)) == PathColor
  {
    var s := SamplesFrom(f, 100, scanEndY);
    forall d | d in s && Qualifies(d) ensures d == PathColor {
      var k :| 0 <= k < |s| && s[k] == d;
      SampledFromGrid(f, scanEndY, k);
    }
    var p: Point :| OnLattice(p.x, 50, f.width - 50, 20) && OnLattice(p.y, 100, scanEndY, 20)
             && Masked(f.Pixel(p.x, p.y)) == PathColor;
    GridSampled(f, scanEndY, p);
    SoleCandidate(s, PathColor);
  }

  /** Each calibration sample is the colour of a pixel of the step-20 grid. */
  lemma SampledFromGrid(f: Frame, scanEndY: int, k: int)
    requires f.Valid() && scanEndY <= f.height && 0 <= k < |SamplesFrom(f, 100, scanEndY)|
    ensures exists p: Point ::
      OnLattice(p.x, 50, f.width - 50, 20) && OnLattice(p.y, 100, scanEndY, 20)
      && SamplesFrom(f, 100, scanEndY)[k] == Masked(f.Pixel(p.x, p.y))
  {
    var grid := GridPoints(50, f.width - 50, 20, 100, scanEndY, 20);
    SamplesFromGrid(f, 100, scanEndY);
    ColorsAt(f, grid);
    GridPointsSpec(50, f.width - 50, 20, 100, scanEndY, 20);
    var p := grid[k];
    assert p in grid;
    assert OnLattice(p.x, 50, f.width - 50, 20) && OnLattice(p.y, 100, scanEndY, 20);
  }

  /** Each pixel of the step-20 grid is sampled by the calibration scan. */
  lemma GridSampled(f: Frame, scanEndY: int, p: Point)
    requires f.Valid() && scanEndY <= f.height
    requires OnLattice(p.x, 50, f.width - 50, 20) && OnLattice(p.y, 100, scanEndY, 20)
    ensures Masked(f.Pixel(p.x, p.y)) in SamplesFrom(f, 100, scanEndY)
  {
    var grid := GridPoints(50, f.width - 50, 20, 100, scanEndY, 20);
    SamplesFromGrid(f, 100, scanEndY);
    ColorsAt(f, grid);
    GridComplete(50, f.width - 50, 20, 100, scanEndY, 20, p);
    var k :| 0 <= k < |grid| && grid[k] == p;
    assert SamplesFrom(f, 100, scanEndY)[k] == Masked(f.Pixel(p.x, p.y));
  }

  /** Samples more than half of which are the default path colour calibrate to it. */
  lemma PathColorMajority(s: seq<int>)
    requires 2 * multiset(s)[PathColor] > |Voters(s)|
    ensures Dominant(s) == PathColor
  {
    assert Qualifies(PathColor);
    MajorityWins(s, PathColor);
  }

  /** When every vote goes to one colour, that colour is the result. */
  lemma SoleCandidate(s: seq<int>, c: int)
    requires c in s && Qualifies(c)
    requires forall d :: d in s && Qualifies(d) ==> d == c
    ensures Dominant(s) == c
  {
    DominantSpec(s);
  }

  /** `calibratePathColor`: vote over the step-20 grid, then take the first colour with most votes. */
  method CalibratePathColor(screen: Frame) returns (color: int)
    requires screen.Valid()
    ensures color == Dominant(SamplesFrom(screen, 100, ScanCut(screen.height)))
  {
    var votes, order, seen := CollectVotes(screen);
    FirstSeenVoted(Voters(seen));
    var best := MaxByOrNull(order, votes);
    color := if best.Some? then best.value else DefaultPathColor;
  }

  /** The nested loops of `calibratePathColor`: the vote map after the whole scan. */
  method CollectVotes(screen: Frame) returns (votes: map<int, nat>, order: seq<int>, ghost seen: seq<int>)
    requires screen.Valid()
    ensures seen == SamplesFrom(screen, 100, ScanCut(screen.height))
    ensures votes == Tally(Voters(SamplesFrom(screen, 100, ScanCut(screen.height))))
    ensures order == FirstSeen(Voters(SamplesFrom(screen, 100, ScanCut(screen.height))))
  {
    votes, order, seen := map[], [], [];
    var height: int := screen.height;
    var scanEndY := ScanCut(height);
    var y: int := 100;
    while y < scanEndY
      invariant 100 <= y
      invariant seen + SamplesFrom(screen, y, scanEndY) == SamplesFrom(screen, 100, scanEndY)
      invariant votes == Tally(Voters(seen)) && order == FirstSeen(Voters(seen))
      decreases scanEndY - y
    {
      ConcatAssoc(seen, RowSamples(screen, y, 50), SamplesFrom(screen, y + 20, scanEndY));
      votes, order, seen := VoteRow(screen, y, votes, order, seen);
      y := y + 20;
    }
    assert seen == seen + SamplesFrom(screen, y, scanEndY);
  }

  /** The inner loop of `calibratePathColor`: add the votes of row `y`. */
  method VoteRow(screen: Frame, y: int, votes0: map<int, nat>, order0: seq<int>, ghost seen0: seq<int>)
    returns (votes: map<int, nat>, order: seq<int>, ghost seen: seq<int>)
    requires screen.Valid() && 0 <= y < screen.height
    requires votes0 == Tally(Voters(seen0)) && order0 == FirstSeen(Voters(seen0))
    ensures seen == seen0 + RowSamples(screen, y, 50)
    ensures votes == Tally(Voters(seen0 + RowSamples(screen, y, 50)))
    ensures order == FirstSeen(Voters(seen0 + RowSamples(screen, y, 50)))
  {
    votes, order, seen := votes0, order0, seen0;
    var width: int := screen.width;
    var x := 50;
    while x < width - 50
      invariant 50 <= x
      invariant seen + RowSamples(screen, y, x) == seen0 + RowSamples(screen, y, 50)
      invariant votes == Tally(Voters(seen)) && order == FirstSeen(Voters(seen))
      decreases width - 50 - x
    {
      var color := Masked(screen.Pixel(x, y));
      votes, order := RecordVote(votes, order, color, seen);
      ConcatAssoc(seen, [color], RowSamples(screen, y, x + 20));
      seen := seen + [color];
      x := x + 20;
    }
  }

  /** The loop body of `calibratePathColor`: count `color` unless it is near white or near black. */
  method RecordVote(votes0: map<int, nat>, order0: seq<int>, color: int, ghost seen: seq<int>)
    returns (votes: map<int, nat>, order: seq<int>)
    requires votes0 == Tally(Voters(seen)) && order0 == FirstSeen(Voters(seen))
    ensures votes == Tally(Voters(seen + [color])) && order == FirstSeen(Voters(seen + [color]))
  {
    votes, order := votes0, order0;
    VoteStep(seen, color);
    if !ColorMatch(color, 0xFFFFFF) && !ColorMatch(color, 0x000000) {
      TallyStep(Voters(seen), color);
      if color !in votes {
        order := order + [color];
      }
      votes := votes[color := (if color in votes then votes[color] else 0) + 1];
    } else {
      assert Voters(seen + [color]) == Voters(seen);
    }
  }

  lemma VoteStep(seen: seq<int>, c: int)
    ensures Voters(seen + [c]) == Voters(seen) + (if Qualifies(c) then [c] else [])
  {
    assert (seen + [c])[..|seen|] == seen;
  }

  lemma TallyStep(v: seq<int>, c: int)
    ensures Tally(v + [c]) == Tally(v)[c := (if c in Tally(v) then Tally(v)[c] else 0) + 1]
    ensures FirstSeen(v + [c]) == if c in Tally(v) then FirstSeen(v) else FirstSeen(v) + [c]
  {
    assert (v + [c])[..|v|] == v;
    TallyCounts(v);
  }

  /** Kotlin's `maxByOrNull` over the vote map's entries, in insertion order. */
  method MaxByOrNull(keys: seq<int>, votes: map<int, nat>) returns (best: Option<int>)
    requires forall j :: 0 <= j < |keys| ==> keys[j] in votes
    ensures best.None? <==> keys == []
    ensures best.Some? ==> best.value == keys[FirstMaxIndex(keys, votes)]
  {
    if |keys| == 0 {
      return None;
    }
    var maxElem := keys[0];
    var maxValue := votes[maxElem];
    ghost var mi := 0;
    var i := 1;
    while i < |keys|
      invariant 1 <= i <= |keys|
      invariant mi == FirstMaxIndex(keys[..i], votes) && maxElem == keys[mi] && maxValue == votes[maxElem]
      decreases |keys| - i
    {
      assert keys[..i + 1][..i] == keys[..i];
      var v := votes[keys[i]];
      if maxValue < v {
        maxElem, maxValue := keys[i], v;
        mi := i;
      }
      i := i + 1;
    }
    assert keys[..|keys|] == keys;
    best := Some(maxElem);
  }
}
