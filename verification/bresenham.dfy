/**
 * The integer, all-octant Bresenham walk of `Canvas.draw_line`.
 *
 * The walk's state (x, y, err) is indexed by how many steps it has taken along
 * each axis: after `i` horizontal and `j` vertical steps the point is
 * (XAt(i), YAt(j)) and the error term is Err(i, j). `Path` is the list of points
 * the walk plots, in order.
 */
module Bresenham {
  import opened Raster

  function Abs(n: int): nat
  {
    if n < 0 then -n else n
  }

  function Max(a: int, b: int): int
  {
    if a < b then b else a
  }

  function Min(a: int, b: int): int
  {
    if a < b then a else b
  }

  /** The segment handed to `draw_line`, from (x0, y0) to (x1, y1). */
  datatype Segment = Segment(x0: int, y0: int, x1: int, y1: int)
  {
    /** `dx = abs(x1 - x0)`. */
    function Dx(): nat { Abs(x1 - x0) }

    /** The magnitude of `dy`: the source keeps `dy = -abs(y1 - y0)`. */
    function Dy(): nat { Abs(y1 - y0) }

    /** The x coordinate after `i` horizontal steps of `sx`. */
    function XAt(i: int): int { if x0 < x1 then x0 + i else x0 - i }

    /** The y coordinate after `j` vertical steps of `sy`. */
    function YAt(j: int): int { if y0 < y1 then y0 + j else y0 - j }

    /** The error term after `i` horizontal and `j` vertical steps, starting from `dx + dy`. */
    function Err(i: int, j: int): int { (j + 1) * Dx() - (i + 1) * Dy() }

    predicate Reachable(i: int, j: int) { 0 <= i <= Dx() && 0 <= j <= Dy() }

    /** The loop's exit test `x == x1 and y == y1`. */
    predicate Done(i: int, j: int) { XAt(i) == x1 && YAt(j) == y1 }

    /** Whether the step taken from (i, j) moves x: `2 * err >= dy`. */
    predicate StepsX(i: int, j: int) { 2 * Err(i, j) >= -(Dy() as int) }

    /** Whether the step taken from (i, j) moves y: `2 * err <= dx`. */
    predicate StepsY(i: int, j: int) { 2 * Err(i, j) <= Dx() }

    /** The error term stays close to the ideal line along the major axis. */
    predicate Tracks(i: int, j: int)
    {
      (Dx() >= Dy() ==> 2 * Err(i, j) >= Dx() - 2 * Dy()) &&
      (Dy() >= Dx() ==> 2 * Err(i, j) <= 2 * Dx() - Dy())
    }

    predicate InBox(p: Point)
    {
      Min(x0, x1) <= p.x <= Max(x0, x1) && Min(y0, y1) <= p.y <= Max(y0, y1)
    }
  }

  /** Each step adds `dy` to the error when x moves and `dx` when y moves. */
  lemma ErrStep(s: Segment, i: int, j: int)
    ensures s.Err(i + 1, j) == s.Err(i, j) - s.Dy()
    ensures s.Err(i, j + 1) == s.Err(i, j) + s.Dx()
    ensures s.Err(i + 1, j + 1) == s.Err(i, j) - s.Dy() + s.Dx()
  {
  }

  lemma MulMono(a: int, b: int, c: nat)
    requires a <= b
    ensures a * c <= b * c
  {
  }

  /**
   * A step from a reachable state that is not the end moves at least one
   * coordinate and never moves past the end point on either axis.
   */
  lemma StepStays(s: Segment, i: int, j: int)
    requires s.Reachable(i, j) && !s.Done(i, j)
    ensures s.StepsX(i, j) || s.StepsY(i, j)
    ensures s.StepsX(i, j) ==> i < s.Dx()
    ensures s.StepsY(i, j) ==> j < s.Dy()
  {
    var dx, dy := s.Dx(), s.Dy();
    if i == dx {
      assert j < dy;
      MulMono(j + 1, dy, dx);
      assert (dx + 1) * dy == dx * dy + dy;
    }
    if j == dy {
      assert i < dx;
      MulMono(i + 1, dx, dy);
      assert (dy + 1) * dx == dy * dx + dx;
    }
  }

  function NextI(s: Segment, i: int, j: int): int { if s.StepsX(i, j) then i + 1 else i }

  function NextJ(s: Segment, i: int, j: int): int { if s.StepsY(i, j) then j + 1 else j }

  /** One step moves each coordinate by at most one and moves at least one of them. */
  lemma StepAdjacent(s: Segment, i: int, j: int)
    requires s.Reachable(i, j) && !s.Done(i, j)
    ensures var i', j' := NextI(s, i, j), NextJ(s, i, j);
      Abs(s.XAt(i') - s.XAt(i)) <= 1 && Abs(s.YAt(j') - s.YAt(j)) <= 1 &&
      Point(s.XAt(i'), s.YAt(j')) != Point(s.XAt(i), s.YAt(j))
  {
    StepStays(s, i, j);
  }

  /**
   * The points the walk plots from state (i, j) on: the current point, then,
   * unless it is the end point, the rest of the walk after one step.
   */
  function PathFrom(s: Segment, i: int, j: int): (r: seq<Point>)
    requires s.Reachable(i, j)
    ensures |r| >= 1 && r[0] == Point(s.XAt(i), s.YAt(j))
    ensures r[|r| - 1] == Point(s.x1, s.y1)
    decreases (s.Dx() - i) + (s.Dy() - j)
  {
    if s.Done(i, j) then [Point(s.XAt(i), s.YAt(j))]
    else
      StepStays(s, i, j);
      [Point(s.XAt(i), s.YAt(j))] + PathFrom(s, NextI(s, i, j), NextJ(s, i, j))
  }

  /** One walk step: the current point, then the walk from the stepped state. */
  lemma PathFromCons(s: Segment, i: int, j: int)
    requires s.Reachable(i, j) && !s.Done(i, j)
    ensures s.Reachable(NextI(s, i, j), NextJ(s, i, j))
    ensures PathFrom(s, i, j) == [Point(s.XAt(i), s.YAt(j))] + PathFrom(s, NextI(s, i, j), NextJ(s, i, j))
  {
    StepStays(s, i, j);
  }

  /** The pixel path of `draw_line(x0, y0, x1, y1)`: it starts at (x0, y0) and ends at (x1, y1). */
  function Path(s: Segment): (r: seq<Point>)
    ensures |r| >= 1 && r[0] == Point(s.x0, s.y0) && r[|r| - 1] == Point(s.x1, s.y1)
  {
    PathFrom(s, 0, 0)
  }

  /** Two points that touch (8-neighbours) and are not the same point. */
  predicate Adjacent(p: Point, q: Point)
  {
    Abs(q.x - p.x) <= 1 && Abs(q.y - p.y) <= 1 && p != q
  }

  /** Consecutive points of the list are adjacent. */
  predicate NoGaps(r: seq<Point>)
  {
    forall k :: 0 <= k < |r| - 1 ==> Adjacent(r[k], r[k + 1])
  }

  lemma NoGapsCons(p: Point, rest: seq<Point>)
    requires NoGaps(rest) && (rest != [] ==> Adjacent(p, rest[0]))
    ensures NoGaps([p] + rest)
  {
    var r := [p] + rest;
    forall k | 0 <= k < |r| - 1 ensures Adjacent(r[k], r[k + 1]) {
      if k > 0 { assert r[k] == rest[k - 1] && r[k + 1] == rest[k]; }
    }
  }

  /** Consecutive points are distinct and differ by at most one on each axis: the path has no gaps. */
  lemma {:induction false} PathFromSteps(s: Segment, i: int, j: int)
    requires s.Reachable(i, j)
    ensures NoGaps(PathFrom(s, i, j))
    decreases (s.Dx() - i) + (s.Dy() - j)
  {
    if !s.Done(i, j) {
      StepStays(s, i, j);
      StepAdjacent(s, i, j);
      var i', j' := NextI(s, i, j), NextJ(s, i, j);
      PathFromSteps(s, i', j');
      NoGapsCons(Point(s.XAt(i), s.YAt(j)), PathFrom(s, i', j'));
    }
  }

  /** Every plotted point lies in the bounding box of the two end points. */
  lemma {:induction false} PathFromInBox(s: Segment, i: int, j: int)
    requires s.Reachable(i, j)
    ensures forall p :: p in PathFrom(s, i, j) ==> s.InBox(p)
    decreases (s.Dx() - i) + (s.Dy() - j)
  {
    if !s.Done(i, j) {
      StepStays(s, i, j);
      PathFromInBox(s, NextI(s, i, j), NextJ(s, i, j));
    }
  }

  /** A step from a state that tracks the line leads to a state that tracks it. */
  lemma TracksStep(s: Segment, i: int, j: int)
    requires s.Reachable(i, j) && !s.Done(i, j) && s.Tracks(i, j)
    ensures s.Tracks(NextI(s, i, j), NextJ(s, i, j))
  {
    ErrStep(s, i, j);
  }

  /**
   * Along the major axis the walk moves on every step: when |dx| >= |dy| the
   * k-th point from (i, j) has x = XAt(i + k) and the walk has dx - i + 1 points;
   * symmetrically for y when |dy| >= |dx|.
   */
  lemma {:induction false} PathFromMajor(s: Segment, i: int, j: int)
    requires s.Reachable(i, j) && s.Tracks(i, j)
    ensures var r := PathFrom(s, i, j);
      (s.Dx() >= s.Dy() ==>
        |r| == s.Dx() - i + 1 && forall k :: 0 <= k < |r| ==> r[k].x == s.XAt(i + k)) &&
      (s.Dy() >= s.Dx() ==>
        |r| == s.Dy() - j + 1 && forall k :: 0 <= k < |r| ==> r[k].y == s.YAt(j + k))
    decreases (s.Dx() - i) + (s.Dy() - j)
  {
    if !s.Done(i, j) {
      StepStays(s, i, j);
      TracksStep(s, i, j);
      PathFromMajor(s, NextI(s, i, j), NextJ(s, i, j));
      var r := PathFrom(s, i, j);
      var rest := PathFrom(s, NextI(s, i, j), NextJ(s, i, j));
      assert r == [r[0]] + rest;
      if s.Dx() >= s.Dy() {
        assert NextI(s, i, j) == i + 1;
        forall k | 0 <= k < |r| ensures r[k].x == s.XAt(i + k) {
          if k > 0 { assert r[k] == rest[k - 1]; }
        }
      }
      if s.Dy() >= s.Dx() {
        assert NextJ(s, i, j) == j + 1;
        forall k | 0 <= k < |r| ensures r[k].y == s.YAt(j + k) {
          if k > 0 { assert r[k] == rest[k - 1]; }
        }
      }
    }
  }

  /**
   * The line plots exactly max(|x1 - x0|, |y1 - y0|) + 1 points, one per step of
   * the major axis, so no point is plotted twice.
   */
  lemma PathLength(s: Segment)
    ensures |Path(s)| == Max(s.Dx(), s.Dy()) + 1
    ensures s.Dx() >= s.Dy() ==> forall k :: 0 <= k < |Path(s)| ==> Path(s)[k].x == s.XAt(k)
    ensures s.Dy() >= s.Dx() ==> forall k :: 0 <= k < |Path(s)| ==> Path(s)[k].y == s.YAt(k)
    ensures forall k, l :: 0 <= k < l < |Path(s)| ==> Path(s)[k] != Path(s)[l]
  {
    assert s.Tracks(0, 0);
    PathFromMajor(s, 0, 0);
  }

  /** The path has no gaps and stays within the end points' bounding box. */
  lemma PathShape(s: Segment)
    ensures NoGaps(Path(s))
    ensures forall p :: p in Path(s) ==> s.InBox(p)
  {
    assert Path(s) == PathFrom(s, 0, 0);
    PathFromSteps(s, 0, 0);
    PathFromInBox(s, 0, 0);
  }

  /** A horizontal segment plots only on its row, a vertical one only on its column. */
  lemma AxisAligned(s: Segment)
    ensures s.y0 == s.y1 ==> forall p :: p in Path(s) ==> p.y == s.y0 && Min(s.x0, s.x1) <= p.x <= Max(s.x0, s.x1)
    ensures s.x0 == s.x1 ==> forall p :: p in Path(s) ==> p.x == s.x0 && Min(s.y0, s.y1) <= p.y <= Max(s.y0, s.y1)
  {
    PathShape(s);
  }

  /** A horizontal segment plots exactly the columns between its ends; a vertical one exactly the rows. */
  lemma AxisAlignedCover(s: Segment)
    ensures s.y0 == s.y1 ==>
      forall p :: p in Path(s) <==> p.y == s.y0 && Min(s.x0, s.x1) <= p.x <= Max(s.x0, s.x1)
    ensures s.x0 == s.x1 ==>
      forall p :: p in Path(s) <==> p.x == s.x0 && Min(s.y0, s.y1) <= p.y <= Max(s.y0, s.y1)
  {
    var r := Path(s);
    PathLength(s);
    AxisAligned(s);
    if s.y0 == s.y1 {
      forall p: Point | p.y == s.y0 && Min(s.x0, s.x1) <= p.x <= Max(s.x0, s.x1) ensures p in r {
        var k := Abs(p.x - s.x0);
        assert r[k] in r;
        assert r[k] == p;
      }
    }
    if s.x0 == s.x1 {
      forall p: Point | p.x == s.x0 && Min(s.y0, s.y1) <= p.y <= Max(s.y0, s.y1) ensures p in r {
        var k := Abs(p.y - s.y0);
        assert r[k] in r;
        assert r[k] == p;
      }
    }
  }

  /** A left-to-right horizontal segment plots each column from x0 to x1 once, on row y0. */
  lemma HorizontalPath(s: Segment)
    requires s.y0 == s.y1 && s.x0 <= s.x1
    ensures |Path(s)| == s.x1 - s.x0 + 1
    ensures forall k :: 0 <= k < |Path(s)| ==> Path(s)[k] == Point(s.x0 + k, s.y0)
  {
    var r := Path(s);
    PathLength(s);
    AxisAligned(s);
    forall k | 0 <= k < |r| ensures r[k] == Point(s.x0 + k, s.y0) {
      assert r[k] in r;
    }
  }

  /** A down-right 45-degree segment moves one column and one row on every step. */
  lemma DiagonalPath(s: Segment)
    requires s.x1 - s.x0 == s.y1 - s.y0 >= 0
    ensures |Path(s)| == s.x1 - s.x0 + 1
    ensures forall k :: 0 <= k < |Path(s)| ==> Path(s)[k] == Point(s.x0 + k, s.y0 + k)
  {
    PathLength(s);
  }

  /** `draw_line(x, y, x + 4, y)` plots the five points (x, y) to (x + 4, y), left to right. */
  lemma HorizontalExample(x: int, y: int)
    ensures Path(Segment(x, y, x + 4, y)) == [Point(x, y), Point(x + 1, y), Point(x + 2, y), Point(x + 3, y), Point(x + 4, y)]
  {
    HorizontalPath(Segment(x, y, x + 4, y));
  }

  /** `draw_line(0, 0, 4, 4)` plots the diagonal (0,0), (1,1), (2,2), (3,3), (4,4). */
  lemma DiagonalExample()
    ensures Path(Segment(0, 0, 4, 4)) == [Point(0, 0), Point(1, 1), Point(2, 2), Point(3, 3), Point(4, 4)]
  {
    DiagonalPath(Segment(0, 0, 4, 4));
  }
}
