/** The walkable-area index: triangles filed under the unit cells their bounding box
    touches, against a scan of all triangles. */
module NavMesh {

  datatype Point = Point(x: real, y: real)

  datatype Triangle = Triangle(p1: Point, p2: Point, p3: Point)

  type Cell = (int, int)

  const EPS: real := -0.000001

  function Det(t: Triangle): real {
    (t.p2.y - t.p3.y) * (t.p1.x - t.p3.x) + (t.p3.x - t.p2.x) * (t.p1.y - t.p3.y)
  }

  function NumA(t: Triangle, p: Point): real {
    (t.p2.y - t.p3.y) * (p.x - t.p3.x) + (t.p3.x - t.p2.x) * (p.y - t.p3.y)
  }

  function NumB(t: Triangle, p: Point): real {
    (t.p3.y - t.p1.y) * (p.x - t.p3.x) + (t.p1.x - t.p3.x) * (p.y - t.p3.y)
  }

  /** The barycentric coordinates of p in a triangle that is not degenerate. */
  datatype Bary = Bary(a: real, b: real, c: real)

  function BaryOf(t: Triangle, p: Point): Bary
    requires Det(t) != 0.0
  {
    var a, b := NumA(t, p) / Det(t), NumB(t, p) / Det(t);
    Bary(a, b, 1.0 - a - b)
  }

  predicate AtLeast(k: Bary, lo: real) {
    k.a >= lo && k.b >= lo && k.c >= lo
  }

  /** Accepts a point whose coordinates are all at least a small negative tolerance. */
  predicate PointInTri(p: Point, t: Triangle) {
    Det(t) != 0.0 && AtLeast(BaryOf(t, p), EPS)
  }

  /** The exact answer: inside or on an edge. */
  predicate ExactlyIn(p: Point, t: Triangle) {
    Det(t) != 0.0 && AtLeast(BaryOf(t, p), 0.0)
  }

  function Min3(x: real, y: real, z: real): (m: real)
    ensures m <= x && m <= y && m <= z && (m == x || m == y || m == z)
  {
    var w := if x < y then x else y;
    if w < z then w else z
  }

  function Max3(x: real, y: real, z: real): (m: real)
    ensures m >= x && m >= y && m >= z && (m == x || m == y || m == z)
  {
    var w := if x < y then y else x;
    if w < z then z else w
  }

  function MinX(t: Triangle): real { Min3(t.p1.x, t.p2.x, t.p3.x) }

  function MaxX(t: Triangle): real { Max3(t.p1.x, t.p2.x, t.p3.x) }

  function MinY(t: Triangle): real { Min3(t.p1.y, t.p2.y, t.p3.y) }

  function MaxY(t: Triangle): real { Max3(t.p1.y, t.p2.y, t.p3.y) }

  /** The unit cell a point falls in. */
  function CellOf(p: Point): Cell {
    (p.x.Floor, p.y.Floor)
  }

  /** The triangle's bounding box touches cell c. */
  predicate Touches(t: Triangle, c: Cell) {
    MinX(t).Floor <= c.0 <= MaxX(t).Floor && MinY(t).Floor <= c.1 <= MaxY(t).Floor
  }

  type Grid = map<Cell, seq<nat>>

  /** Triangle ti is filed under cell c. */
  predicate Filed(grid: Grid, c: Cell, ti: nat) {
    c in grid && ti in grid[c]
  }

  function Add(grid: Grid, c: Cell, ti: nat): Grid {
    grid[c := (if c in grid then grid[c] else []) + [ti]]
  }

  lemma AddFiles(grid: Grid, c: Cell, ti: nat, c': Cell, ti': nat)
    ensures Filed(Add(grid, c, ti), c', ti') <==> Filed(grid, c', ti') || (c' == c && ti' == ti)
  {
  }

  /** Files one triangle under every cell its bounding box touches. */
  method FileTriangle(grid: Grid, t: Triangle, ti: nat) returns (g: Grid)
    ensures forall c: Cell, k: nat :: Filed(g, c, k) <==> Filed(grid, c, k) || (k == ti && Touches(t, c))
  {
    var x0, x1 := MinX(t).Floor, MaxX(t).Floor;
    var y0, y1 := MinY(t).Floor, MaxY(t).Floor;
    g := grid;
    var x := x0;
    while x <= x1
      invariant x0 <= x
      invariant forall c: Cell, k: nat :: Filed(g, c, k) <==>
                                          Filed(grid, c, k) || (k == ti && Touches(t, c) && c.0 < x)
      decreases x1 - x
    {
      var y := y0;
      while y <= y1
        invariant y0 <= y
        invariant forall c: Cell, k: nat :: Filed(g, c, k) <==>
                                            Filed(grid, c, k) ||
                                            (k == ti && Touches(t, c) && (c.0 < x || (c.0 == x && c.1 < y)))
        decreases y1 - y
      {
        ghost var before := g;
        g := Add(g, (x, y), ti);
        forall c: Cell, k: nat
          ensures Filed(g, c, k) <==> Filed(before, c, k) || (c == (x, y) && k == ti)
        {
          AddFiles(before, (x, y), ti, c, k);
        }
        y := y + 1;
      }
      x := x + 1;
    }
  }

  class Mesh {
    const tris: seq<Triangle>
    var grid: Grid

    /** The index files every triangle under exactly the cells it touches. */
    ghost predicate Valid()
      reads this
    {
      forall c: Cell, k: nat :: Filed(grid, c, k) <==> k < |tris| && Touches(tris[k], c)
    }

    constructor (ts: seq<Triangle>)
      ensures Valid() && tris == ts
    {
      tris := ts;
      var g: Grid := map[];
      for ti := 0 to |ts|
        invariant forall c: Cell, k: nat :: Filed(g, c, k) <==> k < ti && Touches(ts[k], c)
      {
        g := FileTriangle(g, ts[ti], ti);
      }
      grid := g;
    }

    method Walkable(p: Point) returns (r: bool)
      requires Valid()
      ensures r <==> GridAnswer(tris, p)
    {
      var c := CellOf(p);
      if c !in grid {
        assert forall k: nat :: !Filed(grid, c, k);
        return false;
      }
      var list := grid[c];
      for i := 0 to |list|
        invariant forall j :: 0 <= j < i ==> list[j] < |tris| && !PointInTri(p, tris[list[j]])
      {
        assert Filed(grid, c, list[i]);
        if PointInTri(p, tris[list[i]]) {
          return true;
        }
      }
      forall k: nat | k < |tris| && Touches(tris[k], c)
        ensures !PointInTri(p, tris[k])
      {
        assert Filed(grid, c, k);
        var j :| 0 <= j < |list| && list[j] == k;
      }
      return false;
    }
  }

  /** What the index answers, and what a scan of all triangles would. */
  ghost predicate GridAnswer(tris: seq<Triangle>, p: Point) {
    exists k :: 0 <= k < |tris| && Touches(tris[k], CellOf(p)) && PointInTri(p, tris[k])
  }

  ghost predicate ScanAnswer(tris: seq<Triangle>, p: Point) {
    exists k :: 0 <= k < |tris| && PointInTri(p, tris[k])
  }

  // ----- barycentric coordinates -----

  lemma Quotient(n: real, d: real)
    requires d != 0.0
    ensures (n / d) * d == n
  {
  }

  /** Scaled by the determinant, the coordinates recombine to the point. */
  lemma RecombineScaled(t: Triangle, p: Point)
    ensures p.x * Det(t) == NumA(t, p) * t.p1.x + NumB(t, p) * t.p2.x + (Det(t) - NumA(t, p) - NumB(t, p)) * t.p3.x
    ensures p.y * Det(t) == NumA(t, p) * t.p1.y + NumB(t, p) * t.p2.y + (Det(t) - NumA(t, p) - NumB(t, p)) * t.p3.y
  {
  }

  lemma CancelReal(x: real, y: real, d: real)
    requires d != 0.0 && x * d == y * d
    ensures x == y
  {
    assert (x - y) * d == 0.0;
  }

  lemma Distribute(a: real, b: real, c: real, d: real, x1: real, x2: real, x3: real)
    ensures (a * x1 + b * x2 + c * x3) * d == (a * d) * x1 + (b * d) * x2 + (c * d) * x3
  {
  }

  /** A point is the combination of the corners its coordinates describe. */
  lemma Recombine(t: Triangle, p: Point)
    requires Det(t) != 0.0
    ensures var k := BaryOf(t, p);
            && p.x == k.a * t.p1.x + k.b * t.p2.x + k.c * t.p3.x
            && p.y == k.a * t.p1.y + k.b * t.p2.y + k.c * t.p3.y
  {
    var k, d := BaryOf(t, p), Det(t);
    Quotient(NumA(t, p), d);
    Quotient(NumB(t, p), d);
    assert k.c * d == d - NumA(t, p) - NumB(t, p) by {
      assert (1.0 - k.a - k.b) * d == d - k.a * d - k.b * d;
    }
    RecombineScaled(t, p);
    Distribute(k.a, k.b, k.c, d, t.p1.x, t.p2.x, t.p3.x);
    Distribute(k.a, k.b, k.c, d, t.p1.y, t.p2.y, t.p3.y);
    CancelReal(p.x, k.a * t.p1.x + k.b * t.p2.x + k.c * t.p3.x, d);
    CancelReal(p.y, k.a * t.p1.y + k.b * t.p2.y + k.c * t.p3.y, d);
  }

  lemma MulLower(a: real, lo: real, x: real, w: real)
    requires lo <= a && lo <= 0.0 && 0.0 <= x <= w
    ensures a * x >= lo * w
  {
    assert (a - lo) * x >= 0.0;
    assert lo * (w - x) <= 0.0;
    assert (a - lo) * x == a * x - lo * x;
    assert lo * (w - x) == lo * w - lo * x;
  }

  /** x is at most 2 * |lo| of the width outside m..n. */
  predicate NearRange(x: real, m: real, n: real, lo: real) {
    m + 2.0 * lo * (n - m) <= x <= n - 2.0 * lo * (n - m)
  }

  /** A combination with coefficients at least lo <= 0 that sum to 1 stays, below and
      above, within 2 * lo of the width of the values it combines. */
  lemma CombinationBounds(k: Bary, lo: real, x1: real, x2: real, x3: real, x: real)
    requires k.a + k.b + k.c == 1.0 && lo <= 0.0 && k.a >= lo && k.b >= lo && k.c >= lo
    requires x == k.a * x1 + k.b * x2 + k.c * x3
    ensures NearRange(x, Min3(x1, x2, x3), Max3(x1, x2, x3), lo)
  {
    var m, n := Min3(x1, x2, x3), Max3(x1, x2, x3);
    var w := n - m;
    assert x - m == k.a * (x1 - m) + k.b * (x2 - m) + k.c * (x3 - m) by {
      ShiftedSum(k, x1, x2, x3, m);
    }
    assert n - x == k.a * (n - x1) + k.b * (n - x2) + k.c * (n - x3) by {
      ShiftedSum(k, x1, x2, x3, n);
      NegatedSum(k, x1 - n, x2 - n, x3 - n);
    }
    ThreeTerms(k, lo, x1 - m, x2 - m, x3 - m, w);
    ThreeTerms(k, lo, n - x1, n - x2, n - x3, w);
  }

  lemma ShiftedSum(k: Bary, x1: real, x2: real, x3: real, m: real)
    requires k.a + k.b + k.c == 1.0
    ensures k.a * x1 + k.b * x2 + k.c * x3 - m == k.a * (x1 - m) + k.b * (x2 - m) + k.c * (x3 - m)
  {
    assert k.a * m + k.b * m + k.c * m == (k.a + k.b + k.c) * m;
  }

  lemma NegatedSum(k: Bary, x1: real, x2: real, x3: real)
    ensures -(k.a * x1 + k.b * x2 + k.c * x3) == k.a * (-x1) + k.b * (-x2) + k.c * (-x3)
  {
  }

  /** Of three non-negative terms at most w, one of them 0, at most two can pull the
      sum below 0, each by no more than lo * w. */
  lemma ThreeTerms(k: Bary, lo: real, y1: real, y2: real, y3: real, w: real)
    requires lo <= 0.0 && k.a >= lo && k.b >= lo && k.c >= lo
    requires 0.0 <= y1 <= w && 0.0 <= y2 <= w && 0.0 <= y3 <= w
    requires y1 == 0.0 || y2 == 0.0 || y3 == 0.0
    ensures k.a * y1 + k.b * y2 + k.c * y3 >= 2.0 * lo * w
  {
    MulLower(k.a, lo, y1, w);
    MulLower(k.b, lo, y2, w);
    MulLower(k.c, lo, y3, w);
    assert 2.0 * lo * w == lo * w + lo * w;
  }

  // ----- the index against the scan -----

  lemma FloorMono(x: real, y: real)
    requires x <= y
    ensures x.Floor <= y.Floor
  {
  }

  /** The index never answers true where a scan would not. */
  lemma GridIsSound(tris: seq<Triangle>, p: Point)
    requires GridAnswer(tris, p)
    ensures ScanAnswer(tris, p)
  {
    var k :| 0 <= k < |tris| && Touches(tris[k], CellOf(p)) && PointInTri(p, tris[k]);
    assert PointInTri(p, tris[k]);
  }

  /** The point is at most 2 * |lo| of the box's size outside the bounding box. */
  predicate NearBox(p: Point, t: Triangle, lo: real) {
    NearRange(p.x, MinX(t), MaxX(t), lo) && NearRange(p.y, MinY(t), MaxY(t), lo)
  }

  lemma CoordinatesBoundX(p: Point, t: Triangle, lo: real)
    requires Det(t) != 0.0 && lo <= 0.0 && AtLeast(BaryOf(t, p), lo)
    ensures NearRange(p.x, MinX(t), MaxX(t), lo)
  {
    Recombine(t, p);
    CombinationBounds(BaryOf(t, p), lo, t.p1.x, t.p2.x, t.p3.x, p.x);
  }

  lemma CoordinatesBoundY(p: Point, t: Triangle, lo: real)
    requires Det(t) != 0.0 && lo <= 0.0 && AtLeast(BaryOf(t, p), lo)
    ensures NearRange(p.y, MinY(t), MaxY(t), lo)
  {
    Recombine(t, p);
    CombinationBounds(BaryOf(t, p), lo, t.p1.y, t.p2.y, t.p3.y, p.y);
  }

  /** A point with no coordinate below lo <= 0 is near the bounding box. */
  lemma CoordinatesBoundPoint(p: Point, t: Triangle, lo: real)
    requires Det(t) != 0.0 && lo <= 0.0 && AtLeast(BaryOf(t, p), lo)
    ensures NearBox(p, t, lo)
  {
    CoordinatesBoundX(p, t, lo);
    CoordinatesBoundY(p, t, lo);
  }

  predicate InBox(p: Point, t: Triangle) {
    MinX(t) <= p.x <= MaxX(t) && MinY(t) <= p.y <= MaxY(t)
  }

  lemma InBoxTouches(p: Point, t: Triangle)
    requires InBox(p, t)
    ensures Touches(t, CellOf(p))
  {
    FloorMono(MinX(t), p.x);
    FloorMono(p.x, MaxX(t));
    FloorMono(MinY(t), p.y);
    FloorMono(p.y, MaxY(t));
  }

  /** The index loses no interior or edge point of any triangle. */
  lemma GridFindsEveryPoint(tris: seq<Triangle>, p: Point, k: nat)
    requires k < |tris| && ExactlyIn(p, tris[k])
    ensures GridAnswer(tris, p)
  {
    CoordinatesBoundPoint(p, tris[k], 0.0);
    assert InBox(p, tris[k]);
    InBoxTouches(p, tris[k]);
    assert Touches(tris[k], CellOf(p)) && PointInTri(p, tris[k]);
  }

  // ----- where they disagree -----

  /** Cell border n lies after `low` and no further than `high`. */
  predicate BorderIn(n: int, low: real, high: real) {
    low < n as real <= high
  }

  /** A cell border separates x from the range m..n, on either side. */
  ghost predicate CutOffAxis(x: real, m: real, n: real) {
    (exists b: int :: BorderIn(b, x, m)) || exists b: int :: BorderIn(b, n, x)
  }

  /** A cell border separates the point from the triangle's bounding box. */
  ghost predicate CutOff(t: Triangle, p: Point) {
    CutOffAxis(p.x, MinX(t), MaxX(t)) || CutOffAxis(p.y, MinY(t), MaxY(t))
  }

  lemma FloorIs(x: real, b: int)
    ensures b as real <= x <==> b <= x.Floor
  {
  }

  lemma CutOffAxisIff(x: real, m: real, n: real)
    ensures m.Floor <= x.Floor <= n.Floor <==> !CutOffAxis(x, m, n)
  {
    if x.Floor < m.Floor {
      FloorIs(x, m.Floor);
      assert BorderIn(m.Floor, x, m);
    }
    if n.Floor < x.Floor {
      FloorIs(n, x.Floor);
      assert BorderIn(x.Floor, n, x);
    }
    if b: int :| BorderIn(b, x, m) {
      FloorIs(x, b);
      FloorIs(m, b);
    }
    if b: int :| BorderIn(b, n, x) {
      FloorIs(n, b);
      FloorIs(x, b);
    }
  }

  lemma TouchesIff(t: Triangle, p: Point)
    ensures Touches(t, CellOf(p)) <==> !CutOff(t, p)
  {
    CutOffAxisIff(p.x, MinX(t), MaxX(t));
    CutOffAxisIff(p.y, MinY(t), MaxY(t));
  }

  /** Index and scan agree at a point exactly when no triangle accepts it or one that
      does is not cut off from it by a cell border. */
  lemma AgreeIff(tris: seq<Triangle>, p: Point)
    ensures (GridAnswer(tris, p) <==> ScanAnswer(tris, p)) <==>
            || (forall k :: 0 <= k < |tris| ==> !PointInTri(p, tris[k]))
            || (exists k :: 0 <= k < |tris| && PointInTri(p, tris[k]) && !CutOff(tris[k], p))
  {
    forall k | 0 <= k < |tris|
      ensures Touches(tris[k], CellOf(p)) <==> !CutOff(tris[k], p)
    {
      TouchesIff(tris[k], p);
    }
  }

  /** So where they disagree, every triangle the scan accepts is cut off from the point,
      which is outside its bounding box, but by no more than 2e-6 of the box's size. */
  lemma LostOnlyInMargin(tris: seq<Triangle>, p: Point, k: nat)
    requires !GridAnswer(tris, p)
    requires k < |tris| && PointInTri(p, tris[k])
    ensures CutOff(tris[k], p) && NearBox(p, tris[k], EPS) && !InBox(p, tris[k])
  {
    CoordinatesBoundPoint(p, tris[k], EPS);
    assert !Touches(tris[k], CellOf(p));
    TouchesIff(tris[k], p);
    if InBox(p, tris[k]) {
      InBoxTouches(p, tris[k]);
    }
  }

  /** No cell border lies within `margin` of x. */
  ghost predicate ClearAxis(x: real, margin: real) {
    forall b: int :: !BorderNear(b, x, margin)
  }

  predicate BorderNear(b: int, x: real, margin: real) {
    BorderIn(b, x, x + margin) || BorderIn(b, x - margin, x)
  }

  lemma ClearAxisIsNotCut(x: real, m: real, n: real, side: real)
    requires n - m <= side && NearRange(x, m, n, EPS) && ClearAxis(x, 0.000002 * side)
    ensures !CutOffAxis(x, m, n)
  {
    assert m - x <= 0.000002 * side && x - n <= 0.000002 * side;
    forall b: int
      ensures !BorderIn(b, x, m) && !BorderIn(b, n, x)
    {
      assert !BorderNear(b, x, 0.000002 * side);
    }
  }

  /** Away from the cell borders, by 2e-6 of the longest box side, they agree. */
  lemma AgreeAwayFromBorders(tris: seq<Triangle>, p: Point, side: real)
    requires forall k :: 0 <= k < |tris| ==> MaxX(tris[k]) - MinX(tris[k]) <= side && MaxY(tris[k]) - MinY(tris[k]) <= side
    requires ClearAxis(p.x, 0.000002 * side) && ClearAxis(p.y, 0.000002 * side)
    ensures GridAnswer(tris, p) <==> ScanAnswer(tris, p)
  {
    if k :| 0 <= k < |tris| && PointInTri(p, tris[k]) {
      CoordinatesBoundPoint(p, tris[k], EPS);
      ClearAxisIsNotCut(p.x, MinX(tris[k]), MaxX(tris[k]), side);
      ClearAxisIsNotCut(p.y, MinY(tris[k]), MaxY(tris[k]), side);
    }
    AgreeIff(tris, p);
  }

  /** They do disagree there: just left of this triangle, across a cell border, the
      scan accepts a point and the index does not. */
  lemma MarginIsLost()
    ensures var t, p := Triangle(Point(0.0, 0.0), Point(0.5, 0.0), Point(0.0, 0.5)), Point(-0.0000001, 0.1);
            ScanAnswer([t], p) && !GridAnswer([t], p)
  {
    var t, p := Triangle(Point(0.0, 0.0), Point(0.5, 0.0), Point(0.0, 0.5)), Point(-0.0000001, 0.1);
    assert Det(t) == 0.25;
    assert NumA(t, p) == 0.20000005 && NumB(t, p) == -0.00000005;
    var b := BaryOf(t, p);
    assert b.a == 0.8000002 && b.b == -0.0000002 && b.c == 0.2;
    assert PointInTri(p, [t][0]);
    assert CellOf(p).0 == -1 && MinX(t) == 0.0;
  }
}
