/** Tripwire geometry: the calibration writer that derives a wire from a loading zone,
    and the reader that answers side-of-wire questions from it. */
module Tripwire {
  import opened Options

  datatype Point = Point(x: real, y: real)

  /** A calibration entry: the wire, and the direction arrow if there is one. */
  datatype WireEntry = WireEntry(p1: Point, p2: Point, direction: Option<(Point, Point)>)

  /** The reader's value; `insideSign` normalises side() so that inside is positive. */
  datatype Wire = Wire(p1: Point, p2: Point, insideSign: real)

  function RawSide(p1: Point, p2: Point, p: Point): real {
    (p2.x - p1.x) * (p.y - p1.y) - (p2.y - p1.y) * (p.x - p1.x)
  }

  function Max(x: real, y: real): real {
    if x < y then y else x
  }

  /** The side of the arrow head, or 0 without a usable arrow. */
  function HeadSide(e: WireEntry): real {
    match e.direction case None => 0.0 case Some(d) => RawSide(e.p1, e.p2, d.1)
  }

  /** The legacy convention: inside is towards larger x. */
  function LegacySide(e: WireEntry): real {
    RawSide(e.p1, e.p2, Point(Max(e.p1.x, e.p2.x) + 1.0, (e.p1.y + e.p2.y) / 2.0))
  }

  function FromCalib(e: WireEntry): Wire {
    var s := if HeadSide(e) == 0.0 then LegacySide(e) else HeadSide(e);
    Wire(e.p1, e.p2, if s > 0.0 then 1.0 else -1.0)
  }

  function Side(w: Wire, p: Point): real {
    w.insideSign * RawSide(w.p1, w.p2, p)
  }

  predicate IsPast(w: Wire, p: Point) {
    Side(w, p) > 0.0
  }

  function LengthSquared(w: Wire): real {
    (w.p2.x - w.p1.x) * (w.p2.x - w.p1.x) + (w.p2.y - w.p1.y) * (w.p2.y - w.p1.y)
  }

  function Along(w: Wire, p: Point): real {
    (p.x - w.p1.x) * (w.p2.x - w.p1.x) + (p.y - w.p1.y) * (w.p2.y - w.p1.y)
  }

  function Projection(w: Wire, p: Point): real {
    if LengthSquared(w) <= 0.0 then 0.0 else Along(w, p) / LengthSquared(w)
  }

  predicate IsInside(w: Wire, p: Point) {
    IsPast(w, p) && 0.0 <= Projection(w, p) <= 1.0
  }

  function Abs(x: real): real {
    if x < 0.0 then -x else x
  }

  /** The distance to the wire's line, given the lengths hypot() would return: the
      wire's own, and the point's distance to its first end. */
  function LineDistance(w: Wire, p: Point, length: real, toFirstEnd: real): real {
    if length <= 0.0 then toFirstEnd else Abs(RawSide(w.p1, w.p2, p)) / length
  }

  // ----- the writer -----

  datatype TrailerSide = AtXMin | AtXMax

  datatype Zone = Zone(xMin: real, xMax: real, yMin: real, yMax: real, trailerSide: TrailerSide)

  function WireX(z: Zone): real {
    if z.trailerSide == AtXMax then z.xMax else z.xMin
  }

  function Inward(z: Zone): real {
    if z.trailerSide == AtXMax then 1.5 else -1.5
  }

  function ZoneTripwire(z: Zone): WireEntry {
    var x, mid := WireX(z), (z.yMin + z.yMax) / 2.0;
    WireEntry(Point(x, z.yMin), Point(x, z.yMax), Some((Point(x - Inward(z), mid), Point(x + Inward(z), mid))))
  }

  /** The zone's ROI rectangle, edges included, whichever way its sides are given. */
  predicate InRoi(z: Zone, p: Point) {
    && (z.xMin <= p.x <= z.xMax || z.xMax <= p.x <= z.xMin)
    && (z.yMin <= p.y <= z.yMax || z.yMax <= p.y <= z.yMin)
  }

  /** Strictly beyond the trailer-side edge, within the zone's y range. */
  predicate BeyondEdge(z: Zone, p: Point) {
    && (if z.trailerSide == AtXMax then p.x > z.xMax else p.x < z.xMin)
    && (z.yMin <= p.y <= z.yMax || z.yMax <= p.y <= z.yMin)
  }

  // ----- products of reals -----

  lemma MulSign(a: real, b: real)
    ensures a * b > 0.0 <==> (a > 0.0 && b > 0.0) || (a < 0.0 && b < 0.0)
    ensures a * b == 0.0 <==> a == 0.0 || b == 0.0
  {
    if a > 0.0 {
      if b > 0.0 {
        MulPositive(a, b);
      } else if b < 0.0 {
        MulPositive(a, -b);
      }
    } else if a < 0.0 {
      if b > 0.0 {
        MulPositive(-a, b);
      } else if b < 0.0 {
        MulPositive(-a, -b);
      }
    }
  }

  lemma MulPositive(a: real, b: real)
    requires a > 0.0 && b > 0.0
    ensures a * b > 0.0
    ensures (-a) * b == -(a * b) && a * (-b) == -(a * b) && (-a) * (-b) == a * b
  {
  }

  /** The quotient lies in 0..1 exactly when the numerator lies in 0..denominator. */
  lemma FractionInUnit(n: real, d: real)
    requires d > 0.0
    ensures 0.0 <= n / d <= 1.0 <==> 0.0 <= n <= d
  {
    var q := n / d;
    assert q * d == n;
    MulSign(q, d);
    MulSign(q - 1.0, d);
    assert (q - 1.0) * d == q * d - d;
  }

  // ----- what the written wire means -----

  lemma WrittenSide(z: Zone, p: Point)
    ensures var e := ZoneTripwire(z);
            && RawSide(e.p1, e.p2, p) == -((z.yMax - z.yMin) * (p.x - WireX(z)))
            && HeadSide(e) == -((z.yMax - z.yMin) * Inward(z))
  {
  }

  lemma WrittenProjection(z: Zone, p: Point)
    requires z.yMin != z.yMax
    ensures var w := FromCalib(ZoneTripwire(z));
            0.0 <= Projection(w, p) <= 1.0 <==> (z.yMin <= p.y <= z.yMax || z.yMax <= p.y <= z.yMin)
  {
    var w := FromCalib(ZoneTripwire(z));
    var h, d := z.yMax - z.yMin, p.y - z.yMin;
    assert LengthSquared(w) == h * h;
    MulSign(h, h);
    assert Along(w, p) == d * h;
    FractionInUnit(d * h, h * h);
    MulSign(d, h);
    MulSign(h - d, h);
    assert (h - d) * h == h * h - d * h;
  }

  lemma WrittenIsPast(z: Zone, p: Point)
    requires z.yMin != z.yMax
    ensures IsPast(FromCalib(ZoneTripwire(z)), p) <==> (if z.trailerSide == AtXMax then p.x > z.xMax else p.x < z.xMin)
  {
    var h, d := z.yMax - z.yMin, p.x - WireX(z);
    WrittenSide(z, p);
    MulSign(h, Inward(z));
    MulSign(h, d);
    var w := FromCalib(ZoneTripwire(z));
    assert Side(w, p) == if w.insideSign == 1.0 then -(h * d) else h * d;
  }

  /** The wire written for a zone, read back, has exactly the points strictly beyond
      the trailer-side edge inside it. */
  lemma WrittenWireIsTheTrailer(z: Zone, p: Point)
    requires z.yMin != z.yMax
    ensures IsInside(FromCalib(ZoneTripwire(z)), p) <==> BeyondEdge(z, p)
  {
    WrittenIsPast(z, p);
    WrittenProjection(z, p);
  }

  /** A zone without height has nothing inside its wire. */
  lemma FlatZoneHasNoInside(z: Zone, p: Point)
    requires z.yMin == z.yMax
    ensures !IsInside(FromCalib(ZoneTripwire(z)), p)
  {
    WrittenSide(z, p);
    var w := FromCalib(ZoneTripwire(z));
    assert RawSide(w.p1, w.p2, p) == 0.0;
  }

  /** No point is both in a zone's ROI and in its trailer, exactly when the zone's x
      sides are given in order or the zone has no height. */
  lemma RoiAndTrailerDisjointIff(z: Zone)
    ensures (forall p :: !(InRoi(z, p) && IsInside(FromCalib(ZoneTripwire(z)), p))) <==>
            z.xMin <= z.xMax || z.yMin == z.yMax
  {
    forall p
      ensures IsInside(FromCalib(ZoneTripwire(z)), p) <==> z.yMin != z.yMax && BeyondEdge(z, p)
    {
      if z.yMin == z.yMax {
        FlatZoneHasNoInside(z, p);
      } else {
        WrittenWireIsTheTrailer(z, p);
      }
    }
    if z.xMin > z.xMax && z.yMin != z.yMax {
      var p := Point(if z.trailerSide == AtXMax then z.xMin else z.xMax, z.yMin);
      assert InRoi(z, p) && BeyondEdge(z, p);
    }
  }

  // ----- swapping the wire's ends -----

  function Swapped(e: WireEntry): WireEntry {
    WireEntry(e.p2, e.p1, e.direction)
  }

  lemma SwapCross(a: real, b: real, c: real, d: real)
    ensures (-a) * (d - b) - (-b) * (c - a) == -(a * d - b * c)
  {
    assert (-a) * (d - b) == a * b - a * d;
    assert (-b) * (c - a) == a * b - b * c;
  }

  lemma SwapDot(c: real, a: real)
    ensures (c - a) * (-a) == a * a - c * a
    ensures (-a) * (-a) == a * a
  {
  }

  lemma SwapRawSide(p1: Point, p2: Point, p: Point)
    ensures RawSide(p2, p1, p) == -RawSide(p1, p2, p)
  {
    var a, b, c, d := p2.x - p1.x, p2.y - p1.y, p.x - p1.x, p.y - p1.y;
    assert p1.x - p2.x == -a && p1.y - p2.y == -b && p.x - p2.x == c - a && p.y - p2.y == d - b;
    SwapCross(a, b, c, d);
  }

  lemma SwapProjection(e: WireEntry, p: Point)
    ensures var w, v := FromCalib(e), FromCalib(Swapped(e));
            && LengthSquared(w) == LengthSquared(v)
            && Along(v, p) == LengthSquared(w) - Along(w, p)
  {
    var a, b := e.p2.x - e.p1.x, e.p2.y - e.p1.y;
    var c, d := p.x - e.p1.x, p.y - e.p1.y;
    assert e.p1.x - e.p2.x == -a && e.p1.y - e.p2.y == -b && p.x - e.p2.x == c - a && p.y - e.p2.y == d - b;
    SwapDot(c, a);
    SwapDot(d, b);
  }

  /** The legacy side is 0 exactly for a wire parallel to the x axis. */
  lemma LegacySideIs(e: WireEntry)
    ensures LegacySide(e) == 0.0 <==> e.p1.y == e.p2.y
  {
    var h := e.p2.y - e.p1.y;
    var m := (e.p1.x + e.p2.x) / 2.0 - Max(e.p1.x, e.p2.x) - 1.0;
    assert m < 0.0;
    assert LegacySide(e) == h * m;
    MulSign(h, m);
  }

  /** The sides of a wire read with swapped ends agree exactly when the arrow head is
      off its line, or the fallback can tell its sides apart, or it is a point. */
  predicate SwapSafe(e: WireEntry) {
    HeadSide(e) != 0.0 || e.p1.y != e.p2.y || e.p1.x == e.p2.x
  }

  lemma SwapHead(e: WireEntry)
    ensures HeadSide(Swapped(e)) == -HeadSide(e)
    ensures LegacySide(Swapped(e)) == -LegacySide(e)
  {
    match e.direction {
      case None =>
      case Some(d) => SwapRawSide(e.p1, e.p2, d.1);
    }
    SwapRawSide(e.p1, e.p2, Point(Max(e.p1.x, e.p2.x) + 1.0, (e.p1.y + e.p2.y) / 2.0));
    assert Max(e.p1.x, e.p2.x) == Max(e.p2.x, e.p1.x);
    assert (e.p1.y + e.p2.y) / 2.0 == (e.p2.y + e.p1.y) / 2.0;
  }

  /** Swapping the ends of a swap-safe wire changes no side, inside or distance answer. */
  lemma SwapChangesNothing(e: WireEntry, p: Point, length: real, d1: real, d2: real)
    requires SwapSafe(e)
    requires e.p1 == e.p2 ==> d1 == d2
    requires length > 0.0 <==> e.p1 != e.p2
    ensures var w, v := FromCalib(e), FromCalib(Swapped(e));
            && Side(w, p) == Side(v, p)
            && (IsInside(w, p) <==> IsInside(v, p))
            && LineDistance(w, p, length, d1) == LineDistance(v, p, length, d2)
  {
    var w, v := FromCalib(e), FromCalib(Swapped(e));
    SwapHead(e);
    LegacySideIs(e);
    SwapRawSide(e.p1, e.p2, p);
    if e.p1 == e.p2 {
      assert RawSide(e.p1, e.p2, p) == 0.0;
    } else {
      assert w.insideSign == -v.insideSign;
    }
    assert Side(w, p) == Side(v, p);
    SwapProjection(e, p);
    if LengthSquared(w) > 0.0 {
      FractionInUnit(Along(w, p), LengthSquared(w));
      FractionInUnit(Along(v, p), LengthSquared(v));
    }
  }

  /** A wire that is not swap-safe reads a point above it differently. */
  lemma UnsafeSwapFlips(e: WireEntry)
    requires !SwapSafe(e)
    ensures var p := Point(e.p1.x, e.p1.y + 1.0);
            Side(FromCalib(e), p) != Side(FromCalib(Swapped(e)), p)
  {
    var p := Point(e.p1.x, e.p1.y + 1.0);
    var w, v := FromCalib(e), FromCalib(Swapped(e));
    SwapHead(e);
    LegacySideIs(e);
    SwapRawSide(e.p1, e.p2, p);
    assert RawSide(e.p1, e.p2, p) == e.p2.x - e.p1.x;
    assert w.insideSign == -1.0 && v.insideSign == -1.0;
  }
}
