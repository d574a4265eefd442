/** The position-estimation engine of `triangulation.py`: a log-distance
    path-loss model turning a signal strength into a distance, a two-circle
    solver for two anchors, a least-squares solver for three or more, and a
    tracker that groups readings by client and keeps confident fixes.

    Floating-point numbers are `real`; square root, base-10 logarithm and
    powers of ten come from the `RealMath` record the triangulator is built
    with. */
module Triangulation {
  import opened Numerics
  import opened Wrappers

  /** Physical position of an access point, in meters. */
  datatype APCoordinates = APCoordinates(x: real, y: real, z: real, name: string)

  /** One signal-strength reading of a client taken by one access point. */
  datatype ClientSignal = ClientSignal(macAddress: string, apName: string, rssi: real, timestamp: real, frequency: real)

  /** A position fix with its quality figures. */
  datatype LocationEstimate = LocationEstimate(x: real, y: real, confidence: real, numAps: int, errorRadius: real)

  /** One `(ap_coord, distance)` pair handed to the solvers. */
  datatype ApDistance = ApDistance(ap: APCoordinates, distance: real)

  /** The constants an environment profile fixes. `shadowStd` is carried but
      never used in a distance computation. */
  datatype PathLossModel = PathLossModel(referenceDistance: real, referenceRssi: real, pathLossExponent: real, shadowStd: real)

  /*************************************************************************
   * Propagation model
   *************************************************************************/

  /** The profile `__init__` selects: "indoor", "outdoor", and every other
      name gets the vault/bunker constants. */
  function PathLossFor(environmentType: string): (p: PathLossModel)
    ensures p.referenceDistance == 1.0 && p.pathLossExponent >= 2.5
    ensures p.referenceRssi == (if environmentType in {"indoor", "outdoor"} then -30.0 else -35.0)
    ensures environmentType == "outdoor" <==> p.pathLossExponent == 3.5
    ensures environmentType == "indoor" <==> p.pathLossExponent == 2.5
    ensures environmentType !in {"indoor", "outdoor"} <==> p.pathLossExponent == 3.0
    ensures p.shadowStd == (if environmentType == "indoor" then 4.0 else if environmentType == "outdoor" then 8.0 else 6.0)
  {
    if environmentType == "indoor" then PathLossModel(1.0, -30.0, 2.5, 4.0)
    else if environmentType == "outdoor" then PathLossModel(1.0, -30.0, 3.5, 8.0)
    else PathLossModel(1.0, -35.0, 3.0, 6.0)
  }

  /** A reading `rssi_to_distance` can convert without raising: readings
      stronger than the reference return before the logarithm is taken, and
      otherwise `log10(frequency / 2.4)` needs a positive frequency. */
  predicate Convertible(p: PathLossModel, rssi: real, frequency: real)
  {
    rssi > p.referenceRssi || frequency > 0.0
  }

  /** The unclamped log-distance estimate: the frequency correction
      `20 log10(f / 2.4)` (zero at exactly 2.4 GHz) is subtracted from the
      reading, and the remaining loss below the reference is turned into a
      distance `d0 * 10^(loss / (10 n))`. */
  function PathLossDistance(m: RealMath, p: PathLossModel, rssi: real, frequency: real): real
    requires m.Lawful() && p.pathLossExponent != 0.0 && frequency > 0.0
  {
    var freqCorrection := if frequency != 2.4 then 20.0 * m.log10(frequency / 2.4) else 0.0;
    var adjustedRssi := rssi - freqCorrection;
    var dbLoss := p.referenceRssi - adjustedRssi;
    p.referenceDistance * m.pow10(dbLoss / (10.0 * p.pathLossExponent))
  }

  /** `rssi_to_distance`: 0.5 m for readings stronger than the reference,
      otherwise the log-distance estimate clamped to [1, 100] m. */
  function RssiToDistance(m: RealMath, p: PathLossModel, rssi: real, frequency: real): (r: real)
    requires m.Lawful() && p.pathLossExponent != 0.0 && Convertible(p, rssi, frequency)
    ensures rssi > p.referenceRssi ==> r == 0.5
    ensures rssi <= p.referenceRssi ==> 1.0 <= r <= 100.0
  {
    if rssi > p.referenceRssi then 0.5
    else Clamp(1.0, 100.0, PathLossDistance(m, p, rssi, frequency))
  }

  lemma DivideMonotone(a: real, b: real, c: real)
    requires a <= b && c > 0.0
    ensures a / c <= b / c
  {
    assert b / c - a / c == (b - a) / c;
  }

  lemma MultiplyMonotone(k: real, a: real, b: real)
    requires k >= 0.0 && a <= b
    ensures k * a <= k * b
  {
    assert k * b - k * a == k * (b - a);
  }

  /** Before clamping, more loss means more distance. */
  lemma PathLossDistanceMonotone(m: RealMath, p: PathLossModel, weaker: real, stronger: real, frequency: real)
    requires m.Lawful() && p.pathLossExponent > 0.0 && p.referenceDistance >= 0.0 && frequency > 0.0
    requires weaker <= stronger
    ensures PathLossDistance(m, p, stronger, frequency) <= PathLossDistance(m, p, weaker, frequency)
  {
    var fc := if frequency != 2.4 then 20.0 * m.log10(frequency / 2.4) else 0.0;
    var lossWeak := p.referenceRssi - (weaker - fc);
    var lossStrong := p.referenceRssi - (stronger - fc);
    DivideMonotone(lossStrong, lossWeak, 10.0 * p.pathLossExponent);
    var eStrong := lossStrong / (10.0 * p.pathLossExponent);
    var eWeak := lossWeak / (10.0 * p.pathLossExponent);
    assert m.pow10(eStrong) <= m.pow10(eWeak);
    MultiplyMonotone(p.referenceDistance, m.pow10(eStrong), m.pow10(eWeak));
  }

  /** A stronger reading never yields a larger distance, at any fixed frequency. */
  lemma RssiToDistanceMonotone(m: RealMath, p: PathLossModel, weaker: real, stronger: real, frequency: real)
    requires m.Lawful() && p.pathLossExponent > 0.0 && p.referenceDistance >= 0.0
    requires Convertible(p, weaker, frequency) && Convertible(p, stronger, frequency)
    requires weaker <= stronger
    ensures RssiToDistance(m, p, stronger, frequency) <= RssiToDistance(m, p, weaker, frequency)
  {
    if stronger <= p.referenceRssi {
      PathLossDistanceMonotone(m, p, weaker, stronger, frequency);
    }
  }

  /** A reading equal to the reference strength at 2.4 GHz lies at the
      reference distance of every profile: 1 m. */
  lemma ReferenceReadingIsOneMeter(m: RealMath, environmentType: string)
    requires m.Lawful()
    ensures var p := PathLossFor(environmentType);
            RssiToDistance(m, p, p.referenceRssi, 2.4) == p.referenceDistance == 1.0
  {
    var p := PathLossFor(environmentType);
    assert PathLossDistance(m, p, p.referenceRssi, 2.4) == 1.0 * m.pow10(0.0 / (10.0 * p.pathLossExponent));
  }

  /*************************************************************************
   * Two anchors: intersection of two circles
   *************************************************************************/

  /** Two anchors at the same spot of the floor plan (heights are ignored). */
  predicate Coincident(ap1: APCoordinates, ap2: APCoordinates)
  {
    ap1.x == ap2.x && ap1.y == ap2.y
  }

  /** `d_ap`: the length of the baseline from the first anchor to the second. */
  function Separation(m: RealMath, ap1: APCoordinates, ap2: APCoordinates): (r: real)
    requires m.Lawful()
    ensures r >= 0.0
    ensures r * r == (ap2.x - ap1.x) * (ap2.x - ap1.x) + (ap2.y - ap1.y) * (ap2.y - ap1.y)
    ensures r == 0.0 <==> Coincident(ap1, ap2)
  {
    var dx := ap2.x - ap1.x;
    var dy := ap2.y - ap1.y;
    SumOfSquaresZero(dx, dy);
    SqrtZeroIff(m, dx * dx + dy * dy);
    m.sqrt(dx * dx + dy * dy)
  }

  /** `a`: how far along the baseline, from the first anchor, the common
      chord of the two circles crosses it. */
  function ChordOffset(d1: real, d2: real, dAp: real): real
    requires dAp != 0.0
  {
    (d1 * d1 - d2 * d2 + dAp * dAp) / (2.0 * dAp)
  }

  /** `(px, py)`: the point of the baseline at offset `a` from the first anchor. */
  function ChordFoot(ap1: APCoordinates, ap2: APCoordinates, dAp: real, a: real): (real, real)
    requires dAp != 0.0
  {
    (ap1.x + a * (ap2.x - ap1.x) / dAp, ap1.y + a * (ap2.y - ap1.y) / dAp)
  }

  /** `(x1, y1)` and `(x2, y2)`: the foot moved by `h` either way along the
      perpendicular of the baseline. */
  function IntersectionPoints(ap1: APCoordinates, ap2: APCoordinates, dAp: real, a: real, h: real): ((real, real), (real, real))
    requires dAp != 0.0
  {
    var dx := ap2.x - ap1.x;
    var dy := ap2.y - ap1.y;
    var foot := ChordFoot(ap1, ap2, dAp, a);
    var px, py := foot.0, foot.1;
    ((px + h * (-dy) / dAp, py + h * dx / dAp), (px - h * (-dy) / dAp, py - h * dx / dAp))
  }

  /** Two circles around points `dAp` apart, of radii `d1` and `d2`, share a
      point exactly when the three lengths satisfy the triangle inequality. */
  predicate CirclesMeet(d1: real, d2: real, dAp: real)
  {
    Abs(d1 - d2) <= dAp <= d1 + d2
  }

  /** `_trilaterate_2ap`: only the first two pairs are used. Coincident
      anchors give the first anchor with confidence 0.1; otherwise the
      estimate is the foot of the chord, with confidence 0.3 when the
      circles do not meet (`h_sq < 0`) and 0.7 when they do, in which case
      it is computed as the midpoint of the two intersection points. The
      `except` branch of the source (confidence 0.2) cannot be taken: every
      square root and division is proved defined. */
  function Trilaterate2Ap(m: RealMath, ds: seq<ApDistance>): (r: LocationEstimate)
    requires m.Lawful() && |ds| >= 2
    ensures r.numAps == 2
    ensures Coincident(ds[0].ap, ds[1].ap) ==>
              r == LocationEstimate(ds[0].ap.x, ds[0].ap.y, 0.1, 2, Max(ds[0].distance, ds[1].distance))
    ensures !Coincident(ds[0].ap, ds[1].ap) ==>
              var dAp := Separation(m, ds[0].ap, ds[1].ap);
              && r.errorRadius == 0.3 * Max(ds[0].distance, ds[1].distance)
              && (r.x, r.y) == ChordFoot(ds[0].ap, ds[1].ap, dAp, ChordOffset(ds[0].distance, ds[1].distance, dAp))
              && r.confidence in {0.3, 0.7}
  {
    var ap1, d1, ap2, d2 := ds[0].ap, ds[0].distance, ds[1].ap, ds[1].distance;
    var dAp := Separation(m, ap1, ap2);
    if dAp == 0.0 then
      LocationEstimate(ap1.x, ap1.y, 0.1, 2, Max(d1, d2))
    else
      var a := ChordOffset(d1, d2, dAp);
      var hSq := d1 * d1 - a * a;
      var (x, y, confidence) :=
        if hSq < 0.0 then
          var (px, py) := ChordFoot(ap1, ap2, dAp, a);
          (px, py, 0.3)
        else
          var h := m.sqrt(hSq);
          var ((x1, y1), (x2, y2)) := IntersectionPoints(ap1, ap2, dAp, a, h);
          ((x1 + x2) / 2.0, (y1 + y2) / 2.0, 0.7);
      LocationEstimate(x, y, confidence, 2, Max(d1, d2) * 0.3)
  }

  /** Squared distance from `(x, y)` to an anchor, in the floor plan. */
  function DistSq(x: real, y: real, ap: APCoordinates): real
  {
    (x - ap.x) * (x - ap.x) + (y - ap.y) * (y - ap.y)
  }

  /** The foot of the chord is where the baseline meets the radical axis:
      it lies on the line through both anchors, and the difference of its
      squared distances to them is `d1^2 - d2^2`, as for every point the two
      circles share. */
  lemma ChordFootOnBaselineAndRadicalAxis(ap1: APCoordinates, d1: real, ap2: APCoordinates, d2: real, dAp: real)
    requires dAp > 0.0
    requires dAp * dAp == (ap2.x - ap1.x) * (ap2.x - ap1.x) + (ap2.y - ap1.y) * (ap2.y - ap1.y)
    ensures var (px, py) := ChordFoot(ap1, ap2, dAp, ChordOffset(d1, d2, dAp));
            && (px - ap1.x) * (ap2.y - ap1.y) == (py - ap1.y) * (ap2.x - ap1.x)
            && DistSq(px, py, ap1) - DistSq(px, py, ap2) == d1 * d1 - d2 * d2
  {
    var dx := ap2.x - ap1.x;
    var dy := ap2.y - ap1.y;
    var a := ChordOffset(d1, d2, dAp);
    var u := a / dAp;
    var (px, py) := ChordFoot(ap1, ap2, dAp, a);
    assert px - ap1.x == u * dx;
    assert py - ap1.y == u * dy;
    var sq := dx * dx + dy * dy;
    assert DistSq(px, py, ap1) == u * u * sq;
    assert px - ap2.x == (u - 1.0) * dx;
    assert py - ap2.y == (u - 1.0) * dy;
    assert DistSq(px, py, ap2) == (u - 1.0) * (u - 1.0) * sq;
    assert u * dAp == a;
    assert 2.0 * a * dAp == d1 * d1 - d2 * d2 + sq;
  }

  /** Moving by `c` along a unit vector and by `h` across it covers a squared
      distance of `c^2 + h^2`. */
  lemma OrthogonalOffset(c: real, h: real, ex: real, ey: real)
    requires ex * ex + ey * ey == 1.0
    ensures (c * ex - h * ey) * (c * ex - h * ey) + (c * ey + h * ex) * (c * ey + h * ex) == c * c + h * h
  {
    assert (c * ex - h * ey) * (c * ex - h * ey) + (c * ey + h * ex) * (c * ey + h * ex)
        == c * c * (ex * ex + ey * ey) + h * h * (ex * ex + ey * ey);
  }

  /** An offset of `a` along the unit baseline direction `(ex, ey)` and `h`
      across it, with `h^2 = d1^2 - a^2` and `2 a s = d1^2 - d2^2 + s^2`,
      has length `d1`, and length `d2` once the baseline `s (ex, ey)` is
      taken off. */
  lemma OnBothCircles(a: real, h: real, s: real, ex: real, ey: real, dx: real, dy: real, d1: real, d2: real, ox: real, oy: real)
    requires ex * ex + ey * ey == 1.0 && dx == s * ex && dy == s * ey
    requires h * h == d1 * d1 - a * a && 2.0 * a * s == d1 * d1 - d2 * d2 + s * s
    requires ox == a * ex - h * ey && oy == a * ey + h * ex
    ensures ox * ox + oy * oy == d1 * d1
    ensures (ox - dx) * (ox - dx) + (oy - dy) * (oy - dy) == d2 * d2
  {
    OrthogonalOffset(a, h, ex, ey);
    OrthogonalOffset(a - s, h, ex, ey);
    assert ox - s * ex == (a - s) * ex - h * ey && oy - s * ey == (a - s) * ey + h * ex;
    assert (a - s) * (a - s) + h * h == d2 * d2;
  }

  /** When the circles meet (`h_sq >= 0`, `h = sqrt(h_sq)`), both points
      `_trilaterate_2ap` computes lie on both circles. */
  lemma IntersectionPointsOnBothCircles(ap1: APCoordinates, d1: real, ap2: APCoordinates, d2: real, dAp: real, h: real)
    requires dAp > 0.0
    requires dAp * dAp == (ap2.x - ap1.x) * (ap2.x - ap1.x) + (ap2.y - ap1.y) * (ap2.y - ap1.y)
    requires var a := ChordOffset(d1, d2, dAp); h * h == d1 * d1 - a * a
    ensures var pts := IntersectionPoints(ap1, ap2, dAp, ChordOffset(d1, d2, dAp), h);
            OnCircles(pts.0.0, pts.0.1, ap1, d1, ap2, d2) && OnCircles(pts.1.0, pts.1.1, ap1, d1, ap2, d2)
  {
    var a := ChordOffset(d1, d2, dAp);
    var pts := IntersectionPoints(ap1, ap2, dAp, a, h);
    FootOffsets(ap1, ap2, dAp, a, h);
    OffsetPointOnCircles(ap1, d1, ap2, d2, dAp, h, pts.0.0, pts.0.1);
    MirroredPointOnCircles(ap1, d1, ap2, d2, dAp, h, pts.1.0, pts.1.1);
  }

  /** The same, `h` along the perpendicular the other way. */
  lemma MirroredPointOnCircles(ap1: APCoordinates, d1: real, ap2: APCoordinates, d2: real, dAp: real, h: real,
                               x: real, y: real)
    requires dAp > 0.0
    requires dAp * dAp == (ap2.x - ap1.x) * (ap2.x - ap1.x) + (ap2.y - ap1.y) * (ap2.y - ap1.y)
    requires var a := ChordOffset(d1, d2, dAp); h * h == d1 * d1 - a * a
    requires var a, ex, ey := ChordOffset(d1, d2, dAp), (ap2.x - ap1.x) / dAp, (ap2.y - ap1.y) / dAp;
             x - ap1.x == a * ex - (-h) * ey && y - ap1.y == a * ey + (-h) * ex
    ensures OnCircles(x, y, ap1, d1, ap2, d2)
  {
    assert (-h) * (-h) == h * h;
    OffsetPointOnCircles(ap1, d1, ap2, d2, dAp, -h, x, y);
  }

  /** The point `h` along the perpendicular from the foot of the chord,
      with `h^2 = d1^2 - a^2`, lies on both circles. */
  lemma OffsetPointOnCircles(ap1: APCoordinates, d1: real, ap2: APCoordinates, d2: real, dAp: real, h: real,
                             x: real, y: real)
    requires dAp > 0.0
    requires dAp * dAp == (ap2.x - ap1.x) * (ap2.x - ap1.x) + (ap2.y - ap1.y) * (ap2.y - ap1.y)
    requires var a := ChordOffset(d1, d2, dAp); h * h == d1 * d1 - a * a
    requires var a, ex, ey := ChordOffset(d1, d2, dAp), (ap2.x - ap1.x) / dAp, (ap2.y - ap1.y) / dAp;
             x - ap1.x == a * ex - h * ey && y - ap1.y == a * ey + h * ex
    ensures OnCircles(x, y, ap1, d1, ap2, d2)
  {
    var dx, dy := ap2.x - ap1.x, ap2.y - ap1.y;
    var a := ChordOffset(d1, d2, dAp);
    assert 2.0 * a * dAp == d1 * d1 - d2 * d2 + dAp * dAp;
    var ex, ey := dx / dAp, dy / dAp;
    assert ex * ex + ey * ey == 1.0 && dx == dAp * ex && dy == dAp * ey by {
      UnitDirection(dx, dy, dAp);
    }
    PointOnCircles(x, y, ap1, ap2, d1, d2, a, h, dAp, ex, ey);
  }

  /** `(x, y)` is at distance `d1` from the first anchor and `d2` from the second. */
  predicate OnCircles(x: real, y: real, ap1: APCoordinates, d1: real, ap2: APCoordinates, d2: real)
  {
    DistSq(x, y, ap1) == d1 * d1 && DistSq(x, y, ap2) == d2 * d2
  }

  lemma PointOnCircles(x: real, y: real, ap1: APCoordinates, ap2: APCoordinates, d1: real, d2: real,
                       a: real, h: real, s: real, ex: real, ey: real)
    requires ex * ex + ey * ey == 1.0 && ap2.x - ap1.x == s * ex && ap2.y - ap1.y == s * ey
    requires h * h == d1 * d1 - a * a && 2.0 * a * s == d1 * d1 - d2 * d2 + s * s
    requires x - ap1.x == a * ex - h * ey && y - ap1.y == a * ey + h * ex
    ensures OnCircles(x, y, ap1, d1, ap2, d2)
  {
    var dx, dy := ap2.x - ap1.x, ap2.y - ap1.y;
    OnBothCircles(a, h, s, ex, ey, dx, dy, d1, d2, x - ap1.x, y - ap1.y);
    assert x - ap2.x == (x - ap1.x) - dx && y - ap2.y == (y - ap1.y) - dy;
  }

  lemma DivideProduct(k: real, v: real, s: real)
    requires s != 0.0
    ensures k * v / s == k * (v / s)
  {
  }

  /** The offsets of the two intersection points from the first anchor, in
      the frame of the baseline. */
  lemma FootOffsets(ap1: APCoordinates, ap2: APCoordinates, dAp: real, a: real, h: real)
    requires dAp != 0.0
    ensures var pts := IntersectionPoints(ap1, ap2, dAp, a, h);
            var ex, ey := (ap2.x - ap1.x) / dAp, (ap2.y - ap1.y) / dAp;
            && pts.0.0 - ap1.x == a * ex - h * ey && pts.0.1 - ap1.y == a * ey + h * ex
            && pts.1.0 - ap1.x == a * ex - (-h) * ey && pts.1.1 - ap1.y == a * ey + (-h) * ex
  {
    var dx, dy := ap2.x - ap1.x, ap2.y - ap1.y;
    var pts := IntersectionPoints(ap1, ap2, dAp, a, h);
    var foot := ChordFoot(ap1, ap2, dAp, a);
    assert pts.0.0 == foot.0 + h * (-dy) / dAp && pts.0.1 == foot.1 + h * dx / dAp;
    assert pts.1.0 == foot.0 - h * (-dy) / dAp && pts.1.1 == foot.1 - h * dx / dAp;
    AxisOffsets(a, h, dx, dy, dAp);
  }

  /** The coordinates of both intersection points relative to the first
      anchor, rewritten along the unit baseline direction. */
  lemma AxisOffsets(a: real, h: real, dx: real, dy: real, s: real)
    requires s != 0.0
    ensures a * dx / s + h * (-dy) / s == a * (dx / s) - h * (dy / s)
    ensures a * dy / s + h * dx / s == a * (dy / s) + h * (dx / s)
    ensures a * dx / s - h * (-dy) / s == a * (dx / s) - (-h) * (dy / s)
    ensures a * dy / s - h * dx / s == a * (dy / s) + (-h) * (dx / s)
  {
    DivideProduct(a, dx, s);
    DivideProduct(a, dy, s);
    DivideProduct(h, dx, s);
    DivideProduct(h, dy, s);
    assert h * (-dy) / s == -(h * dy / s);
  }

  /** Dividing the baseline by its length gives a unit vector. */
  lemma UnitDirection(dx: real, dy: real, s: real)
    requires s > 0.0 && s * s == dx * dx + dy * dy
    ensures (dx / s) * (dx / s) + (dy / s) * (dy / s) == 1.0
    ensures dx == s * (dx / s) && dy == s * (dy / s)
  {
    var ex, ey := dx / s, dy / s;
    assert ex * s == dx && ey * s == dy;
    var q := s * s;
    PositiveSquare(s, q);
    assert (ex * ex + ey * ey) * q == dx * dx + dy * dy by {
      assert ex * ex * q == (ex * s) * (ex * s);
      assert ey * ey * q == (ey * s) * (ey * s);
    }
    assert ex * ex + ey * ey == ((ex * ex + ey * ey) * q) / q;
  }

  /** Comparing squares against a non-negative bound. */
  lemma SquareAtMost(a: real, d: real)
    requires d >= 0.0
    ensures a * a <= d * d <==> -d <= a <= d
  {
    var b := Abs(a);
    if b <= d {
      MultiplyMonotone(b, b, d);
      MultiplyMonotone(d, b, d);
      assert a * a == b * b;
    } else {
      LargerSquare(b, d, a * a, d * d);
    }
  }

  /** Stated with the squares as separate values, like `PositiveSquare`. */
  lemma LargerSquare(b: real, d: real, bb: real, dd: real)
    requires b > d >= 0.0 && bb == b * b && dd == d * d
    ensures bb > dd
  {
    MulPositive(b - d, b + d);
    assert (b - d) * (b + d) == bb - dd;
  }

  lemma ScaleAtMost(k: real, x: real, y: real)
    requires k > 0.0
    ensures x <= y <==> k * x <= k * y
  {
    if x <= y {
      MultiplyMonotone(k, x, y);
    } else {
      MulPositive(k, x - y);
      assert k * x - k * y == k * (x - y);
    }
  }

  /** `h_sq >= 0` exactly when the circles meet: the chord exists iff the
      separation and the two radii satisfy the triangle inequality. */
  lemma ChordExistsIffCirclesMeet(d1: real, d2: real, s: real)
    requires d1 >= 0.0 && d2 >= 0.0 && s > 0.0
    ensures var a := ChordOffset(d1, d2, s);
            d1 * d1 - a * a >= 0.0 <==> CirclesMeet(d1, d2, s)
  {
    var a := ChordOffset(d1, d2, s);
    assert 2.0 * s * a == d1 * d1 - d2 * d2 + s * s;
    SquareAtMost(a, d1);
    ChordBelowFirstRadius(d1, d2, s, a);
    ChordAboveMinusFirstRadius(d1, d2, s, a);
  }

  /** The foot lies no further than `d1` beyond the first anchor iff
      `d1 - d2 <= s <= d1 + d2`. */
  lemma ChordBelowFirstRadius(d1: real, d2: real, s: real, a: real)
    requires d2 >= 0.0 && s > 0.0 && 2.0 * s * a == d1 * d1 - d2 * d2 + s * s
    ensures a <= d1 <==> d1 - d2 <= s <= d1 + d2
  {
    ScaleAtMost(2.0 * s, a, d1);
    assert (d1 - s) * (d1 - s) == d1 * d1 - 2.0 * s * d1 + s * s;
    SquareAtMost(d1 - s, d2);
  }

  /** The foot lies no further than `d1` before the first anchor iff
      `d2 - d1 <= s`. */
  lemma ChordAboveMinusFirstRadius(d1: real, d2: real, s: real, a: real)
    requires d1 >= 0.0 && d2 >= 0.0 && s > 0.0 && 2.0 * s * a == d1 * d1 - d2 * d2 + s * s
    ensures -d1 <= a <==> d2 - d1 <= s
  {
    ScaleAtMost(2.0 * s, -d1, a);
    assert (d1 + s) * (d1 + s) == d1 * d1 + 2.0 * s * d1 + s * s;
    SquareAtMost(d2, d1 + s);
  }

  /** With the anchors apart and non-negative ranges, the two-anchor
      estimate has confidence 0.7 exactly when the circles meet, and 0.3
      otherwise. */
  lemma TwoApConfidenceIffCirclesMeet(m: RealMath, ds: seq<ApDistance>)
    requires m.Lawful() && |ds| >= 2 && !Coincident(ds[0].ap, ds[1].ap)
    requires ds[0].distance >= 0.0 && ds[1].distance >= 0.0
    ensures var r := Trilaterate2Ap(m, ds);
            var meet := CirclesMeet(ds[0].distance, ds[1].distance, Separation(m, ds[0].ap, ds[1].ap));
            && (meet ==> r.confidence == 0.7)
            && (!meet ==> r.confidence == 0.3)
  {
    ChordExistsIffCirclesMeet(ds[0].distance, ds[1].distance, Separation(m, ds[0].ap, ds[1].ap));
  }
}
