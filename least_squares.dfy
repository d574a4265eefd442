/** The least-squares solver `_trilaterate_multiap` of `triangulation.py`,
    used for three or more anchor/range pairs.

    Subtracting the circle equation of the first (reference) anchor from
    that of every other anchor gives one linear equation per anchor,
    `A [x, y] = b`. The normal equations `A^T A [x, y] = A^T b` are solved by
    Cramer's rule unless their determinant is below 1e-10 in magnitude, in
    which case the centroid of the anchors is returned instead. */
module LeastSquares {
  import opened Numerics
  import opened Triangulation

  /** One row of `A` with its entry of `b`. */
  datatype LinearRow = LinearRow(ax: real, ay: real, rhs: real)

  /** The row for anchor `d` against the reference anchor `ref`:
      `2 (xi - x0) x + 2 (yi - y0) y = xi^2 + yi^2 - x0^2 - y0^2 + d0^2 - di^2`. */
  function RowFor(ref: ApDistance, d: ApDistance): LinearRow
  {
    var r, a := ref.ap, d.ap;
    LinearRow(2.0 * (a.x - r.x), 2.0 * (a.y - r.y),
              a.x * a.x + a.y * a.y - r.x * r.x - r.y * r.y + ref.distance * ref.distance - d.distance * d.distance)
  }

  /** The rows for anchors 1 .. n-1, in order, against anchor 0. */
  function LinearRows(ds: seq<ApDistance>): (rows: seq<LinearRow>)
    requires |ds| >= 1
    ensures |rows| == |ds| - 1
  {
    seq(|ds| - 1, k requires 0 <= k < |ds| - 1 => RowFor(ds[0], ds[k + 1]))
  }

  /** The entries of `A^T A` and `A^T b`. `A^T A` is symmetric: `sxy` is
      both of its off-diagonal entries. */
  datatype NormalSystem = NormalSystem(sxx: real, sxy: real, syy: real, tx: real, ty: real)

  /** The sums over the rows that make up the normal equations. */
  function Normal(rows: seq<LinearRow>): NormalSystem
  {
    if rows == [] then NormalSystem(0.0, 0.0, 0.0, 0.0, 0.0)
    else AddRow(Normal(rows[..|rows| - 1]), rows[|rows| - 1])
  }

  /** One more term of each sum. */
  function AddRow(n: NormalSystem, r: LinearRow): NormalSystem
  {
    NormalSystem(n.sxx + r.ax * r.ax, n.sxy + r.ax * r.ay, n.syy + r.ay * r.ay,
                 n.tx + r.ax * r.rhs, n.ty + r.ay * r.rhs)
  }

  function Determinant(n: NormalSystem): real
  {
    n.sxx * n.syy - n.sxy * n.sxy
  }

  /** `1e-10`, below which the determinant counts as zero. */
  const SingularThreshold: real := 0.0000000001

  /** The solver gives up ("Singular matrix") on a near-zero determinant. */
  predicate Singular(n: NormalSystem)
  {
    Abs(Determinant(n)) < SingularThreshold
  }

  /** Cramer's rule for the 2x2 normal equations. */
  function Solution(n: NormalSystem): (real, real)
    requires !Singular(n)
  {
    var det := Determinant(n);
    ((n.syy * n.tx - n.sxy * n.ty) / det, (n.sxx * n.ty - n.sxy * n.tx) / det)
  }

  function Distances(ds: seq<ApDistance>): (r: seq<real>)
    ensures |r| == |ds| && forall i :: 0 <= i < |ds| ==> r[i] == ds[i].distance
  {
    seq(|ds|, i requires 0 <= i < |ds| => ds[i].distance)
  }

  function Xs(ds: seq<ApDistance>): (r: seq<real>)
    ensures |r| == |ds| && forall i :: 0 <= i < |ds| ==> r[i] == ds[i].ap.x
  {
    seq(|ds|, i requires 0 <= i < |ds| => ds[i].ap.x)
  }

  function Ys(ds: seq<ApDistance>): (r: seq<real>)
    ensures |r| == |ds| && forall i :: 0 <= i < |ds| ==> r[i] == ds[i].ap.y
  {
    seq(|ds|, i requires 0 <= i < |ds| => ds[i].ap.y)
  }

  /** The fallback: the mean anchor position, confidence 0.3, and half the
      mean range as error radius. */
  function Centroid(ds: seq<ApDistance>): LocationEstimate
    requires |ds| >= 1
  {
    LocationEstimate(Mean(Xs(ds)), Mean(Ys(ds)), 0.3, |ds|, Mean(Distances(ds)) * 0.5)
  }

  /** `|sqrt((x - xi)^2 + (y - yi)^2) - di|`: how far the solution is from
      the circle of one anchor. */
  function Residual(m: RealMath, x: real, y: real, d: ApDistance): (r: real)
    requires m.Lawful()
    ensures r >= 0.0
  {
    SumOfSquaresZero(x - d.ap.x, y - d.ap.y);
    Abs(m.sqrt(DistSq(x, y, d.ap)) - d.distance)
  }

  function Residuals(m: RealMath, x: real, y: real, ds: seq<ApDistance>): (r: seq<real>)
    requires m.Lawful()
    ensures |r| == |ds| && forall i :: 0 <= i < |ds| ==> r[i] == Residual(m, x, y, ds[i])
  {
    seq(|ds|, i requires 0 <= i < |ds| => Residual(m, x, y, ds[i]))
  }

  /** `max(0.1, 1.0 - avg_error / max_dist)`: the confidence of a solved
      system. */
  function SolvedConfidence(avgError: real, maxDist: real): real
    requires maxDist != 0.0
  {
    Max(0.1, 1.0 - avgError / maxDist)
  }

  /** `_trilaterate_multiap`. The centroid is returned when the normal
      equations are singular, and also when the largest range is zero: the
      division `avg_error / max_dist` then raises ZeroDivisionError, which
      the same `except` clause catches. */
  function MultiApEstimate(m: RealMath, ds: seq<ApDistance>): (r: LocationEstimate)
    requires m.Lawful() && |ds| >= 1
    ensures r.numAps == |ds|
    ensures r.confidence >= 0.1
    ensures Singular(Normal(LinearRows(ds))) ==> r == Centroid(ds)
  {
    var n := Normal(LinearRows(ds));
    if Singular(n) then Centroid(ds)
    else
      var sol := Solution(n);
      var x, y := sol.0, sol.1;
      var avgError := Mean(Residuals(m, x, y, ds));
      var maxDist := MaxOf(Distances(ds));
      if maxDist == 0.0 then Centroid(ds)
      else LocationEstimate(x, y, SolvedConfidence(avgError, maxDist), |ds|, avgError)
  }

  /*************************************************************************
   * Properties
   *************************************************************************/

  /** With non-negative ranges (as `rssi_to_distance` produces), the
      confidence lies in [0.1, 1] and the error radius is non-negative; when
      the system is solved and the largest range is not zero, the estimate
      reports the mean residual as its error radius and derives its
      confidence from it. */
  lemma MultiApBounds(m: RealMath, ds: seq<ApDistance>)
    requires m.Lawful() && |ds| >= 1
    requires forall i :: 0 <= i < |ds| ==> ds[i].distance >= 0.0
    ensures var r := MultiApEstimate(m, ds);
            0.1 <= r.confidence <= 1.0 && r.errorRadius >= 0.0
    ensures var r := MultiApEstimate(m, ds);
            var n := Normal(LinearRows(ds));
            var maxDist := MaxOf(Distances(ds));
            !Singular(n) && maxDist != 0.0 ==>
              var avgError := Mean(Residuals(m, Solution(n).0, Solution(n).1, ds));
              r.errorRadius == avgError && r.confidence == SolvedConfidence(avgError, maxDist)
  {
    MeanNonNegative(Distances(ds));
    var n := Normal(LinearRows(ds));
    if !Singular(n) {
      var sol := Solution(n);
      var res := Residuals(m, sol.0, sol.1, ds);
      MeanNonNegative(res);
      var maxDist := MaxOf(Distances(ds));
      if maxDist != 0.0 {
        assert maxDist >= ds[0].distance >= 0.0;
        assert Mean(res) / maxDist >= 0.0;
      }
    }
  }

  /** A point at exactly the given ranges from two anchors satisfies the row
      built from them. */
  lemma RowHoldsAtExactPoint(ref: ApDistance, d: ApDistance, px: real, py: real)
    requires ref.distance * ref.distance == DistSq(px, py, ref.ap)
    requires d.distance * d.distance == DistSq(px, py, d.ap)
    ensures RowHolds(RowFor(ref, d), px, py)
  {
  }

  /** `p` solves one row. */
  predicate RowHolds(r: LinearRow, px: real, py: real)
  {
    r.ax * px + r.ay * py == r.rhs
  }

  /** `p` solves the normal equations: `A^T b = (A^T A) p`. */
  predicate SolvesNormal(n: NormalSystem, px: real, py: real)
  {
    n.tx == n.sxx * px + n.sxy * py && n.ty == n.sxy * px + n.syy * py
  }

  /** A point that satisfies every row solves the normal equations. */
  lemma {:induction false} NormalOfConsistentRows(rows: seq<LinearRow>, px: real, py: real)
    requires forall k :: 0 <= k < |rows| ==> RowHolds(rows[k], px, py)
    ensures SolvesNormal(Normal(rows), px, py)
  {
    if rows != [] {
      var init := rows[..|rows| - 1];
      NormalOfConsistentRows(init, px, py);
      NormalStep(Normal(init), rows[|rows| - 1], px, py);
    }
  }

  /** Adding one row that `p` satisfies keeps `p` a solution. */
  lemma NormalStep(n: NormalSystem, r: LinearRow, px: real, py: real)
    requires SolvesNormal(n, px, py) && RowHolds(r, px, py)
    ensures SolvesNormal(AddRow(n, r), px, py)
  {
    assert r.ax * r.rhs == r.ax * r.ax * px + r.ax * r.ay * py;
    assert r.ay * r.rhs == r.ax * r.ay * px + r.ay * r.ay * py;
  }

  /** All-zero coefficient rows give zero normal sums. */
  lemma {:induction false} NormalOfZeroRows(rows: seq<LinearRow>)
    requires forall k :: 0 <= k < |rows| ==> rows[k].ax == 0.0 && rows[k].ay == 0.0
    ensures var n := Normal(rows);
            n.sxx == 0.0 && n.sxy == 0.0 && n.syy == 0.0
  {
    if rows != [] {
      NormalOfZeroRows(rows[..|rows| - 1]);
    }
  }

  /** Cramer's rule recovers a point that solves the normal equations. */
  lemma CramerRecovers(n: NormalSystem, px: real, py: real)
    requires !Singular(n) && SolvesNormal(n, px, py)
    ensures Solution(n).0 == px && Solution(n).1 == py
  {
    var a, b, c := n.sxx, n.sxy, n.syy;
    var det := Determinant(n);
    assert det != 0.0;
    var tx, ty := a * px + b * py, b * px + c * py;
    assert n.tx == tx && n.ty == ty;
    CramerCancel(a, b, c, px, py, det);
    var nx, ny := n.syy * n.tx - n.sxy * n.ty, n.sxx * n.ty - n.sxy * n.tx;
    assert nx == c * tx - b * ty && ny == a * ty - b * tx;
    DivideExact(nx, det, px);
    DivideExact(ny, det, py);
  }

  lemma CramerCancel(a: real, b: real, c: real, px: real, py: real, det: real)
    requires det == a * c - b * b
    ensures c * (a * px + b * py) - b * (b * px + c * py) == px * det
    ensures a * (b * px + c * py) - b * (a * px + b * py) == py * det
  {
  }

  lemma DivideExact(num: real, den: real, v: real)
    requires den != 0.0 && num == v * den
    ensures num / den == v
  {
  }

  /** Every range is the exact distance from its anchor to `p`. */
  predicate ExactRanges(ds: seq<ApDistance>, px: real, py: real)
  {
    forall i :: 0 <= i < |ds| ==>
      ds[i].distance >= 0.0 && ds[i].distance * ds[i].distance == DistSq(px, py, ds[i].ap)
  }

  /** When every range is the exact distance to some point `p` and the
      normal equations are not singular, the solver returns `p` with error
      radius 0 and confidence 1. */
  lemma MultiApExactRanges(m: RealMath, ds: seq<ApDistance>, px: real, py: real)
    requires m.Lawful() && |ds| >= 1 && ExactRanges(ds, px, py)
    requires !Singular(Normal(LinearRows(ds)))
    ensures MultiApEstimate(m, ds) == LocationEstimate(px, py, 1.0, |ds|, 0.0)
  {
    var n := Normal(LinearRows(ds));
    assert Solution(n).0 == px && Solution(n).1 == py by {
      ExactRangesSolveNormal(ds, px, py);
      CramerRecovers(n, px, py);
    }
    assert Mean(Residuals(m, px, py, ds)) == 0.0 by {
      ExactResidualsVanish(m, ds, px, py);
    }
    var maxDist := MaxOf(Distances(ds));
    assert maxDist > 0.0 by {
      ExactRangesNotAllZero(ds, px, py);
    }
    SolvedConfidenceIsOneIff(0.0, maxDist);
    SolvedEstimate(m, ds);
  }

  /** The estimate of a solved system, spelled out. */
  lemma SolvedEstimate(m: RealMath, ds: seq<ApDistance>)
    requires m.Lawful() && |ds| >= 1
    requires !Singular(Normal(LinearRows(ds))) && MaxOf(Distances(ds)) != 0.0
    ensures var sol := Solution(Normal(LinearRows(ds)));
            var avgError := Mean(Residuals(m, sol.0, sol.1, ds));
            MultiApEstimate(m, ds) ==
              LocationEstimate(sol.0, sol.1, SolvedConfidence(avgError, MaxOf(Distances(ds))), |ds|, avgError)
  {
  }

  /** A larger mean residual never raises the confidence. */
  lemma SolvedConfidenceFallsWithError(smaller: real, larger: real, maxDist: real)
    requires maxDist > 0.0 && smaller <= larger
    ensures SolvedConfidence(larger, maxDist) <= SolvedConfidence(smaller, maxDist)
  {
    DivideMonotone(smaller, larger, maxDist);
  }

  /** For a non-negative mean residual and a positive largest range, the
      confidence is 1 exactly when the mean residual is 0. */
  lemma SolvedConfidenceIsOneIff(avgError: real, maxDist: real)
    requires maxDist > 0.0 && avgError >= 0.0
    ensures SolvedConfidence(avgError, maxDist) == 1.0 <==> avgError == 0.0
  {
    if avgError > 0.0 {
      assert avgError / maxDist > 0.0;
    }
  }

  /** A solved estimate has full confidence exactly when the solution lies
      on every anchor's range circle. */
  lemma FullConfidenceIffExactFit(m: RealMath, ds: seq<ApDistance>)
    requires m.Lawful() && |ds| >= 1
    requires forall i :: 0 <= i < |ds| ==> ds[i].distance >= 0.0
    requires !Singular(Normal(LinearRows(ds))) && MaxOf(Distances(ds)) != 0.0
    ensures var sol := Solution(Normal(LinearRows(ds)));
            MultiApEstimate(m, ds).confidence == 1.0 <==>
              forall i :: 0 <= i < |ds| ==> Residual(m, sol.0, sol.1, ds[i]) == 0.0
  {
    var sol := Solution(Normal(LinearRows(ds)));
    var res := Residuals(m, sol.0, sol.1, ds);
    var maxDist := MaxOf(Distances(ds));
    assert maxDist >= Distances(ds)[0] >= 0.0;
    MeanNonNegative(res);
    MeanZeroIff(res);
    SolvedConfidenceIsOneIff(Mean(res), maxDist);
    SolvedEstimate(m, ds);
  }

  lemma ExactRangesSolveNormal(ds: seq<ApDistance>, px: real, py: real)
    requires |ds| >= 1 && ExactRanges(ds, px, py)
    ensures SolvesNormal(Normal(LinearRows(ds)), px, py)
  {
    var rows := LinearRows(ds);
    forall k | 0 <= k < |rows|
      ensures RowHolds(rows[k], px, py)
    {
      RowHoldsAtExactPoint(ds[0], ds[k + 1], px, py);
    }
    NormalOfConsistentRows(rows, px, py);
  }

  lemma ExactResidualsVanish(m: RealMath, ds: seq<ApDistance>, px: real, py: real)
    requires m.Lawful() && |ds| >= 1 && ExactRanges(ds, px, py)
    ensures Mean(Residuals(m, px, py, ds)) == 0.0
  {
    var res := Residuals(m, px, py, ds);
    forall i | 0 <= i < |ds|
      ensures res[i] == 0.0
    {
      var d := ds[i].distance;
      assert DistSq(px, py, ds[i].ap) == d * d;
      SqrtOfSquare(m, d);
      assert res[i] == Abs(m.sqrt(d * d) - d);
    }
    MeanOfZeros(res);
  }

  /** Exact ranges that are all zero put every anchor at `p`; every row then
      has zero coefficients and the normal equations are singular. So a
      solvable system has a positive largest range. */
  lemma ExactRangesNotAllZero(ds: seq<ApDistance>, px: real, py: real)
    requires |ds| >= 1 && ExactRanges(ds, px, py)
    requires !Singular(Normal(LinearRows(ds)))
    ensures MaxOf(Distances(ds)) > 0.0
  {
    var dist := Distances(ds);
    assert MaxOf(dist) >= dist[0] >= 0.0;
    if MaxOf(dist) == 0.0 {
      assert forall i :: 0 <= i < |ds| ==> dist[i] <= 0.0;
      ZeroRangesSingular(ds, px, py);
      assert false;
    }
  }

  /** Exact ranges that are all zero make the normal equations singular. */
  lemma ZeroRangesSingular(ds: seq<ApDistance>, px: real, py: real)
    requires |ds| >= 1 && ExactRanges(ds, px, py)
    requires forall i :: 0 <= i < |ds| ==> Distances(ds)[i] <= 0.0
    ensures Singular(Normal(LinearRows(ds)))
  {
    AnchorsAtPoint(ds, px, py);
    NormalOfZeroRows(LinearRows(ds));
  }

  /** Exact ranges of zero put every anchor at `p`, so no row has a
      non-zero coefficient. */
  lemma AnchorsAtPoint(ds: seq<ApDistance>, px: real, py: real)
    requires |ds| >= 1 && ExactRanges(ds, px, py)
    requires forall i :: 0 <= i < |ds| ==> Distances(ds)[i] <= 0.0
    ensures forall k :: 0 <= k < |ds| - 1 ==> LinearRows(ds)[k].ax == 0.0 && LinearRows(ds)[k].ay == 0.0
  {
    forall i | 0 <= i < |ds|
      ensures ds[i].ap.x == px && ds[i].ap.y == py
    {
      assert Distances(ds)[i] == ds[i].distance == 0.0;
      SumOfSquaresZero(px - ds[i].ap.x, py - ds[i].ap.y);
    }
  }

  /** When every range is measured from the same anchor, every row of the
      system vanishes and the solver falls back to the centroid, which is
      that anchor's position. */
  lemma SameAnchorGivesCentroid(m: RealMath, ds: seq<ApDistance>, ap: APCoordinates)
    requires m.Lawful() && |ds| >= 1
    requires forall i :: 0 <= i < |ds| ==> ds[i].ap == ap
    ensures var r := MultiApEstimate(m, ds);
            r == Centroid(ds) && r.x == ap.x && r.y == ap.y && r.confidence == 0.3
  {
    SameAnchorSingular(ds, ap);
    CentroidOfSameAnchor(ds, ap);
  }

  lemma CentroidOfSameAnchor(ds: seq<ApDistance>, ap: APCoordinates)
    requires |ds| >= 1
    requires forall i :: 0 <= i < |ds| ==> ds[i].ap == ap
    ensures Centroid(ds).x == ap.x && Centroid(ds).y == ap.y
  {
    MeanOfConstant(Xs(ds), ap.x);
    MeanOfConstant(Ys(ds), ap.y);
  }

  lemma SameAnchorSingular(ds: seq<ApDistance>, ap: APCoordinates)
    requires |ds| >= 1
    requires forall i :: 0 <= i < |ds| ==> ds[i].ap == ap
    ensures Singular(Normal(LinearRows(ds)))
  {
    var rows := LinearRows(ds);
    assert forall k :: 0 <= k < |rows| ==> rows[k].ax == 0.0 && rows[k].ay == 0.0;
    NormalOfZeroRows(rows);
  }

  /** Every anchor lies on the line through the reference anchor with
      direction `(ux, uy)`. */
  predicate OnLine(ds: seq<ApDistance>, ux: real, uy: real)
    requires |ds| >= 1
  {
    forall i :: 0 <= i < |ds| ==> (ds[i].ap.x - ds[0].ap.x) * uy == (ds[i].ap.y - ds[0].ap.y) * ux
  }

  /** Collinear anchors (three or more readings from anchors on one line)
      make every row a multiple of one vector: the determinant is exactly
      zero, and the solver falls back to the centroid with confidence 0.3. */
  lemma CollinearAnchorsGiveCentroid(m: RealMath, ds: seq<ApDistance>, ux: real, uy: real)
    requires m.Lawful() && |ds| >= 1
    requires (ux != 0.0 || uy != 0.0) && OnLine(ds, ux, uy)
    ensures Determinant(Normal(LinearRows(ds))) == 0.0
    ensures MultiApEstimate(m, ds) == Centroid(ds) && MultiApEstimate(m, ds).confidence == 0.3
  {
    CollinearAnchorsSingular(ds, ux, uy);
  }

  lemma CollinearAnchorsSingular(ds: seq<ApDistance>, ux: real, uy: real)
    requires |ds| >= 1
    requires (ux != 0.0 || uy != 0.0) && OnLine(ds, ux, uy)
    ensures Determinant(Normal(LinearRows(ds))) == 0.0
  {
    if ux != 0.0 {
      SlopedLineSingular(ds, ux, uy);
    } else {
      VerticalLineSingular(ds, uy);
    }
  }

  lemma SlopedLineSingular(ds: seq<ApDistance>, ux: real, uy: real)
    requires |ds| >= 1 && ux != 0.0 && OnLine(ds, ux, uy)
    ensures Determinant(Normal(LinearRows(ds))) == 0.0
  {
    ProportionalRows(ds, ux, uy);
    ProportionalRowsSingular(LinearRows(ds), uy / ux);
  }

  lemma ProportionalRowsSingular(rows: seq<LinearRow>, k: real)
    requires forall j :: 0 <= j < |rows| ==> rows[j].ay == k * rows[j].ax
    ensures Determinant(Normal(rows)) == 0.0
  {
    NormalOfProportionalRows(rows, k);
    ProportionalSystemSingular(Normal(rows), k);
  }

  /** The sums of a system built from rows with `ay == k ax`. */
  predicate Proportional(n: NormalSystem, k: real)
  {
    n.sxy == k * n.sxx && n.syy == k * n.sxy
  }

  lemma ProportionalSystemSingular(n: NormalSystem, k: real)
    requires Proportional(n, k)
    ensures Determinant(n) == 0.0
  {
    ProportionalDeterminant(n.sxx, k, n.sxy, n.syy);
  }

  lemma VerticalLineSingular(ds: seq<ApDistance>, uy: real)
    requires |ds| >= 1 && uy != 0.0 && OnLine(ds, 0.0, uy)
    ensures Determinant(Normal(LinearRows(ds))) == 0.0
  {
    VerticalRows(ds, uy);
    NormalOfVerticalRows(LinearRows(ds));
  }

  /** Anchors on a line that is not vertical give rows with `ay == k ax`. */
  lemma ProportionalRows(ds: seq<ApDistance>, ux: real, uy: real)
    requires |ds| >= 1 && ux != 0.0 && OnLine(ds, ux, uy)
    ensures forall j :: 0 <= j < |ds| - 1 ==> LinearRows(ds)[j].ay == (uy / ux) * LinearRows(ds)[j].ax
  {
    forall j | 0 <= j < |ds| - 1
      ensures LinearRows(ds)[j].ay == (uy / ux) * LinearRows(ds)[j].ax
    {
      ProportionalRow(ds[0].ap, ds[j + 1].ap, ux, uy);
    }
  }

  /** Anchors on a vertical line give rows with no x-coefficient. */
  lemma VerticalRows(ds: seq<ApDistance>, uy: real)
    requires |ds| >= 1 && uy != 0.0 && OnLine(ds, 0.0, uy)
    ensures forall j :: 0 <= j < |ds| - 1 ==> LinearRows(ds)[j].ax == 0.0
  {
    forall j | 0 <= j < |ds| - 1
      ensures LinearRows(ds)[j].ax == 0.0
    {
      assert (ds[j + 1].ap.x - ds[0].ap.x) * uy == 0.0;
    }
  }

  /** An anchor on the line through `a` with direction `(ux, uy)`, `ux`
      non-zero, has a row whose y-coefficient is `uy / ux` times its
      x-coefficient. */
  lemma ProportionalRow(a: APCoordinates, b: APCoordinates, ux: real, uy: real)
    requires ux != 0.0 && (b.x - a.x) * uy == (b.y - a.y) * ux
    ensures 2.0 * (b.y - a.y) == (uy / ux) * (2.0 * (b.x - a.x))
  {
    var dx, dy := b.x - a.x, b.y - a.y;
    assert dy == dx * uy / ux;
  }

  /** Rows with `ay == k ax` give `sxy == k sxx` and `syy == k sxy`. */
  lemma {:induction false} NormalOfProportionalRows(rows: seq<LinearRow>, k: real)
    requires forall j :: 0 <= j < |rows| ==> rows[j].ay == k * rows[j].ax
    ensures Proportional(Normal(rows), k)
  {
    if rows != [] {
      var init := rows[..|rows| - 1];
      NormalOfProportionalRows(init, k);
      AddProportionalRow(Normal(init), rows[|rows| - 1], k);
    }
  }

  lemma AddProportionalRow(n: NormalSystem, r: LinearRow, k: real)
    requires Proportional(n, k) && r.ay == k * r.ax
    ensures Proportional(AddRow(n, r), k)
  {
    ProportionalStep(n.sxx, n.sxy, n.syy, r.ax, r.ay, k);
  }

  lemma ProportionalStep(sxx: real, sxy: real, syy: real, ax: real, ay: real, k: real)
    requires sxy == k * sxx && syy == k * sxy && ay == k * ax
    ensures sxy + ax * ay == k * (sxx + ax * ax)
    ensures syy + ay * ay == k * (sxy + ax * ay)
  {
  }

  /** Rows with no x-coefficient give `sxx == sxy == 0`. */
  lemma {:induction false} NormalOfVerticalRows(rows: seq<LinearRow>)
    requires forall j :: 0 <= j < |rows| ==> rows[j].ax == 0.0
    ensures Normal(rows).sxx == 0.0 && Normal(rows).sxy == 0.0
  {
    if rows != [] {
      NormalOfVerticalRows(rows[..|rows| - 1]);
    }
  }

  lemma ProportionalDeterminant(a: real, k: real, b: real, c: real)
    requires b == k * a && c == k * b
    ensures a * c - b * b == 0.0
  {
  }
}
