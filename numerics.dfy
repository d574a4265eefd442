/** Real-number helpers shared by the position-estimation model.

    Floating-point numbers are modelled as `real`. The transcendental
    operations the engine calls (square root, base-10 logarithm and ten to
    a power) are not definable here, so they travel as an uninterpreted
    `RealMath` record whose only known properties are those of `Lawful()`. */
module Numerics {

  /** `sqrt` and `log10` are partial: Python raises ValueError outside their
      domain, so every call must first prove the argument is in range. */
  datatype RealMath = RealMath(sqrt: real --> real, log10: real --> real, pow10: real -> real)
  {
    /** The only facts the model assumes about the three operations. */
    ghost predicate Lawful()
    {
      && (forall x :: x >= 0.0 ==> sqrt.requires(x) && sqrt(x) >= 0.0 && sqrt(x) * sqrt(x) == x)
      && (forall x :: x > 0.0 ==> log10.requires(x))
      && (forall x :: pow10(x) > 0.0)
      && (forall x, y :: x <= y ==> pow10(x) <= pow10(y))
      && pow10(0.0) == 1.0
    }
  }

  function Max(a: real, b: real): (r: real)
    ensures r >= a && r >= b && (r == a || r == b)
  {
    if a >= b then a else b
  }

  function Min(a: real, b: real): (r: real)
    ensures r <= a && r <= b && (r == a || r == b)
  {
    if a <= b then a else b
  }

  function Abs(a: real): (r: real)
    ensures r >= 0.0 && (r == a || r == -a)
  {
    if a >= 0.0 then a else -a
  }

  /** `max(lo, min(hi, v))`, the clamp idiom of the source. */
  function Clamp(lo: real, hi: real, v: real): (r: real)
    requires lo <= hi
    ensures lo <= r <= hi
    ensures lo <= v <= hi ==> r == v
  {
    Max(lo, Min(hi, v))
  }

  function Square(a: real): real
  {
    a * a
  }

  /** Sum of a sequence, peeled from the end so that loops over prefixes can use it. */
  function Sum(s: seq<real>): real
  {
    if s == [] then 0.0 else Sum(s[..|s| - 1]) + s[|s| - 1]
  }

  /** `statistics.mean`: exact on reals. */
  function Mean(s: seq<real>): real
    requires |s| > 0
  {
    Sum(s) / (|s| as real)
  }

  /** `max(...)` over a non-empty sequence. */
  function MaxOf(s: seq<real>): (r: real)
    requires |s| > 0
    ensures forall i :: 0 <= i < |s| ==> s[i] <= r
    ensures exists i :: 0 <= i < |s| && s[i] == r
  {
    if |s| == 1 then s[0]
    else
      var m := MaxOf(s[..|s| - 1]);
      assert forall i :: 0 <= i < |s| - 1 ==> s[..|s| - 1][i] == s[i];
      Max(m, s[|s| - 1])
  }

  lemma {:induction false} SumNonNegative(s: seq<real>)
    requires forall i :: 0 <= i < |s| ==> s[i] >= 0.0
    ensures Sum(s) >= 0.0
  {
    if s != [] {
      SumNonNegative(s[..|s| - 1]);
    }
  }

  lemma {:induction false} SumOfZeros(s: seq<real>)
    requires forall i :: 0 <= i < |s| ==> s[i] == 0.0
    ensures Sum(s) == 0.0
  {
    if s != [] {
      SumOfZeros(s[..|s| - 1]);
    }
  }

  lemma {:induction false} SumOfConstant(s: seq<real>, c: real)
    requires forall i :: 0 <= i < |s| ==> s[i] == c
    ensures Sum(s) == (|s| as real) * c
  {
    if s != [] {
      SumOfConstant(s[..|s| - 1], c);
    }
  }

  /** The mean of a constant sequence is that constant. */
  lemma MeanOfConstant(s: seq<real>, c: real)
    requires |s| > 0
    requires forall i :: 0 <= i < |s| ==> s[i] == c
    ensures Mean(s) == c
  {
    SumOfConstant(s, c);
  }

  lemma MeanNonNegative(s: seq<real>)
    requires |s| > 0
    requires forall i :: 0 <= i < |s| ==> s[i] >= 0.0
    ensures Mean(s) >= 0.0
  {
    SumNonNegative(s);
  }

  lemma MeanOfZeros(s: seq<real>)
    requires |s| > 0
    requires forall i :: 0 <= i < |s| ==> s[i] == 0.0
    ensures Mean(s) == 0.0
  {
    SumOfZeros(s);
  }

  /** A non-negative term is at most the sum. */
  lemma {:induction false} TermAtMostSum(s: seq<real>, i: int)
    requires forall k :: 0 <= k < |s| ==> s[k] >= 0.0
    requires 0 <= i < |s|
    ensures s[i] <= Sum(s)
  {
    var init := s[..|s| - 1];
    SumNonNegative(init);
    if i < |s| - 1 {
      assert init[i] == s[i];
      TermAtMostSum(init, i);
    }
  }

  /** The mean of non-negative values is zero exactly when every value is. */
  lemma MeanZeroIff(s: seq<real>)
    requires |s| > 0
    requires forall i :: 0 <= i < |s| ==> s[i] >= 0.0
    ensures Mean(s) == 0.0 <==> forall i :: 0 <= i < |s| ==> s[i] == 0.0
  {
    if Mean(s) == 0.0 {
      assert Sum(s) == 0.0;
      forall i | 0 <= i < |s|
        ensures s[i] == 0.0
      {
        TermAtMostSum(s, i);
      }
    } else if forall i :: 0 <= i < |s| ==> s[i] == 0.0 {
      MeanOfZeros(s);
    }
  }

  lemma MulPositive(a: real, b: real)
    requires a > 0.0 && b > 0.0
    ensures a * b > 0.0
  {
  }

  /** Stated with the square in a separate variable: the solver loses strict
      facts about a bare `a * a`. */
  lemma PositiveSquare(a: real, y: real)
    requires a > 0.0 && y == a * a
    ensures y > 0.0
  {
    assert y / a == a;
  }

  lemma SquareZero(a: real)
    ensures a * a == 0.0 ==> a == 0.0
  {
    if a > 0.0 {
      PositiveSquare(a, a * a);
    } else if a < 0.0 {
      PositiveSquare(-a, a * a);
    }
  }

  /** A sum of two squares vanishes only when both terms do. */
  lemma SumOfSquaresZero(a: real, b: real)
    ensures a * a + b * b >= 0.0
    ensures a * a + b * b == 0.0 <==> a == 0.0 && b == 0.0
  {
    SquareZero(a);
    SquareZero(b);
  }

  /** The non-negative square root is unique: sqrt(d*d) == d for d >= 0. */
  lemma SqrtOfSquare(m: RealMath, d: real)
    requires m.Lawful() && d >= 0.0
    ensures m.sqrt(d * d) == d
  {
    var r := m.sqrt(d * d);
    assert r >= 0.0 && r * r == d * d;
    assert r * r - d * d == (r - d) * (r + d);
    if r > d {
      MulPositive(r - d, r + d);
    } else if r < d {
      MulPositive(d - r, d + r);
    }
  }

  /** A square root is zero exactly when its argument is. */
  lemma SqrtZeroIff(m: RealMath, s: real)
    requires m.Lawful() && s >= 0.0
    ensures m.sqrt(s) == 0.0 <==> s == 0.0
  {
    var r := m.sqrt(s);
    assert r * r == s;
    SquareZero(r);
  }
}
