/** The deterministic statistics of the analysis script: the "highest
    density interval" (an equal-tailed interval on the sorted draws) and
    the Akaike Information Criterion over a log-likelihood sample matrix. */
module Analysis {
  import opened Builtins

  // ---------------------------------------------------------------------
  // hdi
  // ---------------------------------------------------------------------

  /** The width hdi uses when its caller gives none. */
  const DefaultWidth: real := 0.5

  /** (1 - w)/2 * n: where the lower bound is cut, before int(). */
  function LeftPoint(size: nat, width: real): real
  {
    (1.0 - width) / 2.0 * size as real
  }

  /** (w + (1 - w)/2) * n: where the upper bound is cut, before int(). */
  function RightPoint(size: nat, width: real): real
  {
    (width + (1.0 - width) / 2.0) * size as real
  }

  /** left = int((1 - w)/2 * n). */
  function LeftIndex(size: nat, width: real): int
  {
    Trunc(LeftPoint(size, width))
  }

  /** right = int((w + (1 - w)/2) * n). */
  function RightIndex(size: nat, width: real): int
  {
    Trunc(RightPoint(size, width))
  }

  /** hdi(vector, width): sort a copy of the draws, trim a fixed share
      (1 - width)/2 of them from each tail and return the two draws found
      at the cut points. Reading the sorted list out of range raises
      IndexError; a negative position counts from the end as in Python. */
  function Hdi(vector: seq<real>, width: real): (r: Result<(real, real)>)
    ensures r.Ok? ==> r.value.0 in vector && r.value.1 in vector
  {
    var x := Sort(vector);
    var size := |vector|;
    var left := LeftIndex(size, width);
    var right := RightIndex(size, width);
    assert forall y :: y in x ==> y in vector by {
      forall y | y in x ensures y in vector {
        assert y in multiset(x);
      }
    }
    match Subscript(x, left)
    case Err(e) => Err(e)
    case Ok(lower) =>
      match Subscript(x, right)
      case Err(e) => Err(e)
      case Ok(upper) => Ok((lower, upper))
  }

  /** Multiplying by a non-negative count keeps the order of the factors. */
  lemma MultiplyMonotone(p: real, q: real, n: real)
    requires p <= q && 0.0 <= n
    ensures p * n <= q * n
  {
  }

  /** Scaling a positive count by a factor strictly between 0 and 1. */
  lemma ScaleInside(p: real, n: real)
    requires 0.0 < p < 1.0 && 0.0 < n
    ensures 0.0 < p * n < n
  {
  }

  /** Scaling a count by a factor of at least 1. */
  lemma ScaleAtLeast(p: real, n: real)
    requires 1.0 <= p && 0.0 <= n
    ensures n <= p * n
  {
  }

  /** Inside -1 < width < 1 both cut points fall strictly inside (0, n). */
  lemma PointsInside(size: nat, width: real)
    requires size > 0 && -1.0 < width < 1.0
    ensures 0.0 < LeftPoint(size, width) < size as real
    ensures 0.0 < RightPoint(size, width) < size as real
  {
    ScaleInside((1.0 - width) / 2.0, size as real);
    ScaleInside(width + (1.0 - width) / 2.0, size as real);
  }

  /** At width -1 or below the lower cut point is at n or beyond; at width 1
      or above the upper one is. */
  lemma PointsOutside(size: nat, width: real)
    ensures width <= -1.0 ==> size as real <= LeftPoint(size, width)
    ensures 1.0 <= width ==> size as real <= RightPoint(size, width)
  {
    if width <= -1.0 {
      ScaleAtLeast((1.0 - width) / 2.0, size as real);
    }
    if 1.0 <= width {
      ScaleAtLeast(width + (1.0 - width) / 2.0, size as real);
    }
  }

  /** The cut points are in order for a non-negative width and cross for a
      negative one. */
  lemma PointsOrder(size: nat, width: real)
    ensures 0.0 <= width ==> LeftPoint(size, width) <= RightPoint(size, width)
    ensures width <= 0.0 ==> RightPoint(size, width) <= LeftPoint(size, width)
  {
    if 0.0 <= width {
      MultiplyMonotone((1.0 - width) / 2.0, width + (1.0 - width) / 2.0, size as real);
    }
    if width <= 0.0 {
      MultiplyMonotone(width + (1.0 - width) / 2.0, (1.0 - width) / 2.0, size as real);
    }
  }

  /** A larger width moves the lower cut point down and the upper one up. */
  lemma PointsMonotone(size: nat, w1: real, w2: real)
    requires w1 <= w2
    ensures LeftPoint(size, w2) <= LeftPoint(size, w1)
    ensures RightPoint(size, w1) <= RightPoint(size, w2)
  {
    MultiplyMonotone((1.0 - w2) / 2.0, (1.0 - w1) / 2.0, size as real);
    MultiplyMonotone(w1 + (1.0 - w1) / 2.0, w2 + (1.0 - w2) / 2.0, size as real);
  }

  /** For a non-empty vector and 0 <= width < 1 both cut points are valid
      positions of the sorted copy, the lower one not after the upper one;
      at width 1 the upper cut point is one past the end. */
  lemma IndexBounds(size: nat, width: real)
    requires size > 0
    ensures 0.0 <= width < 1.0 ==>
      0 <= LeftIndex(size, width) <= RightIndex(size, width) < size
    ensures width == 1.0 ==> RightIndex(size, width) == size
  {
    if 0.0 <= width < 1.0 {
      PointsInside(size, width);
      PointsOrder(size, width);
      TruncMonotone(LeftPoint(size, width), RightPoint(size, width));
    }
    if width == 1.0 {
      assert RightPoint(size, width) == size as real;
    }
  }

  /** Both cut points are valid Python subscripts of a list of the given
      size exactly when the size is positive and -1 < width < 1. */
  lemma CutPointsValidIff(size: nat, width: real)
    ensures (-(size as int) <= LeftIndex(size, width) < size && -(size as int) <= RightIndex(size, width) < size)
        <==> size > 0 && -1.0 < width < 1.0
  {
    if size > 0 {
      if -1.0 < width < 1.0 {
        PointsInside(size, width);
      } else {
        PointsOutside(size, width);
      }
    }
  }

  /** hdi returns an interval exactly when the vector is non-empty and
      -1 < width < 1; every other call raises IndexError. */
  lemma HdiDefinedIff(vector: seq<real>, width: real)
    ensures Hdi(vector, width).Ok? <==> |vector| > 0 && -1.0 < width < 1.0
    ensures Hdi(vector, width).Err? ==> Hdi(vector, width).error == IndexError
  {
    CutPointsValidIff(|vector|, width);
  }

  /** With a non-negative width the lower bound does not exceed the upper. */
  lemma HdiOrdered(vector: seq<real>, width: real)
    requires 0.0 <= width
    requires Hdi(vector, width).Ok?
    ensures Hdi(vector, width).value.0 <= Hdi(vector, width).value.1
  {
    HdiDefinedIff(vector, width);
    IndexBounds(|vector|, width);
    HdiAt(vector, width);
  }

  /** Below width 0 the cut points cross: -1 < width < 0 gives an
      interval whose lower bound is not below its upper bound. */
  lemma HdiNegativeWidthInverted(vector: seq<real>, width: real)
    requires width < 0.0
    requires Hdi(vector, width).Ok?
    ensures RightIndex(|vector|, width) <= LeftIndex(|vector|, width)
    ensures Hdi(vector, width).value.1 <= Hdi(vector, width).value.0
  {
    HdiDefinedIff(vector, width);
    HdiAt(vector, width);
    PointsOrder(|vector|, width);
    TruncMonotone(RightPoint(|vector|, width), LeftPoint(|vector|, width));
  }

  /** Inside -1 < width < 1 both cut points are positions of the sorted
      copy, and hdi reads its bounds there. */
  lemma HdiAt(vector: seq<real>, width: real)
    requires |vector| > 0 && -1.0 < width < 1.0
    ensures 0 <= LeftIndex(|vector|, width) < |vector|
    ensures 0 <= RightIndex(|vector|, width) < |vector|
    ensures Hdi(vector, width) == Ok((Sort(vector)[LeftIndex(|vector|, width)],
                                      Sort(vector)[RightIndex(|vector|, width)]))
  {
    CutPointsInside(|vector|, width);
  }

  lemma CutPointsInside(size: nat, width: real)
    requires size > 0 && -1.0 < width < 1.0
    ensures 0 <= LeftIndex(size, width) < size
    ensures 0 <= RightIndex(size, width) < size
  {
    PointsInside(size, width);
  }

  /** As width grows the lower cut point does not move right and the upper
      one does not move left. */
  lemma IndexMonotone(size: nat, w1: real, w2: real)
    requires w1 <= w2
    ensures LeftIndex(size, w2) <= LeftIndex(size, w1)
    ensures RightIndex(size, w1) <= RightIndex(size, w2)
  {
    PointsMonotone(size, w1, w2);
    TruncMonotone(LeftPoint(size, w2), LeftPoint(size, w1));
    TruncMonotone(RightPoint(size, w1), RightPoint(size, w2));
  }

  /** A wider interval contains a narrower one: the lower cut point does not
      move right and the upper one does not move left as width grows. */
  lemma HdiNested(vector: seq<real>, w1: real, w2: real)
    requires w1 <= w2
    requires Hdi(vector, w1).Ok? && Hdi(vector, w2).Ok?
    ensures Hdi(vector, w2).value.0 <= Hdi(vector, w1).value.0
    ensures Hdi(vector, w1).value.1 <= Hdi(vector, w2).value.1
  {
    HdiDefinedIff(vector, w1);
    HdiDefinedIff(vector, w2);
    HdiAt(vector, w1);
    HdiAt(vector, w2);
    IndexMonotone(|vector|, w1, w2);
    var x := Sort(vector);
    assert x[LeftIndex(|vector|, w2)] <= x[LeftIndex(|vector|, w1)];
    assert x[RightIndex(|vector|, w1)] <= x[RightIndex(|vector|, w2)];
  }

  /** hdi depends only on the multiset of draws, not on their order. */
  lemma HdiPermutationInvariant(u: seq<real>, v: seq<real>, width: real)
    requires multiset(u) == multiset(v)
    ensures Hdi(u, width) == Hdi(v, width)
  {
    SortPermutationInvariant(u, v);
    assert |u| == |multiset(u)| == |multiset(v)| == |v|;
  }

  /** Close enough to width 1 that fewer than one draw is trimmed from each
      tail, hdi returns the smallest and the largest draw. */
  lemma HdiNearOne(vector: seq<real>, width: real)
    requires |vector| > 0 && 0.0 <= width < 1.0
    requires (1.0 - width) * |vector| as real < 2.0
    ensures Hdi(vector, width) == Ok((Sort(vector)[0], Sort(vector)[|vector| - 1]))
  {
    HdiAt(vector, width);
    assert LeftPoint(|vector|, width) < 1.0;
    assert RightPoint(|vector|, width) >= |vector| as real - 1.0;
  }

  /** hdi([1, 2, ..., 10], 0.5) cuts at positions 2 and 7 and returns (3, 8). */
  lemma HdiExample()
    ensures Hdi(seq(10, i => (i + 1) as real), 0.5) == Ok((3.0, 8.0))
  {
    var v := seq(10, i => (i + 1) as real);
    assert Sorted(v);
    SortOfSorted(v);
    assert LeftPoint(10, 0.5) == 2.5;
    assert RightPoint(10, 0.5) == 7.5;
    assert Trunc(2.5) == 2;
    assert Trunc(7.5) == 7;
    HdiAt(v, 0.5);
  }

  // ---------------------------------------------------------------------
  // AIC
  // ---------------------------------------------------------------------

  /** A two-dimensional NumPy array: one row per posterior draw, cols
      columns (one per observation). */
  datatype Matrix = Matrix(rows: seq<seq<real>>, cols: nat)
  {
    ghost predicate Rectangular()
    {
      forall i :: 0 <= i < |rows| ==> |rows[i]| == cols
    }
  }

  /** Column j: the draws of one observation's log-likelihood. */
  function Column(m: Matrix, j: nat): (c: seq<real>)
    requires m.Rectangular() && j < m.cols
    ensures |c| == |m.rows|
    ensures forall i :: 0 <= i < |m.rows| ==> c[i] == m.rows[i][j]
  {
    seq(|m.rows|, i requires 0 <= i < |m.rows| => m.rows[i][j])
  }

  function Columns(m: Matrix): (cs: seq<seq<real>>)
    requires m.Rectangular()
    ensures |cs| == m.cols
    ensures forall j :: 0 <= j < m.cols ==> cs[j] == Column(m, j)
  {
    seq(m.cols, j requires 0 <= j < m.cols => Column(m, j))
  }

  /** numpy.apply_along_axis(numpy.mean, 0, ...) over a list of columns. */
  function Means(cs: seq<seq<real>>): (r: seq<real>)
    requires forall k :: 0 <= k < |cs| ==> |cs[k]| > 0
    ensures |r| == |cs|
    ensures forall k :: 0 <= k < |cs| ==> r[k] == Mean(cs[k])
  {
    seq(|cs|, k requires 0 <= k < |cs| => Mean(cs[k]))
  }

  /** LL: the sum over observations of the mean over draws. */
  function LogLikelihood(m: Matrix): real
    requires m.Rectangular() && |m.rows| > 0
  {
    Sum(Means(Columns(m)))
  }

  /** AIC(samples) = -2 (LL - k), with k the mean of n_params. With no
      columns numpy.apply_along_axis raises ValueError; with no draws, or
      no n_params values, a mean of an empty array makes the result NaN. */
  function Aic(logLik: Matrix, nParams: seq<real>): (r: Result<Number>)
    requires logLik.Rectangular()
    ensures r.Err? <==> logLik.cols == 0
    ensures r.Err? ==> r.error == ValueError
    ensures r.Ok? && r.value.Finite? <==> logLik.cols > 0 && |logLik.rows| > 0 && |nParams| > 0
  {
    if logLik.cols == 0 then Err(ValueError)
    else if |logLik.rows| == 0 || |nParams| == 0 then Ok(NaN)
    else Ok(Finite(-2.0 * (LogLikelihood(logLik) - Mean(nParams))))
  }

  /** Row sums: the total log-likelihood of each draw. */
  function RowSums(m: Matrix): (r: seq<real>)
    ensures |r| == |m.rows|
    ensures forall i :: 0 <= i < |m.rows| ==> r[i] == Sum(m.rows[i])
  {
    seq(|m.rows|, i requires 0 <= i < |m.rows| => Sum(m.rows[i]))
  }

  lemma {:induction false} SumPointwise(s: seq<real>, t: seq<real>, u: seq<real>)
    requires |s| == |t| == |u|
    requires forall k :: 0 <= k < |s| ==> s[k] == t[k] + u[k]
    ensures Sum(s) == Sum(t) + Sum(u)
  {
    if s != [] {
      var n := |s| - 1;
      SumPointwise(s[..n], t[..n], u[..n]);
    }
  }

  lemma {:induction false} SumScaled(s: seq<real>, t: seq<real>, d: real)
    requires d > 0.0
    requires |s| == |t|
    requires forall k :: 0 <= k < |s| ==> s[k] == t[k] / d
    ensures Sum(s) == Sum(t) / d
  {
    if s != [] {
      var n := |s| - 1;
      SumScaled(s[..n], t[..n], d);
    }
  }

  /** Column totals: the total over draws of each observation's entry. */
  function ColumnSums(m: Matrix): (r: seq<real>)
    requires m.Rectangular()
    ensures |r| == m.cols
    ensures forall j :: 0 <= j < m.cols ==> r[j] == Sum(Column(m, j))
  {
    seq(m.cols, j requires 0 <= j < m.cols => Sum(Column(m, j)))
  }

  /** Dropping the last draw removes its entry from each column total. */
  lemma ColumnSumDropLast(m: Matrix, j: nat)
    requires m.Rectangular() && |m.rows| > 0 && j < m.cols
    ensures Matrix(m.rows[..|m.rows| - 1], m.cols).Rectangular()
    ensures Sum(Column(m, j))
         == Sum(Column(Matrix(m.rows[..|m.rows| - 1], m.cols), j)) + m.rows[|m.rows| - 1][j]
  {
    var c := Column(m, j);
    assert c[..|c| - 1] == Column(Matrix(m.rows[..|m.rows| - 1], m.cols), j);
  }

  /** Summing a matrix by columns or by rows gives the same total. */
  lemma {:induction false} SumExchange(m: Matrix)
    requires m.Rectangular()
    ensures Sum(ColumnSums(m)) == Sum(RowSums(m))
    decreases |m.rows|
  {
    if |m.rows| == 0 {
      SumConstant(ColumnSums(m), 0.0);
    } else {
      var n := |m.rows| - 1;
      var m' := Matrix(m.rows[..n], m.cols);
      SumExchange(m');
      forall j | 0 <= j < m.cols
        ensures ColumnSums(m)[j] == ColumnSums(m')[j] + m.rows[n][j]
      {
        ColumnSumDropLast(m, j);
      }
      SumPointwise(ColumnSums(m), ColumnSums(m'), m.rows[n]);
      assert RowSums(m)[..n] == RowSums(m');
    }
  }

  /** LL equals the total of all log-likelihood entries divided by the
      number of draws: an order-free reading of "sum of column means". */
  lemma LogLikelihoodIsTotalOverDraws(m: Matrix)
    requires m.Rectangular() && |m.rows| > 0
    ensures LogLikelihood(m) == Sum(RowSums(m)) / |m.rows| as real
  {
    SumScaled(Means(Columns(m)), ColumnSums(m), |m.rows| as real);
    SumExchange(m);
  }

  /** The AIC value written without per-column means. */
  lemma AicFromTotal(logLik: Matrix, nParams: seq<real>)
    requires logLik.Rectangular() && logLik.cols > 0 && |logLik.rows| > 0 && |nParams| > 0
    ensures Aic(logLik, nParams) ==
      Ok(Finite(-2.0 * (Sum(RowSums(logLik)) / |logLik.rows| as real - Sum(nParams) / |nParams| as real)))
  {
    LogLikelihoodIsTotalOverDraws(logLik);
  }

  /** When n_params is the same c on every draw, k is c. */
  lemma AicConstantParams(logLik: Matrix, nParams: seq<real>, c: real)
    requires logLik.Rectangular() && logLik.cols > 0 && |logLik.rows| > 0 && |nParams| > 0
    requires forall i :: 0 <= i < |nParams| ==> nParams[i] == c
    ensures Aic(logLik, nParams) == Ok(Finite(-2.0 * (LogLikelihood(logLik) - c)))
  {
    MeanConstant(nParams, c);
  }

  /** Removing one column from a list removes its mean from the sum. */
  lemma SumMeansRemove(cs: seq<seq<real>>, k: nat)
    requires forall i :: 0 <= i < |cs| ==> |cs[i]| > 0
    requires k < |cs|
    ensures Sum(Means(cs)) == Sum(Means(cs[..k] + cs[k + 1..])) + Mean(cs[k])
  {
    var rest := cs[..k] + cs[k + 1..];
    assert Means(cs) == Means(cs[..k]) + [Mean(cs[k])] + Means(cs[k + 1..]);
    assert Means(rest) == Means(cs[..k]) + Means(cs[k + 1..]);
    SumConcat(Means(cs[..k]) + [Mean(cs[k])], Means(cs[k + 1..]));
    SumConcat(Means(cs[..k]), [Mean(cs[k])]);
    SumConcat(Means(cs[..k]), Means(cs[k + 1..]));
  }

  /** Taking element k out of a sequence takes one copy of it out of its
      multiset. */
  lemma MultisetRemove(b: seq<seq<real>>, k: nat)
    requires k < |b|
    ensures multiset(b[..k] + b[k + 1..]) == multiset(b) - multiset{b[k]}
  {
    assert b == b[..k] + [b[k]] + b[k + 1..];
    assert multiset(b) == multiset(b[..k]) + multiset{b[k]} + multiset(b[k + 1..]);
  }

  /** The sum of column means does not depend on the order of the columns. */
  lemma {:induction false} SumMeansPermutation(a: seq<seq<real>>, b: seq<seq<real>>)
    requires forall i :: 0 <= i < |a| ==> |a[i]| > 0
    requires forall i :: 0 <= i < |b| ==> |b[i]| > 0
    requires multiset(a) == multiset(b)
    ensures Sum(Means(a)) == Sum(Means(b))
    decreases |a|
  {
    if a != [] {
      var n := |a| - 1;
      var x := a[n];
      assert x in multiset(b);
      var k :| 0 <= k < |b| && b[k] == x;
      var b' := b[..k] + b[k + 1..];
      MultisetRemove(b, k);
      MultisetRemove(a, n);
      assert a[..n] + a[n + 1..] == a[..n];
      SumMeansPermutation(a[..n], b');
      SumMeansRemove(a, n);
      SumMeansRemove(b, k);
    }
  }

  /** Reordering the observation columns leaves AIC unchanged. */
  lemma AicColumnOrder(m: Matrix, m': Matrix, nParams: seq<real>)
    requires m.Rectangular() && m'.Rectangular()
    requires |m'.rows| == |m.rows|
    requires multiset(Columns(m')) == multiset(Columns(m))
    ensures Aic(m', nParams) == Aic(m, nParams)
  {
    assert m'.cols == |multiset(Columns(m'))| == |multiset(Columns(m))| == m.cols;
    if m.cols > 0 && |m.rows| > 0 && |nParams| > 0 {
      SumMeansPermutation(Columns(m), Columns(m'));
    }
  }

  /** The log-likelihood matrix with entry (i, j) raised by d. */
  function Raise(m: Matrix, i: nat, j: nat, d: real): (m': Matrix)
    requires m.Rectangular() && i < |m.rows| && j < m.cols
    ensures m'.Rectangular() && |m'.rows| == |m.rows| && m'.cols == m.cols
    ensures forall i', j' :: 0 <= i' < |m.rows| && 0 <= j' < m.cols ==>
      m'.rows[i'][j'] == if i' == i && j' == j then m.rows[i][j] + d else m.rows[i'][j']
  {
    Matrix(m.rows[i := m.rows[i][j := m.rows[i][j] + d]], m.cols)
  }

  lemma DivideSum(x: real, y: real, n: real)
    requires n > 0.0
    ensures (x + y) / n == x / n + y / n
  {
  }

  /** Raising one entry by d raises the mean of its column by d / draws and
      leaves every other column mean as it was. */
  lemma RaiseMeans(m: Matrix, i: nat, j: nat, d: real)
    requires m.Rectangular() && i < |m.rows| && j < m.cols
    ensures Means(Columns(Raise(m, i, j, d)))
         == Means(Columns(m))[j := Means(Columns(m))[j] + d / |m.rows| as real]
  {
    var m' := Raise(m, i, j, d);
    var n := |m.rows| as real;
    var c := Column(m, j);
    assert Column(m', j) == c[i := c[i] + d];
    SumUpdate(c, i, d);
    DivideSum(Sum(c), d, n);
    forall k | 0 <= k < m.cols && k != j ensures Column(m', k) == Column(m, k) {
    }
  }

  /** Raising one entry by d raises LL by d / draws. */
  lemma RaiseLogLikelihood(m: Matrix, i: nat, j: nat, d: real)
    requires m.Rectangular() && i < |m.rows| && j < m.cols
    ensures LogLikelihood(Raise(m, i, j, d)) == LogLikelihood(m) + d / |m.rows| as real
  {
    RaiseMeans(m, i, j, d);
    SumUpdate(Means(Columns(m)), j, d / |m.rows| as real);
  }

  /** Raising one log-likelihood entry by d > 0, n_params fixed, lowers AIC
      by exactly 2 d / (number of draws). */
  lemma AicStrictlyDecreasing(m: Matrix, nParams: seq<real>, i: nat, j: nat, d: real)
    requires m.Rectangular() && i < |m.rows| && j < m.cols && |nParams| > 0
    requires d > 0.0
    ensures Aic(Raise(m, i, j, d), nParams).value.value
         == Aic(m, nParams).value.value - 2.0 * (d / |m.rows| as real)
    ensures Aic(Raise(m, i, j, d), nParams).value.value < Aic(m, nParams).value.value
  {
    var n := |m.rows| as real;
    RaiseLogLikelihood(m, i, j, d);
    PositiveQuotient(d, n);
  }

  lemma PositiveQuotient(x: real, n: real)
    requires x > 0.0 && n > 0.0
    ensures x / n > 0.0
  {
  }

  /** A matrix whose every entry is c with n_params constantly q has
      AIC = -2 (cols * c - q). */
  lemma AicConstantSample(m: Matrix, nParams: seq<real>, c: real, q: real)
    requires m.Rectangular() && m.cols > 0 && |m.rows| > 0 && |nParams| > 0
    requires forall i, j :: 0 <= i < |m.rows| && 0 <= j < m.cols ==> m.rows[i][j] == c
    requires forall i :: 0 <= i < |nParams| ==> nParams[i] == q
    ensures Aic(m, nParams) == Ok(Finite(-2.0 * (m.cols as real * c - q)))
  {
    var ms := Means(Columns(m));
    forall j | 0 <= j < m.cols ensures ms[j] == c {
      MeanConstant(Column(m, j), c);
    }
    SumConstant(ms, c);
    assert LogLikelihood(m) == m.cols as real * c;
    MeanConstant(nParams, q);
  }

  /** 1000 draws of 5 observations, every log-likelihood -1 and n_params
      constantly 3: AIC = -2 (5 * -1 - 3) = 16. */
  lemma AicExample()
    ensures Aic(Matrix(seq(1000, _ => seq(5, _ => -1.0)), 5), seq(1000, _ => 3.0)) == Ok(Finite(16.0))
  {
    AicConstantSample(Matrix(seq(1000, _ => seq(5, _ => -1.0)), 5), seq(1000, _ => 3.0), -1.0, 3.0);
  }
}
