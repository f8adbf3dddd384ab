/** Convolution kernels: the named 3x3 catalog and the kernel algebra
    (scale, normalize, custom kernels, kernel-of-kernels convolution). */
module Kernels {
  import opened Errors
  import opened Sums

  /** A grid of weights, `k[row][column]`; rows may differ in length until validated. */
  type Kernel = seq<seq<real>>

  /** `n` rows of `m` weights each. */
  predicate IsRect(k: Kernel, n: nat, m: nat) {
    |k| == n && forall i :: 0 <= i < n ==> |k[i]| == m
  }

  /** Same number of rows, and row by row the same length. */
  predicate SameShape(a: Kernel, b: Kernel) {
    |a| == |b| && forall i :: 0 <= i < |a| ==> |a[i]| == |b[i]|
  }

  /** The weight at (i, j), or 0 outside the kernel. */
  function Weight(k: Kernel, i: int, j: int): real {
    if 0 <= i < |k| && 0 <= j < |k[i]| then k[i][j] else 0.0
  }

  lemma KernelExt(a: Kernel, b: Kernel)
    requires SameShape(a, b)
    requires forall i, j :: 0 <= i < |a| && 0 <= j < |a[i]| ==> a[i][j] == b[i][j]
    ensures a == b
  {
    forall i | 0 <= i < |a|
      ensures a[i] == b[i]
    {
      assert forall j :: 0 <= j < |a[i]| ==> a[i][j] == b[i][j];
    }
  }

  // ---------------------------------------------------------------------------
  // The catalog
  // ---------------------------------------------------------------------------

  datatype KernelType = Default | BoxBlur | GaussianBlur | SobelX | SobelY | Laplacian | Sharpen | Emboss

  /** The fixed 3x3 weights of each named kernel (none of them normalized). */
  function GetKernel(t: KernelType): (k: Kernel)
    ensures IsRect(k, 3, 3)
  {
    match t
    case Default => [[0.0, 0.0, 0.0], [0.0, 1.0, 0.0], [0.0, 0.0, 0.0]]
    case BoxBlur => [[1.0, 1.0, 1.0], [1.0, 1.0, 1.0], [1.0, 1.0, 1.0]]
    case GaussianBlur => [[1.0, 2.0, 1.0], [2.0, 4.0, 2.0], [1.0, 2.0, 1.0]]
    case SobelX => [[-1.0, 0.0, 1.0], [-2.0, 0.0, 2.0], [-1.0, 0.0, 1.0]]
    case SobelY => [[-1.0, -2.0, -1.0], [0.0, 0.0, 0.0], [1.0, 2.0, 1.0]]
    case Laplacian => [[0.0, -1.0, 0.0], [-1.0, 4.0, -1.0], [0.0, -1.0, 0.0]]
    case Sharpen => [[0.0, -1.0, 0.0], [-1.0, 5.0, -1.0], [0.0, -1.0, 0.0]]
    case Emboss => [[-2.0, -1.0, 0.0], [-1.0, 1.0, 1.0], [0.0, 1.0, 2.0]]
  }

  /** The display name of each named kernel; the fallback name "Unknown" is never
      returned, since every enumerator has a case of its own. */
  function ToString(t: KernelType): (s: string)
    ensures |s| > 0 && s != "Unknown"
  {
    match t
    case Default => "Default"
    case BoxBlur => "Box Blur"
    case GaussianBlur => "Gaussian Blur"
    case SobelX => "Sobel X"
    case SobelY => "Sobel Y"
    case Laplacian => "Laplacian"
    case Sharpen => "Sharpen"
    case Emboss => "Emboss"
  }

  /** No two kernels share a display name. */
  lemma ToStringInjective(s: KernelType, t: KernelType)
    ensures ToString(s) == ToString(t) ==> s == t
  {
  }

  /** The identity kernel: weight 1 at the centre, 0 elsewhere. */
  lemma DefaultWeights()
    ensures forall a, b :: 0 <= a < 3 && 0 <= b < 3 ==>
      GetKernel(Default)[a][b] == if a == 1 && b == 1 then 1.0 else 0.0
  {
  }

  // ---------------------------------------------------------------------------
  // Weight sums
  // ---------------------------------------------------------------------------

  /** The weights of one row added left to right. */
  function RowTotal(row: seq<real>): real {
    if |row| == 0 then 0.0 else RowTotal(row[..|row| - 1]) + row[|row| - 1]
  }

  /** All weights added row by row, as `normalizeKernel` accumulates them. */
  function KernelSum(k: Kernel): real {
    if |k| == 0 then 0.0 else KernelSum(k[..|k| - 1]) + RowTotal(k[|k| - 1])
  }

  lemma {:induction false} RowTotal3(row: seq<real>)
    requires |row| == 3
    ensures RowTotal(row) == row[0] + row[1] + row[2]
  {
    assert row[..2][..1] == row[..1];
    assert row[..1][..0] == [];
    calc {
      RowTotal(row);
      RowTotal(row[..2]) + row[2];
      RowTotal(row[..1]) + row[1] + row[2];
      RowTotal([]) + row[0] + row[1] + row[2];
    }
  }

  lemma {:induction false} Sum3x3(k: Kernel)
    requires IsRect(k, 3, 3)
    ensures KernelSum(k) == k[0][0] + k[0][1] + k[0][2] + k[1][0] + k[1][1] + k[1][2] + k[2][0] + k[2][1] + k[2][2]
  {
    RowTotal3(k[0]);
    RowTotal3(k[1]);
    RowTotal3(k[2]);
    assert k[..2][..1] == k[..1];
    assert k[..1][..0] == [];
    calc {
      KernelSum(k);
      KernelSum(k[..2]) + RowTotal(k[2]);
      KernelSum(k[..1]) + RowTotal(k[1]) + RowTotal(k[2]);
      KernelSum([]) + RowTotal(k[0]) + RowTotal(k[1]) + RowTotal(k[2]);
    }
  }

  /** Box blur sums to 9, Gaussian blur to 16, the edge detectors to 0,
      sharpen and emboss to 1. */
  lemma {:induction false} CatalogSums(t: KernelType)
    ensures KernelSum(GetKernel(t)) == match t
      case Default => 1.0 case BoxBlur => 9.0 case GaussianBlur => 16.0
      case SobelX => 0.0 case SobelY => 0.0 case Laplacian => 0.0
      case Sharpen => 1.0 case Emboss => 1.0
  {
    Sum3x3(GetKernel(t));
  }

  // ---------------------------------------------------------------------------
  // Scale and normalize
  // ---------------------------------------------------------------------------

  /** Every weight of one row multiplied by `s`. */
  function ScaledRow(row: seq<real>, s: real): (r: seq<real>)
    ensures |r| == |row|
  {
    seq(|row|, j requires 0 <= j < |row| => row[j] * s)
  }

  /** Every weight multiplied by `s`. */
  function Scaled(k: Kernel, s: real): (r: Kernel)
    ensures SameShape(r, k)
  {
    seq(|k|, i requires 0 <= i < |k| => ScaledRow(k[i], s))
  }

  /** Every weight divided by `s`. */
  function Divided(k: Kernel, s: real): (r: Kernel)
    requires s != 0.0
    ensures SameShape(r, k)
  {
    seq(|k|, i requires 0 <= i < |k| => seq(|k[i]|, j requires 0 <= j < |k[i]| => k[i][j] / s))
  }

  lemma {:induction false} RowTotalScaled(row: seq<real>, s: real)
    ensures RowTotal(ScaledRow(row, s)) == RowTotal(row) * s
  {
    if |row| > 0 {
      var init := row[..|row| - 1];
      assert forall j :: 0 <= j < |init| ==> ScaledRow(row, s)[j] == ScaledRow(init, s)[j];
      assert ScaledRow(row, s)[..|row| - 1] == ScaledRow(init, s);
      RowTotalScaled(init, s);
    }
  }

  /** Scaling the weights scales their sum. */
  lemma {:induction false} ScaledSum(k: Kernel, s: real)
    ensures KernelSum(Scaled(k, s)) == KernelSum(k) * s
  {
    if |k| > 0 {
      var init := k[..|k| - 1];
      assert Scaled(k, s)[..|k| - 1] == Scaled(init, s);
      ScaledSum(init, s);
      RowTotalScaled(k[|k| - 1], s);
    }
  }

  /** Scaling by 1 changes nothing, and two scalings compose. */
  lemma {:induction false} ScaledCompose(k: Kernel, s: real, t: real)
    ensures Scaled(k, 1.0) == k
    ensures Scaled(Scaled(k, s), t) == Scaled(k, s * t)
  {
    KernelExt(Scaled(k, 1.0), k);
    KernelExt(Scaled(Scaled(k, s), t), Scaled(k, s * t));
  }

  lemma {:induction false} DividedIsScaled(k: Kernel, s: real)
    requires s != 0.0
    ensures Divided(k, s) == Scaled(k, 1.0 / s)
  {
    KernelExt(Divided(k, s), Scaled(k, 1.0 / s));
  }

  /** `normalizeKernel`: divide every weight by the weight sum, unless that sum is 0,
      in which case the kernel comes back unchanged. Afterwards the weights sum to 1. */
  function Normalized(k: Kernel): (r: Kernel)
    ensures SameShape(r, k)
    ensures KernelSum(k) == 0.0 ==> r == k
    ensures KernelSum(k) != 0.0 ==> KernelSum(r) == 1.0
  {
    var sum := KernelSum(k);
    if sum == 0.0 then k
    else
      DividedIsScaled(k, sum);
      ScaledSum(k, 1.0 / sum);
      Divided(k, sum)
  }

  /** Normalizing a normalized kernel changes nothing. */
  lemma {:induction false} NormalizedIdempotent(k: Kernel)
    ensures Normalized(Normalized(k)) == Normalized(k)
  {
    var n := Normalized(k);
    if KernelSum(k) != 0.0 {
      KernelExt(Normalized(n), n);
    }
  }

  /** `scaleKernel`: copy the kernel and multiply each weight in place. */
  method ScaleKernel(kernel: Kernel, scale: real) returns (result: Kernel)
    ensures result == Scaled(kernel, scale)
  {
    result := kernel;
    for i := 0 to |result|
      invariant SameShape(result, kernel)
      invariant forall a, b :: 0 <= a < |kernel| && 0 <= b < |kernel[a]| ==>
        result[a][b] == if a < i then kernel[a][b] * scale else kernel[a][b]
    {
      for j := 0 to |result[i]|
        invariant SameShape(result, kernel)
        invariant forall a, b :: 0 <= a < |kernel| && 0 <= b < |kernel[a]| ==>
          result[a][b] == if a < i || (a == i && b < j) then kernel[a][b] * scale else kernel[a][b]
      {
        result := result[i := result[i][j := result[i][j] * scale]];
      }
    }
    KernelExt(result, Scaled(kernel, scale));
  }

  /** The weight sum, accumulated row by row as the C++ range-for loops do. */
  method SumWeights(kernel: Kernel) returns (sum: real)
    ensures sum == KernelSum(kernel)
  {
    sum := 0.0;
    for i := 0 to |kernel|
      invariant sum == KernelSum(kernel[..i])
    {
      var row := kernel[i];
      for j := 0 to |row|
        invariant sum == KernelSum(kernel[..i]) + RowTotal(row[..j])
      {
        assert row[..j + 1][..j] == row[..j];
        sum := sum + row[j];
      }
      assert row[..|row|] == row;
      assert kernel[..i + 1][..i] == kernel[..i];
    }
    assert kernel[..|kernel|] == kernel;
  }

  /** `normalizeKernel`: sum the weights, copy, and divide in place when the sum is not 0. */
  method NormalizeKernel(kernel: Kernel) returns (result: Kernel)
    ensures result == Normalized(kernel)
  {
    var sum := SumWeights(kernel);
    result := kernel;
    if sum != 0.0 {
      for i := 0 to |result|
        invariant SameShape(result, kernel)
        invariant forall a, b :: 0 <= a < |kernel| && 0 <= b < |kernel[a]| ==>
          result[a][b] == if a < i then kernel[a][b] / sum else kernel[a][b]
      {
        for j := 0 to |result[i]|
          invariant SameShape(result, kernel)
          invariant forall a, b :: 0 <= a < |kernel| && 0 <= b < |kernel[a]| ==>
            result[a][b] == if a < i || (a == i && b < j) then kernel[a][b] / sum else kernel[a][b]
        {
          result := result[i := result[i][j := result[i][j] / sum]];
        }
      }
      KernelExt(result, Divided(kernel, sum));
    }
  }

  // ---------------------------------------------------------------------------
  // Custom kernels
  // ---------------------------------------------------------------------------

  /** No row is shorter than the first: reading `rows x values[0].size()` stays in bounds. */
  predicate RowsCoverFirst(values: Kernel) {
    |values| > 0 ==> forall i :: 0 <= i < |values| ==> |values[i]| >= |values[0]|
  }

  /** `createCustomKernel`: reject an empty grid or an empty first row, otherwise copy
      `rows x values[0].size()` weights (longer rows are cut to the first row's length). */
  function CustomKernel(values: Kernel): Result<Kernel>
    requires RowsCoverFirst(values)
  {
    if |values| == 0 || |values[0]| == 0 then Err(InvalidArgument("Invalid kernel size"))
    else
      var rows, cols := |values|, |values[0]|;
      Ok(seq(rows, i requires 0 <= i < rows => seq(cols, j requires 0 <= j < cols => values[i][j])))
  }

  /** The custom kernel fails exactly on empty input; otherwise it is a rectangle of the
      input's first `values[0].size()` columns, and a rectangular input comes back as is. */
  lemma {:induction false} CustomKernelCopies(values: Kernel)
    requires RowsCoverFirst(values)
    ensures CustomKernel(values).Err? <==> |values| == 0 || |values[0]| == 0
    ensures CustomKernel(values).Ok? ==>
      && IsRect(CustomKernel(values).value, |values|, |values[0]|)
      && forall i, j :: 0 <= i < |values| && 0 <= j < |values[0]| ==> CustomKernel(values).value[i][j] == values[i][j]
    ensures CustomKernel(values).Ok? && IsRect(values, |values|, |values[0]|) ==> CustomKernel(values).value == values
  {
    if CustomKernel(values).Ok? && IsRect(values, |values|, |values[0]|) {
      KernelExt(CustomKernel(values).value, values);
    }
  }

  method CreateCustomKernel(values: Kernel) returns (result: Result<Kernel>)
    requires RowsCoverFirst(values)
    ensures result == CustomKernel(values)
  {
    if |values| == 0 || |values[0]| == 0 {
      return Err(InvalidArgument("Invalid kernel size"));
    }
    var rows, cols := |values|, |values[0]|;
    var kernel: Kernel := seq(rows, _ => seq(cols, _ => 0.0));
    for i := 0 to rows
      invariant IsRect(kernel, rows, cols)
      invariant forall a, b :: 0 <= a < i && 0 <= b < cols ==> kernel[a][b] == values[a][b]
    {
      for j := 0 to cols
        invariant IsRect(kernel, rows, cols)
        invariant forall a, b :: 0 <= b < cols && (0 <= a < i || (a == i && b < j)) ==> kernel[a][b] == values[a][b]
      {
        kernel := kernel[i := kernel[i][j := values[i][j]]];
      }
    }
    KernelExt(kernel, CustomKernel(values).value);
    return Ok(kernel);
  }

  // ---------------------------------------------------------------------------
  // Kernel-of-kernels convolution
  // ---------------------------------------------------------------------------

  /** Every row is at least as long as the kernel has rows. */
  predicate RowsCoverSquare(k: Kernel) {
    forall i :: 0 <= i < |k| ==> |k[i]| >= |k|
  }

  /** The squareness test of `convolveKernels`: both non-empty, and row 0 of each as long
      as the kernel has rows (the other rows are not looked at). */
  predicate ConvolvableShapes(k1: Kernel, k2: Kernel) {
    |k1| > 0 && |k2| > 0 && |k1[0]| == |k1| && |k2[0]| == |k2|
  }

  /** The term `k1[u][v] * k2[i - u][j - v]`, or 0 where `(i - u, j - v)` leaves `k2`. */
  function ConvTerm(k1: Kernel, k2: Kernel, i: int, j: int): (int, int) -> real {
    (u, v) =>
      if 0 <= i - u < |k2| && 0 <= j - v < |k2| then Weight(k1, u, v) * Weight(k2, i - u, j - v) else 0.0
  }

  /** `convolveKernels`: the full 2-D convolution, of side `N + M - 1`, of an `N x N`
      and an `M x M` kernel. */
  function Convolved(k1: Kernel, k2: Kernel): Result<Kernel>
    requires ConvolvableShapes(k1, k2) ==> RowsCoverSquare(k1) && RowsCoverSquare(k2)
  {
    if !ConvolvableShapes(k1, k2) then Err(InvalidArgument("Kernels must be square and non-empty"))
    else
      var n, size := |k1|, |k1| + |k2| - 1;
      Ok(seq(size, i requires 0 <= i < size => seq(size, j requires 0 <= j < size => GridSum(ConvTerm(k1, k2, i, j), n, n))))
  }

  /** Convolution fails exactly when the squareness test does; otherwise the result is
      `(N + M - 1) x (N + M - 1)` and entry (i, j) sums `k1[u][v] * k2[i - u][j - v]`
      over the indices where both are defined. */
  lemma {:induction false} ConvolvedShape(k1: Kernel, k2: Kernel)
    requires ConvolvableShapes(k1, k2) ==> RowsCoverSquare(k1) && RowsCoverSquare(k2)
    ensures Convolved(k1, k2).Err? <==> !ConvolvableShapes(k1, k2)
    ensures Convolved(k1, k2).Ok? ==>
      var size := |k1| + |k2| - 1;
      && IsRect(Convolved(k1, k2).value, size, size)
      && forall i, j :: 0 <= i < size && 0 <= j < size ==>
           Convolved(k1, k2).value[i][j] == GridSum(ConvTerm(k1, k2, i, j), |k1|, |k1|)
  {
  }

  /** Convolving with the identity kernel embeds the kernel one cell in from each edge
      of an `(N + 2) x (N + 2)` grid of zeros. */
  lemma {:induction false} ConvolveIdentity(k: Kernel)
    requires ConvolvableShapes(k, GetKernel(Default)) && RowsCoverSquare(k)
    ensures Convolved(k, GetKernel(Default)).Ok?
    ensures var r := Convolved(k, GetKernel(Default)).value;
      && IsRect(r, |k| + 2, |k| + 2)
      && forall i, j :: 0 <= i < |k| + 2 && 0 <= j < |k| + 2 ==>
           r[i][j] == if 1 <= i <= |k| && 1 <= j <= |k| then k[i - 1][j - 1] else 0.0
  {
    var d := GetKernel(Default);
    var n := |k|;
    DefaultWeights();
    forall i, j | 0 <= i < n + 2 && 0 <= j < n + 2
      ensures GridSum(ConvTerm(k, d, i, j), n, n) == if 1 <= i <= n && 1 <= j <= n then k[i - 1][j - 1] else 0.0
    {
      var f := ConvTerm(k, d, i, j);
      forall u, v | 0 <= u < n && 0 <= v < n && (u != i - 1 || v != j - 1)
        ensures f(u, v) == 0.0
      {
        if 0 <= i - u < 3 && 0 <= j - v < 3 {
          assert |d| == 3 && |d[i - u]| == 3;
          assert d[i - u][j - v] == 0.0;
          assert f(u, v) == Weight(k, u, v) * Weight(d, i - u, j - v);
        }
      }
      GridSumSingle(f, n, n, i - 1, j - 1);
      if 1 <= i <= n && 1 <= j <= n {
        assert Weight(d, 1, 1) == 1.0;
        assert Weight(k, i - 1, j - 1) == k[i - 1][j - 1];
      }
    }
  }

  lemma ScaledWeight(k: Kernel, s: real, u: int, v: int)
    ensures Weight(Scaled(k, s), u, v) == s * Weight(k, u, v)
  {
    if 0 <= u < |k| && 0 <= v < |k[u]| {
      assert Scaled(k, s)[u][v] == k[u][v] * s;
    }
  }

  /** One term of the convolution sum scales with the first kernel. */
  lemma ConvTermScaled(k1: Kernel, k2: Kernel, s: real, i: int, j: int, u: int, v: int)
    ensures ConvTerm(Scaled(k1, s), k2, i, j)(u, v) == s * ConvTerm(k1, k2, i, j)(u, v)
  {
    ScaledWeight(k1, s, u, v);
    if 0 <= i - u < |k2| && 0 <= j - v < |k2| {
      var w1, w2 := Weight(k1, u, v), Weight(k2, i - u, j - v);
      assert (s * w1) * w2 == s * (w1 * w2);
    }
  }

  lemma ConvTermsScaled(k1: Kernel, k2: Kernel, s: real, i: int, j: int, n: nat)
    ensures forall u, v :: 0 <= u < n && 0 <= v < n ==>
      ConvTerm(Scaled(k1, s), k2, i, j)(u, v) == s * ConvTerm(k1, k2, i, j)(u, v)
  {
    forall u, v | 0 <= u < n && 0 <= v < n
      ensures ConvTerm(Scaled(k1, s), k2, i, j)(u, v) == s * ConvTerm(k1, k2, i, j)(u, v)
    {
      ConvTermScaled(k1, k2, s, i, j, u, v);
    }
  }

  /** Convolution is linear in its first kernel: scaling it scales the result. */
  lemma {:induction false} ConvolveScaled(k1: Kernel, k2: Kernel, s: real)
    requires ConvolvableShapes(k1, k2) && RowsCoverSquare(k1) && RowsCoverSquare(k2)
    ensures ConvolvableShapes(Scaled(k1, s), k2) && RowsCoverSquare(Scaled(k1, s))
    ensures Convolved(Scaled(k1, s), k2) == Ok(Scaled(Convolved(k1, k2).value, s))
  {
    var sk := Scaled(k1, s);
    var size := |k1| + |k2| - 1;
    var c := Convolved(k1, k2).value;
    var a := Convolved(sk, k2).value;
    var b := Scaled(c, s);
    forall i, j | 0 <= i < size && 0 <= j < size
      ensures a[i][j] == b[i][j]
    {
      ConvTermsScaled(k1, k2, s, i, j, |k1|);
      GridSumScale(ConvTerm(k1, k2, i, j), ConvTerm(sk, k2, i, j), |k1|, |k1|, s);
    }
    KernelExt(a, b);
  }

  /** One entry of `convolveKernels`: the `u`/`v` loops. */
  method ConvolveEntry(k1: Kernel, k2: Kernel, i: int, j: int) returns (sum: real)
    requires ConvolvableShapes(k1, k2) && RowsCoverSquare(k1) && RowsCoverSquare(k2)
    ensures sum == GridSum(ConvTerm(k1, k2, i, j), |k1|, |k1|)
  {
    var n, m := |k1|, |k2|;
    ghost var f := ConvTerm(k1, k2, i, j);
    sum := 0.0;
    for u := 0 to n
      invariant sum == GridSum(f, u, n)
    {
      for v := 0 to n
        invariant sum == GridSum(f, u, n) + RowSum(f, u, v)
      {
        var ki := i - u;
        var kj := j - v;
        if ki >= 0 && ki < m && kj >= 0 && kj < m {
          assert Weight(k1, u, v) == k1[u][v] && Weight(k2, ki, kj) == k2[ki][kj];
          assert f(u, v) == k1[u][v] * k2[ki][kj];
          sum := sum + k1[u][v] * k2[ki][kj];
        } else {
          assert f(u, v) == 0.0;
        }
      }
    }
  }

  /** `convolveKernels`: check the shapes, then fill an `(N + M - 1)`-square grid of zeros. */
  method ConvolveKernels(k1: Kernel, k2: Kernel) returns (result: Result<Kernel>)
    requires ConvolvableShapes(k1, k2) ==> RowsCoverSquare(k1) && RowsCoverSquare(k2)
    ensures result == Convolved(k1, k2)
  {
    if !ConvolvableShapes(k1, k2) {
      return Err(InvalidArgument("Kernels must be square and non-empty"));
    }
    var newSize := |k1| + |k2| - 1;
    var grid: Kernel := seq(newSize, _ => seq(newSize, _ => 0.0));
    for i := 0 to newSize
      invariant IsRect(grid, newSize, newSize)
      invariant forall a, b :: 0 <= a < i && 0 <= b < newSize ==> grid[a][b] == GridSum(ConvTerm(k1, k2, a, b), |k1|, |k1|)
    {
      for j := 0 to newSize
        invariant IsRect(grid, newSize, newSize)
        invariant forall a, b :: 0 <= b < newSize && (0 <= a < i || (a == i && b < j)) ==>
          grid[a][b] == GridSum(ConvTerm(k1, k2, a, b), |k1|, |k1|)
      {
        var sum := ConvolveEntry(k1, k2, i, j);
        grid := grid[i := grid[i][j := sum]];
      }
    }
    KernelExt(grid, Convolved(k1, k2).value);
    return Ok(grid);
  }
}
