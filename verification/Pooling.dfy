/** Go-side embedding pooling and normalisation, over the reals. */
module Pooling {
  // Roots and powers of two cannot be computed on reals, so a method that needs them takes the
  // function as a parameter and requires its algebraic laws.

  import opened Wrappers

  type Vector = seq<real>

  // ---------- Laws of the mathematical functions ----------

  function Pow(x: real, p: nat): real {
    if p == 0 then 1.0 else Pow(x, p - 1) * x
  }

  // root(x, p) is the non-negative p-th root: math.Sqrt for p = 2, math.Pow(x, 1/p) in general.
  ghost predicate IsRoot(root: (real, nat) -> real) {
    forall x: real, p: nat {:trigger root(x, p)} :: x >= 0.0 && p >= 1 ==> root(x, p) >= 0.0 && Pow(root(x, p), p) == x
  }

  ghost predicate AddsAt(exp2: real -> real, x: real, y: real) {
    exp2(x + y) == exp2(x) * exp2(y)
  }

  ghost predicate GrowsAt(exp2: real -> real, x: real, y: real) {
    x < y ==> exp2(x) < exp2(y)
  }

  ghost predicate IsExp2(exp2: real -> real) {
    && exp2(0.0) == 1.0 && exp2(1.0) == 2.0
    && (forall x {:trigger exp2(x)} :: exp2(x) > 0.0)
    && (forall x, y :: AddsAt(exp2, x, y))
    && (forall x, y :: GrowsAt(exp2, x, y))
  }

  // A product as a term of its own, which the solver can rewrite under equalities.
  function Times(x: real, y: real): real {
    x * y
  }

  function Over(x: real, y: real): real
    requires y != 0.0
  {
    x / y
  }

  function Abs(x: real): real {
    if x < 0.0 then -x else x
  }

  lemma {:induction false} PowIsPositive(x: real, p: nat)
    requires x > 0.0
    ensures Pow(x, p) > 0.0
  {
    if p > 0 {
      PowIsPositive(x, p - 1);
    }
  }

  lemma TimesLaws(a: real, b: real, x: real, y: real)
    ensures Times(a, b) * Times(x, y) == Times(a * x, b * y)
    ensures Times(a, b) + Times(x, a) == Times(a, b + x)
    ensures Times(a, b) == Times(b, a) && (a >= 0.0 && b >= 0.0 ==> Times(a, b) >= 0.0)
  {
    assert (a * b) * (x * y) == (a * x) * (b * y);
  }

  lemma {:induction false} PowOfProduct(x: real, y: real, p: nat)
    ensures Pow(Times(x, y), p) == Times(Pow(x, p), Pow(y, p))
  {
    if p > 0 {
      PowOfProduct(x, y, p - 1);
      TimesLaws(Pow(x, p - 1), Pow(y, p - 1), x, y);
    }
  }

  lemma {:induction false} PowOfOne(p: nat)
    ensures Pow(1.0, p) == 1.0
  {
    if p > 0 {
      PowOfOne(p - 1);
    }
  }

  lemma {:induction false} PowIsMonotone(x: real, y: real, p: nat)
    requires 0.0 <= x < y && p >= 1
    ensures 0.0 <= Pow(x, p) < Pow(y, p)
  {
    if p == 1 {
      assert Pow(x, 0) == 1.0 && Pow(y, 0) == 1.0;
    } else {
      PowIsMonotone(x, y, p - 1);
      MulIsMonotone(Pow(x, p - 1), Pow(y, p - 1), x, y);
    }
  }

  lemma MulIsMonotone(a: real, b: real, x: real, y: real)
    requires 0.0 <= a < b && 0.0 <= x < y
    ensures 0.0 <= a * x < b * y
  {
    assert a * x <= b * x;
    assert b * x < b * y;
  }

  lemma RootIsUnique(r: real, s: real, p: nat)
    requires r >= 0.0 && s >= 0.0 && p >= 1 && Pow(r, p) == Pow(s, p)
    ensures r == s
  {
    if r < s {
      PowIsMonotone(r, s, p);
    } else if s < r {
      PowIsMonotone(s, r, p);
    }
  }

  // ---------- Reshaping ----------

  datatype ShapeError = InvalidShape | PayloadMismatch

  ghost predicate IsMatrix(vecs: seq<Vector>, dim: nat) {
    vecs != [] && forall i | 0 <= i < |vecs| :: |vecs[i]| == dim
  }

  function Flatten(vecs: seq<Vector>): Vector {
    if vecs == [] then [] else Flatten(vecs[..|vecs| - 1]) + vecs[|vecs| - 1]
  }

  lemma RowEnds(i: nat, tokens: nat, dim: nat)
    requires i < tokens
    ensures 0 <= i * dim <= (i + 1) * dim <= tokens * dim
    ensures (i + 1) * dim == i * dim + dim
  {
    var rest := tokens - (i + 1);
    assert tokens * dim == (i + 1) * dim + rest * dim;
  }

  // Succeeds exactly on a positive shape that the payload matches; the rows put back together are
  // the payload.
  method ReshapeEmbeddings(flat: Vector, tokens: int, dim: int) returns (r: Result<seq<Vector>, ShapeError>)
    ensures r.Success? <==> tokens > 0 && dim > 0 && |flat| == tokens * dim
    ensures r == Failure(InvalidShape) <==> tokens <= 0 || dim <= 0
    ensures r.Success? ==> IsMatrix(r.value, dim) && |r.value| == tokens && Flatten(r.value) == flat
    ensures r.Success? ==> forall i | 0 <= i < tokens :: 0 <= i * dim <= |flat| - dim && r.value[i] == flat[i * dim..][..dim]
  {
    if tokens <= 0 || dim <= 0 {
      return Failure(InvalidShape);
    }
    if |flat| != tokens * dim {
      return Failure(PayloadMismatch);
    }
    var vecs: seq<Vector> := [];
    for i := 0 to tokens
      invariant |vecs| == i && i * dim <= |flat|
      invariant forall k | 0 <= k < i :: |vecs[k]| == dim
      invariant Flatten(vecs) == flat[..i * dim]
      invariant forall k | 0 <= k < i :: 0 <= k * dim <= |flat| - dim && vecs[k] == flat[k * dim..][..dim]
    {
      RowEnds(i, tokens, dim);
      var row := flat[i * dim..(i + 1) * dim];
      assert (vecs + [row])[..i] == vecs;
      assert flat[..(i + 1) * dim] == flat[..i * dim] + row;
      vecs := vecs + [row];
    }
    assert flat[..tokens * dim] == flat;
    return Success(vecs);
  }

  // ---------- Weighted means ----------

  function Sum(w: seq<real>): real {
    if w == [] then 0.0 else Sum(w[..|w| - 1]) + w[|w| - 1]
  }

  // Column j of the rows, weighted and summed.
  function ColumnSum(vecs: seq<Vector>, w: seq<real>, j: nat): real
    requires |w| == |vecs| && forall i | 0 <= i < |vecs| :: j < |vecs[i]|
  {
    if vecs == [] then 0.0
    else
      var n := |vecs| - 1;
      ColumnSum(vecs[..n], w[..n], j) + Times(w[n], vecs[n][j])
  }

  function Ones(n: nat): seq<real> {
    seq(n, i => 1.0)
  }

  // w_i = 2^(-(T-1-i)/H)
  function DecayWeight(n: nat, i: nat, halfLife: real, exp2: real -> real): real
    requires halfLife > 0.0
  {
    exp2(-((n - 1 - i) as real) / halfLife)
  }

  function DecayWeights(n: nat, halfLife: real, exp2: real -> real): (w: seq<real>)
    requires halfLife > 0.0
    ensures |w| == n && forall i | 0 <= i < n :: w[i] == DecayWeight(n, i, halfLife, exp2)
  {
    seq(n, (i: nat) => DecayWeight(n, i, halfLife, exp2))
  }

  // acc[j] += w * v[j] for every column.
  method AddRow(acc: array<real>, v: Vector, w: real)
    requires acc.Length == |v|
    modifies acc
    ensures forall j | 0 <= j < |v| :: acc[j] == old(acc[j]) + Times(w, v[j])
  {
    for j := 0 to |v|
      invariant forall k | 0 <= k < j :: acc[k] == old(acc[k]) + Times(w, v[k])
      invariant forall k | j <= k < |v| :: acc[k] == old(acc[k])
    {
      acc[j] := acc[j] + w * v[j];
    }
  }

  lemma ColumnSumOneMore(vecs: seq<Vector>, w: seq<real>, i: nat, j: nat)
    requires i < |vecs| == |w| && forall k | 0 <= k < |vecs| :: j < |vecs[k]|
    ensures ColumnSum(vecs[..i + 1], w[..i + 1], j) == ColumnSum(vecs[..i], w[..i], j) + Times(w[i], vecs[i][j])
  {
    assert vecs[..i + 1][..i] == vecs[..i] && w[..i + 1][..i] == w[..i];
  }

  lemma SumOneMore(w: seq<real>, i: nat)
    requires i < |w|
    ensures Sum(w[..i + 1]) == Sum(w[..i]) + w[i]
  {
    assert w[..i + 1][..i] == w[..i];
  }

  // acc holds the weighted column sums of the first i rows.
  ghost predicate HoldsSums(acc: array<real>, vecs: seq<Vector>, w: seq<real>, i: nat, dim: nat)
    requires IsMatrix(vecs, dim) && |w| == |vecs| && i <= |vecs|
    reads acc
  {
    acc.Length == dim && forall j | 0 <= j < dim :: acc[j] == ColumnSum(vecs[..i], w[..i], j)
  }

  // One round of an accumulation loop.
  method AddNextRow(acc: array<real>, vecs: seq<Vector>, ghost w: seq<real>, i: nat, ghost dim: nat, wi: real)
    requires IsMatrix(vecs, dim) && |w| == |vecs| && i < |vecs| && w[i] == wi
    requires HoldsSums(acc, vecs, w, i, dim)
    modifies acc
    ensures HoldsSums(acc, vecs, w, i + 1, dim)
  {
    ghost var before := acc[..];
    AddRow(acc, vecs[i], wi);
    forall j | 0 <= j < dim
      ensures acc[j] == ColumnSum(vecs[..i + 1], w[..i + 1], j)
    {
      ColumnSumOneMore(vecs, w, i, j);
      assert before[j] == ColumnSum(vecs[..i], w[..i], j);
    }
  }

  method DividedBy(acc: array<real>, d: real) returns (out: array<real>)
    requires d != 0.0
    ensures fresh(out) && out.Length == acc.Length
    ensures forall j | 0 <= j < acc.Length :: out[j] == Over(acc[j], d)
  {
    out := new real[acc.Length](_ => 0.0);
    for j := 0 to acc.Length
      invariant forall k | 0 <= k < j :: out[k] == Over(acc[k], d)
    {
      out[j] := acc[j] / d;
    }
  }

  method PoolMean(vecs: seq<Vector>, ghost dim: nat) returns (out: array<real>)
    requires IsMatrix(vecs, dim)
    ensures fresh(out) && out.Length == dim
    ensures forall j | 0 <= j < dim :: out[j] == Over(ColumnSum(vecs, Ones(|vecs|), j), |vecs| as real)
  {
    var acc := new real[|vecs[0]|](_ => 0.0);
    ghost var w := Ones(|vecs|);
    for i := 0 to |vecs|
      invariant HoldsSums(acc, vecs, w, i, dim)
    {
      AddNextRow(acc, vecs, w, i, dim, 1.0);
    }
    assert vecs[..|vecs|] == vecs && w[..|vecs|] == w;
    out := DividedBy(acc, |vecs| as real);
  }

  method PoolLast(vecs: seq<Vector>, ghost dim: nat) returns (out: array<real>)
    requires IsMatrix(vecs, dim)
    ensures fresh(out) && out[..] == vecs[|vecs| - 1]
  {
    var last := vecs[|vecs| - 1];
    out := new real[|last|](i requires 0 <= i < |last| => last[i]);
  }

  method PoolDecayedMean(vecs: seq<Vector>, ghost dim: nat, halfLife: real, exp2: real -> real) returns (out: array<real>)
    requires IsMatrix(vecs, dim) && halfLife > 0.0 && IsExp2(exp2)
    ensures fresh(out) && out.Length == dim
    ensures var w := DecayWeights(|vecs|, halfLife, exp2);
            Sum(w) > 0.0 && forall j | 0 <= j < dim :: out[j] == Over(ColumnSum(vecs, w, j), Sum(w))
  {
    var T := |vecs|;
    var acc := new real[|vecs[0]|](_ => 0.0);
    var wsum := 0.0;
    ghost var w := DecayWeights(T, halfLife, exp2);
    assert AllPositive(w);
    for i := 0 to T
      invariant wsum == Sum(w[..i])
      invariant HoldsSums(acc, vecs, w, i, dim)
    {
      var wi := exp2(-((T - 1 - i) as real) / halfLife);
      assert wi == DecayWeight(T, i, halfLife, exp2) == w[i];
      wsum := wsum + wi;
      SumOneMore(w, i);
      AddNextRow(acc, vecs, w, i, dim, wi);
    }
    assert vecs[..T] == vecs && w[..T] == w;
    PositiveSum(w);
    out := DividedBy(acc, wsum);
  }

  ghost predicate AllPositive(w: seq<real>) {
    forall i | 0 <= i < |w| :: w[i] > 0.0
  }

  lemma {:induction false} PositiveSum(w: seq<real>)
    requires AllPositive(w)
    ensures Sum(w) >= 0.0
    ensures w != [] ==> Sum(w) > 0.0
  {
    if w != [] {
      PositiveSum(w[..|w| - 1]);
    }
  }

  lemma {:induction false} SumOfOnes(n: nat)
    ensures Sum(Ones(n)) == n as real
  {
    if n > 0 {
      assert Ones(n)[..n - 1] == Ones(n - 1);
      SumOfOnes(n - 1);
    }
  }

  lemma TermBounds(lo: real, x: real, hi: real, w: real, s: real)
    requires w > 0.0 && lo <= x <= hi
    ensures Times(w, lo) <= Times(w, x) <= Times(w, hi)
    ensures Times(lo, s + w) == Times(lo, s) + Times(w, lo) && Times(hi, s + w) == Times(hi, s) + Times(w, hi)
  {}

  lemma {:induction false} ColumnSumBounds(vecs: seq<Vector>, w: seq<real>, j: nat, lo: real, hi: real)
    requires |w| == |vecs| && AllPositive(w)
    requires forall i | 0 <= i < |vecs| :: j < |vecs[i]| && lo <= vecs[i][j] <= hi
    ensures Times(lo, Sum(w)) <= ColumnSum(vecs, w, j) <= Times(hi, Sum(w))
  {
    if vecs == [] {
      assert Times(lo, 0.0) == 0.0 == Times(hi, 0.0);
    } else {
      var n := |vecs| - 1;
      ColumnSumBounds(vecs[..n], w[..n], j, lo, hi);
      TermBounds(lo, vecs[n][j], hi, w[n], Sum(w[..n]));
    }
  }

  lemma DivideBounds(x: real, s: real, lo: real, hi: real)
    requires s > 0.0 && Times(lo, s) <= x <= Times(hi, s)
    ensures lo <= Over(x, s) <= hi
  {}

  /** A weighted mean with positive weights, the plain and the decayed mean among them, lies between
      the least and the greatest value of its column. */
  lemma MeanIsBetween(vecs: seq<Vector>, w: seq<real>, j: nat, lo: real, hi: real)
    requires |w| == |vecs| && vecs != [] && AllPositive(w)
    requires forall i | 0 <= i < |vecs| :: j < |vecs[i]| && lo <= vecs[i][j] <= hi
    ensures Sum(w) > 0.0 && lo <= Over(ColumnSum(vecs, w, j), Sum(w)) <= hi
  {
    PositiveSum(w);
    ColumnSumBounds(vecs, w, j, lo, hi);
    DivideBounds(ColumnSum(vecs, w, j), Sum(w), lo, hi);
  }

  /** A column sum gives row i the weight w[i]: changing one entry changes it by the weighted difference. */
  lemma {:induction false} ColumnSumIsWeighted(vecs: seq<Vector>, w: seq<real>, j: nat, i: nat, row: Vector)
    requires |w| == |vecs| && i < |vecs| && j < |row| && forall k | 0 <= k < |vecs| :: j < |vecs[k]|
    ensures ColumnSum(vecs[i := row], w, j) == ColumnSum(vecs, w, j) + Times(w[i], row[j] - vecs[i][j])
  {
    var n := |vecs| - 1;
    if i == n {
      assert vecs[i := row][..n] == vecs[..n];
    } else {
      assert vecs[i := row][..n] == vecs[..n][i := row];
      ColumnSumIsWeighted(vecs[..n], w[..n], j, i, row);
    }
  }

  lemma {:induction false} ColumnSumOfZeros(vecs: seq<Vector>, w: seq<real>, j: nat)
    requires |w| == |vecs| && forall k | 0 <= k < |vecs| :: j < |vecs[k]| && vecs[k][j] == 0.0
    ensures ColumnSum(vecs, w, j) == 0.0
  {
    if vecs != [] {
      ColumnSumOfZeros(vecs[..|vecs| - 1], w[..|vecs| - 1], j);
    }
  }

  // Both schemes are such means.
  lemma SchemesArePositiveMeans(n: nat, halfLife: real, exp2: real -> real)
    requires halfLife > 0.0 && IsExp2(exp2)
    ensures AllPositive(Ones(n)) && Sum(Ones(n)) == n as real
    ensures AllPositive(DecayWeights(n, halfLife, exp2))
  {
    SumOfOnes(n);
  }

  lemma DividePreservesOrder(x: real, y: real, h: real)
    requires h > 0.0 && x < y
    ensures x / h < y / h
  {}

  lemma QuotientIs(x: real, h: real, q: real)
    requires h > 0.0 && x == q * h
    ensures x / h == q
  {
    var r := x / h;
    assert (r - q) * h == 0.0;
  }

  lemma HalfLifeShift(a: real, h: real)
    requires h > 0.0
    ensures (a + h) / h == a / h + 1.0
  {
    var q := a / h;
    assert (q + 1.0) * h == a + h;
    QuotientIs(a + h, h, q + 1.0);
  }

  lemma LastWeightIsOne(n: nat, halfLife: real, exp2: real -> real)
    requires halfLife > 0.0 && IsExp2(exp2) && n > 0
    ensures DecayWeights(n, halfLife, exp2)[n - 1] == 1.0
  {
    assert -((n - 1 - (n - 1)) as real) / halfLife == 0.0;
  }

  /** The decay weights increase strictly towards the last token, which weighs 1; a token a whole
      half-life earlier weighs half as much. */
  lemma DecayWeightsGrow(n: nat, halfLife: real, exp2: real -> real, i: nat, k: nat)
    requires halfLife > 0.0 && IsExp2(exp2) && i < k < n
    ensures var w := DecayWeights(n, halfLife, exp2);
            && 0.0 < w[i] < w[k] && w[n - 1] == 1.0
            && ((k - i) as real == halfLife ==> w[k] == 2.0 * w[i])
  {
    var a, b := -((n - 1 - i) as real), -((n - 1 - k) as real);
    DividePreservesOrder(a, b, halfLife);
    assert GrowsAt(exp2, a / halfLife, b / halfLife);
    LastWeightIsOne(n, halfLife, exp2);
    if (k - i) as real == halfLife {
      HalfLifeShift(a, halfLife);
      assert b == a + halfLife;
      assert AddsAt(exp2, a / halfLife, 1.0);
    }
  }

  /** For a single token all three schemes give that token's vector. */
  lemma SingleTokenSchemesAgree(v: Vector, halfLife: real, exp2: real -> real, j: nat)
    requires halfLife > 0.0 && IsExp2(exp2) && j < |v|
    ensures var w := DecayWeights(1, halfLife, exp2);
            && Sum(w) != 0.0
            && Over(ColumnSum([v], Ones(1), j), 1.0) == v[j]
            && Over(ColumnSum([v], w, j), Sum(w)) == v[j]
  {
    LastWeightIsOne(1, halfLife, exp2);
    assert DecayWeights(1, halfLife, exp2) == [1.0] == Ones(1);
    assert [v][..0] == [] && [1.0][..0] == [];
    assert Sum([1.0]) == 1.0 && ColumnSum([v], [1.0], j) == 1.0 * v[j];
  }

  // ---------- Normalisation ----------

  function MaxAbs(v: Vector): (m: real)
    ensures m >= 0.0
  {
    if v == [] then 0.0
    else
      var m := MaxAbs(v[..|v| - 1]);
      var a := Abs(v[|v| - 1]);
      if m < a then a else m
  }

  lemma {:induction false} MaxAbsIsMaximum(v: Vector)
    ensures forall i | 0 <= i < |v| :: Abs(v[i]) <= MaxAbs(v)
    ensures v != [] ==> exists i :: 0 <= i < |v| && Abs(v[i]) == MaxAbs(v)
  {
    if v != [] {
      var front := v[..|v| - 1];
      MaxAbsIsMaximum(front);
      assert forall i | 0 <= i < |front| :: v[i] == front[i];
      if MaxAbs(v) != Abs(v[|v| - 1]) && front != [] {
        var i :| 0 <= i < |front| && Abs(front[i]) == MaxAbs(front);
        assert Abs(v[i]) == MaxAbs(v);
      }
    }
  }

  function PowerSum(v: Vector, p: nat): real {
    if v == [] then 0.0 else PowerSum(v[..|v| - 1], p) + Pow(Abs(v[|v| - 1]), p)
  }

  function Scale(v: Vector, c: real): (r: Vector)
    ensures |r| == |v| && forall i | 0 <= i < |v| :: r[i] == Times(v[i], c)
  {
    seq(|v|, i requires 0 <= i < |v| => Times(v[i], c))
  }

  // The divisor that normalizeEmbedding calls sum.
  function Divisor(v: Vector, embdNorm: int, root: (real, nat) -> real): real {
    if embdNorm < 0 then 1.0
    else if embdNorm == 0 then MaxAbs(v) / 32760.0
    else root(PowerSum(v, embdNorm), embdNorm)
  }

  function Normalised(v: Vector, embdNorm: int, root: (real, nat) -> real): Vector {
    var sum := Divisor(v, embdNorm, root);
    Scale(v, if sum > 0.0 then 1.0 / sum else 0.0)
  }

  lemma PrefixOneMore(v: Vector, i: nat, p: nat)
    requires i < |v|
    ensures PowerSum(v[..i + 1], p) == PowerSum(v[..i], p) + Pow(Abs(v[i]), p)
    ensures MaxAbs(v[..i + 1]) == (if MaxAbs(v[..i]) < Abs(v[i]) then Abs(v[i]) else MaxAbs(v[..i]))
  {
    assert v[..i + 1][..i] == v[..i];
  }

  lemma Square(x: real)
    ensures Pow(Abs(x), 2) == x * x
  {
    assert Pow(Abs(x), 1) == Pow(Abs(x), 0) * Abs(x);
  }

  // The loops of normalizeEmbedding.
  method LargestMagnitude(v: Vector) returns (sum: real)
    ensures sum == MaxAbs(v)
  {
    sum := 0.0;
    for i := 0 to |v|
      invariant sum == MaxAbs(v[..i])
    {
      PrefixOneMore(v, i, 0);
      var a := Abs(v[i]);
      if sum < a {
        sum := a;
      }
    }
    assert v[..|v|] == v;
  }

  method SumOfSquares(v: Vector) returns (sum: real)
    ensures sum == PowerSum(v, 2)
  {
    sum := 0.0;
    for i := 0 to |v|
      invariant sum == PowerSum(v[..i], 2)
    {
      PrefixOneMore(v, i, 2);
      Square(v[i]);
      sum := sum + v[i] * v[i];
    }
    assert v[..|v|] == v;
  }

  method SumOfPowers(v: Vector, p: nat) returns (sum: real)
    ensures sum == PowerSum(v, p)
  {
    sum := 0.0;
    for i := 0 to |v|
      invariant sum == PowerSum(v[..i], p)
    {
      PrefixOneMore(v, i, p);
      sum := sum + Pow(Abs(v[i]), p);
    }
    assert v[..|v|] == v;
  }

  // Its switch.
  method ComputeDivisor(v: Vector, embdNorm: int, root: (real, nat) -> real) returns (sum: real)
    ensures sum == Divisor(v, embdNorm, root)
  {
    if embdNorm < 0 {
      sum := 1.0;
    } else if embdNorm == 0 {
      sum := LargestMagnitude(v);
      sum := sum / 32760.0;
    } else if embdNorm == 2 {
      sum := SumOfSquares(v);
      sum := root(sum, 2);
    } else {
      sum := SumOfPowers(v, embdNorm);
      sum := root(sum, embdNorm);
    }
  }

  method NormalizeEmbedding(v: Vector, embdNorm: int, root: (real, nat) -> real) returns (out: array<real>)
    ensures fresh(out) && out[..] == Normalised(v, embdNorm, root)
    ensures embdNorm < 0 ==> out[..] == v
  {
    var sum := ComputeDivisor(v, embdNorm, root);
    var norm := 0.0;
    if sum > 0.0 {
      norm := 1.0 / sum;
    }
    out := new real[|v|](_ => 0.0);
    for i := 0 to |v|
      invariant forall k | 0 <= k < i :: out[k] == Times(v[k], norm)
    {
      out[i] := v[i] * norm;
    }
  }

  predicate IsZero(v: Vector) {
    forall i | 0 <= i < |v| :: v[i] == 0.0
  }

  lemma {:induction false} PowerSumOfScaled(v: Vector, c: real, p: nat)
    requires c > 0.0
    ensures PowerSum(Scale(v, c), p) == Times(Pow(c, p), PowerSum(v, p))
  {
    if v != [] {
      var n := |v| - 1;
      assert Scale(v, c)[..n] == Scale(v[..n], c);
      PowerSumOfScaled(v[..n], c, p);
      AbsOfScaled(v[n], c);
      PowOfProduct(Abs(v[n]), c, p);
      TimesLaws(Pow(c, p), PowerSum(v[..n], p), Pow(Abs(v[n]), p), 1.0);
    }
  }

  lemma AbsOfScaled(x: real, c: real)
    requires c > 0.0
    ensures Abs(Times(x, c)) == Times(Abs(x), c)
  {
    if x < 0.0 {
      assert x * c < 0.0;
    } else {
      assert x * c >= 0.0;
    }
  }

  lemma TimesKeepsOrder(x: real, y: real, c: real)
    requires c > 0.0
    ensures x < y <==> Times(x, c) < Times(y, c)
  {
    if x < y {
      assert x * c < y * c;
    } else {
      assert y * c <= x * c;
    }
  }

  lemma {:induction false} MaxAbsOfScaled(v: Vector, c: real)
    requires c > 0.0
    ensures MaxAbs(Scale(v, c)) == Times(MaxAbs(v), c)
  {
    if v != [] {
      var n := |v| - 1;
      assert Scale(v, c)[..n] == Scale(v[..n], c);
      MaxAbsOfScaled(v[..n], c);
      AbsOfScaled(v[n], c);
      TimesKeepsOrder(MaxAbs(v[..n]), Abs(v[n]), c);
    }
  }

  lemma {:induction false} PowerSumIsZeroIff(v: Vector, p: nat)
    requires p >= 1
    ensures PowerSum(v, p) >= 0.0
    ensures PowerSum(v, p) == 0.0 <==> IsZero(v)
  {
    if v != [] {
      var n := |v| - 1;
      PowerSumIsZeroIff(v[..n], p);
      if v[n] != 0.0 {
        PowIsPositive(Abs(v[n]), p);
      } else {
        assert Pow(0.0, p) == Pow(0.0, p - 1) * 0.0;
      }
      assert v == v[..n] + [v[n]];
    }
  }

  lemma RootOfScaled(s: real, c: real, p: nat, root: (real, nat) -> real)
    requires IsRoot(root) && c > 0.0 && p >= 1 && s >= 0.0
    ensures root(Times(Pow(c, p), s), p) == Times(root(s, p), c)
  {
    PowIsPositive(c, p);
    var r, t := root(s, p), Times(Pow(c, p), s);
    TimesLaws(Pow(c, p), s, 1.0, 1.0);
    TimesLaws(r, c, 1.0, 1.0);
    PowOfProduct(r, c, p);
    RootIsUnique(root(t, p), Times(r, c), p);
  }

  lemma ScaledFraction(m: real, c: real)
    ensures Times(m, c) / 32760.0 == Times(m / 32760.0, c)
  {}

  // The divisor is positively homogeneous, and zero only for the zero vector.
  lemma DivisorOfScaled(v: Vector, c: real, embdNorm: int, root: (real, nat) -> real)
    requires IsRoot(root) && c > 0.0 && embdNorm >= 0
    ensures Divisor(Scale(v, c), embdNorm, root) == Times(Divisor(v, embdNorm, root), c)
  {
    if embdNorm == 0 {
      MaxAbsOfScaled(v, c);
      ScaledFraction(MaxAbs(v), c);
    } else {
      PowerSumIsZeroIff(v, embdNorm);
      PowerSumOfScaled(v, c, embdNorm);
      RootOfScaled(PowerSum(v, embdNorm), c, embdNorm, root);
    }
  }

  lemma DivisorIsPositiveIff(v: Vector, embdNorm: int, root: (real, nat) -> real)
    requires IsRoot(root) && embdNorm >= 0
    ensures Divisor(v, embdNorm, root) >= 0.0
    ensures Divisor(v, embdNorm, root) > 0.0 <==> !IsZero(v)
  {
    if embdNorm == 0 {
      MaxAbsIsMaximum(v);
      if !IsZero(v) {
        var i :| 0 <= i < |v| && v[i] != 0.0;
        assert Abs(v[i]) <= MaxAbs(v);
      }
    } else {
      var p: nat := embdNorm;
      PowerSumIsZeroIff(v, p);
      if root(PowerSum(v, p), p) == 0.0 {
        assert Pow(0.0, p) == Pow(0.0, p - 1) * 0.0;
      }
      if IsZero(v) && root(0.0, p) > 0.0 {
        PowIsPositive(root(0.0, p), p);
      }
    }
  }

  /** For every embd_normalize of 0 or more, normalising forgets positive scaling. */
  lemma NormalisingForgetsScale(v: Vector, c: real, embdNorm: int, root: (real, nat) -> real)
    requires IsRoot(root) && c > 0.0 && embdNorm >= 0
    ensures Normalised(Scale(v, c), embdNorm, root) == Normalised(v, embdNorm, root)
  {
    DivisorOfScaled(v, c, embdNorm, root);
    DivisorIsPositiveIff(v, embdNorm, root);
    var d := Divisor(v, embdNorm, root);
    if d > 0.0 {
      assert Times(d, c) > 0.0;
      forall i | 0 <= i < |v|
        ensures Times(Times(v[i], c), 1.0 / Times(d, c)) == Times(v[i], 1.0 / d)
      {
        CancelScale(v[i], c, d);
      }
    }
  }

  lemma CancelScale(x: real, c: real, d: real)
    requires c > 0.0 && d > 0.0
    ensures Times(d, c) > 0.0 && Times(Times(x, c), 1.0 / Times(d, c)) == Times(x, 1.0 / d)
  {
    var u, t := 1.0 / d, 1.0 / (d * c);
    assert u * d == 1.0 && t * (d * c) == 1.0;
    assert (x * c) * t == (x * c) * t * (u * d) == x * u * (t * (d * c));
  }

  lemma OverThenTimes(x: real, c: real)
    requires c > 0.0
    ensures Times(Over(x, c), c) == x
  {}

  /** Consequently the division by the weight sum has no effect on the final embedding. */
  lemma MeanDivisionIsIrrelevant(sums: Vector, total: real, embdNorm: int, root: (real, nat) -> real)
    requires IsRoot(root) && total > 0.0 && embdNorm >= 0
    ensures Normalised(seq(|sums|, i requires 0 <= i < |sums| => Over(sums[i], total)), embdNorm, root)
            == Normalised(sums, embdNorm, root)
  {
    var mean := seq(|sums|, i requires 0 <= i < |sums| => Over(sums[i], total));
    forall i | 0 <= i < |sums|
      ensures Times(mean[i], total) == sums[i]
    {
      OverThenTimes(sums[i], total);
    }
    assert Scale(mean, total) == sums;
    NormalisingForgetsScale(mean, total, embdNorm, root);
  }

  lemma UnitPowerSum(v: Vector, p: nat, root: (real, nat) -> real)
    requires IsRoot(root) && p >= 1 && root(PowerSum(v, p), p) > 0.0
    ensures PowerSum(Scale(v, 1.0 / root(PowerSum(v, p), p)), p) == 1.0
  {
    var d := root(PowerSum(v, p), p);
    var c := 1.0 / d;
    assert Times(c, d) == 1.0;
    PowerSumIsZeroIff(v, p);
    PowerSumOfScaled(v, c, p);
    PowOfProduct(c, d, p);
    PowOfOne(p);
  }

  lemma FullScale(m: real)
    requires m > 0.0
    ensures 1.0 / (m / 32760.0) > 0.0 && Times(m, 1.0 / (m / 32760.0)) == 32760.0
  {
    var d := m / 32760.0;
    var c := 1.0 / d;
    assert c * d == 1.0;
    assert m * c == 32760.0 * (c * d);
  }

  lemma FullScaleMaxAbs(v: Vector)
    requires MaxAbs(v) > 0.0
    ensures MaxAbs(Scale(v, 1.0 / (MaxAbs(v) / 32760.0))) == 32760.0
  {
    FullScale(MaxAbs(v));
    MaxAbsOfScaled(v, 1.0 / (MaxAbs(v) / 32760.0));
  }

  /** Normalising keeps the direction: a vector other than zero comes out multiplied by one positive number. */
  lemma NormalisingKeepsDirection(v: Vector, embdNorm: int, root: (real, nat) -> real) returns (c: real)
    requires IsRoot(root) && embdNorm >= 0 && !IsZero(v)
    ensures var out := Normalised(v, embdNorm, root);
            c > 0.0 && |out| == |v| && forall i | 0 <= i < |v| :: out[i] == v[i] * c
  {
    DivisorIsPositiveIff(v, embdNorm, root);
    c := 1.0 / Divisor(v, embdNorm, root);
  }

  // The power sum adds up the powers of the magnitudes.
  lemma {:induction false} PowerSumOfConcat(u: Vector, v: Vector, p: nat)
    ensures PowerSum(u + v, p) == PowerSum(u, p) + PowerSum(v, p)
    ensures forall x :: PowerSum([x], p) == Pow(if x < 0.0 then -x else x, p)
  {
    assert forall x: real :: [x][..0] == [];
    if v == [] {
      assert u + v == u;
    } else {
      var n := |v| - 1;
      assert (u + v)[..|u + v| - 1] == u + v[..n];
      PowerSumOfConcat(u, v[..n], p);
    }
  }

  /** The vector (3, -4) under the usual settings: L2 gives (0.6, -0.8), L1 (3/7, -4/7), and the setting 0
      scales the largest magnitude to 32760. */
  lemma ThreeFourFive(root: (real, nat) -> real)
    requires IsRoot(root)
    ensures Normalised([3.0, -4.0], 2, root) == [0.6, -0.8]
    ensures Normalised([3.0, -4.0], 1, root) == [3.0 / 7.0, -4.0 / 7.0]
    ensures Normalised([3.0, -4.0], 0, root) == [24570.0, -32760.0]
  {
    var v := [3.0, -4.0];
    assert v[..1] == [3.0] && v[..1][..0] == [];
    Square(3.0);
    Square(4.0);
    Square(5.0);
    assert PowerSum(v, 2) == 25.0 && PowerSum(v, 1) == 7.0 && MaxAbs(v) == 4.0;
    RootIsUnique(root(25.0, 2), 5.0, 2);
    RootIsUnique(root(7.0, 1), 7.0, 1);
  }

  /** A non-zero vector comes out with p-norm 1 (L2 for 2) or largest magnitude 32760 (for 0), and
      the zero vector stays zero. */
  lemma NormalisedHasUnitNorm(v: Vector, embdNorm: int, root: (real, nat) -> real)
    requires IsRoot(root) && embdNorm >= 0
    ensures var out := Normalised(v, embdNorm, root);
            && (IsZero(v) ==> IsZero(out))
            && (!IsZero(v) && embdNorm > 0 ==> PowerSum(out, embdNorm) == 1.0)
            && (!IsZero(v) && embdNorm == 0 ==> MaxAbs(out) == 32760.0)
  {
    DivisorIsPositiveIff(v, embdNorm, root);
    if !IsZero(v) {
      if embdNorm == 0 {
        FullScaleMaxAbs(v);
      } else {
        UnitPowerSum(v, embdNorm, root);
      }
    }
  }
}
