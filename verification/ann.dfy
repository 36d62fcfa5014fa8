/** The one-hidden-layer perceptron of the ANN recommender: `dense`,
    `relu`, `dot`, `sigmoid` and `annPredictScore`. Numbers are exact
    reals and `Math.exp` is a parameter known only to be positive. */
module Ann {
  import opened Wrappers

  /** A stand-in for `Math.exp`: any function with positive values. */
  type PositiveFn = f: real -> real | forall x :: f(x) > 0.0 witness (x: real) => 1.0

  /** `v[j] ?? 0`: an index past the end reads as 0. */
  function Padded(v: seq<real>, j: nat): real {
    if j < |v| then v[j] else 0.0
  }

  /** The sum of `row[j] * vec[j]` over the first `n` entries of `row`,
      reading missing entries of `vec` as 0, added up from left to right. */
  function RowSum(row: seq<real>, vec: seq<real>, n: nat): real
    requires n <= |row|
  {
    if n == 0 then 0.0 else RowSum(row, vec, n - 1) + row[n - 1] * Padded(vec, n - 1)
  }

  /** The sum of `a[i] * b[i]` over the first `n` positions. */
  function DotTo(a: seq<real>, b: seq<real>, n: nat): real
    requires n <= |a| && n <= |b|
  {
    if n == 0 then 0.0 else DotTo(a, b, n - 1) + a[n - 1] * b[n - 1]
  }

  function Min(a: nat, b: nat): nat {
    if a < b then a else b
  }

  /** `dot(a, b)`: the inner product over the shorter of the two. */
  function Dot(a: seq<real>, b: seq<real>): real {
    DotTo(a, b, Min(|a|, |b|))
  }

  /** `dense(vec, W, b)`: one output per row of `W`, each the matching
      bias (0 past the end of `b`) plus `dot(row, vec)`: reading missing
      inputs as 0 adds nothing beyond the shorter of the row and the input. */
  function Dense(vec: seq<real>, W: seq<seq<real>>, b: seq<real>): (r: seq<real>)
    ensures |r| == |W|
    ensures forall i :: 0 <= i < |W| ==> r[i] == Padded(b, i) + Dot(W[i], vec)
  {
    assert forall i :: 0 <= i < |W| ==> RowSum(W[i], vec, |W[i]|) == Dot(W[i], vec) by {
      forall i | 0 <= i < |W| ensures RowSum(W[i], vec, |W[i]|) == Dot(W[i], vec) {
        RowSumIsDotTo(W[i], vec, |W[i]|);
      }
    }
    seq(|W|, i requires 0 <= i < |W| => Padded(b, i) + RowSum(W[i], vec, |W[i]|))
  }

  /** The loops of `dense`: the bias first, then one product per column. */
  method DenseLoop(vec: seq<real>, W: seq<seq<real>>, b: seq<real>) returns (out: seq<real>)
    ensures out == Dense(vec, W, b)
  {
    out := [];
    var i := 0;
    while i < |W|
      invariant 0 <= i <= |W| && |out| == i
      invariant forall k :: 0 <= k < i ==> out[k] == Padded(b, k) + RowSum(W[k], vec, |W[k]|)
    {
      var sum := if i < |b| then b[i] else 0.0;
      var row := W[i];
      var j := 0;
      while j < |row|
        invariant 0 <= j <= |row|
        invariant sum == Padded(b, i) + RowSum(row, vec, j)
      {
        sum := sum + row[j] * (if j < |vec| then vec[j] else 0.0);
        j := j + 1;
      }
      out := out + [sum];
      i := i + 1;
    }
  }

  /** The loop of `dot`. */
  method DotLoop(a: seq<real>, b: seq<real>) returns (s: real)
    ensures s == Dot(a, b)
  {
    s := 0.0;
    var n := if |a| < |b| then |a| else |b|;
    var i := 0;
    while i < n
      invariant 0 <= i <= n && n == Min(|a|, |b|)
      invariant s == DotTo(a, b, i)
    {
      s := s + a[i] * b[i];
      i := i + 1;
    }
  }

  /** The inner product does not depend on the order of its arguments. */
  lemma {:induction false} DotToSymmetric(a: seq<real>, b: seq<real>, n: nat)
    requires n <= |a| && n <= |b|
    ensures DotTo(a, b, n) == DotTo(b, a, n)
  {
    if n > 0 {
      DotToSymmetric(a, b, n - 1);
    }
  }

  lemma DotSymmetric(a: seq<real>, b: seq<real>)
    ensures Dot(a, b) == Dot(b, a)
  {
    DotToSymmetric(a, b, Min(|a|, |b|));
  }

  /** A padded row sum is the inner product over the shorter of the row's
      first `n` entries and `vec`: the padding contributes only zeros. */
  lemma {:induction false} RowSumIsDotTo(row: seq<real>, vec: seq<real>, n: nat)
    requires n <= |row|
    ensures RowSum(row, vec, n) == DotTo(row, vec, Min(n, |vec|))
  {
    if n > 0 {
      RowSumIsDotTo(row, vec, n - 1);
    }
  }

  /** `relu(v)`: negative entries become 0. */
  function Relu(v: seq<real>): (r: seq<real>)
    ensures |r| == |v|
    ensures forall i :: 0 <= i < |v| ==> r[i] >= 0.0 && (r[i] == v[i] || r[i] == 0.0)
  {
    seq(|v|, i requires 0 <= i < |v| => if v[i] > 0.0 then v[i] else 0.0)
  }

  /** `relu` keeps positive entries, zeroes the rest, and applying it twice
      changes nothing. */
  lemma ReluFacts(v: seq<real>)
    ensures forall i :: 0 <= i < |v| ==> (Relu(v)[i] == v[i] <==> v[i] >= 0.0)
    ensures forall i :: 0 <= i < |v| ==> (Relu(v)[i] > 0.0 <==> v[i] > 0.0)
    ensures Relu(Relu(v)) == Relu(v)
  {
  }

  /** `sigmoid(x)`: saturates to 0 below -30 and to 1 above 30, and is
      `1 / (1 + exp(-x))` in between. */
  function Sigmoid(x: real, exp: PositiveFn): (r: real)
    ensures 0.0 <= r <= 1.0
    ensures x < -30.0 <==> r == 0.0
    ensures x > 30.0 <==> r == 1.0
  {
    if x < -30.0 then 0.0
    else if x > 30.0 then 1.0
    else Logistic(exp(-x))
  }

  /** `1 / (1 + e)` for a positive `e`: strictly between 0 and 1. */
  function Logistic(e: real): (r: real)
    requires e > 0.0
    ensures 0.0 < r < 1.0
    ensures r * (1.0 + e) == 1.0
  {
    var r := 1.0 / (1.0 + e);
    assert r * (1.0 + e) == 1.0;
    r
  }

  /** A larger `e` gives a smaller `1 / (1 + e)`. */
  lemma LogisticOrder(c: real, d: real)
    requires 0.0 < c <= d
    ensures Logistic(d) <= Logistic(c)
  {
    var p, q := Logistic(c), Logistic(d);
    assert q * (1.0 + c) <= q * (1.0 + d);
    assert q * (1.0 + c) <= p * (1.0 + c);
  }

  /** `sigmoid` never decreases: `sigmoid(x) <= sigmoid(y)` for `x <= y`,
      given the one fact about `exp` the step needs, `exp(-y) <= exp(-x)`,
      which an increasing `exp` provides. */
  lemma SigmoidMonotone(x: real, y: real, exp: PositiveFn)
    requires x <= y && exp(-y) <= exp(-x)
    ensures Sigmoid(x, exp) <= Sigmoid(y, exp)
  {
    if x < -30.0 {
      assert Sigmoid(x, exp) == 0.0;
    } else if y > 30.0 {
      assert Sigmoid(y, exp) == 1.0;
    } else {
      LogisticOrder(exp(-y), exp(-x));
      SigmoidMiddle(x, exp);
      SigmoidMiddle(y, exp);
    }
  }

  /** Between the saturation points `sigmoid` is the logistic function. */
  lemma SigmoidMiddle(x: real, exp: PositiveFn)
    requires -30.0 <= x <= 30.0
    ensures Sigmoid(x, exp) == Logistic(exp(-x))
  {
  }

  /** With `exp(0) = 1`, `sigmoid(0)` is one half. */
  lemma SigmoidZero(exp: PositiveFn)
    requires exp(0.0) == 1.0
    ensures Sigmoid(0.0, exp) == 0.5
  {
    assert Sigmoid(0.0, exp) == Logistic(exp(-0.0));
  }

  /** The network's parameters. `hiddenSize` is carried but never read. */
  datatype AnnWeights = AnnWeights(
    inputSize: int,
    hiddenSize: int,
    W1: seq<seq<real>>,
    b1: seq<real>,
    W2: seq<real>,
    b2: real)

  /** The `ANN input size mismatch` error, with the expected and actual sizes. */
  datatype SizeMismatch = SizeMismatch(expected: int, got: nat)

  /** `annPredictScore(x, weights)`: fails when `x` does not have
      `inputSize` entries; otherwise the sigmoid of the output layer. */
  function Predict(x: seq<real>, w: AnnWeights, exp: PositiveFn): (r: Result<real, SizeMismatch>)
    ensures r.Failure? <==> |x| != w.inputSize
    ensures r.Failure? ==> r.error == SizeMismatch(w.inputSize, |x|)
    ensures r.Success? ==> 0.0 <= r.value <= 1.0
  {
    if |x| != w.inputSize then Failure(SizeMismatch(w.inputSize, |x|))
    else Success(Sigmoid(Dot(w.W2, Relu(Dense(x, w.W1, w.b1))) + w.b2, exp))
  }

  /** The score depends on the layers only: `hiddenSize` has no effect. */
  lemma PredictIgnoresHiddenSize(x: seq<real>, w: AnnWeights, h: int, exp: PositiveFn)
    ensures Predict(x, w, exp) == Predict(x, w.(hiddenSize := h), exp)
  {
    var v := w.(hiddenSize := h);
    assert v.inputSize == w.inputSize && v.W1 == w.W1 && v.b1 == w.b1;
    assert v.W2 == w.W2 && v.b2 == w.b2;
  }

  /** A network whose output weights are all non-positive and whose output
      bias is below -30 scores 0 on every input of the right size. */
  lemma {:induction false} DotNonPositive(a: seq<real>, h: seq<real>, n: nat)
    requires n <= |a| && n <= |h|
    requires forall i :: 0 <= i < |a| ==> a[i] <= 0.0
    requires forall i :: 0 <= i < |h| ==> h[i] >= 0.0
    ensures DotTo(a, h, n) <= 0.0
  {
    if n > 0 {
      DotNonPositive(a, h, n - 1);
      assert a[n - 1] * h[n - 1] <= 0.0;
    }
  }

  lemma SilencedNetwork(x: seq<real>, w: AnnWeights, exp: PositiveFn)
    requires |x| == w.inputSize
    requires forall i :: 0 <= i < |w.W2| ==> w.W2[i] <= 0.0
    requires w.b2 < -30.0
    ensures Predict(x, w, exp) == Success(0.0)
  {
    var h := Relu(Dense(x, w.W1, w.b1));
    DotNonPositive(w.W2, h, Min(|w.W2|, |h|));
  }
}
