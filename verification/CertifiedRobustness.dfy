/** Interval bound propagation over a list of layers, and the bisection for a certified radius.
    Arrays are sequences of reals; a batch-norm layer carries the positive square root that the
    source computes from `var + eps`. */
module CertifiedRobustness {

  type Vec = seq<real>

  datatype Layer =
    | Linear(W: seq<Vec>, b: Vec)
    | ReLU
    | BatchNorm(gamma: Vec, beta: Vec, mean: Vec, variance: Vec, eps: real, root: Vec)
    | Unsupported(ltype: string)

  datatype Box = Box(lo: Vec, hi: Vec)

  datatype Checked<+T> = Ok(value: T) | ValueError(ltype: string)

  /** The shapes numpy needs, and `root` being the square root of `variance + eps`. */
  ghost predicate Fits(layer: Layer, n: nat) {
    match layer
    case Linear(W, b) => 0 < |W| == |b| && forall i :: 0 <= i < |W| ==> |W[i]| == n
    case ReLU => true
    case BatchNorm(gamma, beta, mean, variance, eps, root) =>
      && |gamma| == |beta| == |mean| == |variance| == |root| == n
      && forall i :: 0 <= i < n ==> root[i] > 0.0 && root[i] * root[i] == variance[i] + eps
    case Unsupported(_) => true
  }

  function OutDim(layer: Layer, n: nat): nat {
    if layer.Linear? then |layer.W| else n
  }

  ghost predicate FitsAll(layers: seq<Layer>, n: nat) {
    layers == [] || (Fits(layers[0], n) && FitsAll(layers[1..], OutDim(layers[0], n)))
  }

  predicate Supported(layers: seq<Layer>) {
    forall l :: l in layers ==> !l.Unsupported?
  }

  // ----- vectors -----

  function Max(a: real, b: real): real { if a >= b then a else b }
  function Min(a: real, b: real): real { if a <= b then a else b }

  /** max(w, 0) in each place: the positive weights, and the ReLU layer itself. */
  function PosPart(w: Vec): (p: Vec)
    ensures |p| == |w|
  { seq(|w|, i requires 0 <= i < |w| => Max(w[i], 0.0)) }

  function NegPart(w: Vec): (p: Vec)
    ensures |p| == |w|
  { seq(|w|, i requires 0 <= i < |w| => Min(w[i], 0.0)) }

  function Dot(w: Vec, x: Vec): real
    requires |w| == |x|
  {
    if w == [] then 0.0 else w[0] * x[0] + Dot(w[1..], x[1..])
  }

  function Sum(x: Vec): real {
    if x == [] then 0.0 else x[0] + Sum(x[1..])
  }

  function Mean(x: Vec): real
    requires x != []
  {
    Sum(x) / |x| as real
  }

  function Shift(x: Vec, d: real): (y: Vec)
    ensures |y| == |x|
  { seq(|x|, i requires 0 <= i < |x| => x[i] + d) }

  ghost predicate Below(a: Vec, b: Vec) {
    |a| == |b| && forall i :: 0 <= i < |a| ==> a[i] <= b[i]
  }

  /** `inner` is contained in `outer`, coordinate by coordinate. */
  ghost predicate Within(inner: Box, outer: Box) {
    Below(outer.lo, inner.lo) && Below(inner.hi, outer.hi)
  }

  // ----- one layer: the interval form and the real forward pass -----

  function IbpLinear(box: Box, W: seq<Vec>, b: Vec): (r: Box)
    requires |box.lo| == |box.hi| && |W| == |b| && forall i :: 0 <= i < |W| ==> |W[i]| == |box.lo|
    ensures |r.lo| == |r.hi| == |W|
  {
    Box(seq(|W|, i requires 0 <= i < |W| => Dot(PosPart(W[i]), box.lo) + Dot(NegPart(W[i]), box.hi) + b[i]),
        seq(|W|, i requires 0 <= i < |W| => Dot(PosPart(W[i]), box.hi) + Dot(NegPart(W[i]), box.lo) + b[i]))
  }

  function Scale(gamma: Vec, root: Vec, i: nat): real
    requires i < |gamma| == |root| && root[i] > 0.0
  { gamma[i] / root[i] }

  function IbpBatchNorm(box: Box, gamma: Vec, beta: Vec, mean: Vec, root: Vec): (r: Box)
    requires |box.lo| == |box.hi| == |gamma| == |beta| == |mean| == |root|
    requires forall i :: 0 <= i < |root| ==> root[i] > 0.0
    ensures |r.lo| == |r.hi| == |box.lo|
  {
    Box(seq(|gamma|, i requires 0 <= i < |gamma| =>
          var scale := Scale(gamma, root, i); var bias := beta[i] - scale * mean[i];
          if scale >= 0.0 then scale * box.lo[i] + bias else scale * box.hi[i] + bias),
        seq(|gamma|, i requires 0 <= i < |gamma| =>
          var scale := Scale(gamma, root, i); var bias := beta[i] - scale * mean[i];
          if scale >= 0.0 then scale * box.hi[i] + bias else scale * box.lo[i] + bias))
  }

  function IbpLayer(layer: Layer, box: Box): (r: Box)
    requires |box.lo| == |box.hi| && Fits(layer, |box.lo|) && !layer.Unsupported?
    ensures |r.lo| == |r.hi| == OutDim(layer, |box.lo|)
  {
    match layer
    case Linear(W, b) => IbpLinear(box, W, b)
    case ReLU => Box(PosPart(box.lo), PosPart(box.hi))
    case BatchNorm(gamma, beta, mean, _, _, root) => IbpBatchNorm(box, gamma, beta, mean, root)
  }

  /** The network itself on one point: W.x + b, max(0, x), gamma * (x - mean) / sqrt(var + eps) + beta. */
  function ForwardLayer(layer: Layer, x: Vec): (y: Vec)
    requires Fits(layer, |x|) && !layer.Unsupported?
    ensures |y| == OutDim(layer, |x|)
  {
    match layer
    case Linear(W, b) => seq(|W|, i requires 0 <= i < |W| => Dot(W[i], x) + b[i])
    case ReLU => PosPart(x)
    case BatchNorm(gamma, beta, mean, _, _, root) =>
      seq(|x|, i requires 0 <= i < |x| => gamma[i] * (x[i] - mean[i]) / root[i] + beta[i])
  }

  // ----- the whole network -----

  function PropagateBox(layers: seq<Layer>, box: Box): (r: Box)
    requires |box.lo| == |box.hi| && FitsAll(layers, |box.lo|) && Supported(layers)
    ensures |r.lo| == |r.hi| && (box.lo != [] ==> r.lo != [])
  {
    if layers == [] then box else PropagateBox(layers[1..], IbpLayer(layers[0], box))
  }

  function Forward(layers: seq<Layer>, x: Vec): (y: Vec)
    requires FitsAll(layers, |x|) && Supported(layers)
    ensures x != [] ==> y != []
  {
    if layers == [] then x else Forward(layers[1..], ForwardLayer(layers[0], x))
  }

  function Ball(x: Vec, eps: real): (b: Box)
    ensures |b.lo| == |b.hi| == |x|
  { Box(Shift(x, -eps), Shift(x, eps)) }

  predicate RightSide(score: real, target: int, threshold: real) {
    if target == 1 then score >= threshold else score < threshold
  }

  function WorstScore(box: Box, target: int): real
    requires |box.lo| == |box.hi| && box.lo != []
  { if target == 1 then Mean(box.lo) else Mean(box.hi) }

  predicate Certified(layers: seq<Layer>, x: Vec, eps: real, target: int, threshold: real)
    requires x != [] && FitsAll(layers, |x|) && Supported(layers)
  {
    RightSide(WorstScore(PropagateBox(layers, Ball(x, eps)), target), target, threshold)
  }

  predicate Correct(layers: seq<Layer>, x: Vec, target: int, threshold: real)
    requires x != [] && FitsAll(layers, |x|) && Supported(layers)
  {
    RightSide(Mean(Forward(layers, x)), target, threshold)
  }

  ghost predicate InBall(x: Vec, eps: real, y: Vec) {
    |y| == |x| && forall i :: 0 <= i < |x| ==> -eps <= y[i] - x[i] <= eps
  }

  // ----- what the layers compute -----

  function Zeros(n: nat): (z: Vec)
    ensures |z| == n
  { seq(n, _ => 0.0) }

  lemma {:induction false} DotZeros(w: Vec)
    ensures Dot(w, Zeros(|w|)) == 0.0
  {
    if w != [] {
      assert Zeros(|w|)[1..] == Zeros(|w[1..]|);
      DotZeros(w[1..]);
    }
  }

  /** Moving one coordinate moves the product by its weight. */
  lemma {:induction false} DotMoves(w: Vec, x: Vec, i: nat, v: real)
    requires |w| == |x| && i < |x|
    ensures Dot(w, x[i := v]) == Dot(w, x) + w[i] * (v - x[i])
  {
    if i == 0 {
      assert x[i := v][1..] == x[1..];
    } else {
      assert x[i := v][1..] == x[1..][i - 1 := v];
      DotMoves(w[1..], x[1..], i - 1, v);
    }
  }

  lemma {:induction false} SumOfZeros(n: nat)
    ensures Sum(Zeros(n)) == 0.0
  {
    if n > 0 {
      assert Zeros(n)[1..] == Zeros(n - 1);
      SumOfZeros(n - 1);
    }
  }

  lemma {:induction false} SumMoves(x: Vec, i: nat, v: real)
    requires i < |x|
    ensures Sum(x[i := v]) == Sum(x) + (v - x[i])
  {
    if i == 0 {
      assert x[i := v][1..] == x[1..];
    } else {
      assert x[i := v][1..] == x[1..][i - 1 := v];
      SumMoves(x[1..], i - 1, v);
    }
  }

  /** The mean of zeros is zero, and moving one of n coordinates moves it by the n-th part. */
  lemma MeanMoves(x: Vec, i: nat, v: real)
    requires i < |x|
    ensures Mean(Zeros(|x|)) == 0.0
    ensures Mean(x[i := v]) == Mean(x) + (v - x[i]) / |x| as real
  {
    SumOfZeros(|x|);
    SumMoves(x, i, v);
    DivideSum(Sum(x), v - x[i], |x| as real);
  }

  lemma DivideSum(s: real, d: real, n: real)
    requires n > 0.0
    ensures (s + d) / n == s / n + d / n
  {}

  /** A linear layer takes the zero vector to its bias, and moving input i by d moves output j by W[j][i] * d: it is
      the map x to W.x + b and no other. */
  lemma LinearMoves(W: seq<Vec>, b: Vec, x: Vec, i: nat, d: real, j: nat)
    requires Fits(Linear(W, b), |x|) && i < |x| && j < |W|
    ensures ForwardLayer(Linear(W, b), Zeros(|x|)) == b
    ensures ForwardLayer(Linear(W, b), x[i := x[i] + d])[j] == ForwardLayer(Linear(W, b), x)[j] + W[j][i] * d
  {
    forall k | 0 <= k < |W| ensures ForwardLayer(Linear(W, b), Zeros(|x|))[k] == b[k] { DotZeros(W[k]); }
    DotMoves(W[j], x, i, x[i] + d);
  }

  /** ReLU keeps what is not negative and takes the rest to zero. */
  lemma ReluRectifies(x: Vec, i: nat)
    requires i < |x|
    ensures ForwardLayer(ReLU, x)[i] == if x[i] >= 0.0 then x[i] else 0.0
  {}

  /** A normalised input at its mean goes to beta, and one standard deviation above it to beta + gamma. */
  lemma BatchNormNormalises(layer: Layer, x: Vec, i: nat)
    requires layer.BatchNorm? && Fits(layer, |x|) && i < |x|
    ensures x[i] == layer.mean[i] ==> ForwardLayer(layer, x)[i] == layer.beta[i]
    ensures x[i] == layer.mean[i] + layer.root[i] ==> ForwardLayer(layer, x)[i] == layer.beta[i] + layer.gamma[i]
  {
    if x[i] == layer.mean[i] + layer.root[i] { WholeQuotient(layer.gamma[i], layer.root[i]); }
  }

  lemma WholeQuotient(g: real, r: real)
    requires r > 0.0
    ensures g * r / r == g
  {}

  /** A point lies in the ball exactly when its one-point box lies in the box the program starts from. */
  lemma BallIsExact(x: Vec, eps: real, y: Vec)
    requires |y| == |x|
    ensures InBall(x, eps, y) <==> Within(Box(y, y), Ball(x, eps))
  {
    if Within(Box(y, y), Ball(x, eps)) {
      forall i | 0 <= i < |x| ensures -eps <= y[i] - x[i] <= eps {
        assert Ball(x, eps).lo[i] <= y[i] <= Ball(x, eps).hi[i];
      }
    }
  }

  /** Each score is right for exactly one class, the threshold itself and all above it for the positive one. */
  lemma ClassesPartition(score: real, threshold: real)
    ensures RightSide(score, 1, threshold) <==> !RightSide(score, 0, threshold)
    ensures RightSide(threshold, 1, threshold)
    ensures score >= threshold ==> RightSide(score, 1, threshold)
    ensures score < threshold ==> RightSide(score, 0, threshold)
  {}

  // ----- the interval rules are as tight as they can be -----

  /** The corner of the box at which the product with w is least. */
  function LeastCorner(w: Vec, box: Box): (x: Vec)
    requires |w| == |box.lo| == |box.hi|
    ensures |x| == |w|
  { seq(|w|, i requires 0 <= i < |w| => if w[i] >= 0.0 then box.lo[i] else box.hi[i]) }

  lemma {:induction false} LeastAtCorner(w: Vec, box: Box)
    requires |w| == |box.lo| == |box.hi|
    ensures Dot(w, LeastCorner(w, box)) == Dot(PosPart(w), box.lo) + Dot(NegPart(w), box.hi)
  {
    if w != [] {
      var rest := Box(box.lo[1..], box.hi[1..]);
      assert LeastCorner(w, box)[1..] == LeastCorner(w[1..], rest);
      assert PosPart(w)[1..] == PosPart(w[1..]) && NegPart(w)[1..] == NegPart(w[1..]);
      LeastAtCorner(w[1..], rest);
    }
  }

  ghost predicate Attains(layer: Layer, box: Box, j: nat, x: Vec, v: real)
    requires |box.lo| == |box.hi| && Fits(layer, |box.lo|) && !layer.Unsupported?
  {
    && |x| == |box.lo| && (Below(box.lo, box.hi) ==> Within(Box(x, x), box))
    && j < OutDim(layer, |x|) && ForwardLayer(layer, x)[j] == v
  }

  lemma LinearTight(layer: Layer, box: Box, j: nat)
    requires layer.Linear? && |box.lo| == |box.hi| && Fits(layer, |box.lo|) && j < |layer.W|
    ensures Attains(layer, box, j, LeastCorner(layer.W[j], box), IbpLayer(layer, box).lo[j])
    ensures Attains(layer, box, j, LeastCorner(layer.W[j], Box(box.hi, box.lo)), IbpLayer(layer, box).hi[j])
  {
    LeastAtCorner(layer.W[j], box);
    LeastAtCorner(layer.W[j], Box(box.hi, box.lo));
  }

  lemma BatchNormTight(layer: Layer, box: Box, j: nat)
    requires layer.BatchNorm? && |box.lo| == |box.hi| && Fits(layer, |box.lo|) && j < |box.lo|
    ensures var up := Scale(layer.gamma, layer.root, j) >= 0.0;
      && Attains(layer, box, j, if up then box.lo else box.hi, IbpLayer(layer, box).lo[j])
      && Attains(layer, box, j, if up then box.hi else box.lo, IbpLayer(layer, box).hi[j])
  {
    AffineForm(layer.gamma[j], layer.root[j], box.lo[j], layer.mean[j], layer.beta[j]);
    AffineForm(layer.gamma[j], layer.root[j], box.hi[j], layer.mean[j], layer.beta[j]);
  }

  /** Both ends of every output interval are attained inside the input box, by any kind of layer. */
  lemma LayerTight(layer: Layer, box: Box, j: nat)
    requires |box.lo| == |box.hi| && Fits(layer, |box.lo|) && !layer.Unsupported? && j < OutDim(layer, |box.lo|)
    ensures exists x :: Attains(layer, box, j, x, IbpLayer(layer, box).lo[j])
    ensures exists x :: Attains(layer, box, j, x, IbpLayer(layer, box).hi[j])
  {
    match layer
    case Linear(_, _) => LinearTight(layer, box, j);
    case ReLU =>
      assert Attains(layer, box, j, box.lo, IbpLayer(layer, box).lo[j]);
      assert Attains(layer, box, j, box.hi, IbpLayer(layer, box).hi[j]);
    case BatchNorm(_, _, _, _, _, _) => BatchNormTight(layer, box, j);
  }

  // ----- monotonicity of one layer -----

  lemma {:induction false} DotMonotone(p: Vec, a: Vec, b: Vec)
    requires |p| == |a| && Below(a, b)
    ensures (forall i :: 0 <= i < |p| ==> p[i] >= 0.0) ==> Dot(p, a) <= Dot(p, b)
    ensures (forall i :: 0 <= i < |p| ==> p[i] <= 0.0) ==> Dot(p, a) >= Dot(p, b)
  {
    if p != [] {
      DotMonotone(p[1..], a[1..], b[1..]);
      if p[0] >= 0.0 { ScaleMonotone(p[0], a[0], b[0]); }
      if p[0] <= 0.0 { ScaleMonotone(-p[0], a[0], b[0]); }
    }
  }

  lemma ScaleMonotone(c: real, a: real, b: real)
    requires c >= 0.0 && a <= b
    ensures c * a <= c * b
  {}

  /** Splitting a row into its positive and negative part loses nothing. */
  lemma {:induction false} DotSplits(w: Vec, x: Vec)
    requires |w| == |x|
    ensures Dot(PosPart(w), x) + Dot(NegPart(w), x) == Dot(w, x)
  {
    if w != [] {
      assert PosPart(w)[1..] == PosPart(w[1..]);
      assert NegPart(w)[1..] == NegPart(w[1..]);
      DotSplits(w[1..], x[1..]);
      assert PosPart(w)[0] * x[0] + NegPart(w)[0] * x[0] == w[0] * x[0];
    }
  }

  lemma LinearNested(W: seq<Vec>, b: Vec, inner: Box, outer: Box)
    requires |inner.lo| == |inner.hi| && Within(inner, outer)
    requires |W| == |b| && forall i :: 0 <= i < |W| ==> |W[i]| == |inner.lo|
    ensures Within(IbpLinear(inner, W, b), IbpLinear(outer, W, b))
  {
    var small, large := IbpLinear(inner, W, b), IbpLinear(outer, W, b);
    forall i | 0 <= i < |W| ensures large.lo[i] <= small.lo[i] && small.hi[i] <= large.hi[i] {
      var p, n := PosPart(W[i]), NegPart(W[i]);
      assert (forall k :: 0 <= k < |p| ==> p[k] >= 0.0) && (forall k :: 0 <= k < |n| ==> n[k] <= 0.0);
      DotMonotone(p, outer.lo, inner.lo);
      DotMonotone(n, inner.hi, outer.hi);
      DotMonotone(p, inner.hi, outer.hi);
      DotMonotone(n, outer.lo, inner.lo);
    }
  }

  lemma BatchNormNested(gamma: Vec, beta: Vec, mean: Vec, root: Vec, inner: Box, outer: Box)
    requires |inner.lo| == |inner.hi| == |gamma| == |beta| == |mean| == |root| && Within(inner, outer)
    requires forall i :: 0 <= i < |root| ==> root[i] > 0.0
    ensures Within(IbpBatchNorm(inner, gamma, beta, mean, root), IbpBatchNorm(outer, gamma, beta, mean, root))
  {
    var small, large := IbpBatchNorm(inner, gamma, beta, mean, root), IbpBatchNorm(outer, gamma, beta, mean, root);
    forall i | 0 <= i < |gamma| ensures large.lo[i] <= small.lo[i] && small.hi[i] <= large.hi[i] {
      var scale := Scale(gamma, root, i);
      if scale >= 0.0 {
        ScaleMonotone(scale, outer.lo[i], inner.lo[i]);
        ScaleMonotone(scale, inner.hi[i], outer.hi[i]);
      } else {
        ScaleMonotone(-scale, outer.lo[i], inner.lo[i]);
        ScaleMonotone(-scale, inner.hi[i], outer.hi[i]);
      }
    }
  }

  lemma LayerNested(layer: Layer, inner: Box, outer: Box)
    requires |inner.lo| == |inner.hi| && Within(inner, outer)
    requires Fits(layer, |inner.lo|) && !layer.Unsupported?
    ensures Within(IbpLayer(layer, inner), IbpLayer(layer, outer))
  {
    match layer
    case Linear(W, b) => LinearNested(W, b, inner, outer);
    case ReLU =>
    case BatchNorm(gamma, beta, mean, _, _, root) => BatchNormNested(gamma, beta, mean, root, inner, outer);
  }

  /** A box that is one point goes to the box that is the forward image of that point. */
  lemma LayerExact(layer: Layer, x: Vec)
    requires Fits(layer, |x|) && !layer.Unsupported?
    ensures IbpLayer(layer, Box(x, x)) == Box(ForwardLayer(layer, x), ForwardLayer(layer, x))
  {
    var r, y := IbpLayer(layer, Box(x, x)), ForwardLayer(layer, x);
    match layer
    case Linear(W, b) =>
      forall i | 0 <= i < |W| ensures r.lo[i] == y[i] == r.hi[i] {
        DotSplits(W[i], x);
      }
      assert r.lo == y && r.hi == y;
    case ReLU =>
    case BatchNorm(gamma, beta, mean, _, _, root) =>
      forall i | 0 <= i < |x| ensures r.lo[i] == y[i] == r.hi[i] {
        AffineForm(gamma[i], root[i], x[i], mean[i], beta[i]);
      }
      assert r.lo == y && r.hi == y;
  }

  lemma AffineForm(gamma: real, root: real, x: real, mean: real, beta: real)
    requires root > 0.0
    ensures gamma / root * x + (beta - gamma / root * mean) == gamma * (x - mean) / root + beta
  {
    var s := gamma / root;
    assert s * root == gamma;
    assert gamma * (x - mean) == s * (x - mean) * root;
    assert s * (x - mean) * root / root == s * (x - mean);
  }

  // ----- the whole network -----

  lemma {:induction false} BoxesNested(layers: seq<Layer>, inner: Box, outer: Box)
    requires |inner.lo| == |inner.hi| && Within(inner, outer)
    requires FitsAll(layers, |inner.lo|) && Supported(layers)
    ensures Within(PropagateBox(layers, inner), PropagateBox(layers, outer))
  {
    if layers != [] {
      LayerNested(layers[0], inner, outer);
      BoxesNested(layers[1..], IbpLayer(layers[0], inner), IbpLayer(layers[0], outer));
    }
  }

  lemma {:induction false} PointsExact(layers: seq<Layer>, x: Vec)
    requires FitsAll(layers, |x|) && Supported(layers)
    ensures PropagateBox(layers, Box(x, x)) == Box(Forward(layers, x), Forward(layers, x))
  {
    if layers != [] {
      LayerExact(layers[0], x);
      PointsExact(layers[1..], ForwardLayer(layers[0], x));
    }
  }

  lemma {:induction false} SumMonotone(a: Vec, b: Vec)
    requires Below(a, b)
    ensures Sum(a) <= Sum(b)
  {
    if a != [] { SumMonotone(a[1..], b[1..]); }
  }

  lemma MeanMonotone(a: Vec, b: Vec)
    requires Below(a, b) && a != []
    ensures Mean(a) <= Mean(b)
  {
    SumMonotone(a, b);
    DivMonotone(Sum(a), Sum(b), |a| as real);
  }

  lemma DivMonotone(s: real, t: real, d: real)
    requires s <= t && d > 0.0
    ensures s / d <= t / d
  {}

  /** A smaller box has a worst-case score that is no worse. */
  lemma NestedKeepsSide(inner: Box, outer: Box, target: int, threshold: real)
    requires |inner.lo| == |inner.hi| && inner.lo != [] && Within(inner, outer)
    requires RightSide(WorstScore(outer, target), target, threshold)
    ensures RightSide(WorstScore(inner, target), target, threshold)
  {
    MeanMonotone(outer.lo, inner.lo);
    MeanMonotone(inner.hi, outer.hi);
  }

  /** Every point of a certified ball is on the labelled side of the threshold. */
  lemma CertifiedIsSound(layers: seq<Layer>, x: Vec, eps: real, target: int, threshold: real, y: Vec)
    requires x != [] && FitsAll(layers, |x|) && Supported(layers)
    requires Certified(layers, x, eps, target, threshold) && InBall(x, eps, y)
    ensures Correct(layers, y, target, threshold)
  {
    BoxesNested(layers, Box(y, y), Ball(x, eps));
    PointsExact(layers, y);
    NestedKeepsSide(PropagateBox(layers, Box(y, y)), PropagateBox(layers, Ball(x, eps)), target, threshold);
  }

  /** Certification is downward closed in the radius. */
  lemma CertifiedIsDownwardClosed(layers: seq<Layer>, x: Vec, small: real, large: real, target: int, threshold: real)
    requires x != [] && FitsAll(layers, |x|) && Supported(layers)
    requires 0.0 <= small <= large && Certified(layers, x, large, target, threshold)
    ensures Certified(layers, x, small, target, threshold)
  {
    BoxesNested(layers, Ball(x, small), Ball(x, large));
    NestedKeepsSide(PropagateBox(layers, Ball(x, small)), PropagateBox(layers, Ball(x, large)), target, threshold);
  }

  /** At radius zero certification is exactly a correct clean prediction. */
  lemma CertifiedAtZero(layers: seq<Layer>, x: Vec, target: int, threshold: real)
    requires x != [] && FitsAll(layers, |x|) && Supported(layers)
    ensures PropagateBox(layers, Ball(x, 0.0)) == Box(Forward(layers, x), Forward(layers, x))
    ensures Certified(layers, x, 0.0, target, threshold) <==> Correct(layers, x, target, threshold)
  {
    assert Shift(x, -0.0) == x && Shift(x, 0.0) == x;
    PointsExact(layers, x);
  }

  // ----- the source's loops -----

  method Propagate(x: Vec, eps: real, layers: seq<Layer>) returns (r: Checked<Box>)
    requires FitsAll(layers, |x|)
    ensures r.ValueError? <==> !Supported(layers)
    ensures r.Ok? ==> r.value == PropagateBox(layers, Ball(x, eps))
  {
    var box := Ball(x, eps);
    for k := 0 to |layers|
      invariant |box.lo| == |box.hi|
      invariant FitsAll(layers[k..], |box.lo|)
      invariant Supported(layers[..k])
      invariant Supported(layers) ==>
        PropagateBox(layers[k..], box) == PropagateBox(layers, Ball(x, eps))
    {
      var layer := layers[k];
      assert layers[k..][0] == layer && layers[k..][1..] == layers[k + 1..];
      match layer
      case Linear(W, b) => box := IbpLinear(box, W, b);
      case ReLU => box := Box(PosPart(box.lo), PosPart(box.hi));
      case BatchNorm(gamma, beta, mean, _, _, root) => box := IbpBatchNorm(box, gamma, beta, mean, root);
      case Unsupported(ltype) =>
        assert layer in layers;
        return ValueError(ltype);
    }
    assert layers[..|layers|] == layers;
    return Ok(box);
  }

  function Pow2(n: nat): (p: real)
    ensures p >= 1.0
  { if n == 0 then 1.0 else 2.0 * Pow2(n - 1) }

  /** The width left of an interval after halving it k times. */
  function Halved(width: real, k: nat): real {
    if k == 0 then width else Halved(width, k - 1) / 2.0
  }

  lemma {:induction false} HalvedIsQuotient(width: real, k: nat)
    ensures Halved(width, k) == width / Pow2(k)
  {
    if k > 0 {
      HalvedIsQuotient(width, k - 1);
      var p := Pow2(k - 1);
      assert width == width / p * p;
      assert width / p / 2.0 * (2.0 * p) == width;
      assert width / p / 2.0 == width / (2.0 * p);
    }
  }

  method CertifyIbp(layers: seq<Layer>, x: Vec, epsilon: real, target: int, threshold: real, steps: nat)
    returns (r: Checked<real>)
    requires x != [] && FitsAll(layers, |x|)
    ensures r.ValueError? <==> !Supported(layers)
    // soundness: no input in the returned ball changes side
    ensures r.Ok? && Correct(layers, x, target, threshold) ==>
      forall y :: InBall(x, r.value, y) ==> Correct(layers, y, target, threshold)
    ensures r.Ok? && (target == 0 || target == 1) && !Correct(layers, x, target, threshold) ==> r.value == 0.0
    ensures r.Ok? && epsilon >= 0.0 ==> 0.0 <= r.value <= epsilon
    // precision: everything up to r is certified, nothing from r + epsilon / 2^steps on is
    ensures r.Ok? && epsilon >= 0.0 && Correct(layers, x, target, threshold) ==>
      && (forall e :: 0.0 <= e <= r.value ==> Certified(layers, x, e, target, threshold))
      && (r.value < epsilon ==>
            forall e :: e >= r.value + epsilon / Pow2(steps) ==> !Certified(layers, x, e, target, threshold))
  {
    var clean := Propagate(x, 0.0, layers);
    if clean.ValueError? {
      return ValueError(clean.ltype);
    }
    CertifiedAtZero(layers, x, target, threshold);
    var lo0, hi0 := clean.value.lo, clean.value.hi;
    var cleanScore := (Sum(lo0) + Sum(hi0)) / (|lo0| + |hi0|) as real;
    assert cleanScore == Mean(Forward(layers, x)) by { HalvesMean(Sum(lo0), |lo0|); }
    if target == 1 && cleanScore < threshold {
      return Ok(0.0);
    }
    if target == 0 && cleanScore >= threshold {
      return Ok(0.0);
    }
    var certified := IsCertified(layers, x, epsilon, target, threshold);
    if !certified {
      var loEps, hiEps := 0.0, epsilon;
      for k := 0 to steps
        invariant loEps == 0.0 || Certified(layers, x, loEps, target, threshold)
        invariant !Certified(layers, x, hiEps, target, threshold)
        invariant epsilon >= 0.0 ==> 0.0 <= loEps <= hiEps <= epsilon
        invariant hiEps - loEps == Halved(epsilon, k)
      {
        var mid := (loEps + hiEps) / 2.0;
        var ok := IsCertified(layers, x, mid, target, threshold);
        if ok { loEps := mid; } else { hiEps := mid; }
      }
      HalvedIsQuotient(epsilon, steps);
      RadiusIsGood(layers, x, loEps, hiEps, target, threshold);
      return Ok(loEps);
    }
    RadiusIsGood(layers, x, epsilon, epsilon, target, threshold);
    return Ok(epsilon);
  }

  method IsCertified(layers: seq<Layer>, x: Vec, eps: real, target: int, threshold: real) returns (ok: bool)
    requires x != [] && FitsAll(layers, |x|) && Supported(layers)
    ensures ok == Certified(layers, x, eps, target, threshold)
  {
    var r := Propagate(x, eps, layers);
    var lo, hi := r.value.lo, r.value.hi;
    if target == 1 {
      return Mean(lo) >= threshold;
    } else {
      return Mean(hi) < threshold;
    }
  }

  lemma HalvesMean(s: real, n: nat)
    requires n > 0
    ensures (s + s) / (n + n) as real == s / n as real
  {
    var d := n as real;
    assert (n + n) as real == 2.0 * d;
    assert s == s / d * d;
    assert s + s == s / d * (2.0 * d);
  }

  lemma RadiusIsGood(layers: seq<Layer>, x: Vec, r: real, bad: real, target: int, threshold: real)
    requires x != [] && FitsAll(layers, |x|) && Supported(layers)
    requires r == 0.0 || Certified(layers, x, r, target, threshold)
    ensures Correct(layers, x, target, threshold) ==>
      forall y :: InBall(x, r, y) ==> Correct(layers, y, target, threshold)
    ensures Correct(layers, x, target, threshold) ==>
      forall e :: 0.0 <= e <= r ==> Certified(layers, x, e, target, threshold)
    ensures bad >= 0.0 && !Certified(layers, x, bad, target, threshold) ==>
      forall e :: e >= bad ==> !Certified(layers, x, e, target, threshold)
  {
    CertifiedAtZero(layers, x, target, threshold);
    if Correct(layers, x, target, threshold) {
      forall y | InBall(x, r, y) ensures Correct(layers, y, target, threshold) {
        CertifiedIsSound(layers, x, r, target, threshold, y);
      }
      forall e | 0.0 <= e <= r ensures Certified(layers, x, e, target, threshold) {
        CertifiedIsDownwardClosed(layers, x, e, r, target, threshold);
      }
    }
    forall e | e >= bad >= 0.0 && Certified(layers, x, e, target, threshold)
      ensures Certified(layers, x, bad, target, threshold)
    {
      CertifiedIsDownwardClosed(layers, x, bad, e, target, threshold);
    }
  }
}
