/** The Benford drift detector: Welford's running baseline and the counting of drift episodes. Chi-square and
    MAD values come in as reals; the two standard deviations are the square roots the source computes. */
module BenfordDrift {
  import opened Common

  type Pair(==, 00, !new)

  // ----- Welford's recurrence -----

  /** `m2` is the field the source calls variance. */
  datatype Stats = Stats(count: nat, mean: real, m2: real)

  const NoStats := Stats(0, 0.0, 0.0)

  function Fitted(s: Stats, x: real): Stats {
    var n := (s.count + 1) as real;
    var delta := x - s.mean;
    var mean := s.mean + delta / n;
    Stats(s.count + 1, mean, s.m2 + delta * (x - mean))
  }

  function FitAll(xs: seq<real>): (s: Stats)
    ensures s.count == |xs|
  {
    if xs == [] then NoStats else Fitted(FitAll(xs[..|xs| - 1]), xs[|xs| - 1])
  }

  function Sum(xs: seq<real>): real {
    if xs == [] then 0.0 else Sum(xs[..|xs| - 1]) + xs[|xs| - 1]
  }

  function Square(x: real): real { x * x }

  /** The sum of squared distances from c: the second pass. */
  function Deviation(xs: seq<real>, c: real): real {
    if xs == [] then 0.0 else Deviation(xs[..|xs| - 1], c) + Square(xs[|xs| - 1] - c)
  }

  function SumOfSquares(xs: seq<real>): real {
    if xs == [] then 0.0 else SumOfSquares(xs[..|xs| - 1]) + Square(xs[|xs| - 1])
  }

  ghost predicate IsExpanded(c: real, n: real, squares: real, sum: real, deviation: real) {
    deviation == squares - 2.0 * c * sum + n * Square(c)
  }

  lemma {:induction false} ExpandDeviation(xs: seq<real>, c: real)
    ensures IsExpanded(c, |xs| as real, SumOfSquares(xs), Sum(xs), Deviation(xs, c))
  {
    if xs == [] {
      ExpandNone(c, |xs| as real, SumOfSquares(xs), Sum(xs), Deviation(xs, c));
    } else {
      var pre, x := xs[..|xs| - 1], xs[|xs| - 1];
      ExpandDeviation(pre, c);
      ExpandOne(x, c, |pre| as real, SumOfSquares(pre), Sum(pre), Deviation(pre, c),
                |xs| as real, SumOfSquares(xs), Sum(xs), Deviation(xs, c));
    }
  }

  lemma ExpandNone(c: real, n: real, q: real, s: real, dev: real)
    requires n == 0.0 && q == 0.0 && s == 0.0 && dev == 0.0
    ensures IsExpanded(c, n, q, s, dev)
  {}

  lemma ExpandOne(x: real, c: real, n: real, q: real, s: real, dev: real, n': real, q': real, s': real, dev': real)
    requires IsExpanded(c, n, q, s, dev)
    requires n' == n + 1.0 && q' == q + Square(x) && s' == s + x && dev' == dev + Square(x - c)
    ensures IsExpanded(c, n', q', s', dev')
  {
    assert n' * Square(c) == n * Square(c) + Square(c);
  }

  /** The running fields in terms of the plain sums. */
  ghost predicate IsRunning(s: Stats, n: real, sum: real, squares: real) {
    s.mean * n == sum && s.m2 == squares - sum * s.mean
  }

  lemma StepKeepsRunning(s: Stats, n: real, sum: real, squares: real, x: real)
    requires n == s.count as real && IsRunning(s, n, sum, squares)
    ensures IsRunning(Fitted(s, x), n + 1.0, sum + x, squares + Square(x))
  {
    var d := (x - s.mean) / (n + 1.0);
    assert d * (n + 1.0) == x - s.mean;
    StepAlgebra(n, s.mean, s.mean + d, sum, x, d);
  }

  lemma StepAlgebra(n: real, mean: real, mean': real, sum: real, x: real, d: real)
    requires mean * n == sum && mean' == mean + d && d * (n + 1.0) == x - mean
    ensures mean' * (n + 1.0) == sum + x
    ensures (x - mean) * (x - mean') - sum * mean == Square(x) - (sum + x) * mean'
  {
    assert mean' * (n + 1.0) == mean * n + mean + d * (n + 1.0);
    assert mean * (mean' * (n + 1.0)) == mean' * (mean * n) + mean' * mean;
  }

  lemma {:induction false} FitAllIsRunning(xs: seq<real>)
    ensures IsRunning(FitAll(xs), |xs| as real, Sum(xs), SumOfSquares(xs))
  {
    if xs != [] {
      var pre, x := xs[..|xs| - 1], xs[|xs| - 1];
      FitAllIsRunning(pre);
      StepKeepsRunning(FitAll(pre), |pre| as real, Sum(pre), SumOfSquares(pre), x);
    }
  }

  /** `s` holds the mean of n values and the sum of their squared distances from it, as two passes would. */
  ghost predicate IsTwoPass(s: Stats, n: real, sum: real, deviation: real) {
    s.mean * n == sum && s.m2 == deviation
  }

  lemma DeviationAtMean(s: Stats, n: real, sum: real, squares: real, dev: real)
    requires IsRunning(s, n, sum, squares)
    requires IsExpanded(s.mean, n, squares, sum, dev)
    ensures IsTwoPass(s, n, sum, dev)
  {
    assert n * Square(s.mean) == s.mean * n * s.mean;
  }

  /** The running fields are the two-pass mean and the two-pass sum of squared deviations. */
  lemma WelfordIsTwoPass(xs: seq<real>)
    ensures IsTwoPass(FitAll(xs), |xs| as real, Sum(xs), Deviation(xs, FitAll(xs).mean))
  {
    FitAllIsRunning(xs);
    ExpandDeviation(xs, FitAll(xs).mean);
    DeviationAtMean(FitAll(xs), |xs| as real, Sum(xs), SumOfSquares(xs), Deviation(xs, FitAll(xs).mean));
  }

  lemma {:induction false} SumAt(xs: seq<real>, i: nat)
    requires i < |xs|
    ensures Sum(xs) == Sum(xs[..i] + xs[i + 1..]) + xs[i]
    ensures SumOfSquares(xs) == SumOfSquares(xs[..i] + xs[i + 1..]) + Square(xs[i])
  {
    var n := |xs| - 1;
    if i == n {
      assert xs[..i] + xs[i + 1..] == xs[..n];
    } else {
      SumAt(xs[..n], i);
      var less := xs[..i] + xs[i + 1..];
      assert less[..|less| - 1] == xs[..n][..i] + xs[..n][i + 1..];
      assert less[|less| - 1] == xs[n];
    }
  }

  lemma RemoveAt<T>(s: seq<T>, i: nat)
    requires i < |s|
    ensures multiset(s[..i] + s[i + 1..]) == multiset(s) - multiset{s[i]}
  {
    assert s == s[..i] + [s[i]] + s[i + 1..];
  }

  lemma {:induction false} SumsOfPermutation(xs: seq<real>, ys: seq<real>)
    requires multiset(xs) == multiset(ys)
    ensures |xs| == |ys| && Sum(xs) == Sum(ys) && SumOfSquares(xs) == SumOfSquares(ys)
    decreases |xs|
  {
    assert |multiset(xs)| == |xs| && |multiset(ys)| == |ys|;
    if xs != [] {
      var n := |xs| - 1;
      assert xs[n] in multiset(ys);
      var i :| 0 <= i < |ys| && ys[i] == xs[n];
      RemoveAt(xs, n);
      RemoveAt(ys, i);
      assert xs[..n] + xs[n + 1..] == xs[..n];
      SumAt(ys, i);
      SumsOfPermutation(xs[..n], ys[..i] + ys[i + 1..]);
    }
  }

  /** The baseline does not depend on the order of the fits. */
  lemma BaselineIgnoresOrder(xs: seq<real>, ys: seq<real>)
    requires multiset(xs) == multiset(ys)
    ensures FitAll(xs) == FitAll(ys)
  {
    FitAllIsRunning(xs);
    FitAllIsRunning(ys);
    SumsOfPermutation(xs, ys);
    if xs == [] {
      assert ys == [];
    } else {
      SameRunning(FitAll(xs), FitAll(ys), |xs| as real, Sum(xs), SumOfSquares(xs));
    }
  }

  lemma SameRunning(s: Stats, t: Stats, n: real, sum: real, squares: real)
    requires n > 0.0 && IsRunning(s, n, sum, squares) && IsRunning(t, n, sum, squares) && s.count == t.count
    ensures s == t
  {
    CancelFactor(s.mean, t.mean, n);
  }

  lemma CancelFactor(a: real, b: real, n: real)
    requires n > 0.0 && a * n == b * n
    ensures a == b
  {}

  // ----- the drift test -----

  function Abs(x: real): real { if x >= 0.0 then x else -x }

  /** The z-score, 0 when the deviation is 0. */
  function ZScore(x: real, s: Stats, sd: real): real {
    if sd > 0.0 then Abs(x - s.mean) / sd else 0.0
  }

  ghost predicate IsDeviation(sd: real, s: Stats) { s.count > 0 && sd >= 0.0 && sd * sd == s.m2 / s.count as real }

  /** The test in terms of the stored fields alone: no square root is needed to decide it. */
  lemma ZTest(x: real, s: Stats, sd: real, threshold: real)
    requires IsDeviation(sd, s) && threshold >= 0.0
    ensures ZScore(x, s, sd) > threshold <==>
      sd > 0.0 && Square(x - s.mean) > Square(threshold) * (s.m2 / s.count as real)
  {
    if sd > 0.0 {
      CompareQuotient(Abs(x - s.mean), sd, threshold, s.m2 / s.count as real);
    }
  }

  /** The same test without square roots: the squared distance against the squared threshold times the stored
      field over the count; never when the field is zero. */
  predicate Exceeds(x: real, s: Stats, threshold: real)
    requires s.count > 0
  {
    s.m2 > 0.0 && Square(x - s.mean) > Square(threshold) * (s.m2 / s.count as real)
  }

  lemma ZTestIsExceeds(x: real, s: Stats, sd: real, threshold: real)
    requires IsDeviation(sd, s) && threshold >= 0.0
    ensures ZScore(x, s, sd) > threshold <==> Exceeds(x, s, threshold)
  {
    ZTest(x, s, sd, threshold);
    var n := s.count as real;
    assert s.m2 / n * n == s.m2;
    if sd > 0.0 {
      PositiveSquare(sd, s.m2 / n);
      Scale(s.m2 / n, 0.0, n);
    }
  }

  lemma CompareQuotient(d: real, sd: real, t: real, v: real)
    requires d >= 0.0 && sd > 0.0 && t >= 0.0 && sd * sd == v
    ensures d / sd > t <==> Square(d) > Square(t) * v
  {
    PositiveSquare(sd, v);
    SquareOfQuotient(d, sd, v);
    CompareSquares(d / sd, t, v);
  }

  lemma PositiveSquare(a: real, v: real)
    requires a > 0.0 && a * a == v
    ensures v > 0.0
  {
    assert v / a == a;
  }

  lemma SquareOfQuotient(d: real, sd: real, v: real)
    requires d >= 0.0 && sd > 0.0 && sd * sd == v
    ensures Square(d) == Square(d / sd) * v && d / sd >= 0.0
  {
    var z := d / sd;
    assert z * sd == d;
    assert (z * sd) * (z * sd) == (z * z) * (sd * sd);
  }

  lemma CompareSquares(z: real, t: real, v: real)
    requires z >= 0.0 && t >= 0.0 && v > 0.0
    ensures z > t <==> Square(z) * v > Square(t) * v
  {
    if z > t {
      SquareGreater(z, t);
      Scale(Square(z), Square(t), v);
    } else if z < t {
      SquareGreater(t, z);
      Scale(Square(t), Square(z), v);
    }
  }

  lemma SquareGreater(a: real, b: real)
    requires a > b >= 0.0
    ensures a * a > b * b
  {
    var d := a - b;
    assert a * a == b * b + 2.0 * b * d + d * d;
    assert d * d > 0.0;
    assert b * d >= 0.0;
  }

  lemma Scale(a: real, b: real, c: real)
    requires a > b && c > 0.0
    ensures a * c > b * c
  {}

  // ----- drift episodes -----

  /** What a decisive check does to the consecutive counter and to the episode counter. */
  datatype Episodes = Episodes(total: nat, current: nat)

  function Noted(e: Episodes, drifted: bool): Episodes {
    if drifted then Episodes(if e.current == 0 then e.total + 1 else e.total, e.current + 1) else e.(current := 0)
  }

  function NoteAll(e: Episodes, checks: seq<bool>): Episodes {
    if checks == [] then e else Noted(NoteAll(e, checks[..|checks| - 1]), checks[|checks| - 1])
  }

  /** Where a maximal run of drifted checks begins. */
  predicate StartsRun(checks: seq<bool>, i: nat) { i < |checks| && checks[i] && (i == 0 || !checks[i - 1]) }

  function RunStarts(checks: seq<bool>): set<nat> { set i: nat | i < |checks| && StartsRun(checks, i) }

  /** `total` counts the maximal runs of drifted checks, `current` is the length of the run still open. */
  lemma {:induction false} EpisodesAreRuns(total: nat, checks: seq<bool>)
    ensures var e := NoteAll(Episodes(total, 0), checks);
      && e.total == total + |RunStarts(checks)|
      && e.current <= |checks| && (forall i :: |checks| - e.current <= i < |checks| ==> checks[i])
      && (e.current < |checks| ==> !checks[|checks| - e.current - 1])
  {
    if checks == [] {
      assert RunStarts(checks) == {};
    } else {
      var n, pre := |checks| - 1, checks[..|checks| - 1];
      EpisodesAreRuns(total, pre);
      var e := NoteAll(Episodes(total, 0), pre);
      forall i: nat | i < n ensures StartsRun(checks, i) <==> StartsRun(pre, i) {}
      if checks[n] && e.current == 0 {
        assert RunStarts(checks) == RunStarts(pre) + {n};
      } else {
        assert RunStarts(checks) == RunStarts(pre);
      }
    }
  }

  // ----- the detector object -----

  datatype Baseline = Baseline(chi: Stats, mad: Stats, driftCount: nat)

  datatype Status = Stable | Drifted | InsufficientData

  class BenfordDriftDetector {
    const threshold: real
    const minSamples: nat
    var baselines: map<Pair, Baseline>
    var driftedPairs: map<Pair, nat>

    ghost function EpisodesOf(pair: Pair): Episodes
      requires pair in baselines
      reads this
    {
      Episodes(baselines[pair].driftCount, if pair in driftedPairs then driftedPairs[pair] else 0)
    }

    ghost predicate Valid()
      reads this
    { forall p :: p in driftedPairs ==> driftedPairs[p] > 0 }

    constructor (threshold: real, minSamples: nat)
      ensures Valid() && baselines == map[] && driftedPairs == map[]
      ensures this.threshold == threshold && this.minSamples == minSamples
    {
      this.threshold, this.minSamples := threshold, minSamples;
      baselines, driftedPairs := map[], map[];
    }

    /** None stands for a value that is not finite; such a fit, or one on no positive amount, is skipped. */
    method FitBaseline(pair: Pair, anyPositive: bool, chi: Option<real>, mad: Option<real>)
      modifies `baselines
      ensures var b := if pair in old(baselines) then old(baselines)[pair] else Baseline(NoStats, NoStats, 0);
        baselines ==
          if anyPositive && chi.Some? && chi.value >= 0.0 && mad.Some? && mad.value >= 0.0
          then old(baselines)[pair := Baseline(Fitted(b.chi, chi.value), Fitted(b.mad, mad.value), b.driftCount)]
          else old(baselines)
    {
      if !anyPositive {
        return;
      }
      if chi.None? || chi.value < 0.0 {
        return;
      }
      if mad.None? || mad.value < 0.0 {
        return;
      }
      var b := if pair in baselines then baselines[pair] else Baseline(NoStats, NoStats, 0);
      baselines := baselines[pair := Baseline(Fitted(b.chi, chi.value), Fitted(b.mad, mad.value), b.driftCount)];
    }

    /** Only a decisive check (enough samples, finite values) touches the drift state. */
    method Check(pair: Pair, chi: Option<real>, mad: Option<real>, chiSd: real, madSd: real) returns (r: Status)
      requires Valid()
      modifies this
      ensures Valid() && baselines.Keys == old(baselines).Keys
      ensures var enough := pair in old(baselines) && old(baselines)[pair].chi.count >= minSamples;
        && (r.InsufficientData? <==> !enough)
        && (enough && chi.Some? && mad.Some? ==>
              var b := old(baselines)[pair];
              var drifted := ZScore(chi.value, b.chi, chiSd) > threshold || ZScore(mad.value, b.mad, madSd) > threshold;
              && r == (if drifted then Drifted else Stable)
              && EpisodesOf(pair) == Noted(old(EpisodesOf(pair)), drifted)
              && baselines == old(baselines)[pair := b.(driftCount := EpisodesOf(pair).total)]
              && driftedPairs - {pair} == old(driftedPairs) - {pair})
        && (enough && chi.Some? && mad.Some? && threshold >= 0.0 ==>
              var b := old(baselines)[pair];
              IsDeviation(chiSd, b.chi) && IsDeviation(madSd, b.mad) ==>
                (r.Drifted? <==> Exceeds(chi.value, b.chi, threshold) || Exceeds(mad.value, b.mad, threshold)))
        && (!(enough && chi.Some? && mad.Some?) ==>
              r != Drifted && baselines == old(baselines) && driftedPairs == old(driftedPairs))
    {
      if pair !in baselines {
        return InsufficientData;
      }
      var b := baselines[pair];
      if b.chi.count < minSamples {
        return InsufficientData;
      }
      if chi.None? || mad.None? {
        return Stable;
      }
      if threshold >= 0.0 && IsDeviation(chiSd, b.chi) && IsDeviation(madSd, b.mad) {
        ZTestIsExceeds(chi.value, b.chi, chiSd, threshold);
        ZTestIsExceeds(mad.value, b.mad, madSd, threshold);
      }
      if ZScore(chi.value, b.chi, chiSd) > threshold || ZScore(mad.value, b.mad, madSd) > threshold {
        if pair !in driftedPairs {
          baselines := baselines[pair := b.(driftCount := b.driftCount + 1)];
        }
        driftedPairs := driftedPairs[pair := (if pair in driftedPairs then driftedPairs[pair] else 0) + 1];
        return Drifted;
      } else {
        if pair in driftedPairs {
          driftedPairs := driftedPairs - {pair};
        }
        return Stable;
      }
    }
  }
}
