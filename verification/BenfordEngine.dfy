/** Leading digits of positive amounts, and the conformity statistics built on them. Amounts are reals; the expected
    frequency of each digit is a parameter: nine positive reals summing to one. Tables by digit are sequences of
    nine reals, digit d at index d - 1. */
module BenfordEngine {
  import opened Common

  // ---------------------------------------------------------------- powers of ten

  function Pow10(k: int): (p: real)
    ensures p > 0.0
    decreases if k < 0 then -k else k
  {
    if k == 0 then 1.0 else if k > 0 then 10.0 * Pow10(k - 1) else Pow10(k + 1) / 10.0
  }

  lemma {:induction false} Pow10Grows(j: int, k: int)
    requires j < k
    ensures Pow10(k) >= Pow10(j + 1)
    decreases k - j
  {
    if j < k - 1 { Pow10Grows(j, k - 1); }
  }

  /** `a` lies between the k-th power of ten and the next, and d is its first digit at that scale. */
  ghost predicate LeadsAt(a: real, d: int, k: int) {
    Pow10(k) <= a < Pow10(k + 1) && d == (a / Pow10(k)).Floor
  }

  ghost predicate IsLeadingDigit(a: real, d: int) { exists k :: LeadsAt(a, d, k) }

  lemma ScaleLess(x: real, y: real, p: real)
    requires x < y && p > 0.0
    ensures x * p < y * p
  {
    assert (y - x) * p > 0.0;
  }

  lemma ScaleAtMost(x: real, y: real, p: real)
    requires x <= y && p >= 0.0
    ensures x * p <= y * p
  {
    assert (y - x) * p >= 0.0;
  }

  /** a = m * 10^k with 1 <= m < 10 puts `a` at scale k with first digit floor(m). */
  lemma MantissaLeads(a: real, m: real, k: int)
    requires a == m * Pow10(k) && 1.0 <= m < 10.0
    ensures LeadsAt(a, m.Floor, k)
  {
    Mantissa(a, m, Pow10(k));
    assert Pow10(k + 1) == 10.0 * Pow10(k);
  }

  lemma Mantissa(a: real, m: real, p: real)
    requires p > 0.0 && a == m * p && 1.0 <= m < 10.0
    ensures p <= a < 10.0 * p && a / p == m
  {
    ScaleAtMost(1.0, m, p);
    ScaleLess(m, 10.0, p);
    QuotientOf(m, p);
  }

  lemma QuotientOf(m: real, p: real)
    requires p > 0.0
    ensures m * p / p == m
  {
  }

  lemma NonNegativeFactor(n: real, q: real)
    requires n > 0.0 && n * q >= 0.0
    ensures q >= 0.0
  {
    if q < 0.0 { ScaleLess(q, 0.0, n); }
  }

  lemma LargeFactor(u: real, a: real)
    requires 0.0 < a < 1.0 && u * a == 2.0
    ensures u > 2.0
  {
    if u <= 2.0 { ScaleAtMost(u, 2.0, a); }
  }

  /** What makes the first loop stop. */
  lemma RaiseStep(a: real)
    requires 0.0 < a < 1.0
    ensures 2.0 / (a * 10.0) <= 2.0 / a - 1.0
  {
    assert 2.0 / (a * 10.0) == (2.0 / a) / 10.0;
    LargeFactor(2.0 / a, a);
  }

  /** `amount` is a times ten to the k. */
  ghost predicate IsMantissa(amount: real, a: real, k: int) { amount == a * Pow10(k) }

  lemma MoveTen(amount: real, a: real, k: int)
    ensures IsMantissa(amount, a / 10.0, k + 1) <==> IsMantissa(amount, a, k)
  {
    var p := Pow10(k);
    assert Pow10(k + 1) == 10.0 * p;
    assert a / 10.0 * (10.0 * p) == a * p;
  }

  /** One pass of either loop. */
  lemma Raise(amount: real, a: real, k: int)
    requires IsMantissa(amount, a, k) && 0.0 < a < 1.0
    ensures IsMantissa(amount, a * 10.0, k - 1) && 2.0 / (a * 10.0) <= 2.0 / a - 1.0
  {
    RaiseStep(a);
    assert a * 10.0 / 10.0 == a;
    MoveTen(amount, a * 10.0, k - 1);
  }

  lemma Settle(amount: real, a: real, k: int)
    requires IsMantissa(amount, a, k) && 1.0 <= a < 10.0
    ensures IsLeadingDigit(amount, a.Floor)
  {
    MantissaLeads(amount, a, k);
  }

  /** leading_digit: the two scaling loops. */
  method LeadingDigit(amount: real) returns (r: Result<int>)
    ensures r.ValueError? <==> amount <= 0.0
    ensures r.Ok? ==> IsLeadingDigit(amount, r.value)
  {
    if amount <= 0.0 { return ValueError; }
    var a := amount;
    ghost var k := 0;
    while a < 1.0
      invariant a > 0.0 && IsMantissa(amount, a, k)
      decreases 2.0 / a
    {
      Raise(amount, a, k);
      a, k := a * 10.0, k - 1;
    }
    while a >= 10.0
      invariant a >= 1.0 && IsMantissa(amount, a, k)
      decreases a
    {
      MoveTen(amount, a, k);
      a, k := a / 10.0, k + 1;
    }
    Settle(amount, a, k);
    r := Ok(a.Floor);
  }

  lemma SameScale(a: real, d: int, k: int, e: int, l: int)
    requires LeadsAt(a, d, k) && LeadsAt(a, e, l)
    ensures k == l
  {
    if k < l {
      Pow10Grows(k, l);
    } else if l < k {
      Pow10Grows(l, k);
    }
  }

  /** A positive amount has exactly one leading digit, it is in 1..9, and no other amount has one. */
  lemma LeadingDigitUnique(a: real)
    ensures a <= 0.0 ==> forall d :: !IsLeadingDigit(a, d)
    ensures a > 0.0 ==> exists d :: 1 <= d <= 9 && IsLeadingDigit(a, d) && forall e :: IsLeadingDigit(a, e) ==> e == d
  {
    if a > 0.0 {
      var d := LeadingDigitExists(a);
      OnlyLeadingDigit(a, d);
    } else {
      forall d, k ensures !LeadsAt(a, d, k) { assert Pow10(k) > 0.0; }
    }
  }

  lemma OnlyLeadingDigit(a: real, d: int)
    requires IsLeadingDigit(a, d)
    ensures 1 <= d <= 9 && forall e :: IsLeadingDigit(a, e) <==> e == d
  {
    var k :| LeadsAt(a, d, k);
    forall e | IsLeadingDigit(a, e) ensures e == d {
      var l :| LeadsAt(a, e, l);
      SameScale(a, d, k, e, l);
    }
    DigitRange(a, Pow10(k));
  }

  lemma DigitRange(a: real, p: real)
    requires 0.0 < p <= a < 10.0 * p
    ensures 1.0 <= a / p < 10.0
  {
    var q := a / p;
    assert q * p == a;
    if q < 1.0 { ScaleLess(q, 1.0, p); }
    if q >= 10.0 { ScaleAtMost(10.0, q, p); }
  }

  lemma {:induction false} LeadingDigitExists(a: real) returns (d: int)
    requires a > 0.0
    ensures IsLeadingDigit(a, d)
    decreases a < 1.0, if a < 1.0 then 2.0 / a else a
  {
    if a < 1.0 {
      RaiseStep(a);
      d := LeadingDigitExists(a * 10.0);
      ScaleByTen(a, a * 10.0, d);
    } else if a >= 10.0 {
      d := LeadingDigitExists(a / 10.0);
      ScaleByTen(a / 10.0, a, d);
    } else {
      d := a.Floor;
      assert a == a * Pow10(0);
      MantissaLeads(a, a, 0);
    }
  }

  lemma TenTimes(a: real, d: int, k: int)
    ensures LeadsAt(a * 10.0, d, k + 1) <==> LeadsAt(a, d, k)
  {
    var p := Pow10(k);
    assert Pow10(k + 1) == 10.0 * p && Pow10(k + 2) == 100.0 * p;
    assert a * 10.0 / (10.0 * p) == a / p;
  }

  lemma ScaleByTen(a: real, b: real, d: int)
    requires b == a * 10.0
    ensures IsLeadingDigit(b, d) <==> IsLeadingDigit(a, d)
  {
    if k :| LeadsAt(a, d, k) {
      TenTimes(a, d, k);
    }
    if k :| LeadsAt(b, d, k) {
      TenTimes(a, d, k - 1);
    }
  }

  /** Changing the unit of account by a power of ten changes no leading digit. */
  lemma {:induction false} ScaleByPower(a: real, b: real, d: int, k: int)
    requires b == a * Pow10(k)
    ensures IsLeadingDigit(b, d) <==> IsLeadingDigit(a, d)
    decreases if k < 0 then -k else k
  {
    if k == 0 {
      assert b == a;
    } else if k > 0 {
      var c := a * Pow10(k - 1);
      ScaleByPower(a, c, d, k - 1);
      OneMoreTen(a, k - 1);
      ScaleByTen(c, b, d);
    } else {
      var c := a * Pow10(k + 1);
      ScaleByPower(a, c, d, k + 1);
      OneMoreTen(a, k);
      ScaleByTen(b, c, d);
    }
  }

  lemma OneMoreTen(a: real, k: int)
    ensures a * Pow10(k + 1) == (a * Pow10(k)) * 10.0
  {
    var p := Pow10(k);
    assert Pow10(k + 1) == 10.0 * p;
    assert a * (10.0 * p) == (a * p) * 10.0;
  }

  // ---------------------------------------------------------------- counting

  type PerDigit = f: seq<real> | |f| == 9 witness seq(9, _ => 0.0)

  /** The sum of the first n entries. */
  function SumTo(f: PerDigit, n: nat): real
    requires n <= 9
  {
    if n == 0 then 0.0 else SumTo(f, n - 1) + f[n - 1]
  }

  ghost function Count(amounts: seq<real>, d: int): nat {
    if amounts == [] then 0
    else
      var before, a := Count(amounts[..|amounts| - 1], d), amounts[|amounts| - 1];
      if a > 0.0 && IsLeadingDigit(a, d) then before + 1 else before
  }

  ghost function WithDigit(amounts: seq<real>, d: int): set<nat> {
    set i: nat | i < |amounts| && amounts[i] > 0.0 && IsLeadingDigit(amounts[i], d)
  }

  /** The count of a digit is the number of places with a positive amount that starts with it. */
  lemma {:induction false} CountIsNumber(amounts: seq<real>, d: int)
    ensures Count(amounts, d) == |WithDigit(amounts, d)|
  {
    if amounts == [] {
      assert WithDigit(amounts, d) == {};
    } else {
      var n := |amounts| - 1;
      var pre := amounts[..n];
      CountIsNumber(pre, d);
      if amounts[n] > 0.0 && IsLeadingDigit(amounts[n], d) {
        assert WithDigit(amounts, d) == WithDigit(pre, d) + {n};
      } else {
        assert WithDigit(amounts, d) == WithDigit(pre, d);
      }
    }
  }

  function Positives(amounts: seq<real>): nat {
    if amounts == [] then 0
    else
      var before := Positives(amounts[..|amounts| - 1]);
      if amounts[|amounts| - 1] > 0.0 then before + 1 else before
  }

  ghost function Counts(amounts: seq<real>): PerDigit {
    seq(9, i => Count(amounts, i + 1) as real)
  }

  /** Raising one entry by one raises the sum by one. */
  lemma {:induction false} SumBumps(f: PerDigit, g: PerDigit, e: int, n: nat)
    requires 0 <= e < 9 && n <= 9
    requires forall i :: 0 <= i < 9 ==> f[i] == if i == e then g[i] + 1.0 else g[i]
    ensures SumTo(f, n) == if e < n then SumTo(g, n) + 1.0 else SumTo(g, n)
  {
    if n > 0 { SumBumps(f, g, e, n - 1); }
  }

  lemma {:induction false} SumOfZeros(f: PerDigit, n: nat)
    requires n <= 9 && forall i :: 0 <= i < n ==> f[i] == 0.0
    ensures SumTo(f, n) == 0.0
  {
    if n > 0 { SumOfZeros(f, n - 1); }
  }

  lemma {:induction false} SumScales(f: PerDigit, g: PerDigit, c: real, n: nat)
    requires n <= 9 && forall i :: 0 <= i < 9 ==> f[i] == c * g[i]
    ensures SumTo(f, n) == c * SumTo(g, n)
  {
    if n > 0 {
      SumScales(f, g, c, n - 1);
      Distribute(c, SumTo(g, n - 1), g[n - 1]);
    }
  }

  lemma Distribute(c: real, x: real, y: real)
    ensures c * (x + y) == c * x + c * y
  {
  }

  /** Each positive amount is counted under exactly one digit. */
  lemma {:induction false} CountsPartition(amounts: seq<real>)
    ensures SumTo(Counts(amounts), 9) == Positives(amounts) as real
  {
    if amounts == [] {
      SumOfZeros(Counts(amounts), 9);
    } else {
      var pre, a := amounts[..|amounts| - 1], amounts[|amounts| - 1];
      CountsPartition(pre);
      if a > 0.0 {
        var d := LeadingDigitExists(a);
        OnlyLeadingDigit(a, d);
        SumBumps(Counts(amounts), Counts(pre), d - 1, 9);
      } else {
        assert Counts(amounts) == Counts(pre);
      }
    }
  }

  /** The share of each digit among the positive amounts; all zero when there is none. */
  ghost function Frequencies(amounts: seq<real>): PerDigit {
    seq(9, i => if Positives(amounts) == 0 then 0.0 else Count(amounts, i + 1) as real / Positives(amounts) as real)
  }

  /** The number of amounts with each leading digit, and of all positive ones. */
  method TallyDigits(amounts: seq<real>) returns (tally: seq<nat>, total: nat)
    ensures |tally| == 9 && forall i :: 0 <= i < 9 ==> tally[i] == Count(amounts, i + 1)
    ensures total == Positives(amounts)
  {
    tally, total := seq(9, _ => 0), 0;
    for n := 0 to |amounts|
      invariant |tally| == 9 && total == Positives(amounts[..n])
      invariant forall i :: 0 <= i < 9 ==> tally[i] == Count(amounts[..n], i + 1)
    {
      var a := amounts[n];
      assert amounts[..n + 1][..n] == amounts[..n];
      if a > 0.0 {
        var r := LeadingDigit(a);
        OnlyLeadingDigit(a, r.value);
        tally := tally[r.value - 1 := tally[r.value - 1] + 1];
        total := total + 1;
      }
    }
    assert amounts[..|amounts|] == amounts;
  }

  /** digit_distribution. */
  method DigitDistribution(amounts: seq<real>) returns (observed: PerDigit)
    ensures observed == Frequencies(amounts)
  {
    var tally, total := TallyDigits(amounts);
    observed := seq(9, i requires 0 <= i < 9 => if total == 0 then 0.0 else tally[i] as real / total as real);
  }

  /** The frequencies are shares: non-negative, and adding up to one unless nothing was counted. */
  lemma FrequenciesSum(amounts: seq<real>)
    ensures SumTo(Frequencies(amounts), 9) == if Positives(amounts) == 0 then 0.0 else 1.0
    ensures forall i :: 0 <= i < 9 ==> Frequencies(amounts)[i] >= 0.0
  {
    var f := Frequencies(amounts);
    if Positives(amounts) == 0 {
      SumOfZeros(f, 9);
    } else {
      CountsPartition(amounts);
      SharesSumToOne(Counts(amounts), f, Positives(amounts) as real);
    }
  }

  lemma SharesSumToOne(c: PerDigit, f: PerDigit, n: real)
    requires n > 0.0 && SumTo(c, 9) == n
    requires forall i :: 0 <= i < 9 ==> c[i] >= 0.0 && f[i] == c[i] / n
    ensures SumTo(f, 9) == 1.0
    ensures forall i :: 0 <= i < 9 ==> f[i] >= 0.0
  {
    forall i | 0 <= i < 9 ensures c[i] == n * f[i] && f[i] >= 0.0 {
      assert c[i] / n * n == c[i];
      NonNegativeFactor(n, f[i]);
    }
    SumScales(c, f, n, 9);
    CancelLeft(n, SumTo(f, 9), 1.0);
  }

  lemma CancelLeft(n: real, x: real, y: real)
    requires n > 0.0 && n * x == n * y
    ensures x == y
  {
    assert n * (x - y) == 0.0;
  }

  // ---------------------------------------------------------------- mean absolute deviation

  ghost predicate IsExpectation(p: PerDigit) {
    SumTo(p, 9) == 1.0 && forall i :: 0 <= i < 9 ==> p[i] > 0.0
  }

  function Abs(x: real): real { if x < 0.0 then -x else x }

  ghost function Deviations(p: PerDigit, o: PerDigit): PerDigit {
    seq(9, i requires 0 <= i < 9 => Abs(o[i] - p[i]))
  }

  ghost function Mad(p: PerDigit, amounts: seq<real>): real {
    if amounts == [] then 0.0 else SumTo(Deviations(p, Frequencies(amounts)), 9) / 9.0
  }

  /** mad_score. */
  method MadScore(p: PerDigit, amounts: seq<real>) returns (mad: real)
    ensures mad == Mad(p, amounts)
  {
    if amounts == [] { return 0.0; }
    var observed := DigitDistribution(amounts);
    var sum := 0.0;
    for d := 1 to 10
      invariant sum == SumTo(Deviations(p, observed), d - 1)
    {
      sum := sum + Abs(observed[d - 1] - p[d - 1]);
    }
    mad := sum / 9.0;
  }

  /** |o - p| never exceeds o + p, and falls short of it wherever o is not zero. */
  lemma {:induction false} DeviationsBelowSum(o: PerDigit, p: PerDigit, n: nat)
    requires n <= 9 && forall i :: 0 <= i < 9 ==> o[i] >= 0.0 && p[i] > 0.0
    ensures 0.0 <= SumTo(Deviations(p, o), n) <= SumTo(o, n) + SumTo(p, n)
    ensures SumTo(Deviations(p, o), n) == SumTo(o, n) + SumTo(p, n) <==> forall i :: 0 <= i < n ==> o[i] == 0.0
  {
    if n > 0 { DeviationsBelowSum(o, p, n - 1); }
  }

  /** The score is always below 2/9; with amounts but no positive one it is exactly 1/9. */
  lemma MadBelowTwoNinths(p: PerDigit, amounts: seq<real>)
    requires IsExpectation(p)
    ensures 0.0 <= Mad(p, amounts) < 2.0 / 9.0
    ensures amounts != [] && Positives(amounts) == 0 ==> Mad(p, amounts) == 1.0 / 9.0
  {
    var o := Frequencies(amounts);
    FrequenciesSum(amounts);
    DeviationsBelowSum(o, p, 9);
    if forall i :: 0 <= i < 9 ==> o[i] == 0.0 { SumOfZeros(o, 9); }
  }

  ghost predicate Scaled(amounts: seq<real>, scaled: seq<real>, k: int) {
    |scaled| == |amounts| && forall i :: 0 <= i < |amounts| ==> scaled[i] == amounts[i] * Pow10(k)
  }

  lemma SameDigit(a: real, b: real, k: int, d: int)
    requires b == a * Pow10(k)
    ensures b > 0.0 <==> a > 0.0
    ensures IsLeadingDigit(b, d) <==> IsLeadingDigit(a, d)
  {
    ScaleByPower(a, b, d, k);
    if a <= 0.0 { ScaleAtMost(a, 0.0, Pow10(k)); }
  }

  lemma {:induction false} CountsIgnoreScale(amounts: seq<real>, scaled: seq<real>, k: int, d: int)
    requires Scaled(amounts, scaled, k)
    ensures Count(scaled, d) == Count(amounts, d) && Positives(scaled) == Positives(amounts)
  {
    if amounts != [] {
      var n := |amounts| - 1;
      CountsIgnoreScale(amounts[..n], scaled[..n], k, d);
      SameDigit(amounts[n], scaled[n], k, d);
    }
  }

  /** Quoting every amount in units a power of ten larger or smaller changes no frequency and no score. */
  lemma MadIgnoresScale(p: PerDigit, amounts: seq<real>, scaled: seq<real>, k: int)
    requires Scaled(amounts, scaled, k)
    ensures Frequencies(scaled) == Frequencies(amounts) && Mad(p, scaled) == Mad(p, amounts)
  {
    forall i | 0 <= i < 9 ensures Frequencies(scaled)[i] == Frequencies(amounts)[i] {
      CountsIgnoreScale(amounts, scaled, k, i + 1);
    }
    assert Frequencies(scaled) == Frequencies(amounts);
  }

  // ---------------------------------------------------------------- chi-square

  /** One digit's term: with e = p n expected, (c - e)^2 / e. */
  function Term(c: real, p: real, n: real): real
    requires p > 0.0 && n > 0.0
  {
    ScaleLess(0.0, p, n);
    (c - p * n) * (c - p * n) / (p * n)
  }

  ghost function Terms(p: PerDigit, amounts: seq<real>): PerDigit
    requires Positives(amounts) > 0 && forall i :: 0 <= i < 9 ==> p[i] > 0.0
  {
    seq(9, i requires 0 <= i < 9 => Term(Count(amounts, i + 1) as real, p[i], Positives(amounts) as real))
  }

  ghost function ChiSquare(p: PerDigit, amounts: seq<real>): real
    requires forall i :: 0 <= i < 9 ==> p[i] > 0.0
  {
    if Positives(amounts) == 0 then 0.0 else SumTo(Terms(p, amounts), 9)
  }

  /** chi_square_statistic: the counts of the leading digits against the expected counts. */
  method ChiSquareStatistic(p: PerDigit, amounts: seq<real>) returns (chi: real)
    requires forall i :: 0 <= i < 9 ==> p[i] > 0.0
    ensures chi == ChiSquare(p, amounts)
  {
    var tally, n := TallyDigits(amounts);
    if n == 0 { return 0.0; }
    ghost var terms := Terms(p, amounts);
    chi := 0.0;
    for d := 1 to 10
      invariant chi == SumTo(terms, d - 1)
    {
      var term := Term(tally[d - 1] as real, p[d - 1], n as real);
      assert terms[d - 1] == term;
      chi := chi + term;
    }
  }

  function Times(x: real, y: real): real { x * y }

  /** A squared deviation over the expected share. */
  function Relative(o: real, p: real): real
    requires p > 0.0
  {
    Times(o - p, o - p) / p
  }

  ghost function Squares(p: PerDigit, o: PerDigit): PerDigit
    requires forall i :: 0 <= i < 9 ==> p[i] > 0.0
  {
    seq(9, i requires 0 <= i < 9 => Relative(o[i], p[i]))
  }

  lemma TermInShares(c: real, o: real, p: real, n: real)
    requires n > 0.0 && p > 0.0 && o == c / n
    ensures Term(c, p, n) == n * Relative(o, p)
  {
    var w := o - p;
    assert c - p * n == w * n by { assert o * n == c; }
    CancelTerm(w, p, n);
  }

  lemma CancelTerm(w: real, p: real, n: real)
    requires n > 0.0 && p > 0.0
    ensures p * n > 0.0 && (w * n) * (w * n) / (p * n) == n * (w * w / p)
  {
    ScaleLess(0.0, p, n);
    var t := w * w / p;
    assert t * p == w * w;
    assert (w * n) * (w * n) == (w * w) * (n * n);
    assert (t * p) * (n * n) == (n * t) * (p * n);
    QuotientOf(n * t, p * n);
  }

  /** The statistic is the sample size times the squared relative deviations of the frequencies. */
  lemma ChiSquareInShares(p: PerDigit, amounts: seq<real>)
    requires Positives(amounts) > 0 && forall i :: 0 <= i < 9 ==> p[i] > 0.0
    ensures IsProduct(ChiSquare(p, amounts), Positives(amounts) as real, SumTo(Squares(p, Frequencies(amounts)), 9))
  {
    var n, o := Positives(amounts) as real, Frequencies(amounts);
    TermsInShares(Counts(amounts), o, p, Terms(p, amounts), Squares(p, o), n);
  }

  lemma TermsInShares(c: PerDigit, o: PerDigit, p: PerDigit, t: PerDigit, s: PerDigit, n: real)
    requires n > 0.0 && forall i :: 0 <= i < 9 ==> p[i] > 0.0 && o[i] == c[i] / n
    requires forall i :: 0 <= i < 9 ==> t[i] == Term(c[i], p[i], n) && s[i] == Relative(o[i], p[i])
    ensures IsProduct(SumTo(t, 9), n, SumTo(s, 9))
  {
    forall i | 0 <= i < 9 ensures t[i] == n * s[i] { TermInShares(c[i], o[i], p[i], n); }
    SumScales(t, s, n, 9);
  }

  ghost predicate Dominates(a: real, b: real, x: real) { a >= 0.0 && b >= 0.0 && a * b >= x * x }

  /** Sum(v^2 / p) * Sum(p) is at least Sum(v)^2. */
  lemma {:induction false} SquaresDominate(p: PerDigit, o: PerDigit, n: nat)
    requires n <= 9 && forall i :: 0 <= i < 9 ==> p[i] > 0.0
    ensures Dominates(SumTo(Squares(p, o), n), SumTo(p, n), SumTo(Deviations(p, o), n))
  {
    if n > 0 {
      SquaresDominate(p, o, n - 1);
      var y, v := Squares(p, o)[n - 1], Deviations(p, o)[n - 1];
      OneDeviation(o[n - 1], p[n - 1]);
      AddPair(SumTo(Squares(p, o), n - 1), SumTo(p, n - 1), SumTo(Deviations(p, o), n - 1), y, p[n - 1], v);
    }
  }

  lemma OneDeviation(o: real, p: real)
    requires p > 0.0
    ensures Relative(o, p) >= 0.0 && Relative(o, p) * p == Abs(o - p) * Abs(o - p)
    ensures o == p ==> Relative(o, p) == 0.0
    ensures o != p ==> Relative(o, p) > 0.0
  {
    var w := o - p;
    assert Times(w, w) / p * p == Times(w, w);
    assert Times(w, w) == Abs(w) * Abs(w);
    if o != p {
      SquarePositive(w);
      PositiveQuotient(Times(w, w), p);
    }
  }

  lemma PositiveQuotient(x: real, p: real)
    requires p > 0.0 && x > 0.0
    ensures x / p > 0.0
  {
  }

  lemma SquarePositive(w: real)
    requires w != 0.0
    ensures Times(w, w) > 0.0
  {
    var m := Abs(w);
    ProductPositive(m, m);
    assert Times(m, m) == Times(w, w);
  }

  lemma ProductPositive(x: real, y: real)
    requires x > 0.0 && y > 0.0
    ensures Times(x, y) > 0.0
  {
    assert x * y > 0.0;
  }

  /** One step of the inequality: the cross terms beat 2xv. */
  lemma AddPair(a: real, b: real, x: real, y: real, q: real, v: real)
    requires Dominates(a, b, x) && y >= 0.0 && q > 0.0 && y * q == v * v
    ensures Dominates(a + y, b + q, x + v)
  {
    var c := a * q + y * b;
    ScaleAtMost(0.0, a, q);
    ScaleAtMost(0.0, y, b);
    CrossTerms(a, b, x, y, q, v);
    assert (a + y) * (b + q) == a * b + c + y * q;
    assert (x + v) * (x + v) == x * x + 2.0 * (x * v) + v * v;
    if c < 2.0 * (x * v) {
      SquareGrows(c, 2.0 * (x * v));
    }
  }

  lemma SquareGrows(c: real, d: real)
    requires 0.0 <= c < d
    ensures c * c < d * d
  {
    ScaleLess(0.0, d - c, d + c);
    assert (d - c) * (d + c) == d * d - c * c;
  }

  /** (aq + yb)^2 >= 4(aq)(yb) >= 4 x^2 v^2. */
  lemma CrossTerms(a: real, b: real, x: real, y: real, q: real, v: real)
    requires a >= 0.0 && b >= 0.0 && y >= 0.0 && q > 0.0
    requires a * b >= x * x && y * q == v * v
    ensures (a * q + y * b) * (a * q + y * b) >= (2.0 * (x * v)) * (2.0 * (x * v))
  {
    var s, t := a * q, y * b;
    assert (s - t) * (s - t) >= 0.0;
    assert (s + t) * (s + t) == (s - t) * (s - t) + 4.0 * (s * t);
    assert s * t == (a * b) * (y * q);
    assert v * v >= 0.0;
    ScaleAtMost(x * x, a * b, v * v);
    assert (2.0 * (x * v)) * (2.0 * (x * v)) == 4.0 * ((x * x) * (v * v));
  }

  ghost predicate IsProduct(x: real, n: real, s: real) { x == n * s }

  ghost predicate AtLeast81Squares(chi: real, n: real, m: real) { chi >= n * (81.0 * (m * m)) }

  /** The two tests agree in one direction: a mean deviation of m forces a chi-square of at least 81 n m^2. */
  lemma ChiSquareDominatesMad(p: PerDigit, amounts: seq<real>)
    requires IsExpectation(p)
    requires Positives(amounts) > 0
    ensures AtLeast81Squares(ChiSquare(p, amounts), Positives(amounts) as real, Mad(p, amounts))
  {
    var o := Frequencies(amounts);
    ChiSquareInShares(p, amounts);
    SquaresDominate(p, o, 9);
    var s, v := SumTo(Squares(p, o), 9), SumTo(Deviations(p, o), 9);
    NineTimes(ChiSquare(p, amounts), Positives(amounts) as real, s, SumTo(p, 9), v, Mad(p, amounts));
  }

  lemma NineTimes(chi: real, n: real, s: real, e: real, v: real, m: real)
    requires n > 0.0 && e == 1.0 && Dominates(s, e, v) && m == v / 9.0 && IsProduct(chi, n, s)
    ensures AtLeast81Squares(chi, n, m)
  {
    assert s * e == s;
    assert 81.0 * (m * m) == v * v;
    ScaleAtMost(v * v, s, n);
  }

  lemma {:induction false} SquaresVanish(p: PerDigit, o: PerDigit, n: nat)
    requires n <= 9 && forall i :: 0 <= i < 9 ==> p[i] > 0.0
    ensures SumTo(Squares(p, o), n) >= 0.0
    ensures SumTo(Squares(p, o), n) == 0.0 <==> forall i :: 0 <= i < n ==> o[i] == p[i]
  {
    if n > 0 {
      SquaresVanish(p, o, n - 1);
      OneDeviation(o[n - 1], p[n - 1]);
    }
  }

  /** The statistic is never negative, and zero exactly when every digit has its expected share. */
  lemma ChiSquareZeroIff(p: PerDigit, amounts: seq<real>)
    requires IsExpectation(p) && Positives(amounts) > 0
    ensures ChiSquare(p, amounts) >= 0.0
    ensures ChiSquare(p, amounts) == 0.0 <==> Frequencies(amounts) == p
  {
    var n, o := Positives(amounts) as real, Frequencies(amounts);
    var s := SumTo(Squares(p, o), 9);
    ChiSquareInShares(p, amounts);
    SquaresVanish(p, o, 9);
    ScaleAtMost(0.0, s, n);
    if n * s == 0.0 { CancelLeft(n, s, 0.0); }
    assert (forall i :: 0 <= i < 9 ==> o[i] == p[i]) <==> o == p;
  }
}
