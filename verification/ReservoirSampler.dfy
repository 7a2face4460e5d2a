/** The fixed-size reservoir: Algorithm R in stable mode, recency-biased replacement in drift mode. */
module ReservoirSampler {
  import opened Common

  // ----- Algorithm R over stream positions -----

  /** One full-reservoir update in stable mode: `j` was drawn from [0, seen). */
  function Replace<T>(buffer: seq<T>, item: T, j: nat): (r: seq<T>)
    ensures |r| == |buffer|
  {
    if j < |buffer| then buffer[j := item] else buffer
  }

  /** The same when only the places below `size` are ever replaced. */
  function ReplaceBelow<T>(buffer: seq<T>, item: T, j: nat, size: nat): (r: seq<T>)
    requires size <= |buffer|
    ensures |r| == |buffer| && (size == |buffer| ==> r == Replace(buffer, item, j))
  {
    if j < size then buffer[j := item] else buffer
  }

  /** The draws of a run over n items with capacity k: one per item from item k on, the one for
      position t taken from [0, t + 1). */
  ghost function AllDraws(k: nat, n: nat): set<seq<nat>>
    requires 0 < k <= n
    decreases n
  {
    if n == k then {[]} else set ds, j | ds in AllDraws(k, n - 1) && j in Below(n) :: ds + [j]
  }

  ghost function Below(n: nat): (r: set<nat>)
    ensures forall j: nat :: j in r <==> j < n
  {
    if n == 0 then {} else Below(n - 1) + {n - 1}
  }

  /** The stream positions in the reservoir after k + |draws| items. */
  function Kept(k: nat, draws: seq<nat>): (r: seq<nat>)
    ensures |r| == k
  {
    if draws == [] then seq(k, i requires 0 <= i < k => i)
    else Replace(Kept(k, draws[..|draws| - 1]), k + |draws| - 1, draws[|draws| - 1])
  }

  ghost function KeepingDraws(k: nat, n: nat, item: nat): set<seq<nat>>
    requires 0 < k <= n
  {
    set ds | ds in AllDraws(k, n) && item in Kept(k, ds)
  }

  lemma {:induction false} DrawsHaveLength(k: nat, n: nat, ds: seq<nat>)
    requires 0 < k <= n && ds in AllDraws(k, n)
    ensures |ds| == n - k
    decreases n
  {
    if n > k {
      var p, j: nat :| p in AllDraws(k, n - 1) && ds == p + [j];
      DrawsHaveLength(k, n - 1, p);
    }
  }

  /** The reservoir never holds a position twice, and only positions already seen. */
  lemma {:induction false} KeptDistinct(k: nat, draws: seq<nat>)
    ensures forall i :: 0 <= i < k ==> Kept(k, draws)[i] < k + |draws|
    ensures forall i, j :: 0 <= i < j < k ==> Kept(k, draws)[i] != Kept(k, draws)[j]
  {
    if draws != [] { KeptDistinct(k, draws[..|draws| - 1]); }
  }

  // ----- counting -----

  /** `x` is a sequence of `s` with one of its allowed next draws. */
  ghost predicate Extends(x: seq<nat>, s: set<seq<nat>>, next: seq<nat> -> set<nat>) {
    x != [] && x[..|x| - 1] in s && x[|x| - 1] in next(x[..|x| - 1])
  }

  ghost predicate ExtendsOne(x: seq<nat>, p: seq<nat>, js: set<nat>) {
    x != [] && x[..|x| - 1] == p && x[|x| - 1] in js
  }

  lemma {:induction false} OneStepCount(e: set<seq<nat>>, p: seq<nat>, js: set<nat>)
    requires forall x :: x in e <==> ExtendsOne(x, p, js)
    ensures |e| == |js|
    decreases |js|
  {
    if js == {} {
      assert e == {};
    } else {
      var j :| j in js;
      var x := p + [j];
      assert ExtendsOne(x, p, js);
      forall y ensures y in e - {x} <==> ExtendsOne(y, p, js - {j}) {
        if y != [] && y[..|y| - 1] == p && y[|y| - 1] == j { assert y == x; }
      }
      OneStepCount(e - {x}, p, js - {j});
    }
  }

  lemma SplitByPrefix(e: set<seq<nat>>, s: set<seq<nat>>, next: seq<nat> -> set<nat>, p: seq<nat>)
    returns (here: set<seq<nat>>)
    requires p in s && forall x :: x in e <==> Extends(x, s, next)
    ensures here <= e && (forall x :: x in here <==> ExtendsOne(x, p, next(p)))
    ensures forall x :: x in e - here <==> Extends(x, s - {p}, next)
  {
    here := set x | x in e && x[..|x| - 1] == p;
  }

  /** c ways to go on from each of the sequences in `s` give |s| * c longer sequences. */
  lemma {:induction false} ExtensionCount(e: set<seq<nat>>, s: set<seq<nat>>, next: seq<nat> -> set<nat>, c: nat)
    requires forall x :: x in e <==> Extends(x, s, next)
    requires forall ds :: ds in s ==> |next(ds)| == c
    ensures |e| == |s| * c
    decreases |s|
  {
    if s == {} {
      assert e == {};
    } else {
      var p :| p in s;
      var here := SplitByPrefix(e, s, next, p);
      OneStepCount(here, p, next(p));
      ExtensionCount(e - here, s - {p}, next, c);
      AddUp(e, e - here, here, |s - {p}|, c);
    }
  }

  lemma AddUp<T>(whole: set<T>, rest: set<T>, here: set<T>, m: nat, c: nat)
    requires whole == rest + here && rest !! here && |rest| == m * c && |here| == c
    ensures |whole| == (m + 1) * c
  {
    assert (m + 1) * c == m * c + c;
  }

  lemma {:induction false} BelowCount(n: nat)
    ensures |Below(n)| == n
  {
    if n > 0 { BelowCount(n - 1); }
  }

  lemma AllDrawsAreExtensions(k: nat, n: nat, x: seq<nat>)
    requires 0 < k < n
    ensures x in AllDraws(k, n) <==> Extends(x, AllDraws(k, n - 1), ds => Below(n))
  {
    if x in AllDraws(k, n) {
      var ds, j :| ds in AllDraws(k, n - 1) && j in Below(n) && x == ds + [j];
      assert x[..|x| - 1] == ds;
    } else if x != [] {
      assert x == x[..|x| - 1] + [x[|x| - 1]];
    }
  }

  lemma AllDrawsStep(k: nat, n: nat)
    requires 0 < k < n
    ensures |AllDraws(k, n)| == |AllDraws(k, n - 1)| * n
  {
    BelowCount(n);
    forall x ensures x in AllDraws(k, n) <==> Extends(x, AllDraws(k, n - 1), ds => Below(n)) {
      AllDrawsAreExtensions(k, n, x);
    }
    ExtensionCount(AllDraws(k, n), AllDraws(k, n - 1), ds => Below(n), n);
  }

  /** The draws for item n - 1 after `ds` that leave `item` in the reservoir. */
  ghost function GoodDraws(k: nat, n: nat, item: nat, ds: seq<nat>): set<nat>
    requires n > 0
  {
    set j | j in Below(n) && item in Replace(Kept(k, ds), n - 1, j)
  }

  lemma KeepingDrawsAreExtensions(k: nat, n: nat, item: nat, x: seq<nat>)
    requires 0 < k < n
    ensures x in KeepingDraws(k, n, item) <==> Extends(x, AllDraws(k, n - 1), ds => GoodDraws(k, n, item, ds))
  {
    AllDrawsAreExtensions(k, n, x);
    if x in AllDraws(k, n) { DrawsHaveLength(k, n, x); }
    if x != [] && x[..|x| - 1] in AllDraws(k, n - 1) { DrawsHaveLength(k, n - 1, x[..|x| - 1]); }
  }

  /** The newest item is kept by exactly k of its n draws. */
  lemma NewestDraws(k: nat, n: nat, ds: seq<nat>)
    requires 0 < k < n && ds in AllDraws(k, n - 1)
    ensures |GoodDraws(k, n, n - 1, ds)| == k
  {
    var m := n - 1;
    DrawsHaveLength(k, m, ds);
    KeptDistinct(k, ds);
    BelowCount(k);
    forall j | j in Below(n) ensures m in Replace(Kept(k, ds), m, j) <==> j in Below(k) {
      if j < k { assert Replace(Kept(k, ds), m, j)[j] == m; }
    }
    assert GoodDraws(k, n, m, ds) == Below(k);
  }

  /** An older item survives all draws but the one that names its place. */
  lemma OlderDraws(k: nat, n: nat, item: nat, ds: seq<nat>)
    requires 0 < k < n && item < n - 1 && ds in AllDraws(k, n - 1)
    ensures if item in Kept(k, ds) then |GoodDraws(k, n, item, ds)| == n - 1 else GoodDraws(k, n, item, ds) == {}
  {
    var kept := Kept(k, ds);
    DrawsHaveLength(k, n - 1, ds);
    KeptDistinct(k, ds);
    BelowCount(n);
    if item in kept {
      var p :| 0 <= p < k && kept[p] == item;
      forall j | j in Below(n) ensures item in Replace(kept, n - 1, j) <==> j != p {
        if j != p { assert Replace(kept, n - 1, j)[p] == item; }
      }
      assert GoodDraws(k, n, item, ds) == Below(n) - {p};
    }
  }

  lemma NewestCount(k: nat, n: nat)
    requires 0 < k < n
    ensures |KeepingDraws(k, n, n - 1)| == |AllDraws(k, n - 1)| * k
  {
    var m, next := n - 1, ds => GoodDraws(k, n, n - 1, ds);
    forall x ensures x in KeepingDraws(k, n, m) <==> Extends(x, AllDraws(k, m), next) {
      KeepingDrawsAreExtensions(k, n, m, x);
    }
    forall ds | ds in AllDraws(k, m) ensures |next(ds)| == k {
      NewestDraws(k, n, ds);
    }
    ExtensionCount(KeepingDraws(k, n, m), AllDraws(k, m), next, k);
  }

  lemma OlderCount(k: nat, n: nat, item: nat)
    requires 0 < k < n && item < n - 1
    ensures |KeepingDraws(k, n, item)| == |KeepingDraws(k, n - 1, item)| * (n - 1)
  {
    var m, next := n - 1, ds => GoodDraws(k, n, item, ds);
    forall x ensures x in KeepingDraws(k, n, item) <==> Extends(x, KeepingDraws(k, m, item), next) {
      KeepingDrawsAreExtensions(k, n, item, x);
      if Extends(x, AllDraws(k, m), next) { OlderDraws(k, n, item, x[..|x| - 1]); }
    }
    forall ds | ds in KeepingDraws(k, m, item) ensures |next(ds)| == m {
      OlderDraws(k, n, item, ds);
    }
    ExtensionCount(KeepingDraws(k, n, item), KeepingDraws(k, m, item), next, m);
  }

  lemma Reassociate(k: nat, total: nat, n: nat)
    ensures (k * total) * n == k * (total * n)
  {}

  /** Uniformity: after n items every one of them is kept by the same share k/n of all draw sequences. */
  lemma {:induction false} Uniform(k: nat, n: nat, item: nat)
    requires 0 < k <= n && item < n
    ensures |KeepingDraws(k, n, item)| * n == k * |AllDraws(k, n)|
    decreases n
  {
    if n == k {
      assert Kept(k, [])[item] == item;
      assert KeepingDraws(k, n, item) == {[]};
    } else {
      AllDrawsStep(k, n);
      if item == n - 1 {
        NewestCount(k, n);
      } else {
        OlderCount(k, n, item);
        Uniform(k, n - 1, item);
      }
      assert |KeepingDraws(k, n, item)| == k * |AllDraws(k, n - 1)|;
      Reassociate(k, |AllDraws(k, n - 1)|, n);
    }
  }

  // ----- after a reload -----

  /** A pair of runs: one up to n items, and, after a reload, one over the k rows kept and m further items. */
  type TwoRuns = (seq<nat>, seq<nat>)

  ghost function AllPairs(a: set<seq<nat>>, b: set<seq<nat>>): set<TwoRuns> { set x, y | x in a && y in b :: (x, y) }

  lemma {:induction false} PairCount(e: set<TwoRuns>, a: set<seq<nat>>, next: seq<nat> -> set<seq<nat>>, c: nat)
    requires forall p :: p in e <==> p.0 in a && p.1 in next(p.0)
    requires forall x :: x in a ==> |next(x)| == c
    ensures |e| == |a| * c
    decreases |a|
  {
    if a == {} {
      assert e == {};
    } else {
      var x :| x in a;
      var here := set p | p in e && p.0 == x;
      FiberCount(here, x, next(x));
      PairCount(e - here, a - {x}, next, c);
      AddUp(e, e - here, here, |a - {x}|, c);
    }
  }

  lemma {:induction false} FiberCount(here: set<TwoRuns>, x: seq<nat>, ys: set<seq<nat>>)
    requires forall p :: p in here <==> p.0 == x && p.1 in ys
    ensures |here| == |ys|
    decreases |ys|
  {
    if ys == {} {
      assert here == {};
    } else {
      var y :| y in ys;
      FiberCount(here - {(x, y)}, x, ys - {y});
    }
  }

  /** Every place of the buffer, and every new item, is kept by one and the same number of second runs. */
  lemma KeepersAgree(k: nat, n: nat, i: nat, j: nat)
    requires 0 < k <= n && i < n && j < n
    ensures |KeepingDraws(k, n, i)| == |KeepingDraws(k, n, j)|
  {
    Uniform(k, n, i);
    Uniform(k, n, j);
    CancelFactor(n, |KeepingDraws(k, n, i)|, |KeepingDraws(k, n, j)|);
  }

  /** The pairs of runs that keep `item`: an item of the first run has to survive both, in the place where the
      first left it; a later one, numbered on from n, only the second. */
  ghost predicate KeptByBoth(k: nat, n: nat, item: nat, p: TwoRuns)
    requires k > 0
  {
    if item < n then exists place :: 0 <= place < k && Kept(k, p.0)[place] == item && place in Kept(k, p.1)
    else k + (item - n) in Kept(k, p.1)
  }

  ghost function KeepingPairs(k: nat, n: nat, m: nat, item: nat): set<TwoRuns>
    requires 0 < k <= n
  {
    set p | p in AllPairs(AllDraws(k, n), AllDraws(k, k + m)) && KeptByBoth(k, n, item, p)
  }

  /** The place where a run left an item. */
  function PlaceOf(kept: seq<nat>, item: nat): nat {
    if kept == [] then 0 else if kept[0] == item then 0 else 1 + PlaceOf(kept[1..], item)
  }

  lemma {:induction false} PlaceFound(kept: seq<nat>, item: nat)
    requires item in kept
    ensures PlaceOf(kept, item) < |kept| && kept[PlaceOf(kept, item)] == item
  {
    if kept[0] != item { PlaceFound(kept[1..], item); }
  }

  lemma InAllPairs(a: set<seq<nat>>, b: set<seq<nat>>, p: TwoRuns)
    ensures p in AllPairs(a, b) <==> p.0 in a && p.1 in b
  {
    assert p == (p.0, p.1);
  }

  lemma NewPairMeans(k: nat, n: nat, m: nat, item: nat, p: TwoRuns)
    requires 0 < k <= n <= item < n + m
    ensures p in KeepingPairs(k, n, m, item) <==>
      p.0 in AllDraws(k, n) && p.1 in KeepingDraws(k, k + m, k + (item - n))
  {
    InAllPairs(AllDraws(k, n), AllDraws(k, k + m), p);
  }

  lemma NewItemPairs(k: nat, n: nat, m: nat, item: nat)
    requires 0 < k <= n <= item < n + m
    ensures |KeepingPairs(k, n, m, item)| == |AllDraws(k, n)| * |KeepingDraws(k, k + m, k + (item - n))|
  {
    var next := x => KeepingDraws(k, k + m, k + (item - n));
    forall p ensures p in KeepingPairs(k, n, m, item) <==> p.0 in AllDraws(k, n) && p.1 in next(p.0) {
      NewPairMeans(k, n, m, item, p);
    }
    PairCount(KeepingPairs(k, n, m, item), AllDraws(k, n), next, |KeepingDraws(k, k + m, k + (item - n))|);
  }

  lemma OldItemPairs(k: nat, n: nat, m: nat, item: nat)
    requires 0 < k <= n && item < n
    ensures |KeepingPairs(k, n, m, item)| == |KeepingDraws(k, n, item)| * |KeepingDraws(k, k + m, 0)|
  {
    var next := x => OldContinuations(k, m, item, x);
    forall x | x in KeepingDraws(k, n, item) ensures |next(x)| == |KeepingDraws(k, k + m, 0)| {
      PlaceFound(Kept(k, x), item);
      KeepersAgree(k, k + m, PlaceOf(Kept(k, x), item), 0);
    }
    forall p ensures p in KeepingPairs(k, n, m, item) <==> p.0 in KeepingDraws(k, n, item) && p.1 in next(p.0) {
      OldPairMeans(k, n, m, item, p);
    }
    PairCount(KeepingPairs(k, n, m, item), KeepingDraws(k, n, item), next, |KeepingDraws(k, k + m, 0)|);
  }

  ghost function OldContinuations(k: nat, m: nat, item: nat, x: seq<nat>): set<seq<nat>>
    requires k > 0
  {
    KeepingDraws(k, k + m, PlaceOf(Kept(k, x), item))
  }

  lemma KeptByBothMeans(k: nat, n: nat, item: nat, p: TwoRuns)
    requires 0 < k <= n && item < n && p.0 in AllDraws(k, n)
    ensures KeptByBoth(k, n, item, p) <==>
      item in Kept(k, p.0) && PlaceOf(Kept(k, p.0), item) in Kept(k, p.1)
  {
    var kept := Kept(k, p.0);
    KeptDistinct(k, p.0);
    if item in kept {
      PlaceFound(kept, item);
      assert kept[PlaceOf(kept, item)] == item;
    }
  }

  lemma OldPairMeans(k: nat, n: nat, m: nat, item: nat, p: TwoRuns)
    requires 0 < k <= n && item < n
    ensures p in KeepingPairs(k, n, m, item) <==>
      p.0 in KeepingDraws(k, n, item) && p.1 in OldContinuations(k, m, item, p.0)
  {
    InAllPairs(AllDraws(k, n), AllDraws(k, k + m), p);
    if p.0 in AllDraws(k, n) { KeptByBothMeans(k, n, item, p); }
  }

  /** The distribution after a reload, as shares of all pairs of runs: a later item is kept by k/(k + m), an
      earlier one by k/n of that. */
  lemma ReloadedShares(k: nat, n: nat, m: nat, item: nat)
    requires 0 < k <= n && item < n + m
    ensures var all := |AllDraws(k, n)| * |AllDraws(k, k + m)|;
      if item < n then |KeepingPairs(k, n, m, item)| * (n * (k + m)) == k * k * all
      else |KeepingPairs(k, n, m, item)| * (k + m) == k * all
  {
    var a, b := |AllDraws(k, n)|, |AllDraws(k, k + m)|;
    if item < n {
      OldItemPairs(k, n, m, item);
      Uniform(k, n, item);
      Uniform(k, k + m, 0);
      ProductShares(|KeepingDraws(k, n, item)|, |KeepingDraws(k, k + m, 0)|, n, k + m, k, a, b);
    } else {
      NewItemPairs(k, n, m, item);
      Uniform(k, k + m, k + (item - n));
      OneShare(a, |KeepingDraws(k, k + m, k + (item - n))|, k + m, k, b);
    }
  }

  lemma ProductShares(x: nat, y: nat, n: nat, l: nat, k: nat, a: nat, b: nat)
    requires x * n == k * a && y * l == k * b
    ensures x * y * (n * l) == k * k * (a * b)
  {
    assert x * y * (n * l) == (x * n) * (y * l);
    assert (k * a) * (k * b) == k * k * (a * b);
  }

  lemma OneShare(a: nat, y: nat, l: nat, k: nat, b: nat)
    requires y * l == k * b
    ensures a * y * l == k * (a * b)
  {
    assert a * y * l == a * (y * l);
  }

  /** So with at least one later item the reservoir is uniform over all n + m items exactly when the sampler was
      reloaded before it had dropped any. */
  lemma ReloadedUniformIff(k: nat, n: nat, m: nat)
    requires 0 < k <= n && m > 0
    ensures (forall item :: 0 <= item < n + m ==>
              |KeepingPairs(k, n, m, item)| * (n + m) == k * (|AllDraws(k, n)| * |AllDraws(k, k + m)|)) <==> n == k
  {
    var all := |AllDraws(k, n)| * |AllDraws(k, k + m)|;
    DrawsExist(k, n);
    DrawsExist(k, k + m);
    assert all > 0;
    if n == k {
      forall item | 0 <= item < n + m ensures |KeepingPairs(k, n, m, item)| * (n + m) == k * all {
        ReloadedShares(k, n, m, item);
        if item < n { SameFactor(|KeepingPairs(k, n, m, item)|, k, m, all); }
      }
    } else {
      ReloadedShares(k, n, m, n);
      var x := |KeepingPairs(k, n, m, n)|;
      if x * (n + m) == k * all {
        assert x * (n + m) == x * (k + m);
        PositiveFactor(x, k + m, k, all);
        CancelFactor(x, n + m, k + m);
      }
    }
  }

  lemma SameFactor(x: nat, k: nat, m: nat, all: nat)
    requires k > 0 && x * (k * (k + m)) == k * k * all
    ensures x * (k + m) == k * all
  {
    assert x * (k * (k + m)) == k * (x * (k + m));
    assert k * k * all == k * (k * all);
    CancelFactor(k, x * (k + m), k * all);
  }

  lemma {:induction false} DrawsExist(k: nat, n: nat)
    requires 0 < k <= n
    ensures |AllDraws(k, n)| > 0
    decreases n
  {
    if n > k {
      DrawsExist(k, n - 1);
      AllDrawsStep(k, n);
    }
  }

  lemma PositiveFactor(x: nat, l: nat, k: nat, all: nat)
    requires x * l == k * all && k > 0 && all > 0
    ensures x > 0
  {}

  lemma CancelFactor(k: nat, a: nat, b: nat)
    requires k > 0 && k * a == k * b
    ensures a == b
  {}

  // ----- the sampler object -----

  /** The Parquet file: rows of (example, timestamp). */
  class BufferFile<T> {
    var rows: Option<seq<(T, real)>>
    constructor ()
      ensures rows.None?
    { rows := None; }
  }

  function Zipped<T>(buffer: seq<T>, timestamps: seq<real>): (r: seq<(T, real)>)
    requires |buffer| == |timestamps|
    ensures |r| == |buffer|
  {
    seq(|buffer|, i requires 0 <= i < |buffer| => (buffer[i], timestamps[i]))
  }

  /** `pairs` is what Algorithm R keeps of `history` under `draws`, item by item and place by place. */
  ghost predicate Sampled<P>(k: nat, pairs: seq<P>, history: seq<P>, draws: seq<nat>)
    requires k > 0
  {
    if |history| < k then draws == [] && pairs == history
    else
      && draws in AllDraws(k, |history|) && |draws| == |history| - k && |pairs| == k
      && forall p :: 0 <= p < k ==> Kept(k, draws)[p] < |history| && pairs[p] == history[Kept(k, draws)[p]]
  }

  lemma SampledAppend<P>(k: nat, pairs: seq<P>, history: seq<P>, draws: seq<nat>, x: P)
    requires k > 0 && |history| < k && Sampled(k, pairs, history, draws)
    ensures Sampled(k, pairs + [x], history + [x], draws)
  {
    assert Kept(k, []) == seq(k, i requires 0 <= i < k => i);
  }

  lemma SampledReplace<P>(k: nat, pairs: seq<P>, history: seq<P>, draws: seq<nat>, x: P, j: nat)
    requires 0 < k <= |history| && j <= |history| && Sampled(k, pairs, history, draws)
    ensures Sampled(k, Replace(pairs, x, j), history + [x], draws + [j])
  {
    assert (draws + [j])[..|draws|] == draws;
    assert j in Below(|history| + 1);
  }

  class DriftAwareReservoirSampler<T> {
    const reservoirSize: nat
    const flushInterval: nat
    const file: BufferFile<T>
    var buffer: seq<T>
    var timestamps: seq<real>
    var totalSeen: nat
    var updatesSinceFlush: nat
    /** Everything received, the rows of a reloaded file first. */
    ghost var history: seq<(T, real)>
    /** The draws made so far, as long as every replacement was a stable-mode one. */
    ghost var stable: bool
    ghost var draws: seq<nat>

    /** A file written under a larger capacity was loaded whole. */
    predicate Oversized()
      reads this
    { |buffer| > reservoirSize }

    ghost predicate Valid()
      reads this
    {
      && reservoirSize > 0 && flushInterval > 0
      && |history| == totalSeen
      && |buffer| == |timestamps| <= totalSeen
      && (Oversized() || |buffer| == if totalSeen <= reservoirSize then totalSeen else reservoirSize)
      && (forall x :: x in Zipped(buffer, timestamps) ==> x in history)
      && (stable ==> !Oversized() && Sampled(reservoirSize, Zipped(buffer, timestamps), history, draws))
    }

    constructor (size: nat, interval: nat, file: BufferFile<T>)
      requires size > 0 && interval > 0
      ensures Valid() && this.file == file && reservoirSize == size && flushInterval == interval
      ensures (stable <==> !Oversized()) && draws == [] && updatesSinceFlush == 0
      ensures history == if file.rows.Some? then file.rows.value else []
      ensures Zipped(buffer, timestamps) == history
    {
      reservoirSize, flushInterval, this.file := size, interval, file;
      var rows := if file.rows.Some? then file.rows.value else [];
      buffer := seq(|rows|, i requires 0 <= i < |rows| => rows[i].0);
      timestamps := seq(|rows|, i requires 0 <= i < |rows| => rows[i].1);
      totalSeen, updatesSinceFlush := |rows|, 0;
      history, stable, draws := rows, |rows| <= size, [];
      new;
      assert Zipped(buffer, timestamps) == history;
      if stable && totalSeen == reservoirSize { assert Kept(reservoirSize, []) == seq(reservoirSize, i requires 0 <= i < reservoirSize => i); }
    }

    /** `drift` is the detector's alarm; `draw` is the random index, taken from [0, seen) by the standard
        replacement and from [0, size) by the biased one. The call fails where the biased replacement asserts
        that the buffer has the reservoir's size. */
    method Update(example: T, timestamp: real, drift: bool, draw: nat) returns (ok: bool)
      requires Valid()
      requires draw < if drift then reservoirSize else totalSeen + 1
      modifies this, file
      ensures Valid() && totalSeen == old(totalSeen) + 1
      ensures ok <==> !(drift && old(Oversized()))
      ensures history == old(history) + [(example, timestamp)]
      ensures stable == (old(stable) && (!drift || old(|buffer|) < reservoirSize))
      ensures draws == if old(|buffer|) < reservoirSize || drift then old(draws) else old(draws) + [draw]
      ensures old(|buffer|) < reservoirSize ==> buffer == old(buffer) + [example] && timestamps == old(timestamps) + [timestamp]
      ensures old(|buffer|) >= reservoirSize && ok ==>
        buffer == ReplaceBelow(old(buffer), example, draw, reservoirSize) &&
        timestamps == ReplaceBelow(old(timestamps), timestamp, draw, reservoirSize)
      ensures !ok ==> buffer == old(buffer) && timestamps == old(timestamps) && updatesSinceFlush == old(updatesSinceFlush)
      ensures !ok || old(updatesSinceFlush) + 1 < flushInterval ==> file.rows == old(file.rows)
      ensures ok && old(updatesSinceFlush) + 1 >= flushInterval ==>
        updatesSinceFlush == 0 && file.rows == Some(Zipped(buffer, timestamps))
    {
      ghost var before, pairs := history, Zipped(buffer, timestamps);
      totalSeen := totalSeen + 1;
      history := history + [(example, timestamp)];
      if |buffer| < reservoirSize {
        buffer := buffer + [example];
        timestamps := timestamps + [timestamp];
        assert Zipped(buffer, timestamps) == pairs + [(example, timestamp)];
        if stable { SampledAppend(reservoirSize, pairs, before, draws, (example, timestamp)); }
      } else if drift {
        if Oversized() { return false; }
        buffer := buffer[draw := example];
        timestamps := timestamps[draw := timestamp];
        assert Zipped(buffer, timestamps) == Replace(pairs, (example, timestamp), draw);
        stable := false;
      } else {
        if draw < reservoirSize {
          buffer := buffer[draw := example];
          timestamps := timestamps[draw := timestamp];
        }
        assert Zipped(buffer, timestamps) == ReplaceBelow(pairs, (example, timestamp), draw, reservoirSize);
        if stable { SampledReplace(reservoirSize, pairs, before, draws, (example, timestamp), draw); }
        draws := draws + [draw];
      }
      updatesSinceFlush := updatesSinceFlush + 1;
      if updatesSinceFlush >= flushInterval {
        Flush();
      }
      ok := true;
    }

    method Flush()
      requires Valid()
      modifies `updatesSinceFlush, file
      ensures Valid()
      ensures file.rows == if buffer == [] then old(file.rows) else Some(Zipped(buffer, timestamps))
      ensures updatesSinceFlush == if buffer == [] then old(updatesSinceFlush) else 0
    {
      if buffer == [] {
        return;
      }
      file.rows := Some(Zipped(buffer, timestamps));
      updatesSinceFlush := 0;
    }

    method Reset()
      requires Valid()
      modifies this, file
      ensures Valid() && buffer == [] && totalSeen == 0 && updatesSinceFlush == 0 && file.rows.None?
    {
      buffer, timestamps, totalSeen, updatesSinceFlush := [], [], 0, 0;
      history, stable, draws := [], true, [];
      file.rows := None;
    }
  }
}

