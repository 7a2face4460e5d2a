/** The greedy search for a set of trades whose removal brings a wallet's score below the threshold, for any
    deterministic scorer. Trade ids are numbered in their string order. */
module CausalAttribution {
  import opened Common

  type Id = nat
  type Data(==, 00, !new)

  datatype Trade = Trade(id: Id, data: Data)

  type Scorer = seq<Trade> -> int

  const MAX_STEPS := 20

  function Without(trades: seq<Trade>, gone: seq<Id>): seq<Trade> {
    if trades == [] then []
    else
      var before, t := Without(trades[..|trades| - 1], gone), trades[|trades| - 1];
      if t.id in gone then before else before + [t]
  }

  function Ids(trades: seq<Trade>): set<Id> { set t | t in trades :: t.id }

  function Min(a: int, b: int): int { if a <= b then a else b }

  /** The score after removal, never reported above the score before it, and 0 when there are no trades. */
  function CounterfactualScore(score: Scorer, trades: seq<Trade>, removed: seq<Id>): int {
    if trades == [] then 0 else Min(score(trades), score(Without(trades, removed)))
  }

  /** The reported score is never above the one before the removal, and is the score of what remains whenever that
      is not above it. */
  lemma RemovalNeverRaises(score: Scorer, trades: seq<Trade>, removed: seq<Id>)
    requires trades != []
    ensures CounterfactualScore(score, trades, removed) <= score(trades)
    ensures score(Without(trades, removed)) <= score(trades) ==>
      CounterfactualScore(score, trades, removed) == score(Without(trades, removed))
  {}

  lemma {:induction false} WithoutMembers(trades: seq<Trade>, gone: seq<Id>, t: Trade)
    ensures t in Without(trades, gone) <==> t in trades && t.id !in gone
  {
    if trades != [] {
      assert trades == trades[..|trades| - 1] + [trades[|trades| - 1]];
      WithoutMembers(trades[..|trades| - 1], gone, t);
    }
  }

  lemma {:induction false} WithoutNone(trades: seq<Trade>)
    ensures Without(trades, []) == trades
  {
    if trades != [] { WithoutNone(trades[..|trades| - 1]); }
  }

  /** Removing in two rounds is removing once. */
  lemma {:induction false} WithoutTwice(trades: seq<Trade>, a: seq<Id>, b: seq<Id>)
    ensures Without(Without(trades, a), b) == Without(trades, a + b)
  {
    if trades != [] {
      var pre, t := trades[..|trades| - 1], trades[|trades| - 1];
      WithoutTwice(pre, a, b);
      if t.id !in a { assert (Without(pre, a) + [t])[..|Without(pre, a)|] == Without(pre, a); }
    }
  }

  /** What one greedy step must satisfy: a strict gain, and none better among the ids still there. */
  ghost predicate BestStep(score: Scorer, trades: seq<Trade>, removed: seq<Id>, id: Id) {
    && id in Ids(Without(trades, removed))
    && score(Without(trades, removed + [id])) < score(Without(trades, removed))
    && forall other :: other in Ids(Without(trades, removed)) ==>
      score(Without(trades, removed + [id])) <= score(Without(trades, removed + [other]))
      && (score(Without(trades, removed + [id])) == score(Without(trades, removed + [other])) ==> id <= other)
  }

  /** A run of greedy steps, each taken while the score was still at or above the threshold. */
  ghost predicate GreedyPath(score: Scorer, trades: seq<Trade>, threshold: int, path: seq<Id>) {
    forall i :: 0 <= i < |path| ==>
      BestStep(score, trades, path[..i], path[i]) && score(Without(trades, path[..i])) >= threshold
  }

  /** No single removal helps any more. */
  ghost predicate Stuck(score: Scorer, trades: seq<Trade>, removed: seq<Id>) {
    forall id :: id in Ids(Without(trades, removed)) ==>
      score(Without(trades, removed + [id])) >= score(Without(trades, removed))
  }

  /** Where the run ends without a result: no step is left, and the score is still too high. */
  ghost predicate GaveUp(score: Scorer, trades: seq<Trade>, threshold: int, path: seq<Id>) {
    && score(Without(trades, path)) >= threshold && |path| <= MAX_STEPS
    && (Stuck(score, trades, path) || |path| == Min(MAX_STEPS, |trades|))
  }

  lemma GreedyPathGrows(score: Scorer, trades: seq<Trade>, threshold: int, path: seq<Id>, id: Id)
    requires GreedyPath(score, trades, threshold, path)
    requires BestStep(score, trades, path, id) && score(Without(trades, path)) >= threshold
    ensures GreedyPath(score, trades, threshold, path + [id])
  {
    var longer := path + [id];
    forall i | 0 <= i < |longer|
      ensures BestStep(score, trades, longer[..i], longer[i]) && score(Without(trades, longer[..i])) >= threshold
    {
      assert longer[..i] == path[..i];
      if i == |path| { assert path[..i] == path; }
    }
  }

  /** The scores decide the removals, ties included: of two greedy paths one begins with the other. */
  lemma {:induction false} GreedyPathUnique(score: Scorer, trades: seq<Trade>, threshold: int, a: seq<Id>, b: seq<Id>, n: nat)
    requires GreedyPath(score, trades, threshold, a) && GreedyPath(score, trades, threshold, b)
    requires n <= |a| && n <= |b|
    ensures a[..n] == b[..n]
  {
    if n > 0 {
      var i := n - 1;
      GreedyPathUnique(score, trades, threshold, a, b, i);
      assert BestStep(score, trades, a[..i], a[i]) && BestStep(score, trades, b[..i], b[i]);
      assert a[..n] == a[..i] + [a[i]] && b[..n] == b[..i] + [b[i]];
    }
  }

  /** A greedy path never removes an id twice. */
  lemma GreedyPathDistinct(score: Scorer, trades: seq<Trade>, threshold: int, path: seq<Id>)
    requires GreedyPath(score, trades, threshold, path)
    ensures forall i, j :: 0 <= i < j < |path| ==> path[i] != path[j]
    ensures forall i :: 0 <= i < |path| ==> path[i] in Ids(trades)
  {
    forall j | 0 <= j < |path| ensures path[j] in Ids(trades) && path[j] !in path[..j] {
      assert BestStep(score, trades, path[..j], path[j]);
      var t :| t in Without(trades, path[..j]) && t.id == path[j];
      WithoutMembers(trades, path[..j], t);
    }
  }

  /** `id` gives the score c, the least among the removals of `ids`, and is the first to give it. */
  ghost predicate IsBest(score: Scorer, remaining: seq<Trade>, removed: seq<Id>, ids: set<Id>, c: int, id: Id) {
    && id in ids && c == CounterfactualScore(score, remaining, removed + [id])
    && forall other :: other in ids ==>
      c <= CounterfactualScore(score, remaining, removed + [other])
      && (c == CounterfactualScore(score, remaining, removed + [other]) ==> id <= other)
  }

  /** The best single removal in id order, or None when no trade is left. */
  method BestRemoval(score: Scorer, remaining: seq<Trade>, removed: seq<Id>) returns (best: Option<(int, Id)>)
    ensures best.None? <==> remaining == []
    ensures best.Some? ==> IsBest(score, remaining, removed, Ids(remaining), best.value.0, best.value.1)
  {
    best := None;
    var left := Ids(remaining);
    while left != {}
      invariant left <= Ids(remaining) && (best.None? <==> left == Ids(remaining))
      invariant best.Some? ==> IsBest(score, remaining, removed, Ids(remaining) - left, best.value.0, best.value.1)
      invariant forall i, j :: i in left && j in Ids(remaining) && j !in left ==> j < i
      decreases left
    {
      HasLeast(left);
      var id :| IsLeast(id, left);
      var c := CounterfactualScore(score, remaining, removed + [id]);
      if best.None? || c < best.value.0 {
        best := Some((c, id));
      }
      left := left - {id};
    }
    if remaining != [] { assert remaining[0].id in Ids(remaining); }
    assert Ids(remaining) - left == Ids(remaining);
  }

  /** A result is the run of removals made, and it ends below the threshold; None means the run, `path`,
      ended at or above it, stuck or out of steps. */
  method MinimalExoneratingSet(score: Scorer, trades: seq<Trade>, threshold: int) returns (r: Option<seq<Id>>, ghost path: seq<Id>)
    ensures r.Some? ==> GreedyPath(score, trades, threshold, r.value) && |r.value| <= MAX_STEPS
    ensures r.Some? ==> (trades != [] ==> score(Without(trades, r.value)) < threshold)
    ensures r.Some? ==> (forall i, j :: 0 <= i < j < |r.value| ==> r.value[i] != r.value[j])
    ensures r.Some? ==> forall id :: id in r.value ==> id in Ids(trades)
    ensures r.None? ==> trades != [] && score(trades) >= threshold
    ensures r.None? ==> GreedyPath(score, trades, threshold, path) && GaveUp(score, trades, threshold, path)
  {
    path := [];
    WithoutNone(trades);
    if trades == [] {
      return Some([]), path;
    }
    var remaining, removed := trades, [];
    var current := CounterfactualScore(score, remaining, removed);
    if current < threshold {
      return Some([]), path;
    }
    for step := 0 to Min(MAX_STEPS, |trades|)
      invariant path == removed && |removed| == step
      invariant remaining == Without(trades, removed) && current == score(remaining) >= threshold
      invariant GreedyPath(score, trades, threshold, removed)
    {
      var best := BestRemoval(score, remaining, removed);
      forall id ensures Without(remaining, removed + [id]) == Without(trades, removed + [id])
        && Without(remaining, [id]) == Without(trades, removed + [id])
      {
        WithoutTwice(trades, removed, removed + [id]);
        WithoutTwice(trades, removed, [id]);
        SameGone(trades, removed + (removed + [id]), removed + [id]);
      }
      if best.None? || best.value.0 >= current {
        return None, path;
      }
      var chosen := best.value.1;
      assert BestStep(score, trades, removed, chosen);
      GreedyPathGrows(score, trades, threshold, removed, chosen);
      current := best.value.0;
      removed := removed + [chosen];
      path := removed;
      remaining := Without(remaining, [chosen]);
      if current < threshold {
        GreedyPathDistinct(score, trades, threshold, removed);
        return Some(removed), path;
      }
    }
    return None, path;
  }

  lemma {:induction false} SameGone(trades: seq<Trade>, a: seq<Id>, b: seq<Id>)
    requires forall id :: id in a <==> id in b
    ensures Without(trades, a) == Without(trades, b)
  {
    if trades != [] { SameGone(trades[..|trades| - 1], a, b); }
  }

  ghost predicate SkewedScores(score: Scorer, a: Trade, b: Trade, c: Trade) {
    && a.id == 0 && b.id == 1 && c.id == 2
    && score([a, b, c]) == 80 && score([b, c]) == 60 && score([a, c]) == 70 && score([a, b]) == 70
    && score([c]) == 55 && score([b]) == 56 && score([a]) == 40 && score([]) == 0
  }

  lemma Removals(a: Trade, b: Trade, c: Trade)
    requires a.id == 0 && b.id == 1 && c.id == 2
    ensures var all := [a, b, c];
      && Without(all, []) == all && Without(all, [0]) == [b, c] && Without(all, [1]) == [a, c] && Without(all, [2]) == [a, b]
      && Without(all, [0, 1]) == [c] && Without(all, [0, 2]) == [b] && Without(all, [1, 2]) == [a] && Without(all, [0, 1, 2]) == []
  {
    forall gone: seq<Id>
      ensures Without([a, b, c], gone) ==
        (if 0 in gone then [] else [a]) + (if 1 in gone then [] else [b]) + (if 2 in gone then [] else [c])
    {
      ThreeWithout(a, b, c, gone);
    }
  }

  lemma FirstStep(score: Scorer, a: Trade, b: Trade, c: Trade)
    requires SkewedScores(score, a, b, c)
    ensures BestStep(score, [a, b, c], [], 0)
  {
    Removals(a, b, c);
    var none: seq<Id> := [];
    assert none + [0] == [0] && none + [1] == [1] && none + [2] == [2];
    assert a in [a, b, c];
  }

  lemma SecondStep(score: Scorer, a: Trade, b: Trade, c: Trade)
    requires SkewedScores(score, a, b, c)
    ensures BestStep(score, [a, b, c], [0], 1)
  {
    Removals(a, b, c);
    assert [0] + [1] == [0, 1] && [0] + [2] == [0, 2];
    assert b in [b, c];
  }

  lemma ThirdStep(score: Scorer, a: Trade, b: Trade, c: Trade)
    requires SkewedScores(score, a, b, c)
    ensures BestStep(score, [a, b, c], [0, 1], 2)
  {
    Removals(a, b, c);
    assert [0, 1] + [2] == [0, 1, 2];
    assert c in [c];
  }

  /** The result need not be minimal, whatever the method's name says: here the greedy run removes three
      trades although removing two others is enough. */
  lemma GreedyIsNotMinimal(score: Scorer, a: Trade, b: Trade, c: Trade)
    requires SkewedScores(score, a, b, c)
    ensures GreedyPath(score, [a, b, c], 50, [0, 1, 2]) && score(Without([a, b, c], [0, 1, 2])) < 50
    ensures score(Without([a, b, c], [1, 2])) < 50
  {
    Removals(a, b, c);
    FirstStep(score, a, b, c);
    SecondStep(score, a, b, c);
    ThirdStep(score, a, b, c);
    var path: seq<Id> := [0, 1, 2];
    assert path[..0] == [] && path[..1] == [0] && path[..2] == [0, 1];
    forall i | 0 <= i < |path|
      ensures BestStep(score, [a, b, c], path[..i], path[i]) && score(Without([a, b, c], path[..i])) >= 50
    {
      assert i == 0 || i == 1 || i == 2;
    }
  }

  lemma ThreeWithout(a: Trade, b: Trade, c: Trade, gone: seq<Id>)
    requires a.id == 0 && b.id == 1 && c.id == 2
    ensures Without([a, b, c], gone) ==
      (if 0 in gone then [] else [a]) + (if 1 in gone then [] else [b]) + (if 2 in gone then [] else [c])
  {
    var all := [a, b, c];
    assert all[..2] == [a, b] && [a, b][..1] == [a] && [a][..0] == [];
    assert Without([a], gone) == if 0 in gone then [] else [a];
    assert Without([a, b], gone) == (if 0 in gone then [] else [a]) + (if 1 in gone then [] else [b]);
  }

  // ----- when the greedy result is the smallest -----

  /** No removal of fewer ids brings the score below the threshold. */
  ghost predicate Smallest(score: Scorer, trades: seq<Trade>, threshold: int, size: nat) {
    forall other: seq<Id> :: score(Without(trades, other)) < threshold ==> |other| >= size
  }

  function Weight(trades: seq<Trade>, w: Trade -> int): int {
    if trades == [] then 0 else Weight(trades[..|trades| - 1], w) + w(trades[|trades| - 1])
  }

  /** Each trade adds its own weight to the score. */
  ghost predicate Additive(score: Scorer, base: int, w: Trade -> int) {
    forall trades: seq<Trade> :: score(trades) == base + Weight(trades, w)
  }

  /** The weight of the trades with these ids. */
  function Share(trades: seq<Trade>, w: Trade -> int, ids: set<Id>): int {
    if trades == [] then 0
    else
      var before, t := Share(trades[..|trades| - 1], w, ids), trades[|trades| - 1];
      if t.id in ids then before + w(t) else before
  }

  function IdSet(ids: seq<Id>): (r: set<Id>)
    ensures |r| <= |ids| && forall id :: id in r <==> id in ids
  {
    if ids == [] then {} else IdSet(ids[..|ids| - 1]) + {ids[|ids| - 1]}
  }

  lemma {:induction false} ShareAdds(trades: seq<Trade>, w: Trade -> int, a: set<Id>, b: set<Id>)
    requires a !! b
    ensures Share(trades, w, a + b) == Share(trades, w, a) + Share(trades, w, b)
  {
    if trades != [] { ShareAdds(trades[..|trades| - 1], w, a, b); }
  }

  lemma {:induction false} WeightLeft(trades: seq<Trade>, w: Trade -> int, gone: seq<Id>)
    ensures Weight(Without(trades, gone), w) == Weight(trades, w) - Share(trades, w, IdSet(gone))
  {
    if trades != [] {
      var pre, t := trades[..|trades| - 1], trades[|trades| - 1];
      WeightLeft(pre, w, gone);
      if t.id !in gone { assert (Without(pre, gone) + [t])[..|Without(pre, gone)|] == Without(pre, gone); }
    }
  }

  lemma ScoreLeft(score: Scorer, base: int, w: Trade -> int, trades: seq<Trade>, gone: seq<Id>)
    requires Additive(score, base, w)
    ensures score(Without(trades, gone)) == score(trades) - Share(trades, w, IdSet(gone))
  {
    WeightLeft(trades, w, gone);
  }

  /** One more id takes its own share off the score. */
  lemma ScoreStep(score: Scorer, base: int, w: Trade -> int, trades: seq<Trade>, gone: seq<Id>, id: Id)
    requires Additive(score, base, w) && id !in gone
    ensures score(Without(trades, gone + [id])) == score(Without(trades, gone)) - Share(trades, w, {id})
  {
    ScoreLeft(score, base, w, trades, gone);
    ScoreLeft(score, base, w, trades, gone + [id]);
    assert IdSet(gone + [id]) == IdSet(gone) + {id};
    ShareAdds(trades, w, IdSet(gone), {id});
  }

  lemma {:induction false} NoShare(trades: seq<Trade>, w: Trade -> int, id: Id)
    requires id !in Ids(trades)
    ensures Share(trades, w, {id}) == 0
  {
    if trades != [] {
      var pre, t := trades[..|trades| - 1], trades[|trades| - 1];
      assert trades == pre + [t];
      assert t in trades;
      NoShare(pre, w, id);
    }
  }

  lemma IdsLeft(trades: seq<Trade>, gone: seq<Id>, id: Id)
    ensures id in Ids(Without(trades, gone)) <==> id in Ids(trades) && id !in gone
  {
    if t :| t in trades && t.id == id { WithoutMembers(trades, gone, t); }
    if t :| t in Without(trades, gone) && t.id == id { WithoutMembers(trades, gone, t); }
  }

  /** Each greedy step takes off a positive share, at least that of any id not yet removed. */
  lemma GreedyShare(score: Scorer, base: int, w: Trade -> int, trades: seq<Trade>, threshold: int, path: seq<Id>,
                    k: nat, other: Id)
    requires Additive(score, base, w) && GreedyPath(score, trades, threshold, path) && k < |path|
    requires other !in path[..k]
    ensures path[k] !in path[..k] && Share(trades, w, {path[k]}) > 0
    ensures Share(trades, w, {other}) <= Share(trades, w, {path[k]})
  {
    var gone, id := path[..k], path[k];
    assert BestStep(score, trades, gone, id);
    IdsLeft(trades, gone, id);
    ScoreStep(score, base, w, trades, gone, id);
    IdsLeft(trades, gone, other);
    if other in Ids(trades) {
      ScoreStep(score, base, w, trades, gone, other);
    } else {
      NoShare(trades, w, other);
    }
  }

  /** No k ids weigh more than the first k removed. */
  lemma {:induction false} GreedyTakesTheHeaviest(score: Scorer, base: int, w: Trade -> int, trades: seq<Trade>,
                                                  threshold: int, path: seq<Id>, ids: set<Id>)
    requires Additive(score, base, w) && GreedyPath(score, trades, threshold, path) && |ids| <= |path|
    ensures Share(trades, w, ids) <= Share(trades, w, IdSet(path[..|ids|]))
    decreases |ids|
  {
    if ids == {} {
      assert path[..|ids|] == [];
    } else {
      var k := |ids| - 1;
      var taken := IdSet(path[..k]);
      var other := Outside(ids, taken);
      GreedyShare(score, base, w, trades, threshold, path, k, other);
      GreedyTakesTheHeaviest(score, base, w, trades, threshold, path, ids - {other});
      assert ids == (ids - {other}) + {other};
      ShareAdds(trades, w, ids - {other}, {other});
      assert path[..k + 1][..k] == path[..k];
      assert IdSet(path[..k + 1]) == taken + {path[k]};
      ShareAdds(trades, w, taken, {path[k]});
    }
  }

  lemma Outside(a: set<Id>, b: set<Id>) returns (x: Id)
    requires |a| > |b|
    ensures x in a && x !in b
  {
    if a <= b { SubsetSize(a, b); }
    x :| x in a && x !in b;
  }

  lemma SubsetFull(a: set<Id>, b: set<Id>)
    requires a <= b && |a| >= |b|
    ensures a == b
  {
    if x :| x in b && x !in a { SubsetSize(a, b - {x}); }
  }

  lemma NoFewerIds(score: Scorer, base: int, w: Trade -> int, trades: seq<Trade>, threshold: int, path: seq<Id>,
                   other: seq<Id>)
    requires Additive(score, base, w) && GreedyPath(score, trades, threshold, path) && |other| <= |path|
    ensures score(Without(trades, other)) >= score(Without(trades, path[..|IdSet(other)|]))
  {
    var k := |IdSet(other)|;
    GreedyTakesTheHeaviest(score, base, w, trades, threshold, path, IdSet(other));
    ScoreLeft(score, base, w, trades, other);
    ScoreLeft(score, base, w, trades, path[..k]);
  }

  /** For an additive score a result has the minimum size. */
  lemma AdditiveResultIsSmallest(score: Scorer, base: int, w: Trade -> int, trades: seq<Trade>, threshold: int,
                                 path: seq<Id>)
    requires Additive(score, base, w) && GreedyPath(score, trades, threshold, path)
    ensures Smallest(score, trades, threshold, |path|)
  {
    forall other: seq<Id> | |other| < |path| ensures score(Without(trades, other)) >= threshold {
      NoFewerIds(score, base, w, trades, threshold, path, other);
      assert score(Without(trades, path[..|IdSet(other)|])) >= threshold;
    }
  }

  lemma {:induction false} ShareSigns(trades: seq<Trade>, w: Trade -> int, ids: set<Id>)
    ensures (forall id :: id in ids ==> Share(trades, w, {id}) <= 0) ==> Share(trades, w, ids) <= 0
    ensures (forall id :: id in ids ==> Share(trades, w, {id}) >= 0) ==> Share(trades, w, ids) >= 0
    decreases |ids|
  {
    if ids == {} {
      NoIds(trades, w);
    } else {
      var x :| x in ids;
      ShareSigns(trades, w, ids - {x});
      assert ids == (ids - {x}) + {x};
      ShareAdds(trades, w, ids - {x}, {x});
    }
  }

  lemma {:induction false} NoIds(trades: seq<Trade>, w: Trade -> int)
    ensures Share(trades, w, {}) == 0
  {
    if trades != [] { NoIds(trades[..|trades| - 1], w); }
  }

  lemma LeftShare(score: Scorer, base: int, w: Trade -> int, trades: seq<Trade>, path: seq<Id>, id: Id)
    requires Additive(score, base, w) && Stuck(score, trades, path) && id !in path
    ensures Share(trades, w, {id}) <= 0
  {
    IdsLeft(trades, path, id);
    if id in Ids(trades) {
      ScoreStep(score, base, w, trades, path, id);
    } else {
      NoShare(trades, w, id);
    }
  }

  lemma TakenShare(score: Scorer, base: int, w: Trade -> int, trades: seq<Trade>, threshold: int, path: seq<Id>, id: Id)
    requires Additive(score, base, w) && GreedyPath(score, trades, threshold, path) && id in path
    ensures Share(trades, w, {id}) > 0
  {
    var k :| 0 <= k < |path| && path[k] == id;
    GreedyPathDistinct(score, trades, threshold, path);
    GreedyShare(score, base, w, trades, threshold, path, k, id);
  }

  lemma SplitShares(trades: seq<Trade>, w: Trade -> int, a: set<Id>, b: set<Id>)
    ensures Share(trades, w, a) - Share(trades, w, b) == Share(trades, w, a - b) - Share(trades, w, b - a)
  {
    assert a == (a * b) + (a - b) && b == (a * b) + (b - a);
    ShareAdds(trades, w, a * b, a - b);
    ShareAdds(trades, w, a * b, b - a);
  }

  /** When no single removal helps any more, what was removed already weighs as much as any set can. */
  lemma StuckIsHeaviest(score: Scorer, base: int, w: Trade -> int, trades: seq<Trade>, threshold: int, path: seq<Id>,
                        ids: set<Id>)
    requires Additive(score, base, w) && GreedyPath(score, trades, threshold, path) && Stuck(score, trades, path)
    ensures Share(trades, w, ids) <= Share(trades, w, IdSet(path))
  {
    var taken := IdSet(path);
    forall id | id in ids - taken ensures Share(trades, w, {id}) <= 0 {
      LeftShare(score, base, w, trades, path, id);
    }
    forall id | id in taken - ids ensures Share(trades, w, {id}) >= 0 {
      TakenShare(score, base, w, trades, threshold, path, id);
    }
    ShareSigns(trades, w, ids - taken);
    ShareSigns(trades, w, taken - ids);
    SplitShares(trades, w, ids, taken);
  }

  lemma {:induction false} DistinctSize(ids: seq<Id>)
    requires forall i, j :: 0 <= i < j < |ids| ==> ids[i] != ids[j]
    ensures |IdSet(ids)| == |ids|
  {
    if ids != [] {
      DistinctSize(ids[..|ids| - 1]);
      assert ids[|ids| - 1] !in IdSet(ids[..|ids| - 1]);
    }
  }

  lemma {:induction false} FewIds(trades: seq<Trade>)
    ensures |Ids(trades)| <= |trades|
  {
    if trades != [] {
      var pre, t := trades[..|trades| - 1], trades[|trades| - 1];
      assert trades == pre + [t];
      FewIds(pre);
      assert Ids(trades) == Ids(pre) + {t.id};
    }
  }

  /** A path as long as the list of trades has removed everything. */
  lemma AllRemoved(score: Scorer, trades: seq<Trade>, threshold: int, path: seq<Id>)
    requires GreedyPath(score, trades, threshold, path) && |path| == |trades|
    ensures Stuck(score, trades, path)
  {
    GreedyPathDistinct(score, trades, threshold, path);
    DistinctSize(path);
    FewIds(trades);
    SubsetFull(IdSet(path), Ids(trades));
    forall id ensures id !in Ids(Without(trades, path)) { IdsLeft(trades, path, id); }
  }

  /** For an additive score None means that no 20 ids bring the score below the threshold. */
  lemma AdditiveNoneIsRight(score: Scorer, base: int, w: Trade -> int, trades: seq<Trade>, threshold: int, path: seq<Id>)
    requires Additive(score, base, w) && GreedyPath(score, trades, threshold, path)
    ensures GaveUp(score, trades, threshold, path) ==> Smallest(score, trades, threshold, MAX_STEPS + 1)
  {
    if |path| == |trades| { AllRemoved(score, trades, threshold, path); }
    forall other: seq<Id> | GaveUp(score, trades, threshold, path) && |other| <= MAX_STEPS
      ensures score(Without(trades, other)) >= threshold
    {
      if Stuck(score, trades, path) {
        StuckIsHeaviest(score, base, w, trades, threshold, path, IdSet(other));
        ScoreLeft(score, base, w, trades, other);
        ScoreLeft(score, base, w, trades, path);
      } else {
        var k := |IdSet(other)|;
        NoFewerIds(score, base, w, trades, threshold, path, other);
        if k == |path| { assert path[..k] == path; }
      }
    }
  }

  /** Whatever the scorer, a result of at most two ids has the minimum size; `GreedyIsNotMinimal` needs three. */
  lemma ShortResultIsSmallest(score: Scorer, trades: seq<Trade>, threshold: int, path: seq<Id>)
    requires GreedyPath(score, trades, threshold, path) && |path| <= 2
    ensures Smallest(score, trades, threshold, |path|)
  {
    forall other: seq<Id> | |other| < |path| ensures score(Without(trades, other)) >= threshold {
      assert score(Without(trades, path[..0])) >= threshold && path[..0] == [];
      WithoutNone(trades);
      if |other| == 1 {
        var id := other[0];
        assert other == [id] && [] + [id] == [id];
        assert score(Without(trades, path[..1])) >= threshold && path[..1] == [path[0]] == [] + [path[0]];
        assert BestStep(score, trades, path[..0], path[0]);
        IdsLeft(trades, [], id);
        if id !in Ids(trades) { ForeignId(trades, id); }
      } else {
        assert other == [];
      }
    }
  }

  lemma {:induction false} ForeignId(trades: seq<Trade>, id: Id)
    requires id !in Ids(trades)
    ensures Without(trades, [id]) == trades
  {
    if trades != [] {
      var pre, t := trades[..|trades| - 1], trades[|trades| - 1];
      assert trades == pre + [t];
      assert t in trades;
      ForeignId(pre, id);
    }
  }

  /** Two trades that raise the score only together with each other's absence: each alone changes nothing. */
  ghost predicate PairScores(score: Scorer, a: Trade, b: Trade) {
    && a.id == 0 && b.id == 1
    && score([a, b]) == 80 && score([b]) == 80 && score([a]) == 80 && score([]) == 0
  }

  lemma FirstStepGains(score: Scorer, trades: seq<Trade>, threshold: int, path: seq<Id>)
    requires GreedyPath(score, trades, threshold, path) && path != []
    ensures !Stuck(score, trades, [])
  {
    assert path[..0] == [];
    assert BestStep(score, trades, path[..0], path[0]);
  }

  /** None need not mean that no small set works: here the greedy run cannot start although removing both trades
      is enough. */
  lemma GreedyMissesPairs(score: Scorer, a: Trade, b: Trade)
    requires PairScores(score, a, b)
    ensures Stuck(score, [a, b], []) && score([a, b]) >= 50
    ensures forall path :: GreedyPath(score, [a, b], 50, path) ==> path == []
    ensures score(Without([a, b], [0, 1])) < 50
  {
    var all, none: seq<Id> := [a, b], [];
    assert all[..1] == [a] && [a][..0] == [];
    forall gone: seq<Id> ensures Without(all, gone) == (if 0 in gone then [] else [a]) + (if 1 in gone then [] else [b]) {
      assert Without([a], gone) == if 0 in gone then [] else [a];
    }
    assert none + [0] == [0] && none + [1] == [1];
    forall id | id in Ids(Without(all, none)) ensures score(Without(all, none + [id])) >= score(Without(all, none)) {
      IdsLeft(all, none, id);
      assert Without(all, none) == [a] + [b] == all;
      if id == 0 {
        assert Without(all, [0]) == [] + [b] == [b];
      } else {
        assert id == 1 && Without(all, [1]) == [a] + [] == [a];
      }
    }
    forall path | GreedyPath(score, all, 50, path) ensures path == [] {
      if path != [] { FirstStepGains(score, all, 50, path); }
    }
  }
}
