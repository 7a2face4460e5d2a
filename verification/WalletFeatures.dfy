/** The trade-pattern features of a wallet and the weighted heuristic built on them. Times are reals in seconds, the
    UTC hour of a trade is given with it, and amounts are positive, as the trade model demands. */
module WalletFeatures {
  import Benford = BenfordEngine

  type Account(==, 00, !new)
  type Amount = x: real | x > 0.0 witness 1.0

  datatype Trade = Trade(base: Account, counter: Account, amount: Amount, time: real, hour: int, baseIsSeller: bool)

  const WINDOW := 60.0
  const ROUND_TRIP_GAP := 300.0

  predicate Touches(t: Trade, w: Account) { w == t.base || w == t.counter }

  /** The account on the other side of `t` from `w`. */
  function Counterparty(t: Trade, w: Account): Account { if t.base == w then t.counter else t.base }

  /** A trade with the same counterparty in the opposite direction. */
  predicate Reverses(u: Trade, t: Trade, w: Account) {
    Counterparty(u, w) == Counterparty(t, w) && u.baseIsSeller != t.baseIsSeller
  }

  /** The wallet and its counterparty are the two sides of the trade. */
  lemma OtherSide(t: Trade, w: Account)
    requires Touches(t, w)
    ensures {w, Counterparty(t, w)} == {t.base, t.counter}
  {}

  function Of(trades: seq<Trade>, w: Account): seq<Trade> {
    if trades == [] then []
    else
      var before, t := Of(trades[..|trades| - 1], w), trades[|trades| - 1];
      if Touches(t, w) then before + [t] else before
  }

  lemma {:induction false} OfAgain(trades: seq<Trade>, w: Account)
    ensures Of(Of(trades, w), w) == Of(trades, w)
  {
    if trades != [] {
      var pre, t := trades[..|trades| - 1], trades[|trades| - 1];
      OfAgain(pre, w);
      if Touches(t, w) { assert (Of(pre, w) + [t])[..|Of(pre, w)|] == Of(pre, w); }
    }
  }

  // ---------------------------------------------------------------- sorting by close time

  predicate InTimeOrder(s: seq<Trade>) { forall i, j :: 0 <= i < j < |s| ==> s[i].time <= s[j].time }

  /** `t` goes behind every trade not later than it. */
  function Insert(s: seq<Trade>, t: Trade): (r: seq<Trade>)
    requires InTimeOrder(s)
    ensures InTimeOrder(r) && multiset(r) == multiset(s) + multiset{t} && |r| == |s| + 1
  {
    if s == [] || s[|s| - 1].time <= t.time then s + [t]
    else
      var pre, last := s[..|s| - 1], s[|s| - 1];
      assert s == pre + [last];
      var r := Insert(pre, t);
      InsertBelow(pre, t, r, last);
      r + [last]
  }

  lemma InsertBelow(pre: seq<Trade>, t: Trade, r: seq<Trade>, last: Trade)
    requires InTimeOrder(r) && multiset(r) == multiset(pre) + multiset{t}
    requires t.time <= last.time && forall u :: u in pre ==> u.time <= last.time
    ensures InTimeOrder(r + [last])
  {
    forall i | 0 <= i < |r| ensures r[i].time <= last.time {
      assert r[i] in multiset(r);
      assert r[i] in multiset(pre) || r[i] == t;
    }
  }

  /** The stable sort by close time. */
  function SortByTime(s: seq<Trade>): (r: seq<Trade>)
    ensures InTimeOrder(r) && multiset(r) == multiset(s) && |r| == |s|
  {
    if s == [] then []
    else
      assert s == s[..|s| - 1] + [s[|s| - 1]];
      Insert(SortByTime(s[..|s| - 1]), s[|s| - 1])
  }

  // ---------------------------------------------------------------- counting

  function Number(marks: seq<bool>): (n: nat)
    ensures n <= |marks|
  {
    if marks == [] then 0
    else
      var before := Number(marks[..|marks| - 1]);
      if marks[|marks| - 1] then before + 1 else before
  }

  lemma {:induction false} NumberPositiveIff(marks: seq<bool>)
    ensures Number(marks) > 0 <==> exists i :: 0 <= i < |marks| && marks[i]
    ensures Number(marks) == |marks| <==> forall i :: 0 <= i < |marks| ==> marks[i]
  {
    if marks != [] { NumberPositiveIff(marks[..|marks| - 1]); }
  }

  lemma {:induction false} NumberConcat(a: seq<bool>, b: seq<bool>)
    ensures Number(a + b) == Number(a) + Number(b)
  {
    if b == [] {
      assert a + b == a;
    } else {
      NumberConcat(a, b[..|b| - 1]);
      assert (a + b)[..|a + b| - 1] == a + b[..|b| - 1];
    }
  }

  function Bit(b: bool): nat { if b then 1 else 0 }

  lemma NumberOne(b: bool)
    ensures Number([b]) == Bit(b)
  {
    assert Number([b][..0]) == 0;
  }

  /** Marks that differ in one place. */
  lemma NumberUpdate(m: seq<bool>, i: nat, b: bool)
    requires i < |m|
    ensures Number(m[i := b]) + Bit(m[i]) == Number(m) + Bit(b)
  {
    assert m == m[..i] + [m[i]] + m[i + 1..];
    assert m[i := b] == m[..i] + [b] + m[i + 1..];
    NumberConcat(m[..i] + [m[i]], m[i + 1..]);
    NumberConcat(m[..i] + [b], m[i + 1..]);
    NumberConcat(m[..i], [m[i]]);
    NumberConcat(m[..i], [b]);
    NumberOne(m[i]);
    NumberOne(b);
  }

  /** Where the marks are. */
  function Places(m: seq<bool>): set<nat> { set i: nat | i < |m| && m[i] }

  lemma {:induction false} NumberIsPlaces(m: seq<bool>)
    ensures Number(m) == |Places(m)|
  {
    if m != [] {
      var n := |m| - 1;
      NumberIsPlaces(m[..n]);
      if m[n] {
        assert Places(m) == Places(m[..n]) + {n};
      } else {
        assert Places(m) == Places(m[..n]);
      }
    }
  }

  function MarksBy(s: seq<Trade>, p: Trade -> bool): seq<bool> { seq(|s|, i requires 0 <= i < |s| => p(s[i])) }

  lemma RemovedAt(s: seq<Trade>, j: nat)
    requires j < |s|
    ensures multiset(s[..j] + s[j + 1..]) == multiset(s) - multiset{s[j]}
  {
    assert s == s[..j] + [s[j]] + s[j + 1..];
    assert multiset(s) == multiset(s[..j]) + multiset{s[j]} + multiset(s[j + 1..]);
  }

  lemma MarksConcat(a: seq<Trade>, b: seq<Trade>, p: Trade -> bool)
    ensures Number(MarksBy(a + b, p)) == Number(MarksBy(a, p)) + Number(MarksBy(b, p))
  {
    assert MarksBy(a + b, p) == MarksBy(a, p) + MarksBy(b, p);
    NumberConcat(MarksBy(a, p), MarksBy(b, p));
  }

  lemma MarksRemovedAt(s: seq<Trade>, j: nat, p: Trade -> bool)
    requires j < |s|
    ensures Number(MarksBy(s, p)) == Number(MarksBy(s[..j] + s[j + 1..], p)) + Bit(p(s[j]))
  {
    assert s == (s[..j] + [s[j]]) + s[j + 1..];
    MarksConcat(s[..j] + [s[j]], s[j + 1..], p);
    MarksConcat(s[..j], [s[j]], p);
    MarksConcat(s[..j], s[j + 1..], p);
    assert MarksBy([s[j]], p) == [p(s[j])];
    NumberOne(p(s[j]));
  }

  lemma OneLess(s: seq<Trade>, x: Trade, p: Trade -> bool) returns (rest: seq<Trade>)
    requires x in multiset(s)
    ensures multiset(rest) == multiset(s) - multiset{x} && |rest| < |s|
    ensures Number(MarksBy(s, p)) == Number(MarksBy(rest, p)) + Bit(p(x))
  {
    var j :| 0 <= j < |s| && s[j] == x;
    rest := s[..j] + s[j + 1..];
    RemovedAt(s, j);
    MarksRemovedAt(s, j, p);
  }

  lemma SameLength(a: seq<Trade>, b: seq<Trade>)
    requires multiset(a) == multiset(b)
    ensures |a| == |b|
  {
    assert |a| == |multiset(a)| && |b| == |multiset(b)|;
  }

  /** How many trades have a property does not depend on their order. */
  lemma {:induction false} CountIgnoresOrder(a: seq<Trade>, b: seq<Trade>, p: Trade -> bool)
    requires multiset(a) == multiset(b)
    ensures Number(MarksBy(a, p)) == Number(MarksBy(b, p)) && |a| == |b|
    decreases |a|
  {
    SameLength(a, b);
    if a != [] {
      var x := a[0];
      assert x in multiset(a);
      var a' := OneLess(a, x, p);
      var b' := OneLess(b, x, p);
      CountIgnoresOrder(a', b', p);
    }
  }

  function Share(part: nat, whole: nat): (r: real)
    requires part <= whole
    ensures 0.0 <= r <= 1.0
  {
    if whole == 0 then 0.0
    else
      ShareBounds(part as real, whole as real);
      part as real / whole as real
  }

  lemma ShareBounds(x: real, y: real)
    requires 0.0 <= x <= y && y > 0.0
    ensures 0.0 <= x / y <= 1.0
    ensures x / y == 1.0 <==> x == y
    ensures x / y == 0.0 <==> x == 0.0
  {
    var q := x / y;
    assert q * y == x;
    if q < 0.0 { Benford.ScaleLess(q, 0.0, y); }
    if q > 1.0 { Benford.ScaleLess(1.0, q, y); }
  }

  // ---------------------------------------------------------------- round trips

  /** Some later trade within the gap reverses the i-th. */
  /** The share times the whole is the part. */
  lemma ShareIsQuotient(part: nat, whole: nat)
    requires part <= whole
    ensures Share(part, whole) * whole as real == part as real
  {
    if whole > 0 {
      var w := whole as real;
      assert part as real / w * w == part as real;
    }
  }

  ghost predicate RoundTripAt(s: seq<Trade>, w: Account, gap: real, i: nat)
    requires i < |s|
  {
    exists j :: i < j < |s| && s[j].time - s[i].time <= gap && Reverses(s[j], s[i], w)
  }

  ghost function RoundTripMarks(s: seq<Trade>, w: Account, gap: real): seq<bool> {
    seq(|s|, i requires 0 <= i < |s| => RoundTripAt(s, w, gap, i))
  }

  ghost function RoundTripRate(trades: seq<Trade>, w: Account, gap: real): (r: real)
    ensures 0.0 <= r <= 1.0
  {
    var s := SortByTime(Of(trades, w));
    Share(Number(RoundTripMarks(s, w, gap)), |s|)
  }

  /** round_trip_trade_frequency: each scan stops at the first reversal, or at the first trade beyond the gap. */
  method RoundTripTradeFrequency(trades: seq<Trade>, w: Account, gap: real) returns (r: real)
    ensures r == RoundTripRate(trades, w, gap)
  {
    var s := SortByTime(Of(trades, w));
    if s == [] { return 0.0; }
    var roundTrips := 0;
    ghost var marks := RoundTripMarks(s, w, gap);
    for i := 0 to |s|
      invariant roundTrips == Number(marks[..i])
    {
      var j, found := i + 1, false;
      while j < |s|
        invariant i < j <= |s|
        invariant !found && forall k :: i < k < j ==> s[k].time - s[i].time <= gap && !Reverses(s[k], s[i], w)
      {
        if s[j].time - s[i].time > gap { break; }
        if Reverses(s[j], s[i], w) {
          found := true;
          break;
        }
        j := j + 1;
      }
      assert found <==> marks[i];
      assert marks[..i + 1][..i] == marks[..i];
      if found { roundTrips := roundTrips + 1; }
    }
    assert marks[..|s|] == marks;
    r := Share(roundTrips, |s|);
  }

  /** Two different positions of s hold t and u. */
  lemma PairInMultiset(s: seq<Trade>, i: nat, j: nat)
    requires i < |s| && j < |s| && i != j
    ensures s[j] in multiset(s) - multiset{s[i]}
    ensures multiset(s)[s[i]] >= 1 && (s[i] == s[j] ==> multiset(s)[s[i]] >= 2)
  {
    assert s == s[..i] + [s[i]] + s[i + 1..];
    if j < i {
      assert s[j] in s[..i];
    } else {
      assert s[j] == s[i + 1..][j - i - 1];
      assert s[j] in s[i + 1..];
    }
    assert multiset(s) == multiset(s[..i]) + multiset{s[i]} + multiset(s[i + 1..]);
  }

  lemma PairFromMultiset(s: seq<Trade>, t: Trade, u: Trade) returns (i: nat, j: nat)
    requires t in multiset(s) && u in multiset(s) - multiset{t}
    ensures i < |s| && j < |s| && i != j && s[i] == t && s[j] == u
  {
    assert t in s;
    i :| i < |s| && s[i] == t;
    assert s == s[..i] + [s[i]] + s[i + 1..];
    assert multiset(s) == multiset(s[..i]) + multiset{s[i]} + multiset(s[i + 1..]);
    if u in s[..i] {
      j :| j < i && s[..i][j] == u;
    } else {
      assert u in s[i + 1..];
      var k :| 0 <= k < |s[i + 1..]| && s[i + 1..][k] == u;
      j := i + 1 + k;
    }
  }

  // ---------------------------------------------------------------- equal close times

  /** Some strictly later trade within the gap reverses t. */
  ghost predicate Late(m: multiset<Trade>, w: Account, gap: real, t: Trade) {
    exists u :: u in m && t.time < u.time && u.time - t.time <= gap && Reverses(u, t, w)
  }

  /** t and u close together and reverse each other. */
  predicate TiedPair(w: Account, t: Trade, u: Trade) { t.time == u.time && Reverses(u, t, w) }

  ghost predicate Tied(m: multiset<Trade>, w: Account, t: Trade) { exists u :: u in m && TiedPair(w, t, u) }

  /** Same close time, same counterparty. */
  predicate SameGroup(w: Account, t: Trade, x: Trade) { x.time == t.time && Counterparty(x, w) == Counterparty(t, w) }

  /** t and u are the only trades of their group. */
  ghost predicate Lone(m: multiset<Trade>, w: Account, t: Trade, u: Trade) {
    m[t] == 1 && m[u] == 1 && forall x :: x in m && SameGroup(w, t, x) ==> x == t || x == u
  }

  /** The exact condition on equal close times: in a group with both directions, either both directions have a
      strictly later reversal, or neither has and the group is one trade each way. */
  ghost predicate HarmlessTies(m: multiset<Trade>, w: Account, gap: real) {
    gap >= 0.0 ==> forall t, u :: t in m && u in m && TiedPair(w, t, u) ==>
      (Late(m, w, gap, t) && Late(m, w, gap, u)) ||
      (!Late(m, w, gap, t) && !Late(m, w, gap, u) && Lone(m, w, t, u))
  }

  /** What a trade counts for, whatever the order: a lone pair counts once, at its sale. */
  ghost function Canon(m: multiset<Trade>, w: Account, gap: real): Trade -> bool {
    t => Late(m, w, gap, t) || (gap >= 0.0 && Tied(m, w, t) && t.baseIsSeller)
  }

  /** Later in the sequence means not earlier in time; so a mark is a late reversal, or a tied trade behind. */
  lemma MarkMeans(s: seq<Trade>, w: Account, gap: real, i: nat)
    requires InTimeOrder(s) && i < |s|
    ensures RoundTripAt(s, w, gap, i) <==>
      Late(multiset(s), w, gap, s[i]) || (gap >= 0.0 && exists j :: i < j < |s| && TiedPair(w, s[i], s[j]))
  {
    var m, t := multiset(s), s[i];
    if RoundTripAt(s, w, gap, i) {
      var j :| i < j < |s| && s[j].time - s[i].time <= gap && Reverses(s[j], s[i], w);
      assert s[j] in m;
      if s[j].time == t.time { assert TiedPair(w, s[i], s[j]); }
    }
    if Late(m, w, gap, t) {
      var u :| u in m && t.time < u.time && u.time - t.time <= gap && Reverses(u, t, w);
      var j :| 0 <= j < |s| && s[j] == u;
      TimesOrderPlaces(s, i, j);
    }
    if gap >= 0.0 {
      if j :| i < j < |s| && TiedPair(w, s[i], s[j]) { assert s[j].time - s[i].time <= gap && Reverses(s[j], s[i], w); }
    }
  }

  lemma TimesOrderPlaces(s: seq<Trade>, i: nat, j: nat)
    requires InTimeOrder(s) && i < |s| && j < |s| && s[i].time < s[j].time
    ensures i < j
  {
  }

  lemma TiedPairSymmetric(w: Account, t: Trade, u: Trade)
    ensures TiedPair(w, t, u) <==> TiedPair(w, u, t)
  {
  }

  /** Marks and canonical marks differ only in the two places of a lone pair. */
  lemma DifferenceIsLonePair(s: seq<Trade>, w: Account, gap: real, i: nat) returns (j: nat)
    requires InTimeOrder(s) && HarmlessTies(multiset(s), w, gap) && i < |s|
    requires RoundTripAt(s, w, gap, i) != Canon(multiset(s), w, gap)(s[i])
    ensures j < |s| && gap >= 0.0 && TiedPair(w, s[i], s[j]) && Lone(multiset(s), w, s[i], s[j])
    ensures !Late(multiset(s), w, gap, s[i]) && !Late(multiset(s), w, gap, s[j])
  {
    var m := multiset(s);
    MarkMeans(s, w, gap, i);
    if RoundTripAt(s, w, gap, i) {
      j :| i < j < |s| && TiedPair(w, s[i], s[j]);
    } else {
      var u :| u in m && TiedPair(w, s[i], u);
      j :| j < |s| && s[j] == u;
    }
    assert s[i] in m && s[j] in m;
  }

  /** The place of the one trade that shares the group of the i-th. */
  ghost predicate IsPartner(s: seq<Trade>, w: Account, i: nat, j: nat) { i < |s| && j < |s| && TiedPair(w, s[i], s[j]) }

  lemma OnePartner(s: seq<Trade>, w: Account, i: nat, j: nat, k: nat)
    requires IsPartner(s, w, i, j) && Lone(multiset(s), w, s[i], s[j]) && k < |s|
    requires SameGroup(w, s[i], s[k]) && k != i
    ensures k == j
  {
    assert s[k] in multiset(s);
    if s[k] == s[i] { PairInMultiset(s, i, k); }
    if k != j && s[k] == s[j] { PairInMultiset(s, j, k); }
  }

  /** A marked purchase without canonical mark has its sale behind it, canonically marked and not marked. */
  lemma PartnerSwaps(s: seq<Trade>, w: Account, gap: real, i: nat) returns (j: nat)
    requires InTimeOrder(s) && HarmlessTies(multiset(s), w, gap) && i < |s|
    requires RoundTripAt(s, w, gap, i) != Canon(multiset(s), w, gap)(s[i])
    ensures IsPartner(s, w, i, j) && Lone(multiset(s), w, s[i], s[j])
    ensures RoundTripAt(s, w, gap, j) == Canon(multiset(s), w, gap)(s[i])
    ensures Canon(multiset(s), w, gap)(s[j]) == RoundTripAt(s, w, gap, i)
  {
    j := DifferenceIsLonePair(s, w, gap, i);
    var m := multiset(s);
    TiedPairSymmetric(w, s[i], s[j]);
    assert s[i] in m && s[j] in m && i != j;
    assert Tied(m, w, s[i]) && Tied(m, w, s[j]);
    MarkMeans(s, w, gap, i);
    MarkMeans(s, w, gap, j);
    forall k | 0 <= k < |s| && TiedPair(w, s[i], s[k]) ensures k == j { OnePartner(s, w, i, j, k); }
    forall k | 0 <= k < |s| && TiedPair(w, s[j], s[k]) ensures k == i { if k != i { OnePartner(s, w, i, j, k); } }
  }

  lemma {:induction false} InjectionSize(a: set<nat>, b: set<nat>, f: nat -> nat)
    requires forall i :: i in a ==> f(i) in b
    requires forall i, j :: i in a && j in a && f(i) == f(j) ==> i == j
    ensures |a| <= |b|
    decreases |a|
  {
    if a != {} {
      var x :| x in a;
      InjectionSize(a - {x}, b - {f(x)}, f);
    }
  }

  /** Marks that differ only by exchanges in pairs. */
  ghost predicate Exchanged(m: seq<bool>, c: seq<bool>, f: nat -> nat) {
    |m| == |c| && forall i: nat :: i < |m| && m[i] != c[i] ==>
      f(i) < |m| && f(f(i)) == i && m[f(i)] == c[i] && c[f(i)] == m[i]
  }

  lemma NoMoreLost(m: seq<bool>, c: seq<bool>, f: nat -> nat)
    requires Exchanged(m, c, f)
    ensures |Places(m) - Places(c)| <= |Places(c) - Places(m)|
  {
    var a, b := Places(m) - Places(c), Places(c) - Places(m);
    forall i | i in a ensures f(i) in b && f(f(i)) == i {}
    InjectionSize(a, b, f);
  }

  lemma SplitSize(p: set<nat>, q: set<nat>)
    ensures |p| == |p * q| + |p - q|
  {
    assert p == (p * q) + (p - q);
  }

  lemma PairedDifference(m: seq<bool>, c: seq<bool>, f: nat -> nat)
    requires Exchanged(m, c, f)
    ensures Number(m) == Number(c)
  {
    NumberIsPlaces(m);
    NumberIsPlaces(c);
    NoMoreLost(m, c, f);
    NoMoreLost(c, m, f);
    SplitSize(Places(m), Places(c));
    SplitSize(Places(c), Places(m));
    assert Places(m) * Places(c) == Places(c) * Places(m);
  }

  ghost function Partner(s: seq<Trade>, w: Account, i: nat): nat {
    if j: nat :| IsPartner(s, w, i, j) then j else i
  }

  /** With harmless ties the scan counts the canonical marks. */
  lemma MarksAreCanonical(s: seq<Trade>, w: Account, gap: real)
    requires InTimeOrder(s) && HarmlessTies(multiset(s), w, gap)
    ensures Number(RoundTripMarks(s, w, gap)) == Number(MarksBy(s, Canon(multiset(s), w, gap)))
  {
    var m, c := RoundTripMarks(s, w, gap), MarksBy(s, Canon(multiset(s), w, gap));
    forall i: nat | i < |m| && m[i] != c[i]
      ensures Partner(s, w, i) < |m| && Partner(s, w, Partner(s, w, i)) == i
      ensures m[Partner(s, w, i)] == c[i] && c[Partner(s, w, i)] == m[i]
    {
      var j := PartnerSwaps(s, w, gap, i);
      TiedPairSymmetric(w, s[i], s[j]);
      forall k: nat | IsPartner(s, w, i, k) ensures k == j { OnePartner(s, w, i, j, k); }
      forall k: nat | IsPartner(s, w, j, k) ensures k == i { if k != i { OnePartner(s, w, i, j, k); } }
      assert IsPartner(s, w, j, i);
    }
    PairedDifference(m, c, i => Partner(s, w, i));
  }

  lemma {:induction false} OfMultiplicity(trades: seq<Trade>, w: Account, t: Trade)
    ensures multiset(Of(trades, w))[t] == if Touches(t, w) then multiset(trades)[t] else 0
  {
    if trades != [] {
      assert trades == trades[..|trades| - 1] + [trades[|trades| - 1]];
      OfMultiplicity(trades[..|trades| - 1], w, t);
    }
  }

  lemma OfSameMultiset(a: seq<Trade>, b: seq<Trade>, w: Account)
    requires multiset(a) == multiset(b)
    ensures multiset(Of(a, w)) == multiset(Of(b, w))
  {
    forall t ensures multiset(Of(a, w))[t] == multiset(Of(b, w))[t] {
      OfMultiplicity(a, w, t);
      OfMultiplicity(b, w, t);
    }
  }

  /** With harmless ties the frequency is the share of canonically marked trades, in whatever order they arrive:
      trades that a strictly later one reverses, and one of each lone pair. */
  lemma RoundTripsAreReversedTrades(trades: seq<Trade>, w: Account, gap: real)
    requires HarmlessTies(multiset(Of(trades, w)), w, gap)
    ensures var o := Of(trades, w);
      RoundTripRate(trades, w, gap) == Share(Number(MarksBy(o, Canon(multiset(o), w, gap))), |o|)
  {
    var o := Of(trades, w);
    var s := SortByTime(o);
    MarksAreCanonical(s, w, gap);
    CountIgnoresOrder(s, o, Canon(multiset(o), w, gap));
  }

  /** Then the frequency does not depend on the order of arrival. */
  lemma RoundTripsIgnoreOrder(a: seq<Trade>, b: seq<Trade>, w: Account, gap: real)
    requires multiset(a) == multiset(b) && HarmlessTies(multiset(Of(a, w)), w, gap)
    ensures RoundTripRate(a, w, gap) == RoundTripRate(b, w, gap)
  {
    OfSameMultiset(a, b, w);
    var o := Of(a, w);
    RoundTripsAreReversedTrades(a, w, gap);
    RoundTripsAreReversedTrades(b, w, gap);
    CountIgnoresOrder(o, Of(b, w), Canon(multiset(o), w, gap));
  }

  // ---------------------------------------------------------------- ties that do matter

  /** Some trade of hi within the gap reverses t. */
  ghost predicate ReversedIn(hi: seq<Trade>, w: Account, gap: real, t: Trade) {
    exists j :: 0 <= j < |hi| && hi[j].time - t.time <= gap && Reverses(hi[j], t, w)
  }

  lemma MarkOfFront(lo: seq<Trade>, x: Trade, y: Trade, hi: seq<Trade>, w: Account, gap: real, i: nat)
    requires i < |lo|
    ensures RoundTripAt(lo + [x, y] + hi, w, gap, i) ==> RoundTripAt(lo + [y, x] + hi, w, gap, i)
  {
    var s, r := lo + [x, y] + hi, lo + [y, x] + hi;
    if RoundTripAt(s, w, gap, i) {
      var j :| i < j < |s| && s[j].time - s[i].time <= gap && Reverses(s[j], s[i], w);
      var k := if j == |lo| then j + 1 else if j == |lo| + 1 then j - 1 else j;
      assert r[k] == s[j] && r[i] == s[i];
    }
  }

  lemma MarkOfBack(lo: seq<Trade>, x: Trade, y: Trade, hi: seq<Trade>, w: Account, gap: real, i: nat)
    requires |lo| + 1 < i < |lo| + 2 + |hi|
    ensures RoundTripAt(lo + [x, y] + hi, w, gap, i) ==> RoundTripAt(lo + [y, x] + hi, w, gap, i)
  {
    var s, r := lo + [x, y] + hi, lo + [y, x] + hi;
    if RoundTripAt(s, w, gap, i) {
      var j :| i < j < |s| && s[j].time - s[i].time <= gap && Reverses(s[j], s[i], w);
      assert r[j] == s[j] && r[i] == s[i];
    }
  }

  lemma MarkOfSecond(lo: seq<Trade>, x: Trade, y: Trade, hi: seq<Trade>, w: Account, gap: real)
    ensures RoundTripAt(lo + [x, y] + hi, w, gap, |lo| + 1) <==> ReversedIn(hi, w, gap, y)
  {
    var s, n := lo + [x, y] + hi, |lo| + 1;
    assert s[n] == y;
    if RoundTripAt(s, w, gap, n) {
      var j :| n < j < |s| && s[j].time - s[n].time <= gap && Reverses(s[j], s[n], w);
      assert hi[j - n - 1] == s[j];
    }
    if j :| 0 <= j < |hi| && hi[j].time - y.time <= gap && Reverses(hi[j], y, w) {
      var k := n + 1 + j;
      assert s[k] == hi[j];
    }
  }

  /** Exchanging two neighbours that close together and reverse each other changes one mark only. */
  lemma ExchangeTied(lo: seq<Trade>, x: Trade, y: Trade, hi: seq<Trade>, w: Account, gap: real)
    requires gap >= 0.0 && TiedPair(w, x, y)
    ensures Number(RoundTripMarks(lo + [x, y] + hi, w, gap)) + Bit(ReversedIn(hi, w, gap, x)) ==
            Number(RoundTripMarks(lo + [y, x] + hi, w, gap)) + Bit(ReversedIn(hi, w, gap, y))
  {
    var s, r := lo + [x, y] + hi, lo + [y, x] + hi;
    var m, c, n := RoundTripMarks(s, w, gap), RoundTripMarks(r, w, gap), |lo| + 1;
    MarkOfSecond(lo, x, y, hi, w, gap);
    MarkOfSecond(lo, y, x, hi, w, gap);
    FirstIsMarked(lo, x, y, hi, w, gap);
    TiedPairSymmetric(w, x, y);
    FirstIsMarked(lo, y, x, hi, w, gap);
    forall i | 0 <= i < |m| && i != n ensures m[i] == c[i] {
      if i < |lo| {
        MarkOfFront(lo, x, y, hi, w, gap, i);
        MarkOfFront(lo, y, x, hi, w, gap, i);
      } else if i > n {
        MarkOfBack(lo, x, y, hi, w, gap, i);
        MarkOfBack(lo, y, x, hi, w, gap, i);
      }
    }
    assert c == m[n := c[n]];
    NumberUpdate(m, n, c[n]);
  }

  lemma FirstIsMarked(lo: seq<Trade>, x: Trade, y: Trade, hi: seq<Trade>, w: Account, gap: real)
    requires gap >= 0.0 && TiedPair(w, x, y)
    ensures RoundTripAt(lo + [x, y] + hi, w, gap, |lo|)
  {
    var s, n := lo + [x, y] + hi, |lo| + 1;
    assert s[|lo|] == x && s[n] == y;
    assert s[n].time - s[|lo|].time <= gap && Reverses(s[n], s[|lo|], w);
  }

  lemma LastApart<T>(a: seq<T>, front: seq<T>, last: T)
    ensures a + (front + [last]) == (a + front) + [last]
  {
  }

  lemma InsertBehind(s: seq<Trade>, t: Trade)
    requires InTimeOrder(s) && forall u :: u in s ==> u.time <= t.time
    ensures Insert(s, t) == s + [t]
  {
    if s != [] { assert s[|s| - 1] in s; }
  }

  lemma InsertBefore(pre: seq<Trade>, last: Trade, t: Trade)
    requires InTimeOrder(pre + [last]) && last.time > t.time
    ensures InTimeOrder(pre) && Insert(pre + [last], t) == Insert(pre, t) + [last]
  {
    var s := pre + [last];
    assert s[..|s| - 1] == pre;
    forall i, j | 0 <= i < j < |pre| ensures pre[i].time <= pre[j].time { assert s[i].time <= s[j].time; }
  }

  lemma {:induction false} InsertAt(lo: seq<Trade>, hi: seq<Trade>, t: Trade)
    requires InTimeOrder(lo + hi)
    requires (forall u :: u in lo ==> u.time <= t.time) && forall u :: u in hi ==> u.time > t.time
    ensures Insert(lo + hi, t) == lo + [t] + hi
    decreases |hi|
  {
    if hi == [] {
      assert lo + hi == lo && lo + [t] + hi == lo + [t];
      InsertBehind(lo, t);
    } else {
      var last, front := hi[|hi| - 1], hi[..|hi| - 1];
      assert hi == front + [last] && last in hi;
      LastApart(lo, front, last);
      InsertBefore(lo + front, last, t);
      InsertAt(lo, front, t);
      LastApart(lo + [t], front, last);
    }
  }

  /** s is lo, not later than `time`, and then hi, later. */
  ghost predicate SplitsAt(s: seq<Trade>, lo: seq<Trade>, hi: seq<Trade>, time: real) {
    s == lo + hi && (forall u :: u in lo ==> u.time <= time) && forall u :: u in hi ==> u.time > time
  }

  lemma {:induction false} SplitAt(s: seq<Trade>, time: real) returns (lo: seq<Trade>, hi: seq<Trade>)
    requires InTimeOrder(s)
    ensures SplitsAt(s, lo, hi, time)
  {
    if s == [] {
      lo, hi := [], [];
    } else {
      var pre, last := s[..|s| - 1], s[|s| - 1];
      lo, hi := SplitAt(pre, time);
      if hi != [] {
        assert hi[0] in hi && s[|lo|] == hi[0];
        hi := hi + [last];
      } else if last.time > time {
        hi := [last];
      } else {
        lo := lo + [last];
      }
    }
  }

  /** A trade arriving last goes behind all that are not later. */
  lemma SortSnoc(s: seq<Trade>, lo: seq<Trade>, hi: seq<Trade>, t: Trade)
    requires SplitsAt(SortByTime(s), lo, hi, t.time)
    ensures SplitsAt(SortByTime(s + [t]), lo + [t], hi, t.time)
  {
    assert (s + [t])[..|s|] == s;
    InsertAt(lo, hi, t);
  }

  lemma PairConcat<T>(lo: seq<T>, x: T, y: T, hi: seq<T>)
    ensures lo + [x] + [y] + hi == lo + [x, y] + hi
  {
  }

  lemma TripleConcat<T>(lo: seq<T>, x: T, y: T, z: T, hi: seq<T>)
    ensures lo + [x] + [y] + [z] + hi == lo + [x, y] + ([z] + hi)
  {
  }

  lemma SortTiedPair(rest: seq<Trade>, lo: seq<Trade>, hi: seq<Trade>, x: Trade, y: Trade)
    requires SplitsAt(SortByTime(rest), lo, hi, x.time) && x.time == y.time
    ensures SplitsAt(SortByTime(rest + [x] + [y]), lo + [x] + [y], hi, x.time)
    ensures SortByTime(rest + [x] + [y]) == lo + [x, y] + hi
  {
    SortSnoc(rest, lo, hi, x);
    SortSnoc(rest + [x], lo + [x], hi, y);
    PairConcat(lo, x, y, hi);
  }

  lemma SortTiedTriple(rest: seq<Trade>, lo: seq<Trade>, hi: seq<Trade>, x: Trade, y: Trade, z: Trade)
    requires SplitsAt(SortByTime(rest), lo, hi, x.time) && x.time == y.time == z.time
    ensures SortByTime(rest + [x] + [y] + [z]) == lo + [x, y] + ([z] + hi)
  {
    SortTiedPair(rest, lo, hi, x, y);
    SortSnoc(rest + [x] + [y], lo + [x] + [y], hi, z);
    TripleConcat(lo, x, y, z, hi);
  }

  /** Behind everything not later, only late trades remain. */
  lemma ReversedIsLate(lo: seq<Trade>, hi: seq<Trade>, m: multiset<Trade>, w: Account, gap: real, t: Trade)
    requires (forall u :: u in lo ==> u.time <= t.time) && forall u :: u in hi ==> u.time > t.time && u in m
    requires forall u :: u in m ==> u in lo || u in hi || u.time == t.time
    ensures ReversedIn(hi, w, gap, t) <==> Late(m, w, gap, t)
  {
    if j :| 0 <= j < |hi| && hi[j].time - t.time <= gap && Reverses(hi[j], t, w) { assert hi[j] in hi; }
    if u :| u in m && t.time < u.time && u.time - t.time <= gap && Reverses(u, t, w) {
      var j :| 0 <= j < |hi| && hi[j] == u;
    }
  }

  lemma Parts(rest: seq<Trade>, lo: seq<Trade>, hi: seq<Trade>, m: multiset<Trade>, extra: multiset<Trade>)
    requires multiset(rest) == multiset(lo + hi) && m == multiset(rest) + extra
    ensures forall u :: u in m <==> u in lo || u in hi || u in extra
  {
    assert multiset(lo + hi) == multiset(lo) + multiset(hi);
  }

  /** Two orders of the same wallet trades whose counts differ. */
  ghost predicate OrdersDiffer(m: multiset<Trade>, w: Account, gap: real, a: seq<Trade>, b: seq<Trade>) {
    && multiset(a) == m && multiset(b) == m
    && Number(RoundTripMarks(SortByTime(a), w, gap)) != Number(RoundTripMarks(SortByTime(b), w, gap))
  }

  lemma Differ(a: seq<Trade>, b: seq<Trade>, s: seq<Trade>, r: seq<Trade>, m: multiset<Trade>, w: Account, gap: real)
    requires multiset(a) == m && multiset(b) == m && SortByTime(a) == s && SortByTime(b) == r
    requires Number(RoundTripMarks(s, w, gap)) != Number(RoundTripMarks(r, w, gap))
    ensures OrdersDiffer(m, w, gap, a, b)
  {
  }

  lemma PairMultiset(rest: seq<Trade>, x: Trade, y: Trade)
    ensures multiset(rest + [x] + [y]) == multiset(rest) + multiset{x, y} == multiset(rest + [y] + [x])
  {
  }

  lemma TripleMultiset(rest: seq<Trade>, x: Trade, y: Trade, z: Trade)
    ensures multiset(rest + [x] + [y] + [z]) == multiset(rest) + multiset{x, y, z} == multiset(rest + [y] + [x] + [z])
  {
  }

  lemma OneSidedCounts(lo: seq<Trade>, hi: seq<Trade>, x: Trade, y: Trade, m: multiset<Trade>, w: Account, gap: real)
    requires gap >= 0.0 && TiedPair(w, x, y) && Late(m, w, gap, x) != Late(m, w, gap, y)
    requires (forall u :: u in lo ==> u.time <= x.time) && forall u :: u in hi ==> u.time > x.time
    requires forall u :: u in m <==> u in lo || u in hi || u in multiset{x, y}
    ensures Number(RoundTripMarks(lo + [x, y] + hi, w, gap)) != Number(RoundTripMarks(lo + [y, x] + hi, w, gap))
  {
    ReversedIsLate(lo, hi, m, w, gap, x);
    ReversedIsLate(lo, hi, m, w, gap, y);
    ExchangeTied(lo, x, y, hi, w, gap);
  }

  /** A tied pair of which only one direction has a late reversal. */
  lemma OneSidedTie(rest: seq<Trade>, x: Trade, y: Trade, m: multiset<Trade>, w: Account, gap: real)
    requires gap >= 0.0 && TiedPair(w, x, y) && m == multiset(rest) + multiset{x, y}
    requires Late(m, w, gap, x) != Late(m, w, gap, y)
    ensures OrdersDiffer(m, w, gap, rest + [x] + [y], rest + [y] + [x])
  {
    var lo, hi := SplitAt(SortByTime(rest), x.time);
    SortTiedPair(rest, lo, hi, x, y);
    SortTiedPair(rest, lo, hi, y, x);
    Parts(rest, lo, hi, m, multiset{x, y});
    OneSidedCounts(lo, hi, x, y, m, w, gap);
    PairMultiset(rest, x, y);
    Differ(rest + [x] + [y], rest + [y] + [x], lo + [x, y] + hi, lo + [y, x] + hi, m, w, gap);
  }

  lemma BehindTied(z: Trade, hi: seq<Trade>, x: Trade, y: Trade, w: Account, gap: real)
    requires gap >= 0.0 && TiedPair(w, x, y) && TiedPair(w, x, z) && !ReversedIn(hi, w, gap, y)
    ensures ReversedIn([z] + hi, w, gap, x) && !ReversedIn([z] + hi, w, gap, y)
  {
    var behind := [z] + hi;
    assert behind[0] == z && behind[0].time - x.time <= gap && Reverses(behind[0], x, w);
    forall j | 0 <= j < |behind| && behind[j].time - y.time <= gap ensures !Reverses(behind[j], y, w) {
      var k := j - 1;
      assert j > 0 ==> hi[k] == behind[j];
    }
  }

  lemma CrowdedCounts(lo: seq<Trade>, hi: seq<Trade>, x: Trade, y: Trade, z: Trade, m: multiset<Trade>, w: Account,
                      gap: real)
    requires gap >= 0.0 && TiedPair(w, x, y) && TiedPair(w, x, z) && !Late(m, w, gap, y)
    requires (forall u :: u in lo ==> u.time <= x.time) && forall u :: u in hi ==> u.time > x.time
    requires forall u :: u in m <==> u in lo || u in hi || u in multiset{x, y, z}
    ensures Number(RoundTripMarks(lo + [x, y] + ([z] + hi), w, gap)) !=
            Number(RoundTripMarks(lo + [y, x] + ([z] + hi), w, gap))
  {
    ReversedIsLate(lo, hi, m, w, gap, y);
    BehindTied(z, hi, x, y, w, gap);
    ExchangeTied(lo, x, y, [z] + hi, w, gap);
  }

  /** A tied pair without late reversals, and a third trade of the group in the direction of y. */
  lemma CrowdedTie(rest: seq<Trade>, x: Trade, y: Trade, z: Trade, m: multiset<Trade>, w: Account, gap: real)
    requires gap >= 0.0 && TiedPair(w, x, y) && TiedPair(w, x, z) && m == multiset(rest) + multiset{x, y, z}
    requires !Late(m, w, gap, y)
    ensures OrdersDiffer(m, w, gap, rest + [x] + [y] + [z], rest + [y] + [x] + [z])
  {
    var lo, hi := SplitAt(SortByTime(rest), x.time);
    SortTiedTriple(rest, lo, hi, x, y, z);
    SortTiedTriple(rest, lo, hi, y, x, z);
    Parts(rest, lo, hi, m, multiset{x, y, z});
    CrowdedCounts(lo, hi, x, y, z, m, w, gap);
    TripleMultiset(rest, x, y, z);
    Differ(rest + [x] + [y] + [z], rest + [y] + [x] + [z], lo + [x, y] + ([z] + hi), lo + [y, x] + ([z] + hi), m, w, gap);
  }

  lemma TakeOut(s: seq<Trade>, x: Trade) returns (rest: seq<Trade>)
    requires x in s
    ensures multiset(rest) == multiset(s) - multiset{x}
  {
    var j :| 0 <= j < |s| && s[j] == x;
    rest := s[..j] + s[j + 1..];
    RemovedAt(s, j);
  }

  lemma TakeTwo(s: seq<Trade>, x: Trade, y: Trade) returns (rest: seq<Trade>)
    requires x in s && y in s && x != y
    ensures multiset(s) == multiset(rest) + multiset{x, y}
  {
    var one := TakeOut(s, x);
    assert y in multiset(one);
    rest := TakeOut(one, y);
  }

  lemma OneByOne(m: multiset<Trade>, x: Trade, y: Trade, z: Trade)
    requires multiset{x, y, z} <= m
    ensures x in m && y in m - multiset{x} && z in m - multiset{x} - multiset{y}
    ensures m - multiset{x} - multiset{y} - multiset{z} + multiset{x, y, z} == m
  {
    var three := multiset{x, y, z};
    assert three[x] >= 1 && (three - multiset{x})[y] >= 1 && (three - multiset{x} - multiset{y})[z] >= 1;
  }

  lemma TakeThree(s: seq<Trade>, x: Trade, y: Trade, z: Trade) returns (rest: seq<Trade>)
    requires multiset{x, y, z} <= multiset(s)
    ensures multiset(s) == multiset(rest) + multiset{x, y, z}
  {
    OneByOne(multiset(s), x, y, z);
    var one := TakeOut(s, x);
    assert y in multiset(one);
    var two := TakeOut(one, y);
    assert z in multiset(two);
    rest := TakeOut(two, z);
  }

  /** A tied pair that is not alone has a third trade in its group. */
  lemma ThirdTrade(m: multiset<Trade>, w: Account, t: Trade, u: Trade) returns (x: Trade)
    requires t in m && u in m && TiedPair(w, t, u) && !Lone(m, w, t, u)
    ensures multiset{t, u, x} <= m && SameGroup(w, t, x)
  {
    if m[t] > 1 {
      x := t;
    } else if m[u] > 1 {
      x := u;
    } else {
      x :| x in m && SameGroup(w, t, x) && x != t && x != u;
    }
  }

  /** Harmful ties show: two orders of the trades give different counts. */
  lemma HarmfulTiesShow(o: seq<Trade>, w: Account, gap: real) returns (a: seq<Trade>, b: seq<Trade>)
    requires !HarmlessTies(multiset(o), w, gap)
    ensures OrdersDiffer(multiset(o), w, gap, a, b)
  {
    var m := multiset(o);
    var t, u :| t in m && u in m && TiedPair(w, t, u) &&
      !(Late(m, w, gap, t) && Late(m, w, gap, u)) &&
      !(!Late(m, w, gap, t) && !Late(m, w, gap, u) && Lone(m, w, t, u));
    if Late(m, w, gap, t) != Late(m, w, gap, u) {
      var rest := TakeTwo(o, t, u);
      OneSidedTie(rest, t, u, m, w, gap);
      a, b := rest + [t] + [u], rest + [u] + [t];
    } else {
      var x := ThirdTrade(m, w, t, u);
      var p, q := t, u;
      if x.baseIsSeller == t.baseIsSeller { p, q := u, t; }
      assert multiset{p, q, x} == multiset{t, u, x};
      var rest := TakeThree(o, p, q, x);
      CrowdedTie(rest, p, q, x, m, w, gap);
      a, b := rest + [p] + [q] + [x], rest + [q] + [p] + [x];
    }
  }

  function NotOf(trades: seq<Trade>, w: Account): seq<Trade> {
    if trades == [] then []
    else
      var before, t := NotOf(trades[..|trades| - 1], w), trades[|trades| - 1];
      if Touches(t, w) then before else before + [t]
  }

  lemma {:induction false} OfAndNotOf(trades: seq<Trade>, w: Account)
    ensures multiset(trades) == multiset(Of(trades, w)) + multiset(NotOf(trades, w))
    ensures (forall t :: t in Of(trades, w) ==> Touches(t, w)) && forall t :: t in NotOf(trades, w) ==> !Touches(t, w)
  {
    if trades != [] {
      assert trades == trades[..|trades| - 1] + [trades[|trades| - 1]];
      OfAndNotOf(trades[..|trades| - 1], w);
    }
  }

  /** Trades of others first change nothing. */
  lemma {:induction false} OfBehind(rest: seq<Trade>, s: seq<Trade>, w: Account)
    requires (forall t :: t in rest ==> !Touches(t, w)) && forall t :: t in s ==> Touches(t, w)
    ensures Of(rest + s, w) == s
  {
    if s != [] {
      var pre, t := s[..|s| - 1], s[|s| - 1];
      OfBehind(rest, pre, w);
      assert (rest + s)[..|rest + s| - 1] == rest + pre && t in s;
    } else if rest != [] {
      assert rest + s == rest && rest[|rest| - 1] in rest;
      assert rest[..|rest| - 1] + s == rest[..|rest| - 1];
      OfBehind(rest[..|rest| - 1], s, w);
    }
  }

  lemma ShareDiffers(p: nat, q: nat, n: nat)
    requires p <= n && q <= n && p != q
    ensures Share(p, n) != Share(q, n)
  {
    var d := n as real;
    assert Share(p, n) * d == p as real && Share(q, n) * d == q as real;
  }

  lemma RateBehind(rest: seq<Trade>, s: seq<Trade>, m: multiset<Trade>, w: Account, gap: real)
    requires multiset(s) == m && (forall t :: t in m ==> Touches(t, w)) && forall t :: t in rest ==> !Touches(t, w)
    ensures RoundTripRate(rest + s, w, gap) == Share(Number(RoundTripMarks(SortByTime(s), w, gap)), |s|)
  {
    forall t | t in s ensures Touches(t, w) { assert t in multiset(s); }
    OfBehind(rest, s, w);
  }

  lemma HarmfulTiesChangeRate(a: seq<Trade>, w: Account, gap: real) returns (b: seq<Trade>, c: seq<Trade>)
    requires !HarmlessTies(multiset(Of(a, w)), w, gap)
    ensures multiset(b) == multiset(a) && multiset(c) == multiset(a)
    ensures RoundTripRate(b, w, gap) != RoundTripRate(c, w, gap)
  {
    var x, y := HarmfulTiesShow(Of(a, w), w, gap);
    var m, rest := multiset(Of(a, w)), NotOf(a, w);
    OfAndNotOf(a, w);
    RateBehind(rest, x, m, w, gap);
    RateBehind(rest, y, m, w, gap);
    SameLength(x, y);
    ShareDiffers(Number(RoundTripMarks(SortByTime(x), w, gap)), Number(RoundTripMarks(SortByTime(y), w, gap)), |x|);
    b, c := rest + x, rest + y;
  }

  /** The frequency is the same for every order of arrival exactly when the ties of the wallet's trades are harmless. */
  lemma RoundTripsIgnoreOrderIff(a: seq<Trade>, w: Account, gap: real)
    ensures (forall b :: multiset(b) == multiset(a) ==> RoundTripRate(b, w, gap) == RoundTripRate(a, w, gap)) <==>
            HarmlessTies(multiset(Of(a, w)), w, gap)
  {
    if HarmlessTies(multiset(Of(a, w)), w, gap) {
      forall b | multiset(b) == multiset(a) ensures RoundTripRate(b, w, gap) == RoundTripRate(a, w, gap) {
        RoundTripsIgnoreOrder(a, b, w, gap);
      }
    } else {
      var b, c := HarmfulTiesChangeRate(a, w, gap);
    }
  }

  /** The smallest instance: one sale before two purchases counts once, after them twice. */
  lemma TiesDependOnOrder(w: Account, c: Account, gap: real)
    requires gap >= 0.0
    ensures
      var sale, purchase := Trade(w, c, 1.0, 0.0, 0, true), Trade(w, c, 1.0, 0.0, 0, false);
      var a, b := [sale, purchase, purchase], [purchase, purchase, sale];
      multiset(a) == multiset(b) && RoundTripRate(a, w, gap) < RoundTripRate(b, w, gap)
  {
    var sale, purchase := Trade(w, c, 1.0, 0.0, 0, true), Trade(w, c, 1.0, 0.0, 0, false);
    TiedTripleRate([sale, purchase, purchase], w, gap);
    TiedTripleRate([purchase, purchase, sale], w, gap);
  }

  lemma TiedTripleRate(s: seq<Trade>, w: Account, gap: real)
    requires |s| == 3 && gap >= 0.0 && forall t :: t in s ==> Touches(t, w) && t.time == 0.0
    ensures
      var n := (if Reverses(s[1], s[0], w) || Reverses(s[2], s[0], w) then 1 else 0) +
               (if Reverses(s[2], s[1], w) then 1 else 0);
      RoundTripRate(s, w, gap) == Share(n, 3)
  {
    TiedTriple(s, w);
    TiedMark(s, w, gap, 0);
    TiedMark(s, w, gap, 1);
    TiedMark(s, w, gap, 2);
    NumberOfThree(RoundTripMarks(s, w, gap));
  }

  lemma TiedMark(s: seq<Trade>, w: Account, gap: real, i: nat)
    requires |s| == 3 && i < 3 && gap >= 0.0 && forall t :: t in s ==> t.time == 0.0
    ensures RoundTripAt(s, w, gap, i) <==> (i < 1 && Reverses(s[1], s[i], w)) || (i < 2 && Reverses(s[2], s[i], w))
  {
    assert s[0] in s && s[1] in s && s[2] in s;
    if i < 1 && Reverses(s[1], s[i], w) { assert s[1].time - s[i].time <= gap; }
    if i < 2 && Reverses(s[2], s[i], w) { assert s[2].time - s[i].time <= gap; }
  }

  lemma NumberOfThree(m: seq<bool>)
    requires |m| == 3
    ensures Number(m) == (if m[0] then 1 else 0) + (if m[1] then 1 else 0) + (if m[2] then 1 else 0)
  {
    assert m[..2][..1] == m[..1];
    assert Number(m[..1]) == if m[0] then 1 else 0;
    assert Number(m[..2]) == Number(m[..1]) + if m[1] then 1 else 0;
  }

  lemma TiedTriple(s: seq<Trade>, w: Account)
    requires |s| == 3 && forall t :: t in s ==> Touches(t, w) && t.time == 0.0
    ensures SortByTime(Of(s, w)) == s
  {
    AllTouch(s, w);
    assert s[..2][..1] == s[..1];
    assert SortByTime(s[..1]) == s[..1];
    assert SortByTime(s[..2]) == s[..2];
  }

  lemma {:induction false} AllTouch(s: seq<Trade>, w: Account)
    requires forall t :: t in s ==> Touches(t, w)
    ensures Of(s, w) == s
  {
    if s != [] { AllTouch(s[..|s| - 1], w); }
  }

  // ---------------------------------------------------------------- counterparty concentration

  /** What `w` traded with `c`. */
  function Volume(s: seq<Trade>, w: Account, c: Account): real {
    if s == [] then 0.0
    else
      var before, t := Volume(s[..|s| - 1], w, c), s[|s| - 1];
      if Counterparty(t, w) == c then before + t.amount else before
  }

  function Total(s: seq<Trade>): (v: real)
    ensures v >= 0.0 && (s != [] ==> v > 0.0)
  {
    if s == [] then 0.0 else Total(s[..|s| - 1]) + s[|s| - 1].amount
  }

  function Counterparties(s: seq<Trade>, w: Account): set<Account> { set t | t in s :: Counterparty(t, w) }

  /** Volumes are sums of amounts: one trade counts with its amount for its counterparty and for the total, and two
      lists add up. */
  lemma {:induction false} VolumesAdd(a: seq<Trade>, b: seq<Trade>, t: Trade, w: Account, c: Account)
    ensures Volume([t], w, c) == (if Counterparty(t, w) == c then t.amount else 0.0) && Total([t]) == t.amount
    ensures Volume(a + b, w, c) == Volume(a, w, c) + Volume(b, w, c) && Total(a + b) == Total(a) + Total(b)
    decreases |b|
  {
    assert Volume([t][..0], w, c) == 0.0 && Total([t][..0]) == 0.0;
    if b == [] {
      assert a + b == a;
    } else {
      VolumesAdd(a, b[..|b| - 1], t, w, c);
      assert (a + b)[..|a + b| - 1] == a + b[..|b| - 1];
    }
  }

  /** No counterparty holds more than the total, and one holds it all just when it is the only one. */
  lemma {:induction false} VolumeAtMostTotal(s: seq<Trade>, w: Account, c: Account)
    ensures 0.0 <= Volume(s, w, c) <= Total(s)
    ensures Volume(s, w, c) == Total(s) <==> forall t :: t in s ==> Counterparty(t, w) == c
    ensures Volume(s, w, c) == 0.0 <==> c !in Counterparties(s, w)
  {
    if s != [] {
      var pre, last := s[..|s| - 1], s[|s| - 1];
      assert s == pre + [last];
      VolumeAtMostTotal(pre, w, c);
      assert Counterparties(s, w) == Counterparties(pre, w) + {Counterparty(last, w)};
    }
  }

  /** v is the volume of some counterparty, and no other has more. */
  ghost predicate IsTopVolume(s: seq<Trade>, w: Account, v: real) {
    && (exists c :: c in Counterparties(s, w) && v == Volume(s, w, c))
    && forall c :: c in Counterparties(s, w) ==> Volume(s, w, c) <= v
  }

  method LargestVolume(s: seq<Trade>, w: Account, volumes: map<Account, real>) returns (top: real)
    requires s != [] && volumes.Keys == Counterparties(s, w)
    requires forall c :: c in volumes ==> volumes[c] == Volume(s, w, c)
    ensures IsTopVolume(s, w, top)
  {
    assert Counterparty(s[0], w) in volumes;
    var first :| first in volumes;
    top := volumes[first];
    var left := volumes.Keys - {first};
    while left != {}
      invariant left <= volumes.Keys
      invariant exists c :: c in volumes && top == volumes[c]
      invariant forall c :: c in volumes && c !in left ==> volumes[c] <= top
      decreases |left|
    {
      var c :| c in left;
      left := left - {c};
      if volumes[c] > top { top := volumes[c]; }
    }
  }

  method VolumesByCounterparty(s: seq<Trade>, w: Account) returns (volumes: map<Account, real>, total: real)
    ensures total == Total(s) && volumes.Keys == Counterparties(s, w)
    ensures forall c :: c in volumes ==> volumes[c] == Volume(s, w, c)
  {
    volumes, total := map[], 0.0;
    for n := 0 to |s|
      invariant total == Total(s[..n]) && volumes.Keys == Counterparties(s[..n], w)
      invariant forall c :: c in volumes ==> volumes[c] == Volume(s[..n], w, c)
    {
      ghost var pre := s[..n];
      assert s[..n + 1][..n] == pre && s[..n + 1] == pre + [s[n]];
      var c := Counterparty(s[n], w);
      VolumeAtMostTotal(pre, w, c);
      assert Counterparties(s[..n + 1], w) == Counterparties(pre, w) + {c};
      volumes := volumes[c := (if c in volumes then volumes[c] else 0.0) + s[n].amount];
      total := total + s[n].amount;
    }
    assert s[..|s|] == s;
  }

  ghost predicate IsConcentration(s: seq<Trade>, w: Account, r: real) {
    if s == [] then r == 0.0 else exists v :: IsTopVolume(s, w, v) && r == v / Total(s)
  }

  /** counterparty_concentration_ratio. */
  method CounterpartyConcentrationRatio(trades: seq<Trade>, w: Account) returns (r: real)
    ensures IsConcentration(Of(trades, w), w, r)
  {
    var s := Of(trades, w);
    if s == [] { return 0.0; }
    var volumes, total := VolumesByCounterparty(s, w);
    var top := LargestVolume(s, w, volumes);
    r := top / total;
  }

  /** The ratio is determined, lies in [0, 1], and is one exactly for a wallet with a single counterparty. */
  lemma ConcentrationBounds(s: seq<Trade>, w: Account, r: real)
    requires IsConcentration(s, w, r)
    ensures 0.0 <= r <= 1.0
    ensures s != [] ==> (r == 1.0 <==> forall t, u :: t in s && u in s ==> Counterparty(t, w) == Counterparty(u, w))
  {
    if s != [] {
      var v :| IsTopVolume(s, w, v) && r == v / Total(s);
      var c :| c in Counterparties(s, w) && v == Volume(s, w, c);
      VolumeAtMostTotal(s, w, c);
      ShareBounds(v, Total(s));
      var one :| one in s && Counterparty(one, w) == c;
      if forall t, u :: t in s && u in s ==> Counterparty(t, w) == Counterparty(u, w) {
        assert forall t :: t in s ==> Counterparty(t, w) == Counterparty(one, w);
      }
    }
  }

  lemma ConcentrationUnique(s: seq<Trade>, w: Account, r: real, q: real)
    requires IsConcentration(s, w, r) && IsConcentration(s, w, q)
    ensures r == q
  {
    if s != [] {
      var v :| IsTopVolume(s, w, v) && r == v / Total(s);
      var u :| IsTopVolume(s, w, u) && q == u / Total(s);
    }
  }

  // ---------------------------------------------------------------- clustering

  /** Adjacent trades, in time order, within the window of each other. */
  function CloseMarks(s: seq<Trade>): (m: seq<bool>)
    requires |s| >= 2
    ensures |m| == |s| - 1
  {
    seq(|s| - 1, i requires 0 <= i < |s| - 1 => s[i + 1].time - s[i].time <= WINDOW)
  }

  function ClusteringCoefficient(trades: seq<Trade>): (r: real)
    ensures 0.0 <= r <= 1.0
  {
    if |trades| < 2 then 0.0
    else
      var marks := CloseMarks(SortByTime(trades));
      Share(Number(marks), |marks|)
  }

  /** intra_minute_clustering_coefficient. */
  method IntraMinuteClusteringCoefficient(trades: seq<Trade>) returns (r: real)
    ensures r == ClusteringCoefficient(trades)
  {
    var s := SortByTime(trades);
    if |s| < 2 { return 0.0; }
    var clustered := CountClose(s);
    r := Share(clustered, |s| - 1);
  }

  method CountClose(s: seq<Trade>) returns (clustered: nat)
    requires |s| >= 2
    ensures clustered == Number(CloseMarks(s))
  {
    ghost var marks := CloseMarks(s);
    clustered := 0;
    for i := 1 to |s|
      invariant clustered == Number(marks[..i - 1])
    {
      var gap := s[i].time - s[i - 1].time;
      var m := i - 1;
      assert marks[m] == (gap <= WINDOW);
      assert marks[..i][..m] == marks[..m];
      if gap <= WINDOW { clustered := clustered + 1; }
    }
    assert marks[..|s| - 1] == marks;
  }

  /** `u` follows `t` within the window. */
  predicate SoonAfter(t: Trade, u: Trade) { 0.0 <= u.time - t.time <= WINDOW }

  /** Two different members of m, one soon after the other. */
  ghost predicate ClosePair(m: multiset<Trade>, t: Trade, u: Trade) {
    t in m && u in m - multiset{t} && SoonAfter(t, u)
  }

  lemma SpanCoversStep(s: seq<Trade>, i: nat, j: nat)
    requires InTimeOrder(s) && i < j < |s| && s[j].time - s[i].time <= WINDOW
    ensures s[i + 1].time - s[i].time <= WINDOW
  {
    var k := i + 1;
    assert s[k].time <= s[j].time;
  }

  lemma CloseAt(s: seq<Trade>, i: nat, j: nat) returns (k: nat)
    requires InTimeOrder(s) && i < |s| && j < |s| && i != j && SoonAfter(s[i], s[j])
    ensures k + 1 < |s| && s[k + 1].time - s[k].time <= WINDOW
  {
    if i < j {
      SpanCoversStep(s, i, j);
      k := i;
    } else {
      SpanCoversStep(s, j, i);
      k := j;
    }
  }

  lemma PairOfClose(s: seq<Trade>, t: Trade, u: Trade) returns (i: nat, j: nat)
    requires ClosePair(multiset(s), t, u)
    ensures i < |s| && j < |s| && i != j && SoonAfter(s[i], s[j])
  {
    i, j := PairFromMultiset(s, t, u);
  }

  lemma CloseNeighbours(s: seq<Trade>, t: Trade, u: Trade) returns (k: nat)
    requires InTimeOrder(s) && |s| >= 2 && ClosePair(multiset(s), t, u)
    ensures k < |s| - 1 && CloseMarks(s)[k]
  {
    var i, j := PairOfClose(s, t, u);
    k := CloseAt(s, i, j);
  }

  lemma NeighboursClose(s: seq<Trade>, i: nat)
    requires InTimeOrder(s) && i + 1 < |s| && CloseMarks(s)[i]
    ensures ClosePair(multiset(s), s[i], s[i + 1])
  {
    var j := i + 1;
    PairInMultiset(s, i, j);
  }

  /** In time order, if any two are within the window then so are two neighbours. */
  lemma NeighboursSuffice(s: seq<Trade>)
    requires InTimeOrder(s) && |s| >= 2
    ensures Number(CloseMarks(s)) > 0 <==> exists t, u :: ClosePair(multiset(s), t, u)
  {
    var marks := CloseMarks(s);
    NumberPositiveIff(marks);
    if i :| 0 <= i < |marks| && marks[i] { NeighboursClose(s, i); }
    if t, u :| ClosePair(multiset(s), t, u) {
      var k := CloseNeighbours(s, t, u);
      assert marks[k];
    }
  }

  /** The coefficient is positive exactly when some two of the trades, adjacent or not, lie within the window. */
  lemma ClusteringPositiveIff(trades: seq<Trade>)
    ensures ClusteringCoefficient(trades) > 0.0 <==> exists t, u :: ClosePair(multiset(trades), t, u)
  {
    var s := SortByTime(trades);
    if |trades| >= 2 {
      NeighboursSuffice(s);
      ShareBounds(Number(CloseMarks(s)) as real, (|s| - 1) as real);
    } else {
      forall t, u | t in multiset(trades) ensures u !in multiset(trades) - multiset{t} {
        assert trades == [t];
      }
    }
  }

  // ---------------------------------------------------------------- clustering as documented

  /** Another trade lies within the window of t, before or after. */
  ghost function NearAnother(m: multiset<Trade>): Trade -> bool {
    t => exists u :: IsNear(m, t, u)
  }

  ghost predicate IsNear(m: multiset<Trade>, t: Trade, u: Trade) {
    u in m - multiset{t} && (SoonAfter(t, u) || SoonAfter(u, t))
  }

  /** The documented quantity: the share of trades within the window of another trade. */
  ghost function DocumentedFraction(trades: seq<Trade>): real {
    Share(Number(MarksBy(trades, NearAnother(multiset(trades)))), |trades|)
  }

  /** The positions next to a marked gap. */
  function Beside(m: seq<bool>): (r: seq<bool>)
    ensures |r| == |m| + 1
  {
    seq(|m| + 1, i requires 0 <= i < |m| + 1 => (i > 0 && m[i - 1]) || (i < |m| && m[i]))
  }

  lemma BesideStep(m: seq<bool>, n: nat)
    requires |m| == n + 1
    ensures Beside(m) == Beside(m[..n])[n := Beside(m[..n])[n] || m[n]] + [m[n]]
  {}

  /** Marked gaps have more positions beside them than there are gaps. */
  lemma {:induction false} BesideNumber(m: seq<bool>)
    ensures Number(m) == 0 ==> Number(Beside(m)) == 0
    ensures Number(m) > 0 ==> Number(Beside(m)) > Number(m)
  {
    if m == [] {
      assert Beside(m) == [false];
      NumberOne(false);
    } else {
      var n := |m| - 1;
      var pre, b := m[..n], m[n];
      BesideNumber(pre);
      var front := Beside(pre)[n := Beside(pre)[n] || b];
      BesideStep(m, n);
      assert m == pre + [b];
      NumberConcat(front, [b]);
      NumberOne(b);
      NumberUpdate(Beside(pre), n, Beside(pre)[n] || b);
    }
  }

  lemma PlaceOfNear(s: seq<Trade>, i: nat, u: Trade) returns (j: nat)
    requires i < |s| && IsNear(multiset(s), s[i], u)
    ensures j < |s| && j != i && (SoonAfter(s[i], s[j]) || SoonAfter(s[j], s[i]))
  {
    assert s[i] in multiset(s);
    var p, q := PairFromMultiset(s, s[i], u);
    j := if p == i then q else p;
  }

  lemma NearOfPlace(s: seq<Trade>, i: nat, j: nat)
    requires i < |s| && j < |s| && j != i && (SoonAfter(s[i], s[j]) || SoonAfter(s[j], s[i]))
    ensures NearAnother(multiset(s))(s[i])
  {
    PairInMultiset(s, i, j);
    assert IsNear(multiset(s), s[i], s[j]);
  }

  lemma BesideIsNear(s: seq<Trade>, i: nat)
    requires InTimeOrder(s) && |s| >= 2 && i < |s| && Beside(CloseMarks(s))[i]
    ensures NearAnother(multiset(s))(s[i])
  {
    if i > 0 && CloseMarks(s)[i - 1] { NearOfPlace(s, i, i - 1); } else { NearOfPlace(s, i, i + 1); }
  }

  lemma NearIsBeside(s: seq<Trade>, i: nat)
    requires InTimeOrder(s) && |s| >= 2 && i < |s| && NearAnother(multiset(s))(s[i])
    ensures Beside(CloseMarks(s))[i]
  {
    var u :| IsNear(multiset(s), s[i], u);
    var j := PlaceOfNear(s, i, u);
    CloseNextTo(s, i, j);
  }

  lemma NearMarks(s: seq<Trade>)
    requires InTimeOrder(s) && |s| >= 2
    ensures MarksBy(s, NearAnother(multiset(s))) == Beside(CloseMarks(s))
  {
    forall i | 0 <= i < |s| ensures NearAnother(multiset(s))(s[i]) <==> Beside(CloseMarks(s))[i] {
      if NearAnother(multiset(s))(s[i]) { NearIsBeside(s, i); }
      if Beside(CloseMarks(s))[i] { BesideIsNear(s, i); }
    }
  }

  /** If some other position is within the window, a neighbouring one is. */
  lemma CloseNextTo(s: seq<Trade>, i: nat, j: nat)
    requires InTimeOrder(s) && i < |s| && j < |s| && i != j
    requires SoonAfter(s[i], s[j]) || SoonAfter(s[j], s[i])
    ensures |s| >= 2 && Beside(CloseMarks(s))[i]
  {
    if i < j {
      SpanCoversStep(s, i, j);
    } else {
      var k := i - 1;
      assert s[j].time <= s[k].time;
      assert CloseMarks(s)[k];
    }
  }

  lemma DocumentedCount(trades: seq<Trade>)
    requires |trades| >= 2
    ensures Number(MarksBy(trades, NearAnother(multiset(trades)))) == Number(Beside(CloseMarks(SortByTime(trades))))
  {
    var s := SortByTime(trades);
    var near := NearAnother(multiset(trades));
    CountIgnoresOrder(trades, s, near);
    NearMarks(s);
  }

  lemma CompareShares(c: nat, k: nat, n: nat)
    requires c <= k && k > 0 && n <= k + 1 && (c == 0 ==> n == 0) && (c > 0 ==> n > c)
    ensures Share(c, k) <= Share(n, k + 1)
    ensures Share(c, k) == Share(n, k + 1) <==> c == 0 || c == k
  {
    ShareBounds(c as real, k as real);
    ShareBounds(n as real, (k + 1) as real);
    if 0 < c < k {
      var d := k as real;
      QuotientBack(c as real, d);
      QuotientBack(n as real, d + 1.0);
      StrictlyLess(Share(c, k), Share(n, k + 1), d, c as real, n as real);
    }
  }

  lemma QuotientBack(x: real, d: real)
    requires d > 0.0
    ensures x / d * d == x
  {
  }

  lemma StrictlyLess(x: real, y: real, d: real, c: real, n: real)
    requires d > 0.0 && x * d == c && y * (d + 1.0) == n && x < 1.0 && n >= c + 1.0
    ensures x < y
  {
    assert x * (d + 1.0) == x * d + x;
    if y <= x { Benford.ScaleAtMost(y, x, d + 1.0); }
  }

  /** What the three counts say about the two shares. */
  lemma CompareByMarks(close: seq<bool>, k: nat, n: nat)
    requires close != [] && k == |close| && n == Number(Beside(close))
    ensures Share(Number(close), k) <= Share(n, k + 1)
    ensures Share(Number(close), k) == Share(n, k + 1) <==> AllOrNone(close)
  {
    BesideNumber(close);
    NumberPositiveIff(close);
    CompareShares(Number(close), k, n);
  }

  predicate AllOrNone(m: seq<bool>) { (forall i :: 0 <= i < |m| ==> m[i]) || forall i :: 0 <= i < |m| ==> !m[i] }

  /** The coefficient never exceeds the documented fraction, and equals it exactly when, in time order, all
      neighbouring pairs lie within the window or none does. */
  lemma ClusteringIsDocumentedIff(trades: seq<Trade>)
    ensures ClusteringCoefficient(trades) <= DocumentedFraction(trades)
    ensures ClusteringCoefficient(trades) == DocumentedFraction(trades) <==>
      |trades| < 2 || AllOrNone(CloseMarks(SortByTime(trades)))
  {
    if |trades| >= 2 {
      var close := CloseMarks(SortByTime(trades));
      DocumentedCount(trades);
      CompareByMarks(close, |trades| - 1, Number(Beside(close)));
    } else if |trades| == 1 {
      AloneIsNotNear(trades);
    }
  }

  lemma AloneIsNotNear(trades: seq<Trade>)
    requires |trades| == 1
    ensures Number(MarksBy(trades, NearAnother(multiset(trades)))) == 0
  {
    var t := trades[0];
    assert trades == [t] && multiset(trades) - multiset{t} == multiset{};
    assert MarksBy(trades, NearAnother(multiset(trades))) == [false];
    NumberOne(false);
  }

  /** An instance: at 0, 10 and 1000 seconds one of two gaps is short, but two of three trades are near another. */
  lemma ClusteringUnderstates(a: Trade, b: Trade, c: Trade)
    requires a.time == 0.0 && b.time == 10.0 && c.time == 1000.0
    ensures ClusteringCoefficient([a, b, c]) == 1.0 / 2.0 && DocumentedFraction([a, b, c]) == 2.0 / 3.0
  {
    var s := [a, b, c];
    SortedShares(s);
    assert CloseMarks(s) == [true, false];
    BesideFirst(CloseMarks(s));
  }

  lemma SortOne(pre: seq<Trade>, last: Trade)
    ensures SortByTime(pre + [last]) == Insert(SortByTime(pre), last)
  {
    assert (pre + [last])[..|pre|] == pre;
  }

  lemma {:induction false} SortedAlready(s: seq<Trade>)
    requires InTimeOrder(s)
    ensures SortByTime(s) == s
  {
    if s != [] {
      var pre, last := s[..|s| - 1], s[|s| - 1];
      assert s == pre + [last];
      SortedAlready(pre);
      SortOne(pre, last);
      LastIsLatest(pre, last, s);
      InsertBehind(pre, last);
    }
  }

  lemma SortedShares(s: seq<Trade>)
    requires InTimeOrder(s) && |s| >= 2
    ensures ClusteringCoefficient(s) == Share(Number(CloseMarks(s)), |s| - 1)
    ensures DocumentedFraction(s) == Share(Number(Beside(CloseMarks(s))), |s|)
  {
    SortedAlready(s);
    DocumentedCount(s);
  }

  lemma LastIsLatest(pre: seq<Trade>, last: Trade, s: seq<Trade>)
    requires s == pre + [last] && InTimeOrder(s)
    ensures forall u :: u in pre ==> u.time <= last.time
  {
    forall u | u in pre ensures u.time <= last.time {
      var i :| 0 <= i < |pre| && pre[i] == u;
      assert s[i].time <= s[|pre|].time;
    }
  }

  lemma BesideFirst(m: seq<bool>)
    requires m == [true, false]
    ensures Number(m) == 1 && Number(Beside(m)) == 2
  {
    assert m == [true] + [false];
    NumberConcat([true], [false]);
    assert Beside(m) == [true] + [true] + [false];
    NumberConcat([true] + [true], [false]);
    NumberConcat([true], [true]);
    NumberOne(true);
    NumberOne(false);
  }

  // ---------------------------------------------------------------- self matching and off hours

  function SelfMatchMarks(s: seq<Trade>, funders: map<Account, Account>): seq<bool> {
    seq(|s|, i requires 0 <= i < |s| =>
      s[i].base in funders && s[i].counter in funders && funders[s[i].base] == funders[s[i].counter])
  }

  function OffHoursMarks(s: seq<Trade>): seq<bool> { seq(|s|, i requires 0 <= i < |s| => 0 <= s[i].hour < 6) }

  ghost predicate Funds(funders: map<Account, Account>, a: Account, f: Account) { a in funders && funders[a] == f }

  /** A trade is self-matched exactly when one account funds both sides, whichever side is the base; the off hours are
      the first six of the day. */
  lemma MarksMean(s: seq<Trade>, funders: map<Account, Account>, i: nat)
    requires i < |s|
    ensures SelfMatchMarks(s, funders)[i] <==> exists f :: Funds(funders, s[i].base, f) && Funds(funders, s[i].counter, f)
    ensures OffHoursMarks(s)[i] <==> s[i].hour in {0, 1, 2, 3, 4, 5}
  {
    if SelfMatchMarks(s, funders)[i] {
      assert Funds(funders, s[i].base, funders[s[i].base]) && Funds(funders, s[i].counter, funders[s[i].base]);
    }
  }

  function Rate(marks: seq<bool>): (r: real)
    ensures 0.0 <= r <= 1.0
  {
    Share(Number(marks), |marks|)
  }

  /** self_matching_rate: an unknown funder on the base side never matches. */
  method SelfMatchingRate(s: seq<Trade>, funders: map<Account, Account>) returns (r: real)
    ensures r == Rate(SelfMatchMarks(s, funders))
  {
    if s == [] { return 0.0; }
    ghost var marks := SelfMatchMarks(s, funders);
    var matches := 0;
    for i := 0 to |s|
      invariant matches == Number(marks[..i])
    {
      assert marks[..i + 1][..i] == marks[..i];
      if s[i].base in funders {
        if s[i].counter in funders && funders[s[i].counter] == funders[s[i].base] { matches := matches + 1; }
      }
    }
    assert marks[..|s|] == marks;
    r := Share(matches, |s|);
  }

  /** off_hours_activity_ratio. */
  method OffHoursActivityRatio(s: seq<Trade>) returns (r: real)
    ensures r == Rate(OffHoursMarks(s))
  {
    if s == [] { return 0.0; }
    ghost var marks := OffHoursMarks(s);
    var count := 0;
    for i := 0 to |s|
      invariant count == Number(marks[..i])
    {
      assert marks[..i + 1][..i] == marks[..i];
      if 0 <= s[i].hour < 6 { count := count + 1; }
    }
    assert marks[..|s|] == marks;
    r := Share(count, |s|);
  }

  // ---------------------------------------------------------------- the heuristic score

  datatype Features = Features(concentration: real, roundTrips: real, selfMatching: real, clustering: real,
                               offHours: real)

  /** What feature extraction yields for a wallet. */
  ghost predicate IsFeatures(f: Features, trades: seq<Trade>, w: Account, funders: map<Account, Account>) {
    var s := Of(trades, w);
    && IsConcentration(s, w, f.concentration)
    && f.roundTrips == RoundTripRate(trades, w, ROUND_TRIP_GAP)
    && f.selfMatching == Rate(SelfMatchMarks(s, funders))
    && f.clustering == ClusteringCoefficient(s)
    && f.offHours == Rate(OffHoursMarks(s))
  }

  /** The trades determine the features. */
  lemma FeaturesAreDetermined(f: Features, g: Features, trades: seq<Trade>, w: Account, funders: map<Account, Account>)
    requires IsFeatures(f, trades, w, funders) && IsFeatures(g, trades, w, funders)
    ensures f == g
  {
    ConcentrationUnique(Of(trades, w), w, f.concentration, g.concentration);
  }

  method ExtractWalletFeatures(trades: seq<Trade>, w: Account, funders: map<Account, Account>) returns (f: Features)
    ensures IsFeatures(f, trades, w, funders)
  {
    var s := Of(trades, w);
    OfAgain(trades, w);
    var concentration := CounterpartyConcentrationRatio(s, w);
    var roundTrips := RoundTripTradeFrequency(s, w, ROUND_TRIP_GAP);
    var selfMatching := SelfMatchingRate(s, funders);
    var clustering := IntraMinuteClusteringCoefficient(s);
    var offHours := OffHoursActivityRatio(s);
    f := Features(concentration, roundTrips, selfMatching, clustering, offHours);
  }

  predicate Normalised(f: Features) {
    && 0.0 <= f.concentration <= 1.0 && 0.0 <= f.roundTrips <= 1.0 && 0.0 <= f.selfMatching <= 1.0
    && 0.0 <= f.clustering <= 1.0 && 0.0 <= f.offHours <= 1.0
  }

  function RawScore(f: Features, mad: real): real {
    25.0 * f.concentration + 25.0 * f.roundTrips + 20.0 * f.selfMatching + 10.0 * f.clustering + 5.0 * f.offHours
    + if mad * 500.0 <= 15.0 then mad * 500.0 else 15.0
  }

  /** Rounding half to even. */
  function Round(x: real): int {
    var n, rest := x.Floor, x - x.Floor as real;
    if rest < 0.5 || (rest == 0.5 && n % 2 == 0) then n else n + 1
  }

  lemma RoundMonotone(x: real, y: real)
    requires x <= y
    ensures Round(x) <= Round(y)
  {
  }

  /** The heuristic branch of score_wallet. */
  method ScoreWallet(trades: seq<Trade>, w: Account, funders: map<Account, Account>, expected: Benford.PerDigit)
    returns (score: int, flag: bool, ghost f: Features)
    requires Benford.IsExpectation(expected)
    ensures IsFeatures(f, trades, w, funders)
    ensures score == Round(RawScore(f, Benford.Mad(expected, Amounts(Of(trades, w)))))
    ensures 0 <= score <= 100 && (flag <==> score >= 50)
  {
    var s := Of(trades, w);
    OfAgain(trades, w);
    var mad := Benford.MadScore(expected, Amounts(s));
    var features := ExtractWalletFeatures(s, w, funders);
    f := features;
    NoClampNeeded(f, trades, w, funders, expected);
    var raw := RawScore(features, mad);
    var clamped := if raw < 0.0 then 0.0 else if raw > 100.0 then 100.0 else raw;
    score := Round(clamped);
    flag := score >= 50;
  }

  function Amounts(s: seq<Trade>): seq<real> { seq(|s|, i requires 0 <= i < |s| => s[i].amount) }

  /** Every weighted signal of every wallet is a fraction, so the raw score is already in 0..100. */
  lemma NoClampNeeded(f: Features, trades: seq<Trade>, w: Account, funders: map<Account, Account>,
                      expected: Benford.PerDigit)
    requires IsFeatures(f, trades, w, funders) && Benford.IsExpectation(expected)
    ensures Normalised(f)
    ensures 0.0 <= RawScore(f, Benford.Mad(expected, Amounts(Of(trades, w)))) <= 100.0
  {
    ConcentrationBounds(Of(trades, w), w, f.concentration);
    Benford.MadBelowTwoNinths(expected, Amounts(Of(trades, w)));
  }

  /** What each signal adds: a fraction of 25, 25, 20, 10 and 5 points for the patterns, and up to 15 for the digits,
      in full from a deviation of 3 percent on; together 100. */
  lemma SignalsAdd(f: Features, g: Features, mad: real)
    ensures RawScore(Features(0.0, 0.0, 0.0, 0.0, 0.0), 0.0) == 0.0
    ensures RawScore(f, mad) - RawScore(g, mad) ==
      25.0 * (f.concentration - g.concentration) + 25.0 * (f.roundTrips - g.roundTrips)
      + 20.0 * (f.selfMatching - g.selfMatching) + 10.0 * (f.clustering - g.clustering) + 5.0 * (f.offHours - g.offHours)
    ensures RawScore(f, mad) - RawScore(f, 0.0) == if mad >= 0.03 then 15.0 else 500.0 * mad
    ensures RawScore(Features(1.0, 1.0, 1.0, 1.0, 1.0), 0.03) == 100.0
  {}

  /** The nearest whole number, the even one of two. */
  lemma RoundIsNearest(x: real)
    ensures -0.5 <= Round(x) as real - x <= 0.5
    ensures (Round(x) as real - x == 0.5 || Round(x) as real - x == -0.5) ==> Round(x) % 2 == 0
  {}

  /** Raising any signal never lowers the score. */
  lemma ScoreIsMonotone(f: Features, g: Features, m: real, n: real)
    requires f.concentration <= g.concentration && f.roundTrips <= g.roundTrips && f.selfMatching <= g.selfMatching
    requires f.clustering <= g.clustering && f.offHours <= g.offHours && m <= n
    ensures Round(RawScore(f, m)) <= Round(RawScore(g, n))
  {
    RoundMonotone(RawScore(f, m), RawScore(g, n));
  }
}
