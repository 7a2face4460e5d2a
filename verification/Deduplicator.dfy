/** Correlated-alert deduplication: an online grouper over one pass of the stream, proved equal to an
    offline split of each key's alerts at its silences. */
module Deduplicator {

  /** The pair (wallet_address, asset_pair). */
  type Key(==, 00, !new)
  type Detector(==, 00, !new)
  type Field(==, 00, !new)
  type Datum(==, 00, !new)

  datatype Alert = Alert(key: Key, detector: Detector, risk: real, evidence: map<Field, Datum>, at: real)

  datatype Grouped = Grouped(key: Key, detectors: set<Detector>, risk: real, evidence: map<Field, Datum>, at: real)

  /** A group: its high-water mark, what it would report now, and the alerts folded into it in arrival order. */
  datatype Bundle = Bundle(key: Key, last: real, report: Grouped, alerts: seq<Alert>)

  // ----- what a group reports -----

  function Detectors(s: seq<Alert>): set<Detector> { set a | a in s :: a.detector }

  /** Later values win on a field name. */
  function Evidence(s: seq<Alert>): map<Field, Datum> {
    if s == [] then map[] else Evidence(s[..|s| - 1]) + s[|s| - 1].evidence
  }

  function MaxReal(a: real, b: real): real { if b > a then b else a }

  function LastSeen(s: seq<Alert>): real
    requires s != []
  {
    if |s| == 1 then s[0].at else MaxReal(LastSeen(s[..|s| - 1]), s[|s| - 1].at)
  }

  ghost predicate Reports(g: Grouped, key: Key, s: seq<Alert>) {
    && g.key == key && g.detectors == Detectors(s) && g.evidence == Evidence(s)
    && (exists a :: a in s && a.risk == g.risk) && (forall a :: a in s ==> a.risk <= g.risk)
    && (exists a :: a in s && a.at == g.at) && (forall a :: a in s ==> g.at <= a.at)
  }

  ghost predicate IsLastWith(s: seq<Alert>, f: Field, i: int) {
    0 <= i < |s| && f in s[i].evidence && forall j :: i < j < |s| ==> f !in s[j].evidence
  }

  /** The value reported for a field is that of the last member that carries the field. */
  lemma {:induction false} EvidenceLastWins(s: seq<Alert>, f: Field)
    ensures f in Evidence(s) <==> exists i :: 0 <= i < |s| && f in s[i].evidence
    ensures f in Evidence(s) ==> exists i :: IsLastWith(s, f, i) && Evidence(s)[f] == s[i].evidence[f]
  {
    if s != [] {
      var n := |s| - 1;
      EvidenceLastWins(s[..n], f);
      if f in s[n].evidence {
        assert IsLastWith(s, f, n);
      } else if f in Evidence(s) {
        var i :| IsLastWith(s[..n], f, i) && Evidence(s[..n])[f] == s[..n][i].evidence[f];
        assert IsLastWith(s, f, i);
      }
    }
  }

  function Merged(g: Grouped, alert: Alert): Grouped {
    Grouped(g.key, g.detectors + {alert.detector}, MaxReal(g.risk, alert.risk), g.evidence + alert.evidence,
            if alert.at < g.at then alert.at else g.at)
  }

  function Alone(alert: Alert): Bundle {
    Bundle(alert.key, alert.at, Grouped(alert.key, {alert.detector}, alert.risk, alert.evidence, alert.at), [alert])
  }

  function Absorbed(b: Bundle, alert: Alert): Bundle {
    Bundle(b.key, MaxReal(b.last, alert.at), Merged(b.report, alert), b.alerts + [alert])
  }

  lemma MergedReports(g: Grouped, key: Key, s: seq<Alert>, alert: Alert)
    requires Reports(g, key, s)
    ensures Reports(Merged(g, alert), key, s + [alert])
  {
    var t := s + [alert];
    assert t[..|s|] == s && alert in t;
    forall a ensures a in t <==> a in s || a == alert {}
    assert Detectors(t) == Detectors(s) + {alert.detector};
    var r :| r in s && r.risk == g.risk;
    var m :| m in s && m.at == g.at;
    assert r in t && m in t;
  }

  class Group {
    const key: Key
    var detectors: set<Detector>
    var risk: real
    var evidence: map<Field, Datum>
    var detectedAt: real
    var lastSeen: real
    ghost var members: seq<Alert>

    ghost function View(): Bundle
      reads this
    { Bundle(key, lastSeen, Grouped(key, detectors, risk, evidence, detectedAt), members) }

    constructor (alert: Alert)
      ensures View() == Alone(alert)
    {
      key, detectors, risk, evidence := alert.key, {alert.detector}, alert.risk, alert.evidence;
      detectedAt, lastSeen, members := alert.at, alert.at, [alert];
    }

    method Absorb(alert: Alert)
      modifies this
      ensures View() == Absorbed(old(View()), alert)
    {
      detectors := detectors + {alert.detector};
      risk := if alert.risk > risk then alert.risk else risk;
      evidence := evidence + alert.evidence;
      detectedAt := if alert.at < detectedAt then alert.at else detectedAt;
      lastSeen := if alert.at > lastSeen then alert.at else lastSeen;
      members := members + [alert];
    }

    method Flush() returns (g: Grouped)
      ensures g == View().report
    {
      g := Grouped(key, detectors, risk, evidence, detectedAt);
    }
  }

  // ----- the online grouper as a function of the stream read so far -----

  predicate IsStale(b: Bundle, now: real, window: real) { now - b.last >= window }

  /** The open groups that are (or are not) stale, in creation order. */
  function Select(open: seq<Bundle>, now: real, window: real, stale: bool): seq<Bundle> {
    if open == [] then []
    else
      var b, before := open[|open| - 1], Select(open[..|open| - 1], now, window, stale);
      if IsStale(b, now, window) == stale then before + [b] else before
  }

  lemma SelectSnoc(pre: seq<Bundle>, b: Bundle, now: real, window: real)
    ensures var stale := IsStale(b, now, window);
      && Select(pre + [b], now, window, stale) == Select(pre, now, window, stale) + [b]
      && Select(pre + [b], now, window, !stale) == Select(pre, now, window, !stale)
  {
    assert (pre + [b])[..|pre|] == pre;
  }

  function Find(open: seq<Bundle>, key: Key): (i: nat)
    ensures i <= |open| && (forall j :: 0 <= j < i ==> open[j].key != key)
    ensures i < |open| ==> open[i].key == key
  {
    if open == [] then 0 else if open[0].key == key then 0 else 1 + Find(open[1..], key)
  }

  function Place(open: seq<Bundle>, alert: Alert): seq<Bundle> {
    var i := Find(open, alert.key);
    if i < |open| then open[i := Absorbed(open[i], alert)] else open + [Alone(alert)]
  }

  datatype State = State(emitted: seq<Bundle>, open: seq<Bundle>)

  function Step(st: State, alert: Alert, window: real): State {
    State(st.emitted + Select(st.open, alert.at, window, true),
          Place(Select(st.open, alert.at, window, false), alert))
  }

  function Online(alerts: seq<Alert>, window: real): State {
    if alerts == [] then State([], []) else Step(Online(alerts[..|alerts| - 1], window), alerts[|alerts| - 1], window)
  }

  // ----- the source's generator, run to the end of its input -----

  ghost predicate AllReport(out: seq<Grouped>, bs: seq<Bundle>) {
    |out| == |bs| && forall i :: 0 <= i < |out| ==> out[i] == bs[i].report
  }

  /** Distinct, consistent group objects that stand for the bundles `bs`. */
  ghost predicate Shows(gs: seq<Group>, bs: seq<Bundle>)
    reads gs
  {
    && |gs| == |bs| && (forall i :: 0 <= i < |gs| ==> gs[i].View() == bs[i])
    && (forall i, j :: 0 <= i < j < |gs| ==> gs[i] != gs[j])
  }

  lemma ShowsSnoc(gs: seq<Group>, bs: seq<Bundle>, g: Group)
    requires Shows(gs, bs) && g !in gs
    ensures Shows(gs + [g], bs + [g.View()])
  {}

  ghost predicate KeyOrdered(tail: seq<Bundle>, rank: Key -> real) {
    forall i, j :: 0 <= i < j < |tail| ==> rank(tail[i].key) <= rank(tail[j].key)
  }

  method FlushStale(open: seq<Group>, now: real, window: real, ghost bs: seq<Bundle>)
    returns (out: seq<Grouped>, kept: seq<Group>)
    requires Shows(open, bs)
    ensures (forall g :: g in kept ==> g in open) && Shows(kept, Select(bs, now, window, false))
    ensures AllReport(out, Select(bs, now, window, true))
  {
    out, kept := [], [];
    for i := 0 to |open|
      invariant forall g :: g in kept ==> g in open[..i]
      invariant Shows(kept, Select(bs[..i], now, window, false))
      invariant AllReport(out, Select(bs[..i], now, window, true))
    {
      var g := open[i];
      SelectSnoc(bs[..i], bs[i], now, window);
      assert bs[..i + 1] == bs[..i] + [bs[i]];
      assert open[..i + 1] == open[..i] + [g] && g !in open[..i];
      if now - g.lastSeen >= window {
        var r := g.Flush();
        out := out + [r];
      } else {
        ShowsSnoc(kept, Select(bs[..i], now, window, false), g);
        kept := kept + [g];
      }
    }
    assert bs[..|open|] == bs;
  }

  method Fold(kept: seq<Group>, alert: Alert, ghost bs: seq<Bundle>) returns (open: seq<Group>)
    requires Shows(kept, bs)
    modifies set g | g in kept
    ensures Shows(open, Place(bs, alert)) && forall g :: g in open ==> g in kept || fresh(g)
  {
    var i := 0;
    while i < |kept| && kept[i].key != alert.key
      invariant i <= |kept| && forall j :: 0 <= j < i ==> kept[j].key != alert.key
    {
      i := i + 1;
    }
    assert i < |kept| ==> kept[i].View() == bs[i];
    assert forall j :: 0 <= j < i ==> kept[j].View() == bs[j];
    assert i == Find(bs, alert.key);
    if i < |kept| {
      kept[i].Absorb(alert);
      open := kept;
    } else {
      var g := new Group(alert);
      open := kept + [g];
    }
  }

  /** Removes the group with the least key. */
  method TakeLeast(open: seq<Group>, rank: Key -> real, ghost bs: seq<Bundle>)
    returns (r: Grouped, rest: seq<Group>, ghost m: nat)
    requires open != [] && Shows(open, bs)
    ensures m < |bs| && r == bs[m].report && Shows(rest, bs[..m] + bs[m + 1..])
    ensures forall j :: 0 <= j < |bs| ==> rank(bs[m].key) <= rank(bs[j].key)
  {
    var k := 0;
    assert forall j :: 0 <= j < |open| ==> open[j].View() == bs[j];
    for i := 1 to |open|
      invariant k < |open| && forall j :: 0 <= j < i ==> rank(open[k].key) <= rank(open[j].key)
    {
      if rank(open[i].key) < rank(open[k].key) { k := i; }
    }
    r := open[k].Flush();
    rest := open[..k] + open[k + 1..];
    m := k;
  }

  lemma ReportJoin(a: seq<Grouped>, bs: seq<Bundle>, c: seq<Grouped>, ds: seq<Bundle>)
    requires AllReport(a, bs) && AllReport(c, ds)
    ensures AllReport(a + c, bs + ds)
  {}

  /** The body of the loop over the stream. */
  method Advance(open: seq<Group>, alert: Alert, window: real, ghost st: State)
    returns (stale: seq<Grouped>, open': seq<Group>)
    requires Shows(open, st.open)
    modifies set g | g in open
    ensures Shows(open', Step(st, alert, window).open) && forall g :: g in open' ==> g in open || fresh(g)
    ensures AllReport(stale, Select(st.open, alert.at, window, true))
  {
    var kept;
    stale, kept := FlushStale(open, alert.at, window, st.open);
    open' := Fold(kept, alert, Select(st.open, alert.at, window, false));
  }

  method GroupStream(alerts: seq<Alert>, window: real) returns (out: seq<Grouped>, open: seq<Group>)
    ensures Shows(open, Online(alerts, window).open)
    ensures AllReport(out, Online(alerts, window).emitted)
  {
    open, out := [], [];
    for n := 0 to |alerts|
      invariant forall g :: g in open ==> fresh(g)
      invariant Shows(open, Online(alerts[..n], window).open)
      invariant AllReport(out, Online(alerts[..n], window).emitted)
    {
      ghost var st := Online(alerts[..n], window);
      assert alerts[..n + 1] == alerts[..n] + [alerts[n]];
      OnlineSnoc(alerts[..n], alerts[n], window);
      var stale;
      stale, open := Advance(open, alerts[n], window, st);
      ReportJoin(out, st.emitted, stale, Select(st.open, alerts[n].at, window, true));
      out := out + stale;
    }
    assert alerts[..|alerts|] == alerts;
  }

  /** `out` reports the groups `bs`, all of them, in key order. */
  ghost predicate ReportsInKeyOrder(out: seq<Grouped>, bs: seq<Bundle>, rank: Key -> real) {
    exists tail :: AllReport(out, tail) && multiset(tail) == multiset(bs) && KeyOrdered(tail, rank)
  }

  method FlushInKeyOrder(open: seq<Group>, rank: Key -> real, ghost bs: seq<Bundle>) returns (out: seq<Grouped>)
    requires Shows(open, bs)
    ensures ReportsInKeyOrder(out, bs, rank)
  {
    var gs := open;
    ghost var left, tail := bs, [];
    out := [];
    while gs != []
      invariant Shows(gs, left) && AllReport(out, tail) && KeyOrdered(tail, rank)
      invariant multiset(tail) + multiset(left) == multiset(bs)
      invariant Ahead(tail, left, rank)
      decreases |left|
    {
      var r;
      ghost var m;
      r, gs, m := TakeLeast(gs, rank, left);
      out := out + [r];
      TakeStep(tail, left, m, rank);
      tail := tail + [left[m]];
      left := left[..m] + left[m + 1..];
    }
    assert left == [];
  }

  /** `rank` is the position of a key in the sort order of the key tuples (a countable total order
      embeds in the reals). The groups flushed on the way come first, then those still open at the end. */
  method Deduplicate(alerts: seq<Alert>, window: real, rank: Key -> real) returns (out: seq<Grouped>)
    ensures var st := Online(alerts, window);
      && |out| == |st.emitted| + |st.open|
      && AllReport(out[..|st.emitted|], st.emitted)
      && ReportsInKeyOrder(out[|st.emitted|..], st.open, rank)
  {
    var emitted, open := GroupStream(alerts, window);
    var rest := FlushInKeyOrder(open, rank, Online(alerts, window).open);
    out := emitted + rest;
    SameNumber(rest, Online(alerts, window).open, rank);
    assert out[..|emitted|] == emitted && out[|emitted|..] == rest;
  }

  lemma SameNumber(out: seq<Grouped>, bs: seq<Bundle>, rank: Key -> real)
    requires ReportsInKeyOrder(out, bs, rank)
    ensures |out| == |bs|
  {
    var tail :| AllReport(out, tail) && multiset(tail) == multiset(bs) && KeyOrdered(tail, rank);
    assert |multiset(tail)| == |tail| && |multiset(bs)| == |bs|;
  }

  ghost predicate Ahead(tail: seq<Bundle>, left: seq<Bundle>, rank: Key -> real) {
    forall i, j :: 0 <= i < |tail| && 0 <= j < |left| ==> rank(tail[i].key) <= rank(left[j].key)
  }

  lemma TakeStep(tail: seq<Bundle>, left: seq<Bundle>, m: nat, rank: Key -> real)
    requires m < |left| && forall j :: 0 <= j < |left| ==> rank(left[m].key) <= rank(left[j].key)
    requires KeyOrdered(tail, rank) && Ahead(tail, left, rank)
    ensures KeyOrdered(tail + [left[m]], rank) && Ahead(tail + [left[m]], left[..m] + left[m + 1..], rank)
    ensures multiset(tail + [left[m]]) + multiset(left[..m] + left[m + 1..]) == multiset(tail) + multiset(left)
  {
    assert left == left[..m] + [left[m]] + left[m + 1..];
  }

  // ----- every stream: each alert in exactly one group, and the group reports its members -----

  /** How often `x` occurs in the groups. */
  function Occurrences(bs: seq<Bundle>, x: Alert): nat {
    if bs == [] then 0 else Occurrences(bs[..|bs| - 1], x) + multiset(bs[|bs| - 1].alerts)[x]
  }

  ghost predicate Consistent(b: Bundle) {
    && b.alerts != [] && Reports(b.report, b.key, b.alerts)
    && (forall a :: a in b.alerts ==> a.key == b.key && a.at <= b.last)
    && exists a :: a in b.alerts && a.at == b.last
  }

  lemma AloneConsistent(a: Alert)
    ensures Consistent(Alone(a))
  {
    assert [a][..0] == [] && Evidence([a]) == map[] + a.evidence && a in [a];
  }

  lemma AbsorbedConsistent(b: Bundle, a: Alert)
    requires Consistent(b) && a.key == b.key
    ensures Consistent(Absorbed(b, a))
  {
    MergedReports(b.report, b.key, b.alerts, a);
    var l :| l in b.alerts && l.at == b.last;
    assert l in b.alerts + [a] && a in b.alerts + [a];
  }

  lemma {:induction false} SelectMember(open: seq<Bundle>, now: real, window: real, stale: bool)
    ensures forall b :: b in Select(open, now, window, stale) <==> b in open && IsStale(b, now, window) == stale
  {
    if open != [] {
      assert open == open[..|open| - 1] + [open[|open| - 1]];
      SelectMember(open[..|open| - 1], now, window, stale);
    }
  }

  ghost predicate AllConsistent(bs: seq<Bundle>) { forall b :: b in bs ==> Consistent(b) }

  lemma PlaceConsistent(kept: seq<Bundle>, a: Alert)
    requires AllConsistent(kept)
    ensures AllConsistent(Place(kept, a))
  {
    AloneConsistent(a);
    var i := Find(kept, a.key);
    if i < |kept| {
      assert kept[i] in kept;
      AbsorbedConsistent(kept[i], a);
    }
  }

  lemma StepConsistent(st: State, a: Alert, window: real)
    requires AllConsistent(st.emitted) && AllConsistent(st.open)
    ensures AllConsistent(Step(st, a, window).emitted) && AllConsistent(Step(st, a, window).open)
  {
    SelectMember(st.open, a.at, window, true);
    SelectMember(st.open, a.at, window, false);
    PlaceConsistent(Select(st.open, a.at, window, false), a);
  }

  /** Every group ever formed carries exactly what the members' maximum, minimum, union and last-wins merge give. */
  lemma {:induction false} GroupsReportTheirMembers(alerts: seq<Alert>, window: real)
    ensures AllConsistent(Online(alerts, window).emitted) && AllConsistent(Online(alerts, window).open)
  {
    if alerts != [] {
      GroupsReportTheirMembers(alerts[..|alerts| - 1], window);
      StepConsistent(Online(alerts[..|alerts| - 1], window), alerts[|alerts| - 1], window);
    }
  }

  lemma {:induction false} OccurrencesConcat(a: seq<Bundle>, b: seq<Bundle>, x: Alert)
    ensures Occurrences(a + b, x) == Occurrences(a, x) + Occurrences(b, x)
  {
    if b == [] {
      assert a + b == a;
    } else {
      assert (a + b)[..|a + b| - 1] == a + b[..|b| - 1];
      OccurrencesConcat(a, b[..|b| - 1], x);
    }
  }

  lemma OccurrencesSnoc(a: seq<Bundle>, b: Bundle, x: Alert)
    ensures Occurrences(a + [b], x) == Occurrences(a, x) + multiset(b.alerts)[x]
  {
    assert (a + [b])[..|a|] == a;
  }

  lemma {:induction false} SelectOccurrences(open: seq<Bundle>, now: real, window: real, x: Alert)
    ensures Occurrences(Select(open, now, window, true), x) + Occurrences(Select(open, now, window, false), x)
         == Occurrences(open, x)
  {
    if open != [] {
      var pre, b := open[..|open| - 1], open[|open| - 1];
      assert open == pre + [b];
      SelectOccurrences(pre, now, window, x);
      SelectSnoc(pre, b, now, window);
      OccurrencesSnoc(Select(pre, now, window, IsStale(b, now, window)), b, x);
    }
  }

  lemma PlaceOccurrences(open: seq<Bundle>, a: Alert, x: Alert)
    ensures Occurrences(Place(open, a), x) == Occurrences(open, x) + multiset{a}[x]
  {
    var i := Find(open, a.key);
    if i < |open| {
      var b := open[i];
      assert open == open[..i] + [b] + open[i + 1..];
      assert Place(open, a) == open[..i] + [Absorbed(b, a)] + open[i + 1..];
      OccurrencesConcat(open[..i] + [b], open[i + 1..], x);
      OccurrencesConcat(open[..i] + [Absorbed(b, a)], open[i + 1..], x);
      OccurrencesSnoc(open[..i], b, x);
      OccurrencesSnoc(open[..i], Absorbed(b, a), x);
    } else {
      OccurrencesSnoc(open, Alone(a), x);
    }
  }

  lemma StepOccurrences(st: State, a: Alert, window: real, x: Alert)
    ensures var next := Step(st, a, window);
      Occurrences(next.emitted + next.open, x) == Occurrences(st.emitted + st.open, x) + multiset{a}[x]
  {
    var next, gone := Step(st, a, window), Select(st.open, a.at, window, true);
    OccurrencesConcat(st.emitted, st.open, x);
    OccurrencesConcat(next.emitted, next.open, x);
    OccurrencesConcat(st.emitted, gone, x);
    SelectOccurrences(st.open, a.at, window, x);
    PlaceOccurrences(Select(st.open, a.at, window, false), a, x);
  }

  lemma MultisetSnoc<T>(s: seq<T>, x: T)
    requires s != []
    ensures multiset(s)[x] == multiset(s[..|s| - 1])[x] + multiset{s[|s| - 1]}[x]
  {
    assert s == s[..|s| - 1] + [s[|s| - 1]];
  }

  /** No alert is lost or doubled, whatever the order of the stream. */
  lemma {:induction false} EachAlertInOneGroup(alerts: seq<Alert>, window: real, x: Alert)
    ensures Occurrences(Online(alerts, window).emitted + Online(alerts, window).open, x) == multiset(alerts)[x]
  {
    if alerts != [] {
      EachAlertInOneGroup(alerts[..|alerts| - 1], window, x);
      StepOccurrences(Online(alerts[..|alerts| - 1], window), alerts[|alerts| - 1], window, x);
      MultisetSnoc(alerts, x);
    }
  }

  // ----- streams in time order: the groups are the offline split -----

  ghost predicate TimeOrdered(s: seq<Alert>) { forall i, j :: 0 <= i < j < |s| ==> s[i].at <= s[j].at }

  function OfKey(s: seq<Alert>, k: Key): seq<Alert> {
    if s == [] then []
    else
      var a, before := s[|s| - 1], OfKey(s[..|s| - 1], k);
      if a.key == k then before + [a] else before
  }

  /** The offline split: a new run starts where the silence before an alert is at least the window. */
  function Runs(s: seq<Alert>, window: real): (r: seq<seq<Alert>>)
    ensures s == [] <==> r == []
    ensures s != [] ==> r[|r| - 1] != [] && r[|r| - 1][|r[|r| - 1]| - 1] == s[|s| - 1]
  {
    if s == [] then []
    else
      var rs, a := Runs(s[..|s| - 1], window), s[|s| - 1];
      if |s| > 1 && a.at - s[|s| - 2].at < window then rs[|rs| - 1 := rs[|rs| - 1] + [a]] else rs + [[a]]
  }

  /** The members of the groups of key k, group by group. */
  function RunsOf(bs: seq<Bundle>, k: Key): seq<seq<Alert>> {
    if bs == [] then []
    else
      var b, before := bs[|bs| - 1], RunsOf(bs[..|bs| - 1], k);
      if b.key == k then before + [b.alerts] else before
  }

  lemma {:induction false} RunsOfConcat(a: seq<Bundle>, b: seq<Bundle>, k: Key)
    ensures RunsOf(a + b, k) == RunsOf(a, k) + RunsOf(b, k)
  {
    if b == [] {
      assert a + b == a;
    } else {
      assert (a + b)[..|a + b| - 1] == a + b[..|b| - 1];
      RunsOfConcat(a, b[..|b| - 1], k);
    }
  }

  ghost predicate OnePerKey(open: seq<Bundle>) { forall i, j :: 0 <= i < j < |open| ==> open[i].key != open[j].key }

  /** With at most one group per key, the groups of k are its one group, or none. */
  lemma {:induction false} RunsOfSingle(open: seq<Bundle>, k: Key)
    requires OnePerKey(open)
    ensures var i := Find(open, k); RunsOf(open, k) == if i < |open| then [open[i].alerts] else []
  {
    if open != [] {
      var pre, b := open[..|open| - 1], open[|open| - 1];
      RunsOfSingle(pre, k);
      var i, j := Find(open, k), Find(pre, k);
      if j < |pre| {
        assert i == j by { FindUnique(open, k, j); }
      } else if b.key == k {
        FindUnique(open, k, |pre|);
      }
    }
  }

  lemma FindUnique(open: seq<Bundle>, k: Key, i: nat)
    requires OnePerKey(open) && i < |open| && open[i].key == k
    ensures Find(open, k) == i
  {
    var j := Find(open, k);
    assert j <= i;
  }

  lemma {:induction false} SelectOnePerKey(open: seq<Bundle>, now: real, window: real, stale: bool)
    requires OnePerKey(open)
    ensures OnePerKey(Select(open, now, window, stale))
  {
    if open != [] {
      var pre, b := open[..|open| - 1], open[|open| - 1];
      assert open == pre + [b];
      SelectOnePerKey(pre, now, window, stale);
      SelectSnoc(pre, b, now, window);
      SelectMember(pre, now, window, stale);
      forall c | c in Select(pre, now, window, stale) ensures c.key != b.key {
        var i :| 0 <= i < |pre| && pre[i] == c;
        assert open[i].key != open[|pre|].key;
      }
    }
  }

  lemma PlaceOnePerKey(open: seq<Bundle>, a: Alert)
    requires OnePerKey(open)
    ensures OnePerKey(Place(open, a))
  {}

  lemma RunsOfSnoc(a: seq<Bundle>, b: Bundle, k: Key)
    ensures RunsOf(a + [b], k) == if b.key == k then RunsOf(a, k) + [b.alerts] else RunsOf(a, k)
  {
    assert (a + [b])[..|a|] == a;
  }

  lemma NoRunsOf(open: seq<Bundle>, k: Key)
    requires OnePerKey(open) && forall b :: b in open ==> b.key != k
    ensures RunsOf(open, k) == []
  {
    RunsOfSingle(open, k);
  }

  lemma SelectRunsSnoc(pre: seq<Bundle>, b: Bundle, now: real, window: real, k: Key)
    requires RunsOf(Select(pre, now, window, true), k) + RunsOf(Select(pre, now, window, false), k) == RunsOf(pre, k)
    requires b.key == k ==> RunsOf(pre, k) == []
    ensures RunsOf(Select(pre + [b], now, window, true), k) + RunsOf(Select(pre + [b], now, window, false), k) ==
            RunsOf(pre + [b], k)
  {
    var stale := IsStale(b, now, window);
    SelectSnoc(pre, b, now, window);
    RunsOfSnoc(Select(pre, now, window, stale), b, k);
    RunsOfSnoc(pre, b, k);
    var p, q := RunsOf(Select(pre, now, window, true), k), RunsOf(Select(pre, now, window, false), k);
    if b.key == k { assert |p| + |q| == 0; }
  }

  /** Flushing the stale groups moves groups, it does not change any key's sequence of groups. */
  lemma {:induction false} SelectRuns(open: seq<Bundle>, now: real, window: real, k: Key)
    requires OnePerKey(open)
    ensures RunsOf(Select(open, now, window, true), k) + RunsOf(Select(open, now, window, false), k) == RunsOf(open, k)
  {
    if open != [] {
      var pre, b := open[..|open| - 1], open[|open| - 1];
      assert open == pre + [b];
      SelectRuns(pre, now, window, k);
      if b.key == k { NoRunsOf(pre, k); }
      SelectRunsSnoc(pre, b, now, window, k);
    }
  }

  lemma PlaceRunsOther(open: seq<Bundle>, a: Alert, k: Key)
    requires OnePerKey(open) && k != a.key
    ensures RunsOf(Place(open, a), k) == RunsOf(open, k)
  {
    PlaceOnePerKey(open, a);
    RunsOfSingle(open, k);
    RunsOfSingle(Place(open, a), k);
    var i := Find(open, k);
    if i < |open| { FindUnique(Place(open, a), k, i); }
  }

  lemma PlaceRunsSame(open: seq<Bundle>, a: Alert)
    requires OnePerKey(open)
    ensures var i := Find(open, a.key);
      RunsOf(Place(open, a), a.key) == [if i < |open| then open[i].alerts + [a] else [a]]
  {
    PlaceOnePerKey(open, a);
    RunsOfSingle(Place(open, a), a.key);
    FindUnique(Place(open, a), a.key, Find(open, a.key));
  }

  function LastAt(s: seq<Alert>): real
    requires s != []
  { s[|s| - 1].at }

  /** What holds between alerts of a time-ordered stream whose newest time is `now`. */
  ghost predicate InOrder(st: State, now: real, window: real) {
    && OnePerKey(st.open)
    && (forall b :: b in st.open ==> b.alerts != [] && b.last == LastAt(b.alerts) <= now)
    && (forall b :: b in st.emitted ==> b.alerts != [] && now - LastAt(b.alerts) >= window)
  }

  lemma LaterInOrder(st: State, t: real, now: real, window: real)
    requires InOrder(st, t, window) && t <= now
    ensures InOrder(st, now, window)
  {}

  lemma {:induction false} RunsOfMember(bs: seq<Bundle>, k: Key)
    requires RunsOf(bs, k) != []
    ensures exists b :: b in bs && b.alerts == RunsOf(bs, k)[|RunsOf(bs, k)| - 1]
  {
    var n := |bs| - 1;
    if bs[n].key != k {
      RunsOfMember(bs[..n], k);
    }
  }

  /** The groups of key k so far, flushed ones first. */
  function AllRuns(st: State, k: Key): seq<seq<Alert>> { RunsOf(st.emitted, k) + RunsOf(st.open, k) }

  function Flushed(st: State, now: real, window: real): State {
    State(st.emitted + Select(st.open, now, window, true), Select(st.open, now, window, false))
  }

  lemma FlushKeepsRuns(st: State, now: real, window: real, k: Key)
    requires OnePerKey(st.open)
    ensures AllRuns(Flushed(st, now, window), k) == AllRuns(st, k)
  {
    var gone, kept := Select(st.open, now, window, true), Select(st.open, now, window, false);
    RunsOfConcat(st.emitted, gone, k);
    SelectRuns(st.open, now, window, k);
    Reassociate(RunsOf(st.emitted, k), RunsOf(gone, k), RunsOf(kept, k));
  }

  lemma Reassociate<T>(a: seq<T>, b: seq<T>, c: seq<T>)
    ensures (a + b) + c == a + (b + c)
  {}

  lemma FlushInOrder(st: State, now: real, window: real)
    requires InOrder(st, now, window)
    ensures InOrder(Flushed(st, now, window), now, window)
    ensures forall b :: b in Flushed(st, now, window).open ==> now - b.last < window
  {
    SelectMember(st.open, now, window, true);
    SelectMember(st.open, now, window, false);
    SelectOnePerKey(st.open, now, window, false);
  }

  /** Placing `a` extends its key's last run or starts a new one; `history` is what the stream has brought
      for the key of `a` before. */
  lemma PlaceRunsRight(st: State, a: Alert, window: real, history: seq<Alert>)
    requires InOrder(st, a.at, window) && forall b :: b in st.open ==> a.at - b.last < window
    requires AllRuns(st, a.key) == Runs(history, window)
    ensures AllRuns(State(st.emitted, Place(st.open, a)), a.key) == Runs(history + [a], window)
  {
    var k, earlier := a.key, RunsOf(st.emitted, a.key);
    PlaceRunsSame(st.open, a);
    RunsOfSingle(st.open, k);
    var i := Find(st.open, k);
    if i < |st.open| {
      assert st.open[i] in st.open;
      RunsExtend(earlier, st.open[i].alerts, a, window, history);
    } else {
      assert earlier == Runs(history, window);
      if history != [] {
        RunsOfMember(st.emitted, k);
      }
      RunsRestart(a, window, history);
    }
  }

  lemma StepRuns(st: State, a: Alert, window: real, k: Key, history: seq<Alert>)
    requires InOrder(st, a.at, window) && AllRuns(st, k) == Runs(history, window)
    ensures AllRuns(Step(st, a, window), k) == Runs(if a.key == k then history + [a] else history, window)
  {
    var mid := Flushed(st, a.at, window);
    FlushKeepsRuns(st, a.at, window, k);
    FlushInOrder(st, a.at, window);
    if a.key == k {
      PlaceRunsRight(mid, a, window, history);
    } else {
      PlaceRunsOther(mid.open, a, k);
    }
  }

  lemma RunsExtend(earlier: seq<seq<Alert>>, r: seq<Alert>, a: Alert, window: real, history: seq<Alert>)
    requires earlier + [r] == Runs(history, window) && r != [] && a.at - LastAt(r) < window
    ensures earlier + [r + [a]] == Runs(history + [a], window)
  {
    var s := history + [a];
    assert s[..|history|] == history && history != [];
    var rs := Runs(history, window);
    assert rs[|rs| - 1] == r;
    assert rs[|rs| - 1 := r + [a]] == earlier + [r + [a]];
  }

  lemma RunsRestart(a: Alert, window: real, history: seq<Alert>)
    requires history != [] ==> a.at - LastAt(history) >= window
    ensures Runs(history, window) + [[a]] == Runs(history + [a], window)
  {
    assert (history + [a])[..|history|] == history;
  }

  lemma StepInOrder(st: State, a: Alert, window: real)
    requires InOrder(st, a.at, window)
    ensures InOrder(Step(st, a, window), a.at, window)
  {
    FlushInOrder(st, a.at, window);
    var kept := Flushed(st, a.at, window).open;
    PlaceOnePerKey(kept, a);
    forall b | b in Place(kept, a) ensures b.alerts != [] && b.last == LastAt(b.alerts) <= a.at {
      if b !in kept {
        var i := Find(kept, a.key);
        assert i < |kept| ==> kept[i] in kept;
      }
    }
  }

  lemma {:induction false} OnlineInOrder(alerts: seq<Alert>, window: real)
    requires TimeOrdered(alerts)
    ensures alerts != [] ==> InOrder(Online(alerts, window), LastAt(alerts), window)
  {
    if alerts != [] {
      var pre, a := alerts[..|alerts| - 1], alerts[|alerts| - 1];
      OnlineInOrder(pre, window);
      if pre != [] { LaterInOrder(Online(pre, window), LastAt(pre), a.at, window); }
      StepInOrder(Online(pre, window), a, window);
    }
  }

  /** On a time-ordered stream the groups formed for a key are, in order, the runs of its own alerts. */
  lemma {:induction false} OnlineEqualsOffline(alerts: seq<Alert>, window: real, k: Key)
    requires TimeOrdered(alerts)
    ensures AllRuns(Online(alerts, window), k) == Runs(OfKey(alerts, k), window)
  {
    if alerts != [] {
      var pre, a := alerts[..|alerts| - 1], alerts[|alerts| - 1];
      var before := Online(pre, window);
      OnlineEqualsOffline(pre, window, k);
      OnlineInOrder(pre, window);
      if pre != [] { LaterInOrder(before, LastAt(pre), a.at, window); }
      StepRuns(before, a, window, k, OfKey(pre, k));
    }
  }

  // ----- the offline split is the only one -----

  function Flatten(rs: seq<seq<Alert>>): seq<Alert> {
    if rs == [] then [] else Flatten(rs[..|rs| - 1]) + rs[|rs| - 1]
  }

  /** A run: silences below the window inside. */
  ghost predicate Tight(r: seq<Alert>, window: real) {
    r != [] && forall j :: 0 < j < |r| ==> r[j].at - r[j - 1].at < window
  }

  ghost predicate Apart(q: seq<Alert>, r: seq<Alert>, window: real) {
    q != [] && r != [] && r[0].at - LastAt(q) >= window
  }

  /** Runs, each at least a window after the one before. */
  ghost predicate IsGapSplit(rs: seq<seq<Alert>>, window: real) {
    && (forall i :: 0 <= i < |rs| ==> Tight(rs[i], window))
    && (forall i :: 0 < i < |rs| ==> Apart(rs[i - 1], rs[i], window))
  }

  lemma LastOfFlatten(rs: seq<seq<Alert>>)
    requires rs != [] && rs[|rs| - 1] != []
    ensures var s, r := Flatten(rs), rs[|rs| - 1];
      s != [] && LastAt(s) == LastAt(r) && s[|s| - 1] == r[|r| - 1] && s == s[..|s| - 1] + [r[|r| - 1]]
      && s[..|s| - 1] == Flatten(rs[..|rs| - 1]) + r[..|r| - 1]
  {}

  /** A last run of one alert starts after a silence. */
  lemma DropSingleton(rs: seq<seq<Alert>>, window: real)
    requires rs != [] && |rs[|rs| - 1]| == 1 && IsGapSplit(rs, window)
    ensures IsGapSplit(rs[..|rs| - 1], window)
    ensures var h := Flatten(rs[..|rs| - 1]); h != [] ==> rs[|rs| - 1][0].at - LastAt(h) >= window
  {
    var n := |rs| - 1;
    if n > 0 {
      assert Apart(rs[n - 1], rs[n], window);
      LastOfFlatten(rs[..n]);
    }
  }

  /** A longer last run can give up its last alert. */
  lemma DropLastOfRun(rs: seq<seq<Alert>>, window: real)
    requires rs != [] && |rs[|rs| - 1]| > 1 && IsGapSplit(rs, window)
    ensures var r := rs[|rs| - 1]; var rest := rs[..|rs| - 1] + [r[..|r| - 1]];
      IsGapSplit(rest, window) && LastAt(r) - r[|r| - 2].at < window
  {
    var n := |rs| - 1;
    var q := rs[n][..|rs[n]| - 1];
    assert Tight(rs[n], window) && Tight(q, window);
    if n > 0 { assert Apart(rs[n - 1], rs[n], window) && Apart(rs[n - 1], q, window); }
  }

  lemma {:induction false} GapSplitUnique(rs: seq<seq<Alert>>, window: real)
    requires IsGapSplit(rs, window)
    ensures rs == Runs(Flatten(rs), window)
    decreases |Flatten(rs)|
  {
    if rs != [] {
      var n := |rs| - 1;
      var earlier, r := rs[..n], rs[n];
      assert Tight(r, window) && rs == earlier + [r];
      LastOfFlatten(rs);
      var a := r[|r| - 1];
      if |r| == 1 {
        assert r == [a];
        DropSingleton(rs, window);
        GapSplitUnique(earlier, window);
        RunsRestart(a, window, Flatten(earlier));
      } else {
        var q := r[..|r| - 1];
        assert r == q + [a] && (earlier + [q])[..n] == earlier;
        DropLastOfRun(rs, window);
        GapSplitUnique(earlier + [q], window);
        RunsExtend(earlier, q, a, window, Flatten(earlier + [q]));
      }
    }
  }

  lemma ExtendSplit(rs: seq<seq<Alert>>, a: Alert, window: real)
    requires rs != [] && IsGapSplit(rs, window) && rs[|rs| - 1] != [] && a.at - LastAt(rs[|rs| - 1]) < window
    ensures var longer := rs[|rs| - 1 := rs[|rs| - 1] + [a]];
      Flatten(longer) == Flatten(rs) + [a] && IsGapSplit(longer, window)
  {
    var m := |rs| - 1;
    var r, longer := rs[m], rs[m := rs[m] + [a]];
    assert Tight(r, window) && Tight(r + [a], window);
    assert longer[..m] == rs[..m];
    if m > 0 { assert Apart(rs[m - 1], r, window) && Apart(rs[m - 1], r + [a], window); }
    forall i | 0 < i < |longer| ensures Apart(longer[i - 1], longer[i], window) {
      assert i < m ==> Apart(rs[i - 1], rs[i], window);
    }
  }

  lemma AppendSplit(rs: seq<seq<Alert>>, a: Alert, window: real)
    requires IsGapSplit(rs, window) && (rs != [] ==> Apart(rs[|rs| - 1], [a], window))
    ensures Flatten(rs + [[a]]) == Flatten(rs) + [a] && IsGapSplit(rs + [[a]], window)
  {
    var longer := rs + [[a]];
    assert Tight([a], window) && longer[..|rs|] == rs;
    forall i | 0 < i < |longer| ensures Apart(longer[i - 1], longer[i], window) {
      assert i < |rs| ==> Apart(rs[i - 1], rs[i], window);
    }
  }

  lemma {:induction false} RunsAreGapSplit(s: seq<Alert>, window: real)
    ensures Flatten(Runs(s, window)) == s && IsGapSplit(Runs(s, window), window)
  {
    if s != [] {
      var pre, a := s[..|s| - 1], s[|s| - 1];
      var rs := Runs(pre, window);
      assert s == pre + [a];
      RunsAreGapSplit(pre, window);
      if pre != [] && a.at - LastAt(pre) < window {
        ExtendSplit(rs, a, window);
      } else {
        AppendSplit(rs, a, window);
      }
    }
  }

  lemma {:induction false} SelectAll(open: seq<Bundle>, now: real, window: real, stale: bool)
    requires forall b :: b in open ==> IsStale(b, now, window) == stale
    ensures Select(open, now, window, stale) == open && Select(open, now, window, !stale) == []
  {
    if open != [] {
      SelectAll(open[..|open| - 1], now, window, stale);
      assert open == open[..|open| - 1] + [open[|open| - 1]];
    }
  }

  lemma OnlineSnoc(alerts: seq<Alert>, a: Alert, window: real)
    ensures Online(alerts + [a], window) == Step(Online(alerts, window), a, window)
  {
    assert (alerts + [a])[..|alerts|] == alerts;
  }

  // ----- the order of emission -----

  /** The order of the last alert heard: the order in which groups went silent. */
  ghost predicate InSilenceOrder(bs: seq<Bundle>) { forall i, j :: 0 <= i < j < |bs| ==> bs[i].last <= bs[j].last }

  /** At time `now` two groups are stale, and the one created first went silent last. */
  ghost predicate Overtaken(open: seq<Bundle>, now: real, window: real) {
    exists i, j :: 0 <= i < j < |open| && IsStale(open[i], now, window) && IsStale(open[j], now, window) &&
      open[i].last > open[j].last
  }

  lemma SilenceOrderConcat(bs: seq<Bundle>, cs: seq<Bundle>)
    ensures InSilenceOrder(bs + cs) <==>
      InSilenceOrder(bs) && InSilenceOrder(cs) && forall b, c :: b in bs && c in cs ==> b.last <= c.last
  {
    var all := bs + cs;
    if InSilenceOrder(all) {
      forall i, j | 0 <= i < j < |bs| ensures bs[i].last <= bs[j].last { assert all[i].last <= all[j].last; }
      forall i, j | 0 <= i < j < |cs| ensures cs[i].last <= cs[j].last {
        var k, l := |bs| + i, |bs| + j;
        assert all[k].last <= all[l].last;
      }
      forall b, c | b in bs && c in cs ensures b.last <= c.last {
        var i :| 0 <= i < |bs| && bs[i] == b;
        var j :| 0 <= j < |cs| && cs[j] == c;
        var l := |bs| + j;
        assert all[i].last <= all[l].last;
      }
    }
    if InSilenceOrder(bs) && InSilenceOrder(cs) && forall b, c :: b in bs && c in cs ==> b.last <= c.last {
      forall i, j | 0 <= i < j < |all| ensures all[i].last <= all[j].last {
        if i < |bs| <= j { assert all[i] in bs && all[j] in cs; }
      }
    }
  }

  lemma OvertakenSnoc(pre: seq<Bundle>, b: Bundle, now: real, window: real)
    ensures Overtaken(pre + [b], now, window) <==>
      Overtaken(pre, now, window) ||
      (IsStale(b, now, window) && exists c :: c in pre && IsStale(c, now, window) && c.last > b.last)
  {
    var all := pre + [b];
    if i, j :| 0 <= i < j < |pre| && IsStale(pre[i], now, window) && IsStale(pre[j], now, window) && pre[i].last > pre[j].last {
      assert all[i] == pre[i] && all[j] == pre[j];
    }
    if IsStale(b, now, window) {
      if c :| c in pre && IsStale(c, now, window) && c.last > b.last {
        var i :| 0 <= i < |pre| && pre[i] == c;
        assert all[i] == c && all[|pre|] == b;
      }
    }
    if i, j :| 0 <= i < j < |all| && IsStale(all[i], now, window) && IsStale(all[j], now, window) && all[i].last > all[j].last {
      if j < |pre| {
        assert pre[i] == all[i] && pre[j] == all[j];
      } else {
        assert pre[i] in pre && b == all[j];
      }
    }
  }

  /** One flush emits in order of silence exactly when no stale group overtakes another. */
  lemma {:induction false} FlushOrder(open: seq<Bundle>, now: real, window: real)
    ensures InSilenceOrder(Select(open, now, window, true)) <==> !Overtaken(open, now, window)
  {
    if open != [] {
      var pre, b := open[..|open| - 1], open[|open| - 1];
      assert open == pre + [b];
      FlushOrder(pre, now, window);
      SelectSnoc(pre, b, now, window);
      SelectMember(pre, now, window, true);
      OvertakenSnoc(pre, b, now, window);
      if IsStale(b, now, window) { SilenceOrderConcat(Select(pre, now, window, true), [b]); }
    }
  }

  /** Nothing emitted went silent after a group still open, and nothing was heard after `now`. */
  ghost predicate EmittedFirst(st: State, now: real) {
    && (forall b, c :: b in st.emitted && c in st.open ==> b.last <= c.last)
    && (forall b :: b in st.emitted || b in st.open ==> b.last <= now)
  }

  /** Groups flushed by different alerts are always in order: what is kept was heard later than what goes. */
  lemma StepOrder(st: State, a: Alert, window: real)
    requires EmittedFirst(st, a.at)
    ensures EmittedFirst(Step(st, a, window), a.at)
    ensures InSilenceOrder(Step(st, a, window).emitted) <==>
      InSilenceOrder(st.emitted) && !Overtaken(st.open, a.at, window)
  {
    var gone, kept := Select(st.open, a.at, window, true), Select(st.open, a.at, window, false);
    SelectMember(st.open, a.at, window, true);
    SelectMember(st.open, a.at, window, false);
    PlacedLast(kept, a);
    FlushOrder(st.open, a.at, window);
    SilenceOrderConcat(st.emitted, gone);
  }

  lemma PlacedLast(kept: seq<Bundle>, a: Alert)
    requires forall b :: b in kept ==> b.last <= a.at
    ensures forall b :: b in Place(kept, a) ==> b in kept || b.last == a.at
  {
    var i := Find(kept, a.key);
    assert i < |kept| ==> kept[i] in kept;
  }

  /** No alert finds a stale group that overtook another. */
  ghost predicate NeverOvertaken(alerts: seq<Alert>, window: real) {
    forall n :: 0 <= n < |alerts| ==> !Overtaken(Online(alerts[..n], window).open, alerts[n].at, window)
  }

  lemma NeverOvertakenSnoc(pre: seq<Alert>, a: Alert, window: real)
    ensures NeverOvertaken(pre + [a], window) <==>
      NeverOvertaken(pre, window) && !Overtaken(Online(pre, window).open, a.at, window)
  {
    var all := pre + [a];
    assert all[..|pre|] == pre && all[|pre|] == a;
    forall n | 0 <= n < |pre| ensures all[..n] == pre[..n] && all[n] == pre[n] {}
    if NeverOvertaken(pre, window) && !Overtaken(Online(pre, window).open, a.at, window) {
      forall n | 0 <= n < |all| ensures !Overtaken(Online(all[..n], window).open, all[n].at, window) {
        if n < |pre| { assert !Overtaken(Online(pre[..n], window).open, pre[n].at, window); }
      }
    }
    if NeverOvertaken(all, window) {
      forall n | 0 <= n < |pre| ensures !Overtaken(Online(pre[..n], window).open, pre[n].at, window) {
        assert !Overtaken(Online(all[..n], window).open, all[n].at, window);
      }
    }
  }

  lemma OrderOneMore(pre: seq<Alert>, a: Alert, window: real)
    requires EmittedFirst(Online(pre, window), a.at)
    ensures (InSilenceOrder(Online(pre, window).emitted) <==> NeverOvertaken(pre, window)) ==>
      (InSilenceOrder(Online(pre + [a], window).emitted) <==> NeverOvertaken(pre + [a], window))
    ensures EmittedFirst(Online(pre + [a], window), a.at)
  {
    OnlineSnoc(pre, a, window);
    StepOrder(Online(pre, window), a, window);
    NeverOvertakenSnoc(pre, a, window);
  }

  lemma LaterEmittedFirst(st: State, t: real, now: real)
    requires EmittedFirst(st, t) && t <= now
    ensures EmittedFirst(st, now)
  {
  }

  /** On a time-ordered stream the groups flushed on the way come out in order of silence exactly when no alert
      finds a stale group that overtook another. */
  lemma {:induction false} EmittedInSilenceOrderIff(alerts: seq<Alert>, window: real)
    requires TimeOrdered(alerts)
    ensures InSilenceOrder(Online(alerts, window).emitted) <==> NeverOvertaken(alerts, window)
    ensures alerts != [] ==> EmittedFirst(Online(alerts, window), alerts[|alerts| - 1].at)
  {
    if alerts != [] {
      var last := |alerts| - 1;
      var pre, a := alerts[..last], alerts[last];
      assert alerts == pre + [a];
      EmittedInSilenceOrderIff(pre, window);
      if last > 0 { LaterEmittedFirst(Online(pre, window), pre[last - 1].at, a.at); }
      OrderOneMore(pre, a, window);
    }
  }

  /** In particular when no alert makes more than one group stale. */
  lemma OneStaleAtATime(alerts: seq<Alert>, window: real)
    requires TimeOrdered(alerts)
    requires forall n :: 0 <= n < |alerts| ==> |Select(Online(alerts[..n], window).open, alerts[n].at, window, true)| <= 1
    ensures InSilenceOrder(Online(alerts, window).emitted)
  {
    forall n | 0 <= n < |alerts| ensures !Overtaken(Online(alerts[..n], window).open, alerts[n].at, window) {
      FlushOrder(Online(alerts[..n], window).open, alerts[n].at, window);
    }
    EmittedInSilenceOrderIff(alerts, window);
  }

  lemma QuietStep(st: State, a: Alert, window: real)
    requires forall b :: b in st.open ==> !IsStale(b, a.at, window)
    ensures Step(st, a, window) == State(st.emitted, Place(st.open, a))
  {
    SelectAll(st.open, a.at, window, false);
  }

  lemma SilentStep(st: State, a: Alert, window: real)
    requires forall b :: b in st.open ==> IsStale(b, a.at, window)
    ensures Step(st, a, window) == State(st.emitted + st.open, [Alone(a)])
  {
    SelectAll(st.open, a.at, window, true);
  }

  lemma PlaceNew(open: seq<Bundle>, a: Alert)
    requires forall j :: 0 <= j < |open| ==> open[j].key != a.key
    ensures Place(open, a) == open + [Alone(a)]
  {
  }

  lemma OpensNew(st: State, a: Alert, window: real, open: seq<Bundle>)
    requires forall j :: 0 <= j < |st.open| ==> st.open[j].key != a.key && !IsStale(st.open[j], a.at, window)
    requires open == st.open + [Alone(a)]
    ensures Step(st, a, window) == State(st.emitted, open)
  {
    QuietStep(st, a, window);
    PlaceNew(st.open, a);
  }

  lemma JoinsFirst(g: Bundle, h: Bundle, a: Alert, window: real)
    requires g.key == a.key && !IsStale(g, a.at, window) && !IsStale(h, a.at, window)
    ensures Step(State([], [g, h]), a, window) == State([], [Absorbed(g, a), h])
  {
    QuietStep(State([], [g, h]), a, window);
    assert [g, h][0 := Absorbed(g, a)] == [Absorbed(g, a), h];
  }

  /** Two open groups, the older one heard from again: the state after the first three alerts below. */
  lemma TwoOpenGroups(a0: Alert, b: Alert, a1: Alert)
    requires a0.key == a1.key && a0.key != b.key
    requires a0.at == 0.0 && b.at == 1.0 && a1.at == 2.0
    ensures Online([] + [a0] + [b] + [a1], 10.0) == State([], [Absorbed(Alone(a0), a1), Alone(b)])
  {
    var g, h := Alone(a0), Alone(b);
    OnlineSnoc([], a0, 10.0);
    OpensNew(State([], []), a0, 10.0, [g]);
    OnlineSnoc([] + [a0], b, 10.0);
    OpensNew(State([], [g]), b, 10.0, [g, h]);
    OnlineSnoc([] + [a0] + [b], a1, 10.0);
    JoinsFirst(g, h, a1, 10.0);
  }

  /** Groups found stale by the same alert come out in creation order, not in the order in which they went
      silent: here the one created first is emitted first although it was heard from last. */
  lemma EmittedInCreationOrder(a0: Alert, b: Alert, a1: Alert, c: Alert)
    requires a0.key == a1.key && a0.key != b.key
    requires a0.at == 0.0 && b.at == 1.0 && a1.at == 2.0 && c.at == 100.0
    ensures var st := Online([] + [a0] + [b] + [a1] + [c], 10.0);
      st.emitted == [Absorbed(Alone(a0), a1), Alone(b)] && st.emitted[0].last > st.emitted[1].last
  {
    var st := State([], [Absorbed(Alone(a0), a1), Alone(b)]);
    TwoOpenGroups(a0, b, a1);
    OnlineSnoc([] + [a0] + [b] + [a1], c, 10.0);
    SilentStep(st, c, 10.0);
    assert st.emitted + st.open == st.open;
  }
}
