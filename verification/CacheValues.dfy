/** Stale values over whole runs. Coherence asks for every recorded source to be at hand; a value is only stale when
    recomputing it gives another one. Here each key is recomputed through the sources it was last recorded with,
    whether the keys on the way are still cached or not. */
module CacheValues {
  import opened CacheInvalidation
  import opened CacheCoherence

  /** The cache, and beside it everything ever recorded, as last recorded: nothing is dropped from `known`. */
  datatype Traced = Traced(w: World, known: World)

  function Remembered(f: Formula, t: Traced, k: Key, sources: set<Key>): World
    requires CanRecord(t.w, k, sources)
  {
    t.known.(g := WithSources(t.known.g, k, sources), cached := t.known.cached[k := f(k, Inputs(t.w, sources))])
  }

  ghost function Next(f: Formula, t: Traced, op: Op): Traced {
    Traced(Apply(f, t.w, op),
           match op
           case Change(s, v) => if s in t.w.raw then t.known.(raw := t.known.raw[s := v]) else t.known
           case Record(k, sources) => if CanRecord(t.w, k, sources) then Remembered(f, t, k, sources) else t.known
           case Refresh(k, sources) => if CanRecord(t.w, k, sources) then Remembered(f, t, k, sources) else t.known
           case _ => t.known)
  }

  ghost function Trace(f: Formula, raw: map<Key, Value>, ops: seq<Op>): Traced {
    if ops == [] then Traced(Initial(raw), Initial(raw))
    else Next(f, Trace(f, raw, ops[..|ops| - 1]), ops[|ops| - 1])
  }

  /** All sources ever recorded are known, and the registry's graph is what is left of the known one: the sources
      of the keys still cached. */
  ghost predicate Remembers(t: Traced) {
    && Mirror(t.w.g) && Mirror(t.known.g) && Tidy(t.w) && Tidy(t.known)
    && t.known.raw == t.w.raw && t.known.raw.Keys !! t.known.cached.Keys && t.w.cached.Keys <= t.known.cached.Keys
    && Sourced(t.known) && LeftOf(t.w.g, t.known.g, t.w.cached.Keys)
  }

  ghost predicate Sourced(w: World) { forall k :: k in w.cached ==> Available(w, Sources(w.g, k)) }

  ghost predicate LeftOf(g: Graph, known: Graph, cached: set<Key>) {
    forall k :: Sources(g, k) == if k in cached then Sources(known, k) else {}
  }

  /** Every cached value is the one that recomputation gives, all the way down to today's raw sources. */
  ghost predicate AllFresh(f: Formula, t: Traced) {
    && Remembers(t) && Acyclic(t.known.g)
    && forall k :: k in t.w.cached ==> t.w.cached[k] == Fresh(f, t.known, k)
  }

  // ----- what is remembered -----

  lemma EvictionRemembers(t: Traced, gone: set<Key>)
    requires Remembers(t)
    ensures Remembers(t.(w := CacheCoherence.Evicted(t.w, gone)))
  {
    WithoutMirror(t.w.g, gone);
    forall k ensures Sources(Without(t.w.g, gone), k) == if k in gone then {} else Sources(t.w.g, k) {
      WithoutAt(t.w.g, gone, k);
    }
  }

  /** `h` is `g` with new sources for k. */
  ghost predicate Resourced(g: Graph, h: Graph, k: Key, sources: set<Key>) {
    forall j :: Sources(h, j) == if j == k then sources else Sources(g, j)
  }

  lemma RecordedSources(w: World, k: Key, sources: set<Key>)
    requires Mirror(w.g) && Tidy(w)
    ensures var h := WithSources(w.g, k, sources);
      Mirror(h) && h.reverse.Keys <= w.cached.Keys + {k} && Resourced(w.g, h, k, sources)
  {
    WithSourcesMirror(w.g, k, sources);
    forall j ensures Sources(WithSources(w.g, k, sources), j) == if j == k then sources else Sources(w.g, j) {
      WithSourcesAt(w.g, k, sources, j);
    }
  }

  lemma StillLeftOf(g: Graph, known: Graph, cached: set<Key>, g': Graph, known': Graph, k: Key, sources: set<Key>)
    requires LeftOf(g, known, cached) && Resourced(g, g', k, sources) && Resourced(known, known', k, sources)
    ensures LeftOf(g', known', cached + {k})
  {}

  lemma StillSourced(w: World, w': World, k: Key, sources: set<Key>)
    requires Sourced(w) && Resourced(w.g, w'.g, k, sources) && w'.raw == w.raw && w'.cached.Keys == w.cached.Keys + {k}
    requires Available(w, sources)
    ensures Sourced(w')
  {
    forall j | j in w'.cached ensures Available(w', Sources(w'.g, j)) {
      if j != k { assert Available(w, Sources(w.g, j)); }
    }
  }

  /** `w'` is `w` after k was recorded with these sources, whatever the value. */
  ghost predicate RecordedIn(w: World, w': World, k: Key, sources: set<Key>) {
    && Mirror(w'.g) && w'.g.reverse.Keys <= w.cached.Keys + {k} && Resourced(w.g, w'.g, k, sources)
    && w'.raw == w.raw && w'.cached.Keys == w.cached.Keys + {k}
  }

  lemma RecordingIn(w: World, w': World, k: Key, sources: set<Key>, v: Value)
    requires Mirror(w.g) && Tidy(w) && w' == w.(g := WithSources(w.g, k, sources), cached := w.cached[k := v])
    ensures RecordedIn(w, w', k, sources)
  {
    RecordedSources(w, k, sources);
  }

  lemma BothRecorded(t: Traced, t': Traced, k: Key, sources: set<Key>)
    requires Remembers(t) && CanRecord(t.w, k, sources)
    requires RecordedIn(t.w, t'.w, k, sources) && RecordedIn(t.known, t'.known, k, sources)
    ensures Remembers(t')
  {
    StillLeftOf(t.w.g, t.known.g, t.w.cached.Keys, t'.w.g, t'.known.g, k, sources);
    StillSourced(t.known, t'.known, k, sources);
  }

  lemma RecordingRemembers(f: Formula, t: Traced, k: Key, sources: set<Key>)
    requires Remembers(t) && CanRecord(t.w, k, sources)
    ensures Remembers(Traced(CacheCoherence.Recorded(f, t.w, k, sources), Remembered(f, t, k, sources)))
  {
    var t' := Traced(CacheCoherence.Recorded(f, t.w, k, sources), Remembered(f, t, k, sources));
    RecordingIn(t.w, t'.w, k, sources, f(k, Inputs(t.w, sources)));
    RecordingIn(t.known, t'.known, k, sources, f(k, Inputs(t.w, sources)));
    BothRecorded(t, t', k, sources);
  }

  lemma NextRemembers(f: Formula, t: Traced, op: Op)
    requires Remembers(t)
    ensures Remembers(Next(f, t, op))
  {
    match op
    case Change(s, v) =>
      if s in t.w.raw {
        var changed := Traced(t.w.(raw := t.w.raw[s := v]), t.known.(raw := t.known.raw[s := v]));
        EvictionRemembers(changed, Closure(t.w.g, s));
      }
    case Cascade(s) => EvictionRemembers(t, Closure(t.w.g, s));
    case Record(k, sources) => if CanRecord(t.w, k, sources) { RecordingRemembers(f, t, k, sources); }
    case Refresh(k, sources) =>
      if CanRecord(t.w, k, sources) {
        RecordingRemembers(f, t, k, sources);
        var recorded := Traced(CacheCoherence.Recorded(f, t.w, k, sources), Remembered(f, t, k, sources));
        EvictionRemembers(recorded, Closure(recorded.w.g, k));
      }
    case Drop(k) => EvictionRemembers(t, {k});
  }

  // ----- the exact condition of each operation -----

  /** A cascade from r evicts every cached key that r affects, however it was recorded: none of them hangs on r
      only through keys that are no longer cached. */
  ghost predicate CascadeReaches(t: Traced, r: Key) {
    forall d :: d in t.w.cached && Affects(t.known.g, r, d) ==> Affects(t.w.g, r, d)
  }

  /** The recorded value is the one k had before. */
  ghost predicate SameValue(f: Formula, t: Traced, k: Key, sources: set<Key>)
    requires Structure(t.known) && CanRecord(t.w, k, sources)
  {
    k in t.known.cached && f(k, Inputs(t.w, sources)) == Fresh(f, t.known, k)
  }

  /** A change must reach what it makes stale; a recording must close no loop, and keep its value or have nothing
      cached downstream of it, or, with a cascade, nothing the cascade does not reach. Cascades and direct
      invalidations alone make nothing stale. */
  ghost predicate KeepsValues(f: Formula, t: Traced, op: Op)
    requires Structure(t.known)
  {
    match op
    case Change(r, v) => r in t.w.raw && v != t.w.raw[r] ==> CascadeReaches(t, r)
    case Record(k, sources) => CanRecord(t.w, k, sources) ==>
      && NoLoop(t.known.g, k, sources)
      && (SameValue(f, t, k, sources) || forall d :: d in t.w.cached && d != k ==> !Affects(t.known.g, k, d))
    case Refresh(k, sources) => CanRecord(t.w, k, sources) ==>
      && NoLoop(t.known.g, k, sources)
      && (SameValue(f, t, k, sources) || CascadeReaches(t, k))
    case _ => true
  }

  lemma ChangeStep(f: Formula, t: Traced, r: Key, v: Value)
    requires AllFresh(f, t)
    ensures KeepsValues(f, t, Change(r, v)) ==> AllFresh(f, Next(f, t, Change(r, v)))
    ensures Sensitive(f) && AllFresh(f, Next(f, t, Change(r, v))) ==> KeepsValues(f, t, Change(r, v))
  {
    var n := Next(f, t, Change(r, v));
    NextRemembers(f, t, Change(r, v));
    if r in t.w.raw {
      AffectedKeysAreDerived(t.w.g, r);
      assert Fresh(f, t.known, r) == t.w.raw[r] && Fresh(f, n.known, r) == v;
      if KeepsValues(f, t, Change(r, v)) {
        forall d | d in n.w.cached ensures n.w.cached[d] == Fresh(f, n.known, d) {
          if v == t.w.raw[r] { FreshKept(f, t.known, n.known, r, d); } else { FreshAside(f, t.known, n.known, r, d); }
        }
      }
      if Sensitive(f) && AllFresh(f, n) && v != t.w.raw[r] {
        forall d | d in t.w.cached && Affects(t.known.g, r, d) ensures Affects(t.w.g, r, d) {
          var i: nat :| i > 0 && PathIn(t.known.g, r, d, i);
          FreshMoves(f, t.known, n.known, r, d, i);
        }
      }
    }
  }

  lemma RecordedStructure(f: Formula, t: Traced, k: Key, sources: set<Key>)
    requires Remembers(t) && Acyclic(t.known.g) && CanRecord(t.w, k, sources) && NoLoop(t.known.g, k, sources)
    ensures var known := Remembered(f, t, k, sources);
      Structure(known) && SameAside(t.known, known, k) && Sources(known.g, k) == sources
  {
    RecordingRemembers(f, t, k, sources);
    RecordingKeepsAcyclicIff(t.known.g, k, sources);
    RecordedSources(t.known, k, sources);
  }

  /** What is recorded is what recomputation through the new sources gives. */
  lemma RecordedIsFresh(f: Formula, t: Traced, k: Key, sources: set<Key>)
    requires AllFresh(f, t) && CanRecord(t.w, k, sources) && NoLoop(t.known.g, k, sources)
    ensures var known := Remembered(f, t, k, sources);
      && Structure(known) && SameAside(t.known, known, k)
      && Fresh(f, known, k) == f(k, Inputs(t.w, sources))
  {
    var known := Remembered(f, t, k, sources);
    RecordedStructure(f, t, k, sources);
    forall s | s in sources ensures Fresh(f, known, s) == Inputs(t.w, sources)[s] {
      FreshAside(f, t.known, known, k, s);
      InputIsFresh(f, t, s);
    }
    InputsGiveFresh(f, known, k, Inputs(t.w, sources));
  }

  lemma InputsGiveFresh(f: Formula, u: World, k: Key, inputs: map<Key, Value>)
    requires Structure(u) && k in u.cached && Sources(u.g, k) == inputs.Keys
    requires forall s :: s in inputs ==> Has(u, s) && Fresh(f, u, s) == inputs[s]
    ensures Fresh(f, u, k) == f(k, inputs)
  {
    forall s | s in inputs ensures FreshSource(f, u, k, s) == inputs[s] {}
    assert (map s | s in Sources(u.g, k) :: FreshSource(f, u, k, s)) == inputs;
  }

  lemma InputIsFresh(f: Formula, t: Traced, s: Key)
    requires AllFresh(f, t) && Has(t.w, s)
    ensures Fresh(f, t.known, s) == if s in t.w.raw then t.w.raw[s] else t.w.cached[s]
  {}

  lemma AffectingIsKnown(t: Traced, k: Key, d: Key)
    requires Remembers(t) && Affects(t.known.g, k, d)
    ensures Has(t.known, k)
  {
    var n: nat :| n > 0 && PathIn(t.known.g, k, d, n);
    FirstSource(t, k, d, n);
  }

  lemma {:induction false} FirstSource(t: Traced, k: Key, d: Key, n: nat)
    requires Remembers(t) && n > 0 && PathIn(t.known.g, k, d, n)
    ensures Has(t.known, k)
    decreases n
  {
    var m :| PathIn(t.known.g, k, m, n - 1) && Edge(t.known.g, m, d);
    if n > 1 {
      FirstSource(t, k, m, n - 1);
    } else {
      assert k in Sources(t.known.g, d) && d in t.known.g.reverse;
    }
  }

  /** After a recording without a loop a kept key is fresh unless it was affected and the value is a new one. */
  lemma AfterRecording(f: Formula, t: Traced, k: Key, sources: set<Key>, d: Key)
    requires AllFresh(f, t) && CanRecord(t.w, k, sources) && NoLoop(t.known.g, k, sources) && d in t.w.cached && d != k
    ensures var known := Remembered(f, t, k, sources);
      && Structure(known)
      && (SameValue(f, t, k, sources) || !Affects(t.known.g, k, d) ==> t.w.cached[d] == Fresh(f, known, d))
      && (Sensitive(f) && !SameValue(f, t, k, sources) && Affects(t.known.g, k, d) ==> t.w.cached[d] != Fresh(f, known, d))
  {
    var known := Remembered(f, t, k, sources);
    RecordedIsFresh(f, t, k, sources);
    if !Affects(t.known.g, k, d) {
      FreshAside(f, t.known, known, k, d);
    } else if SameValue(f, t, k, sources) {
      FreshKept(f, t.known, known, k, d);
    } else if Sensitive(f) {
      AffectingIsKnown(t, k, d);
      var n: nat :| n > 0 && PathIn(t.known.g, k, d, n);
      FreshMoves(f, t.known, known, k, d, n);
    }
  }

  lemma RecordStep(f: Formula, t: Traced, k: Key, sources: set<Key>)
    requires AllFresh(f, t)
    ensures KeepsValues(f, t, Record(k, sources)) ==> AllFresh(f, Next(f, t, Record(k, sources)))
    ensures Sensitive(f) && AllFresh(f, Next(f, t, Record(k, sources))) ==> KeepsValues(f, t, Record(k, sources))
  {
    var n := Next(f, t, Record(k, sources));
    NextRemembers(f, t, Record(k, sources));
    if CanRecord(t.w, k, sources) {
      RecordingKeepsAcyclicIff(t.known.g, k, sources);
      if NoLoop(t.known.g, k, sources) {
        RecordedIsFresh(f, t, k, sources);
        forall d | d in t.w.cached && d != k
          ensures SameValue(f, t, k, sources) || !Affects(t.known.g, k, d) ==> n.w.cached[d] == Fresh(f, n.known, d)
          ensures Sensitive(f) && !SameValue(f, t, k, sources) && Affects(t.known.g, k, d) ==>
            n.w.cached[d] != Fresh(f, n.known, d)
        {
          AfterRecording(f, t, k, sources, d);
        }
      }
    }
  }

  /** Recording changes nothing about what k itself affects in the registry's graph. */
  lemma SameCascade(t: Traced, k: Key, sources: set<Key>, d: Key)
    requires d != k
    ensures Affects(WithSources(t.w.g, k, sources), k, d) <==> Affects(t.w.g, k, d)
  {
    RecordingIsLocal(t.w.g, k, sources);
    var h := WithSources(t.w.g, k, sources);
    if Affects(h, k, d) { SameReachFrom(t.w.g, h, k, d); }
    if Affects(t.w.g, k, d) { SameReachFrom(h, t.w.g, k, d); }
  }

  lemma LeftByCascade(f: Formula, t: Traced, k: Key, sources: set<Key>, d: Key)
    requires Mirror(t.w.g) && CanRecord(t.w, k, sources) && d in t.w.cached && d != k
    ensures d in Apply(f, t.w, Refresh(k, sources)).cached <==> !Affects(t.w.g, k, d)
  {
    SameCascade(t, k, sources, d);
    WithSourcesMirror(t.w.g, k, sources);
    AffectedKeysAreDerived(WithSources(t.w.g, k, sources), k);
  }

  lemma RefreshKeepsFresh(f: Formula, t: Traced, k: Key, sources: set<Key>)
    requires AllFresh(f, t) && CanRecord(t.w, k, sources) && NoLoop(t.known.g, k, sources)
    requires SameValue(f, t, k, sources) || CascadeReaches(t, k)
    ensures AllFresh(f, Next(f, t, Refresh(k, sources)))
  {
    var n := Next(f, t, Refresh(k, sources));
    NextRemembers(f, t, Refresh(k, sources));
    RecordedIsFresh(f, t, k, sources);
    forall d | d in n.w.cached ensures n.w.cached[d] == Fresh(f, n.known, d) {
      if d != k {
        LeftByCascade(f, t, k, sources, d);
        AfterRecording(f, t, k, sources, d);
      }
    }
  }

  lemma RefreshShowsMissed(f: Formula, t: Traced, k: Key, sources: set<Key>)
    requires Sensitive(f) && AllFresh(f, t) && CanRecord(t.w, k, sources) && NoLoop(t.known.g, k, sources)
    requires AllFresh(f, Next(f, t, Refresh(k, sources))) && !SameValue(f, t, k, sources)
    ensures CascadeReaches(t, k)
  {
    assert !Affects(t.known.g, k, k);
    forall d | d in t.w.cached && Affects(t.known.g, k, d) ensures Affects(t.w.g, k, d) {
      LeftByCascade(f, t, k, sources, d);
      AfterRecording(f, t, k, sources, d);
    }
  }

  lemma RefreshStep(f: Formula, t: Traced, k: Key, sources: set<Key>)
    requires AllFresh(f, t)
    ensures KeepsValues(f, t, Refresh(k, sources)) ==> AllFresh(f, Next(f, t, Refresh(k, sources)))
    ensures Sensitive(f) && AllFresh(f, Next(f, t, Refresh(k, sources))) ==> KeepsValues(f, t, Refresh(k, sources))
  {
    if CanRecord(t.w, k, sources) {
      RecordingKeepsAcyclicIff(t.known.g, k, sources);
      if KeepsValues(f, t, Refresh(k, sources)) { RefreshKeepsFresh(f, t, k, sources); }
      if Sensitive(f) && AllFresh(f, Next(f, t, Refresh(k, sources))) && !SameValue(f, t, k, sources) {
        RefreshShowsMissed(f, t, k, sources);
      }
    }
  }

  lemma EvictionKeepsFresh(f: Formula, t: Traced, gone: set<Key>)
    requires AllFresh(f, t)
    ensures AllFresh(f, t.(w := CacheCoherence.Evicted(t.w, gone)))
  {
    EvictionRemembers(t, gone);
  }

  /** One operation on a cache without stale values makes none exactly under that condition; for formulas that may
      hide a change of an input the condition is enough. */
  lemma StepKeepsValuesIff(f: Formula, t: Traced, op: Op)
    requires AllFresh(f, t)
    ensures KeepsValues(f, t, op) ==> AllFresh(f, Next(f, t, op))
    ensures Sensitive(f) && AllFresh(f, Next(f, t, op)) ==> KeepsValues(f, t, op)
  {
    match op
    case Change(r, v) => ChangeStep(f, t, r, v);
    case Cascade(s) => EvictionKeepsFresh(f, t, Closure(t.w.g, s));
    case Record(k, sources) => RecordStep(f, t, k, sources);
    case Refresh(k, sources) => RefreshStep(f, t, k, sources);
    case Drop(k) => EvictionKeepsFresh(f, t, {k});
  }

  // ----- whole runs -----

  ghost predicate AlwaysFresh(f: Formula, raw: map<Key, Value>, ops: seq<Op>) {
    forall i :: 0 <= i <= |ops| ==> AllFresh(f, Trace(f, raw, ops[..i]))
  }

  ghost predicate StepKept(f: Formula, raw: map<Key, Value>, ops: seq<Op>, i: nat)
    requires i < |ops|
  {
    Structure(Trace(f, raw, ops[..i]).known) && KeepsValues(f, Trace(f, raw, ops[..i]), ops[i])
  }

  lemma TraceOne(f: Formula, raw: map<Key, Value>, ops: seq<Op>, i: nat)
    requires i < |ops|
    ensures Trace(f, raw, ops[..i + 1]) == Next(f, Trace(f, raw, ops[..i]), ops[i])
  {
    assert ops[..i + 1][..i] == ops[..i];
  }

  lemma StartsFresh(f: Formula, raw: map<Key, Value>)
    ensures AllFresh(f, Traced(Initial(raw), Initial(raw)))
  {
    EmptyIsCoherent(f, raw);
  }

  lemma OneMoreKept(f: Formula, raw: map<Key, Value>, ops: seq<Op>, i: nat)
    requires i < |ops| && AllFresh(f, Trace(f, raw, ops[..i])) && StepKept(f, raw, ops, i)
    ensures AllFresh(f, Trace(f, raw, ops[..i + 1]))
  {
    TraceOne(f, raw, ops, i);
    StepKeepsValuesIff(f, Trace(f, raw, ops[..i]), ops[i]);
  }

  lemma {:induction false} KeptSoFar(f: Formula, raw: map<Key, Value>, ops: seq<Op>, n: nat)
    requires n <= |ops| && forall i :: 0 <= i < n ==> StepKept(f, raw, ops, i)
    ensures AllFresh(f, Trace(f, raw, ops[..n]))
  {
    if n == 0 {
      StartsFresh(f, raw);
    } else {
      KeptSoFar(f, raw, ops, n - 1);
      OneMoreKept(f, raw, ops, n - 1);
    }
  }

  /** Whole runs from an empty cache, with any mixture of changes, cascades, recordings and direct invalidations:
      no value is ever stale if each operation meets its condition, and only then if formulas notice every change. */
  lemma RunIsFreshIff(f: Formula, raw: map<Key, Value>, ops: seq<Op>)
    ensures (forall i :: 0 <= i < |ops| ==> StepKept(f, raw, ops, i)) ==> AlwaysFresh(f, raw, ops)
    ensures Sensitive(f) && AlwaysFresh(f, raw, ops) ==> forall i :: 0 <= i < |ops| ==> StepKept(f, raw, ops, i)
  {
    if forall i :: 0 <= i < |ops| ==> StepKept(f, raw, ops, i) {
      forall i | 0 <= i <= |ops| ensures AllFresh(f, Trace(f, raw, ops[..i])) { KeptSoFar(f, raw, ops, i); }
    }
    if Sensitive(f) && AlwaysFresh(f, raw, ops) {
      forall i | 0 <= i < |ops| ensures StepKept(f, raw, ops, i) {
        var j := i + 1;
        assert AllFresh(f, Trace(f, raw, ops[..i])) && AllFresh(f, Trace(f, raw, ops[..j]));
        TraceOne(f, raw, ops, i);
        StepKeepsValuesIff(f, Trace(f, raw, ops[..i]), ops[i]);
      }
    }
  }
}
