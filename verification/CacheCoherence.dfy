/** Whole runs of a cache that follows the registry's protocol: a derived value is computed from raw
    sources and cached derived values and recorded with exactly those sources; a source change is
    followed by `invalidate_source`. One cache holds each key, and its evictor succeeds. */
module CacheCoherence {
  import opened CacheInvalidation

  type Value(==, 00, !new)

  /** How each derived key is computed from the values of its sources. */
  type Formula = (Key, map<Key, Value>) -> Value

  datatype World = World(g: Graph, raw: map<Key, Value>, cached: map<Key, Value>)

  /** `Record` computes and records a key, cached before or not; `Refresh` follows it with `invalidate_source`
      on the key itself; `Drop` is the direct invalidation of one key. */
  datatype Op =
    | Change(source: Key, value: Value)
    | Cascade(source: Key)
    | Record(key: Key, sources: set<Key>)
    | Refresh(key: Key, sources: set<Key>)
    | Drop(key: Key)

  predicate Available(w: World, sources: set<Key>) { sources <= w.raw.Keys + w.cached.Keys }

  function Inputs(w: World, sources: set<Key>): map<Key, Value>
    requires Available(w, sources)
  {
    map s | s in sources :: if s in w.raw then w.raw[s] else w.cached[s]
  }

  function Initial(raw: map<Key, Value>): World { World(Graph(map[], map[]), raw, map[]) }

  function Evicted(w: World, gone: set<Key>): World { w.(g := Without(w.g, gone), cached := w.cached - gone) }

  ghost function Cascaded(w: World, s: Key): World { Evicted(w, Closure(w.g, s)) }

  /** Raw data is not computed, and a value needs all its sources; otherwise nothing happens. */
  predicate CanRecord(w: World, k: Key, sources: set<Key>) { k !in w.raw && Available(w, sources) }

  function Recorded(f: Formula, w: World, k: Key, sources: set<Key>): World
    requires CanRecord(w, k, sources)
  {
    w.(g := WithSources(w.g, k, sources), cached := w.cached[k := f(k, Inputs(w, sources))])
  }

  ghost function Apply(f: Formula, w: World, op: Op): World {
    match op
    case Change(s, v) => if s !in w.raw then w else Cascaded(w.(raw := w.raw[s := v]), s)
    case Cascade(s) => Cascaded(w, s)
    case Record(k, sources) => if CanRecord(w, k, sources) then Recorded(f, w, k, sources) else w
    case Refresh(k, sources) => if CanRecord(w, k, sources) then Cascaded(Recorded(f, w, k, sources), k) else w
    case Drop(k) => Evicted(w, {k})
  }

  /** The calls the registry makes for a cascade drop exactly the affected keys from the cache that holds them. */
  lemma CallsDropExactly(cached: map<Key, Value>, keyCaches: map<Key, set<Cache>>, evictors: set<Cache>, c: Cache,
                         affected: set<Key>)
    requires c in evictors && forall k :: k in cached ==> c in Get(keyCaches, k)
    ensures cached - (set call | call in DueCalls(keyCaches, evictors, affected) && call.0 == c :: call.1) ==
            cached - affected
  {
    var dropped := set call | call in DueCalls(keyCaches, evictors, affected) && call.0 == c :: call.1;
    forall k | k in cached ensures k in dropped <==> k in affected {
      if k in affected { assert (c, k) in DueCalls(keyCaches, evictors, affected); }
    }
  }

  // ----- coherence -----

  ghost predicate Acyclic(g: Graph) { forall x :: !Affects(g, x, x) }

  ghost predicate Structure(w: World) {
    && Mirror(w.g) && w.raw.Keys !! w.cached.Keys && Acyclic(w.g)
    && forall k :: k in w.cached ==> Available(w, Sources(w.g, k))
  }

  /** The cached value is the one its recorded sources give. */
  ghost predicate Settled(f: Formula, w: World, k: Key)
    requires k in w.cached
  {
    Available(w, Sources(w.g, k)) && w.cached[k] == f(k, Inputs(w, Sources(w.g, k)))
  }

  ghost predicate Coherent(f: Formula, w: World) {
    Structure(w) && forall k :: k in w.cached ==> Settled(f, w, k)
  }

  /** Only cached keys have recorded sources, so a cascade never meets an unknown key. */
  ghost predicate Tidy(w: World) { w.g.reverse.Keys <= w.cached.Keys }

  lemma SettledFrame(f: Formula, w: World, w': World, k: Key)
    requires k in w.cached && Settled(f, w, k)
    requires k in w'.cached && w'.cached[k] == w.cached[k] && Sources(w'.g, k) == Sources(w.g, k)
    requires forall t :: t in Sources(w.g, k) ==>
      && (t in w.raw <==> t in w'.raw) && (t in w.cached <==> t in w'.cached)
      && (t in w.raw ==> w'.raw[t] == w.raw[t]) && (t in w.cached ==> w'.cached[t] == w.cached[t])
    ensures Settled(f, w', k)
  {
    assert Inputs(w', Sources(w.g, k)) == Inputs(w, Sources(w.g, k));
  }

  // ----- paths -----

  lemma {:induction false} PathJoin(g: Graph, a: Key, b: Key, c: Key, n: nat, m: nat)
    requires PathIn(g, a, b, n) && PathIn(g, b, c, m)
    ensures PathIn(g, a, c, n + m)
    decreases m
  {
    if m > 0 {
      var x :| PathIn(g, b, x, m - 1) && Edge(g, x, c);
      PathJoin(g, a, b, x, n, m - 1);
      assert PathIn(g, a, x, n + m - 1);
    }
  }

  lemma LastEdge(g: Graph, a: Key, b: Key) returns (m: Key)
    requires Affects(g, a, b)
    ensures Edge(g, m, b)
  {
    var n: nat :| n > 0 && PathIn(g, a, b, n);
    m :| PathIn(g, a, m, n - 1) && Edge(g, m, b);
  }

  lemma AffectsTransitive(g: Graph, a: Key, b: Key, c: Key)
    requires Affects(g, a, b) && Affects(g, b, c)
    ensures Affects(g, a, c)
  {
    var n: nat :| n > 0 && PathIn(g, a, b, n);
    var m: nat :| m > 0 && PathIn(g, b, c, m);
    PathJoin(g, a, b, c, n, m);
  }

  /** The two graphs differ in the edges into k only. */
  ghost predicate SameBut(g: Graph, h: Graph, k: Key) {
    forall s, t :: t != k ==> (Edge(g, s, t) <==> Edge(h, s, t))
  }

  /** A path from k, after its last visit to k, is a path of the other graph. */
  lemma {:induction false} LastVisit(g: Graph, h: Graph, k: Key, t: Key, n: nat) returns (i: nat)
    requires SameBut(g, h, k) && PathIn(h, k, t, n)
    ensures i <= n && PathIn(g, k, t, i)
    decreases n
  {
    i := 0;
    if t != k {
      var m :| PathIn(h, k, m, n - 1) && Edge(h, m, t);
      i := LastVisit(g, h, k, m, n - 1);
      i := i + 1;
    }
  }

  lemma SameReachFrom(g: Graph, h: Graph, k: Key, t: Key)
    requires SameBut(g, h, k) && t != k && Affects(h, k, t)
    ensures Affects(g, k, t)
  {
    var n: nat :| n > 0 && PathIn(h, k, t, n);
    var i := LastVisit(g, h, k, t, n);
    assert i > 0;
  }

  /** A path of the new graph is an old path or goes through k. */
  lemma {:induction false} OldOrThrough(g: Graph, h: Graph, k: Key, a: Key, b: Key, n: nat) returns (i: nat)
    requires SameBut(g, h, k) && PathIn(h, a, b, n)
    ensures i <= n
    ensures PathIn(g, a, b, n) || (PathIn(h, a, k, i) && PathIn(h, k, b, n - i))
    decreases n
  {
    i := n;
    if b != k && n > 0 {
      var m :| PathIn(h, a, m, n - 1) && Edge(h, m, b);
      i := OldOrThrough(g, h, k, a, m, n - 1);
      if !PathIn(g, a, m, n - 1) {
        assert PathIn(h, k, m, n - 1 - i) && PathIn(h, k, b, n - i);
      }
    }
  }

  lemma CycleMeets(g: Graph, h: Graph, k: Key, x: Key)
    requires SameBut(g, h, k) && Acyclic(g) && Affects(h, x, x)
    ensures Affects(h, k, x) && Affects(h, k, k)
  {
    var n: nat :| n > 0 && PathIn(h, x, x, n);
    var i := OldOrThrough(g, h, k, x, x, n);
    assert !Affects(g, x, x);
    PathJoin(h, k, x, k, n - i, i);
    PathJoin(h, k, k, x, n, n - i);
  }

  lemma RecordingIsLocal(g: Graph, k: Key, sources: set<Key>)
    ensures SameBut(g, WithSources(g, k, sources), k)
  {
    forall s, t | t != k ensures Edge(g, s, t) <==> Edge(WithSources(g, k, sources), s, t) {
      WithSourcesAt(g, k, sources, s);
    }
  }

  /** The key is computed neither from itself nor from anything derived from it. */
  ghost predicate NoLoop(g: Graph, k: Key, sources: set<Key>) {
    k !in sources && forall s :: s in sources ==> !Affects(g, k, s)
  }

  lemma LoopIff(g: Graph, k: Key, sources: set<Key>)
    requires Mirror(g)
    ensures Affects(WithSources(g, k, sources), k, k) <==> !NoLoop(g, k, sources)
  {
    var h := WithSources(g, k, sources);
    CascadeAfterRecording(g, k, sources, k);
    RecordingIsLocal(g, k, sources);
    forall s | s in sources && s != k ensures Affects(h, k, s) <==> Affects(g, k, s) {
      if Affects(h, k, s) { SameReachFrom(g, h, k, s); }
      if Affects(g, k, s) { SameReachFrom(h, g, k, s); }
    }
  }

  /** Recording keeps the graph acyclic exactly when it closes no loop. */
  lemma RecordingKeepsAcyclicIff(g: Graph, k: Key, sources: set<Key>)
    requires Mirror(g) && Acyclic(g)
    ensures Acyclic(WithSources(g, k, sources)) <==> NoLoop(g, k, sources)
  {
    var h := WithSources(g, k, sources);
    LoopIff(g, k, sources);
    RecordingIsLocal(g, k, sources);
    forall x | Affects(h, x, x) ensures Affects(h, k, k) { CycleMeets(g, h, k, x); }
  }

  lemma {:induction false} FewerEdgesPath(g: Graph, gone: set<Key>, a: Key, b: Key, n: nat)
    requires PathIn(Without(g, gone), a, b, n)
    ensures PathIn(g, a, b, n) && (n > 0 ==> b !in gone)
    decreases n
  {
    if n > 0 {
      var m :| PathIn(Without(g, gone), a, m, n - 1) && Edge(Without(g, gone), m, b);
      FewerEdgesPath(g, gone, a, m, n - 1);
      WithoutAt(g, gone, m);
      assert Edge(g, m, b) && b !in gone;
    }
  }

  lemma FewerEdges(g: Graph, gone: set<Key>, a: Key, b: Key)
    requires Affects(Without(g, gone), a, b)
    ensures Affects(g, a, b) && b !in gone
  {
    var n: nat :| n > 0 && PathIn(Without(g, gone), a, b, n);
    FewerEdgesPath(g, gone, a, b, n);
  }

  // ----- recomputation -----

  ghost function Upstream(g: Graph, k: Key): set<Key> { set s | s in g.forward && Affects(g, s, k) }

  lemma UpstreamShrinks(g: Graph, s: Key, k: Key)
    requires Acyclic(g) && Edge(g, s, k)
    ensures Upstream(g, s) < Upstream(g, k)
  {
    AffectsStep(g, s, s, k);
    forall x | x in Upstream(g, s) ensures x in Upstream(g, k) { AffectsTransitive(g, x, s, k); }
    assert s in Upstream(g, k) && s !in Upstream(g, s);
  }

  /** What recomputing `k` from the raw sources of today gives, all the way down. */
  ghost function Fresh(f: Formula, w: World, k: Key): Value
    requires Structure(w) && (k in w.raw || k in w.cached)
    decreases Upstream(w.g, k)
  {
    if k in w.raw then w.raw[k]
    else f(k, map s | s in Sources(w.g, k) :: FreshSource(f, w, k, s))
  }

  ghost function FreshSource(f: Formula, w: World, k: Key, s: Key): Value
    requires Structure(w) && k in w.cached && s in Sources(w.g, k)
    decreases Upstream(w.g, k), 0
  {
    assert Edge(w.g, s, k);
    UpstreamShrinks(w.g, s, k);
    Fresh(f, w, s)
  }

  lemma {:induction false} CachedIsFresh(f: Formula, w: World, k: Key)
    requires Coherent(f, w) && k in w.cached
    ensures w.cached[k] == Fresh(f, w, k)
    decreases Upstream(w.g, k)
  {
    assert Settled(f, w, k);
    var sources := Sources(w.g, k);
    forall s | s in sources ensures Inputs(w, sources)[s] == FreshSource(f, w, k, s) {
      if s !in w.raw {
        assert Edge(w.g, s, k);
        UpstreamShrinks(w.g, s, k);
        CachedIsFresh(f, w, s);
      }
    }
    assert Inputs(w, sources) == map s | s in sources :: FreshSource(f, w, k, s);
  }

  // ----- what each operation keeps -----

  /** Everything not downstream of s is settled, and every cycle is downstream of s. */
  ghost predicate SettledOutside(f: Formula, w: World, s: Key) {
    && Mirror(w.g) && w.raw.Keys !! w.cached.Keys
    && (forall j :: j in w.cached && !Affects(w.g, s, j) ==> Settled(f, w, j))
    && (forall x :: Affects(w.g, x, x) ==> Affects(w.g, s, x))
  }

  lemma NotDownstream(g: Graph, s: Key, j: Key, t: Key)
    requires Mirror(g) && !Affects(g, s, j) && t in Sources(g, j)
    ensures t != s && !Affects(g, s, t)
  {
    assert Edge(g, t, j);
    if t == s || Affects(g, s, t) { AffectsStep(g, s, t, j); }
  }

  /** Evicting everything downstream of s then leaves a coherent cache. */
  lemma CascadeSettles(f: Formula, w: World, s: Key)
    requires SettledOutside(f, w, s)
    ensures Coherent(f, Cascaded(w, s))
  {
    var gone, after := Closure(w.g, s), Cascaded(w, s);
    AffectedKeysAreDerived(w.g, s);
    WithoutMirror(w.g, gone);
    forall j | j in after.cached ensures Settled(f, after, j) {
      WithoutAt(w.g, gone, j);
      assert Settled(f, w, j);
      forall t | t in Sources(w.g, j) ensures t !in gone { NotDownstream(w.g, s, j, t); }
      SettledFrame(f, w, after, j);
    }
    forall x ensures !Affects(after.g, x, x) {
      if Affects(after.g, x, x) { FewerEdges(w.g, gone, x, x); }
    }
  }

  /** A cascade evicts exactly what its source affects, and a change of a source besides gives it its new value. */
  lemma CascadeEvictsExactly(f: Formula, w: World, s: Key, v: Value)
    requires Mirror(w.g)
    ensures var after := Apply(f, w, Cascade(s));
      after.raw == w.raw && forall d :: d in w.cached ==>
        (d in after.cached <==> !Affects(w.g, s, d)) && (d in after.cached ==> after.cached[d] == w.cached[d])
    ensures s in w.raw ==> var after := Apply(f, w, Change(s, v));
      after.raw == w.raw[s := v] && after.cached == Apply(f, w, Cascade(s)).cached && after.g == Apply(f, w, Cascade(s)).g
  {
    AffectedKeysAreDerived(w.g, s);
  }

  lemma CascadeKeepsCoherence(f: Formula, w: World, s: Key)
    requires Coherent(f, w)
    ensures Coherent(f, Apply(f, w, Cascade(s)))
  {
    CascadeSettles(f, w, s);
  }

  lemma ChangeKeepsCoherence(f: Formula, w: World, s: Key, v: Value)
    requires Coherent(f, w)
    ensures Coherent(f, Apply(f, w, Change(s, v)))
  {
    if s in w.raw {
      var w' := w.(raw := w.raw[s := v]);
      forall j | j in w'.cached && !Affects(w.g, s, j) ensures Settled(f, w', j) {
        assert Settled(f, w, j);
        forall t | t in Sources(w.g, j) ensures t != s { NotDownstream(w.g, s, j, t); }
        SettledFrame(f, w, w', j);
      }
      CascadeSettles(f, w', s);
    }
  }

  /** After a recording, keys that are neither k nor directly derived from it are as settled as before. */
  lemma RecordFrame(f: Formula, w: World, k: Key, sources: set<Key>, j: Key)
    requires Coherent(f, w) && CanRecord(w, k, sources) && j in w.cached && j != k && k !in Sources(w.g, j)
    ensures Settled(f, Recorded(f, w, k, sources), j)
  {
    WithSourcesAt(w.g, k, sources, j);
    assert Settled(f, w, j);
    SettledFrame(f, w, Recorded(f, w, k, sources), j);
  }

  lemma RecordedIsSettled(f: Formula, w: World, k: Key, sources: set<Key>)
    requires Coherent(f, w) && CanRecord(w, k, sources) && k !in sources
    ensures Settled(f, Recorded(f, w, k, sources), k)
  {
    var w' := Recorded(f, w, k, sources);
    WithSourcesAt(w.g, k, sources, k);
    assert Inputs(w', sources) == Inputs(w, sources);
  }

  /** Recording a key and then invalidating it as a source always keeps coherence; the key itself stays cached
      unless it was computed from something derived from it. */
  lemma RefreshKeepsCoherence(f: Formula, w: World, k: Key, sources: set<Key>)
    requires Coherent(f, w)
    ensures Coherent(f, Apply(f, w, Refresh(k, sources)))
    ensures CanRecord(w, k, sources) ==> (k in Apply(f, w, Refresh(k, sources)).cached <==> NoLoop(w.g, k, sources))
  {
    if CanRecord(w, k, sources) {
      var w' := Recorded(f, w, k, sources);
      WithSourcesMirror(w.g, k, sources);
      RecordingIsLocal(w.g, k, sources);
      LoopIff(w.g, k, sources);
      AffectedKeysAreDerived(w'.g, k);
      forall j | j in w'.cached && !Affects(w'.g, k, j) ensures Settled(f, w', j) {
        if j == k {
          RecordedIsSettled(f, w, k, sources);
        } else {
          WithSourcesAt(w.g, k, sources, j);
          if k in Sources(w'.g, j) { NotDownstream(w'.g, k, j, k); }
          RecordFrame(f, w, k, sources, j);
        }
      }
      forall x | Affects(w'.g, x, x) ensures Affects(w'.g, k, x) { CycleMeets(w.g, w'.g, k, x); }
      CascadeSettles(f, w', k);
    }
  }

  /** Recomputing d after the recording gives the value it is cached with. */
  ghost predicate Reproduced(f: Formula, w: World, k: Key, sources: set<Key>, d: Key)
    requires CanRecord(w, k, sources) && d in w.cached
  {
    Available(w, Sources(w.g, d)) && w.cached[d] == f(d, Inputs(Recorded(f, w, k, sources), Sources(w.g, d)))
  }

  /** The exact condition of a recording without a cascade: no loop, and every key directly derived from this one
      would come out the same. */
  ghost predicate SafeRecord(f: Formula, w: World, k: Key, sources: set<Key>)
    requires CanRecord(w, k, sources)
  {
    NoLoop(w.g, k, sources) && forall d :: d in Dependents(w.g, k) && d in w.cached ==> Reproduced(f, w, k, sources, d)
  }

  lemma RecordKeepsCoherenceIff(f: Formula, w: World, k: Key, sources: set<Key>)
    requires Coherent(f, w) && CanRecord(w, k, sources)
    ensures Coherent(f, Recorded(f, w, k, sources)) <==> SafeRecord(f, w, k, sources)
  {
    var w' := Recorded(f, w, k, sources);
    WithSourcesMirror(w.g, k, sources);
    RecordingKeepsAcyclicIff(w.g, k, sources);
    forall d | d in Dependents(w.g, k) && d in w.cached
      ensures d != k && (Settled(f, w', d) <==> Reproduced(f, w, k, sources, d))
    {
      assert Edge(w.g, k, d);
      if d == k { AffectsStep(w.g, k, k, k); }
      WithSourcesAt(w.g, k, sources, d);
    }
    if SafeRecord(f, w, k, sources) {
      forall j | j in w'.cached ensures Settled(f, w', j) {
        assert Edge(w.g, k, j) <==> k in Sources(w.g, j);
        if j == k {
          RecordedIsSettled(f, w, k, sources);
        } else if k !in Sources(w.g, j) {
          RecordFrame(f, w, k, sources, j);
        }
      }
    }
  }

  /** Nothing was derived from the key, or it comes out with its old value. */
  predicate Unnoticed(f: Formula, w: World, k: Key, sources: set<Key>)
    requires CanRecord(w, k, sources)
  {
    Dependents(w.g, k) == {} || (k in w.cached && f(k, Inputs(w, sources)) == w.cached[k])
  }

  /** A formula that never gives the same value for different inputs. */
  ghost predicate Sensitive(f: Formula) {
    forall k, m: map<Key, Value>, n: map<Key, Value> :: m.Keys == n.Keys && f(k, m) == f(k, n) ==> m == n
  }

  /** Such a recording is safe; for formulas that notice every change of their inputs no other is. */
  lemma UnnoticedIsSafe(f: Formula, w: World, k: Key, sources: set<Key>)
    requires Coherent(f, w) && Tidy(w) && CanRecord(w, k, sources) && NoLoop(w.g, k, sources)
    ensures Unnoticed(f, w, k, sources) ==> SafeRecord(f, w, k, sources)
    ensures Sensitive(f) && SafeRecord(f, w, k, sources) ==> Unnoticed(f, w, k, sources)
  {
    var w' := Recorded(f, w, k, sources);
    forall d | d in Dependents(w.g, k)
      ensures d in w.cached && k in w.cached && k in Sources(w.g, d) && Settled(f, w, d)
    {
      assert Edge(w.g, k, d) && k in Sources(w.g, d);
      assert d in w.g.reverse;
    }
    if Unnoticed(f, w, k, sources) {
      forall d | d in Dependents(w.g, k) && d in w.cached ensures Reproduced(f, w, k, sources, d) {
        assert Inputs(w', Sources(w.g, d)) == Inputs(w, Sources(w.g, d));
      }
    }
    if Sensitive(f) && SafeRecord(f, w, k, sources) && Dependents(w.g, k) != {} {
      var d :| d in Dependents(w.g, k);
      assert Reproduced(f, w, k, sources, d);
      assert Inputs(w', Sources(w.g, d)) == Inputs(w, Sources(w.g, d));
      assert Inputs(w', Sources(w.g, d))[k] == Inputs(w, Sources(w.g, d))[k];
    }
  }

  /** Dropping a key from which nothing was derived leaves every other key settled. */
  lemma DropLeafKeepsCoherence(f: Formula, w: World, k: Key)
    requires Coherent(f, w) && (k in w.cached ==> Dependents(w.g, k) == {})
    ensures Coherent(f, Apply(f, w, Drop(k)))
  {
    var w' := Apply(f, w, Drop(k));
    WithoutMirror(w.g, {k});
    forall j | j in w'.cached ensures Settled(f, w', j) {
      WithoutAt(w.g, {k}, j);
      assert Settled(f, w, j);
      assert Edge(w.g, k, j) <==> k in Sources(w.g, j);
      SettledFrame(f, w, w', j);
    }
    forall x ensures !Affects(w'.g, x, x) {
      if Affects(w'.g, x, x) { FewerEdges(w.g, {k}, x, x); }
    }
  }

  /** Dropping a cached key directly keeps all recorded sources available exactly when nothing was derived from it. */
  lemma DropKeepsCoherenceIff(f: Formula, w: World, k: Key)
    requires Coherent(f, w) && Tidy(w) && k in w.cached
    ensures Coherent(f, Apply(f, w, Drop(k))) <==> Dependents(w.g, k) == {}
  {
    if Dependents(w.g, k) == {} {
      DropLeafKeepsCoherence(f, w, k);
    } else {
      var d :| d in Dependents(w.g, k);
      assert Edge(w.g, k, d) && k in Sources(w.g, d);
      if d == k { AffectsStep(w.g, k, k, k); }
      WithoutAt(w.g, {k}, d);
      assert !Available(Apply(f, w, Drop(k)), Sources(w.g, d));
    }
  }

  // ----- how one key moves the recomputed values -----

  /** The two worlds have the same raw values and recorded sources, x aside. */
  ghost predicate SameAside(u: World, v: World, x: Key) {
    forall k :: k != x ==>
      && (k in u.raw <==> k in v.raw) && (k in u.cached <==> k in v.cached) && Sources(u.g, k) == Sources(v.g, k)
      && (k in u.raw ==> u.raw[k] == v.raw[k])
  }

  ghost predicate Has(u: World, k: Key) { k in u.raw || k in u.cached }

  /** Keys that x does not affect keep their value. */
  lemma {:induction false} FreshAside(f: Formula, u: World, v: World, x: Key, d: Key)
    requires Structure(u) && Structure(v) && SameAside(u, v, x)
    requires Has(u, d) && d != x && !Affects(u.g, x, d)
    ensures Fresh(f, u, d) == Fresh(f, v, d)
    decreases Upstream(u.g, d)
  {
    if d in u.cached {
      forall s | s in Sources(u.g, d) ensures FreshSource(f, u, d, s) == FreshSource(f, v, d, s) {
        NotDownstream(u.g, x, d, s);
        assert Edge(u.g, s, d);
        UpstreamShrinks(u.g, s, d);
        FreshAside(f, u, v, x, s);
      }
      SameInputs(f, u, v, d);
    }
  }

  lemma SameInputs(f: Formula, u: World, v: World, d: Key)
    requires Structure(u) && Structure(v) && d in u.cached && d in v.cached && Sources(u.g, d) == Sources(v.g, d)
    requires forall s :: s in Sources(u.g, d) ==> FreshSource(f, u, d, s) == FreshSource(f, v, d, s)
    ensures Fresh(f, u, d) == Fresh(f, v, d)
  {
    assert (map s | s in Sources(u.g, d) :: FreshSource(f, u, d, s)) == (map s | s in Sources(v.g, d) :: FreshSource(f, v, d, s));
  }

  /** If x keeps its value every key does. */
  lemma {:induction false} FreshKept(f: Formula, u: World, v: World, x: Key, d: Key)
    requires Structure(u) && Structure(v) && SameAside(u, v, x)
    requires Has(u, x) && Has(v, x) && Fresh(f, u, x) == Fresh(f, v, x) && Has(u, d)
    ensures Has(v, d) && Fresh(f, u, d) == Fresh(f, v, d)
    decreases Upstream(u.g, d)
  {
    if d != x && d in u.cached {
      forall s | s in Sources(u.g, d) ensures FreshSource(f, u, d, s) == FreshSource(f, v, d, s) {
        assert Edge(u.g, s, d);
        UpstreamShrinks(u.g, s, d);
        FreshKept(f, u, v, x, s);
      }
      SameInputs(f, u, v, d);
    }
  }

  lemma OtherInputs(f: Formula, u: World, v: World, d: Key, m: Key)
    requires Sensitive(f) && Structure(u) && Structure(v)
    requires d in u.cached && d in v.cached && Sources(u.g, d) == Sources(v.g, d) && m in Sources(u.g, d)
    requires Fresh(f, u, m) != Fresh(f, v, m)
    ensures Fresh(f, u, d) != Fresh(f, v, d)
  {
    assert FreshSource(f, u, d, m) == Fresh(f, u, m) && FreshSource(f, v, d, m) == Fresh(f, v, m);
    var before := map s | s in Sources(u.g, d) :: FreshSource(f, u, d, s);
    var after := map s | s in Sources(v.g, d) :: FreshSource(f, v, d, s);
    assert before[m] != after[m];
    Notices(f, d, before, after);
  }

  lemma Notices(f: Formula, d: Key, before: map<Key, Value>, after: map<Key, Value>)
    requires Sensitive(f) && before.Keys == after.Keys && before != after
    ensures f(d, before) != f(d, after)
  {}

  /** If x moves and the formulas notice every change of an input, every key that x affects moves. */
  lemma {:induction false} FreshMoves(f: Formula, u: World, v: World, x: Key, d: Key, n: nat)
    requires Sensitive(f) && Structure(u) && Structure(v) && Tidy(u) && SameAside(u, v, x)
    requires Has(u, x) && Has(v, x) && Fresh(f, u, x) != Fresh(f, v, x)
    requires n > 0 && PathIn(u.g, x, d, n)
    ensures d in u.cached && d in v.cached && Fresh(f, u, d) != Fresh(f, v, d)
    decreases n
  {
    assert d != x by { assert !Affects(u.g, x, x); }
    var m :| PathIn(u.g, x, m, n - 1) && Edge(u.g, m, d);
    assert m in Sources(u.g, d) && d in u.g.reverse;
    if n > 1 { FreshMoves(f, u, v, x, m, n - 1); }
    OtherInputs(f, u, v, d, m);
  }

  // ----- what a dropped key hides -----

  /** After k was dropped, a change of r reaches exactly the keys it affects without passing through k; any other
      key stays cached, with the value that the old r gave. */
  lemma DropHidesChange(f: Formula, w: World, k: Key, r: Key, v: Value, d: Key)
    requires Coherent(f, w) && d in w.cached && d != k && r in w.raw
    ensures var after := Apply(f, Apply(f, w, Drop(k)), Change(r, v));
      && (d in after.cached <==> !Affects(Without(w.g, {k}), r, d))
      && (d in after.cached ==> after.cached[d] == w.cached[d] == Fresh(f, w, d))
  {
    WithoutMirror(w.g, {k});
    AffectedKeysAreDerived(Without(w.g, {k}), r);
    CachedIsFresh(f, w, d);
  }

  /** So if every way from r to d leads through k, d stays cached, where without the drop the change would have
      evicted it; and if the formulas notice every change of an input its value is stale: recomputing d through its
      recorded dependencies from today's raw sources gives another one. */
  lemma DropLeavesStaleValue(f: Formula, w: World, k: Key, r: Key, v: Value, d: Key)
    requires Coherent(f, w) && Tidy(w) && d != k && r in w.raw && v != w.raw[r]
    requires Affects(w.g, r, d) && !Affects(Without(w.g, {k}), r, d)
    ensures d in w.cached && d !in Apply(f, w, Change(r, v)).cached
    ensures var after := Apply(f, Apply(f, w, Drop(k)), Change(r, v));
      d in after.cached && (Sensitive(f) ==> after.cached[d] != Fresh(f, w.(raw := w.raw[r := v]), d))
  {
    if Sensitive(f) {
      var n: nat :| n > 0 && PathIn(w.g, r, d, n);
      FreshMoves(f, w, w.(raw := w.raw[r := v]), r, d, n);
    }
    AffectedKeysAreDerived(w.g, r);
    DropHidesChange(f, w, k, r, v, d);
  }

  /** The chain r - k - d, filled in order, with k then dropped: nothing leads from r any more. */
  lemma BrokenChain(f: Formula, r: Key, k: Key, d: Key, v: Value)
    requires r != k && k != d && r != d
    ensures
      var w := Apply(f, Apply(f, Apply(f, Initial(map[r := v]), Record(k, {r})), Record(d, {k})), Drop(k));
      && w.raw == map[r := v] && Dependents(w.g, r) == {}
      && w.cached == map[d := f(d, map[k := f(k, map[r := v])])]
  {
    var w0 := Initial(map[r := v]);
    var w1 := Apply(f, w0, Record(k, {r}));
    var w2 := Apply(f, w1, Record(d, {k}));
    assert Inputs(w0, {r}) == map[r := v];
    assert Inputs(w1, {k}) == map[k := f(k, map[r := v])];
    WithSourcesAt(w0.g, k, {r}, r);
    WithSourcesAt(w1.g, d, {k}, r);
    WithoutAt(w2.g, {k}, r);
  }

  lemma ChangeReachesNothing(f: Formula, w: World, s: Key, v: Value)
    requires s in w.raw && Dependents(w.g, s) == {}
    ensures var after := Apply(f, w, Change(s, v)); after.raw == w.raw[s := v] && after.cached == w.cached
  {
    forall k | k in Closure(w.g, s) ensures false {
      var n: nat :| n > 0 && PathIn(w.g, s, k, n);
      ClosedSetCovers(w.g, s, {}, k, n);
    }
    assert Closure(w.g, s) == {};
  }

  /** The smallest instance, from an empty cache: d keeps the value computed from the old r. */
  lemma DropCutsCascade(f: Formula, r: Key, k: Key, d: Key, v0: Value, v1: Value)
    requires r != k && k != d && r != d
    ensures
      var w := Apply(f, Apply(f, Apply(f, Initial(map[r := v0]), Record(k, {r})), Record(d, {k})), Drop(k));
      var after := Apply(f, w, Change(r, v1));
      after.raw == map[r := v1] && after.cached == map[d := f(d, map[k := f(k, map[r := v0])])]
  {
    BrokenChain(f, r, k, d, v0);
    var w := Apply(f, Apply(f, Apply(f, Initial(map[r := v0]), Record(k, {r})), Record(d, {k})), Drop(k));
    ChangeReachesNothing(f, w, r, v1);
  }

  // ----- whole runs -----

  ghost function RunOps(f: Formula, w: World, ops: seq<Op>): World {
    if ops == [] then w else Apply(f, RunOps(f, w, ops[..|ops| - 1]), ops[|ops| - 1])
  }

  lemma ApplyKeepsTidy(f: Formula, w: World, op: Op)
    requires Tidy(w)
    ensures Tidy(Apply(f, w, op))
  {}

  /** The exact condition under which an operation keeps a coherent, tidy cache coherent: a recording without a
      cascade closes no loop and goes unnoticed by what was derived from the key; a direct invalidation hits a key
      nothing was derived from. Changes, cascades and refreshes need no condition. */
  ghost predicate SafeOp(f: Formula, w: World, op: Op) {
    match op
    case Record(k, sources) => CanRecord(w, k, sources) ==> SafeRecord(f, w, k, sources)
    case Drop(k) => k in w.cached ==> Dependents(w.g, k) == {}
    case _ => true
  }

  lemma ApplyKeepsCoherenceIff(f: Formula, w: World, op: Op)
    requires Coherent(f, w) && Tidy(w)
    ensures Coherent(f, Apply(f, w, op)) <==> SafeOp(f, w, op)
  {
    match op
    case Change(s, v) => ChangeKeepsCoherence(f, w, s, v);
    case Cascade(s) => CascadeKeepsCoherence(f, w, s);
    case Record(k, sources) => if CanRecord(w, k, sources) { RecordKeepsCoherenceIff(f, w, k, sources); }
    case Refresh(k, sources) => RefreshKeepsCoherence(f, w, k, sources);
    case Drop(k) => if k in w.cached { DropKeepsCoherenceIff(f, w, k); } else { DropLeafKeepsCoherence(f, w, k); }
  }

  /** Every operation of the run is safe where it happens. */
  ghost predicate SafeRun(f: Formula, w: World, ops: seq<Op>) {
    forall i :: 0 <= i < |ops| ==> SafeOp(f, RunOps(f, w, ops[..i]), ops[i])
  }

  ghost predicate AlwaysCoherent(f: Formula, w: World, ops: seq<Op>) {
    forall i :: 0 <= i <= |ops| ==> Coherent(f, RunOps(f, w, ops[..i]))
  }

  lemma RunOne(f: Formula, w: World, ops: seq<Op>, i: nat)
    requires i < |ops|
    ensures RunOps(f, w, ops[..i + 1]) == Apply(f, RunOps(f, w, ops[..i]), ops[i])
  {
    assert ops[..i + 1][..i] == ops[..i];
  }

  lemma {:induction false} RunsAreTidy(f: Formula, raw: map<Key, Value>, ops: seq<Op>)
    ensures Tidy(RunOps(f, Initial(raw), ops))
  {
    if ops != [] {
      RunsAreTidy(f, raw, ops[..|ops| - 1]);
      ApplyKeepsTidy(f, RunOps(f, Initial(raw), ops[..|ops| - 1]), ops[|ops| - 1]);
    }
  }

  lemma EmptyIsCoherent(f: Formula, raw: map<Key, Value>)
    ensures Coherent(f, Initial(raw))
  {
    forall x ensures !Affects(Graph(map[], map[]), x, x) {
      if Affects(Graph(map[], map[]), x, x) { var m := LastEdge(Graph(map[], map[]), x, x); }
    }
  }

  lemma {:induction false} SafeRunIsCoherent(f: Formula, raw: map<Key, Value>, ops: seq<Op>, n: nat)
    requires SafeRun(f, Initial(raw), ops) && n <= |ops|
    ensures Coherent(f, RunOps(f, Initial(raw), ops[..n]))
  {
    if n == 0 {
      EmptyIsCoherent(f, raw);
    } else {
      var i := n - 1;
      SafeRunIsCoherent(f, raw, ops, i);
      RunsAreTidy(f, raw, ops[..i]);
      RunOne(f, Initial(raw), ops, i);
      ApplyKeepsCoherenceIff(f, RunOps(f, Initial(raw), ops[..i]), ops[i]);
    }
  }

  /** Whole runs from an empty cache: it is coherent after every operation exactly when each one is safe. */
  lemma RunIsCoherentIff(f: Formula, raw: map<Key, Value>, ops: seq<Op>)
    ensures AlwaysCoherent(f, Initial(raw), ops) <==> SafeRun(f, Initial(raw), ops)
  {
    if SafeRun(f, Initial(raw), ops) {
      forall i | 0 <= i <= |ops| ensures Coherent(f, RunOps(f, Initial(raw), ops[..i])) {
        SafeRunIsCoherent(f, raw, ops, i);
      }
    }
    if AlwaysCoherent(f, Initial(raw), ops) {
      forall i | 0 <= i < |ops| ensures SafeOp(f, RunOps(f, Initial(raw), ops[..i]), ops[i]) {
        var j := i + 1;
        assert Coherent(f, RunOps(f, Initial(raw), ops[..i])) && Coherent(f, RunOps(f, Initial(raw), ops[..j]));
        RunsAreTidy(f, raw, ops[..i]);
        RunOne(f, Initial(raw), ops, i);
        ApplyKeepsCoherenceIff(f, RunOps(f, Initial(raw), ops[..i]), ops[i]);
      }
    }
  }

  /** Whole-run theorem: whatever is still cached equals a recomputation from today's raw sources. */
  lemma CacheAgreesWithRecomputation(f: Formula, raw: map<Key, Value>, ops: seq<Op>)
    requires SafeRun(f, Initial(raw), ops)
    ensures var w := RunOps(f, Initial(raw), ops); Structure(w) && forall k :: k in w.cached ==> w.cached[k] == Fresh(f, w, k)
  {
    var w := RunOps(f, Initial(raw), ops);
    assert ops[..|ops|] == ops;
    SafeRunIsCoherent(f, raw, ops, |ops|);
    forall k | k in w.cached ensures w.cached[k] == Fresh(f, w, k) { CachedIsFresh(f, w, k); }
  }
}
