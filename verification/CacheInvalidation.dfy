/** Dependency tracking and cascading eviction of derived cache entries. */
module CacheInvalidation {
  import opened Common

  /** Cache keys and source keys; only their equality matters. */
  type Key(==, 00, !new)
  type Cache(==, 00, !new)
  /** A fingerprint is determined by the JSON texts it was built from. */
  type Fingerprint = seq<string>

  // ----- the dependency graph as a value -----

  /** `forward`: source to derived keys; `reverse`: derived key to sources. */
  datatype Graph = Graph(forward: map<Key, set<Key>>, reverse: map<Key, set<Key>>)

  function Get<T>(m: map<Key, set<T>>, k: Key): set<T> { if k in m then m[k] else {} }

  function Dependents(g: Graph, source: Key): set<Key> { Get(g.forward, source) }

  function Sources(g: Graph, derived: Key): set<Key> { Get(g.reverse, derived) }

  ghost predicate Edge(g: Graph, source: Key, derived: Key) { derived in Dependents(g, source) }

  /** The two maps are mirror images and hold no empty set. */
  ghost predicate Mirror(g: Graph) {
    && (forall s, d :: Edge(g, s, d) <==> s in Sources(g, d))
    && (forall s :: s in g.forward ==> g.forward[s] != {})
    && (forall d :: d in g.reverse ==> g.reverse[d] != {})
  }

  /** The graph without the incoming edges of the keys in `gone`. */
  function Without(g: Graph, gone: set<Key>): Graph {
    Graph(map s | s in g.forward && g.forward[s] - gone != {} :: g.forward[s] - gone, g.reverse - gone)
  }

  function Added(h: Graph, derived: Key, sources: set<Key>): Graph {
    Graph(map s | s in h.forward.Keys + sources :: Get(h.forward, s) + (if s in sources then {derived} else {}),
          if sources == {} then h.reverse else h.reverse[derived := sources])
  }

  /** The graph after `derived` was recorded as computed from `sources`. */
  function WithSources(g: Graph, derived: Key, sources: set<Key>): Graph {
    Added(Without(g, {derived}), derived, sources)
  }

  lemma AddedNone(h: Graph, derived: Key)
    ensures Added(h, derived, {}) == h
  {
    var f := Added(h, derived, {}).forward;
    assert f.Keys == h.forward.Keys;
    forall s | s in f ensures f[s] == h.forward[s] {}
    assert f == h.forward;
  }

  lemma AddedOne(h: Graph, derived: Key, done: set<Key>, source: Key)
    requires derived !in h.reverse && source !in done
    ensures var a := Added(h, derived, done);
      Added(h, derived, done + {source}) ==
      Graph(a.forward[source := Get(a.forward, source) + {derived}], a.reverse[derived := Get(a.reverse, derived) + {source}])
  {
    var a, b := Added(h, derived, done), Added(h, derived, done + {source});
    var f := a.forward[source := Get(a.forward, source) + {derived}];
    forall s | s in f ensures b.forward[s] == f[s] {
      assert s in done + {source} <==> s in done || s == source;
    }
    assert b.forward == f;
    assert Get(a.reverse, derived) == done;
  }

  lemma WithoutAt(g: Graph, gone: set<Key>, k: Key)
    ensures Dependents(Without(g, gone), k) == Dependents(g, k) - gone
    ensures Sources(Without(g, gone), k) == if k in gone then {} else Sources(g, k)
  {}

  lemma WithSourcesAt(g: Graph, derived: Key, sources: set<Key>, k: Key)
    ensures Dependents(WithSources(g, derived, sources), k) ==
      Dependents(g, k) - {derived} + (if k in sources then {derived} else {})
    ensures Sources(WithSources(g, derived, sources), k) == if k == derived then sources else Sources(g, k)
  {
    WithoutAt(g, {derived}, k);
  }

  lemma WithoutMirror(g: Graph, gone: set<Key>)
    requires Mirror(g)
    ensures Mirror(Without(g, gone))
  {
    forall s, d ensures Edge(Without(g, gone), s, d) <==> s in Sources(Without(g, gone), d) {
      WithoutAt(g, gone, s);
      WithoutAt(g, gone, d);
      assert Edge(g, s, d) <==> s in Sources(g, d);
    }
  }

  lemma WithSourcesMirror(g: Graph, derived: Key, sources: set<Key>)
    requires Mirror(g)
    ensures Mirror(WithSources(g, derived, sources))
  {
    var r := WithSources(g, derived, sources);
    forall s, d ensures Edge(r, s, d) <==> s in Sources(r, d) {
      WithSourcesAt(g, derived, sources, s);
      WithSourcesAt(g, derived, sources, d);
      assert Edge(g, s, d) <==> s in Sources(g, d);
    }
    forall s | s in r.forward ensures r.forward[s] != {} {
      WithSourcesAt(g, derived, sources, s);
      if s in sources { assert derived in r.forward[s]; }
    }
  }

  lemma WithoutNone(g: Graph)
    requires Mirror(g)
    ensures Without(g, {}) == g
  {
    var f := Without(g, {}).forward;
    forall s | s in g.forward ensures s in f && f[s] == g.forward[s] {
      assert g.forward[s] - {} == g.forward[s];
    }
    assert f == g.forward;
  }

  lemma WithoutTwice(g: Graph, a: set<Key>, b: set<Key>)
    ensures Without(Without(g, a), b) == Without(g, a + b)
  {
    var l, r := Without(Without(g, a), b).forward, Without(g, a + b).forward;
    assert forall s :: s in g.forward ==> g.forward[s] - a - b == g.forward[s] - (a + b);
    assert l.Keys == r.Keys;
    assert l == r;
  }

  // ----- the transitive closure -----

  ghost predicate PathIn(g: Graph, a: Key, b: Key, n: nat)
    decreases n
  {
    if n == 0 then a == b else exists m :: PathIn(g, a, m, n - 1) && Edge(g, m, b)
  }

  /** `b` is affected by a change of `a`: some chain of one or more edges leads there. */
  ghost predicate Affects(g: Graph, a: Key, b: Key) {
    exists n: nat :: n > 0 && PathIn(g, a, b, n)
  }

  ghost function Closure(g: Graph, source: Key): set<Key> {
    set k | k in g.reverse && Affects(g, source, k)
  }

  lemma AffectedKeysAreDerived(g: Graph, source: Key)
    requires Mirror(g)
    ensures forall k :: k in Closure(g, source) <==> Affects(g, source, k)
  {
    forall k | Affects(g, source, k) ensures k in g.reverse {
      var n: nat :| n > 0 && PathIn(g, source, k, n);
      var m :| PathIn(g, source, m, n - 1) && Edge(g, m, k);
      assert m in Sources(g, k);
    }
  }

  lemma AffectsStep(g: Graph, a: Key, b: Key, c: Key)
    requires (a == b || Affects(g, a, b)) && Edge(g, b, c)
    ensures Affects(g, a, c)
  {
    if a == b {
      assert PathIn(g, a, b, 0) && PathIn(g, a, c, 1);
    } else {
      var n: nat :| n > 0 && PathIn(g, a, b, n);
      assert PathIn(g, a, c, n + 1);
    }
  }

  /** A set that has the source's direct dependents and is closed under edges has everything affected. */
  lemma {:induction false} ClosedSetCovers(g: Graph, source: Key, seen: set<Key>, b: Key, n: nat)
    requires Dependents(g, source) <= seen && forall k :: k in seen ==> Dependents(g, k) <= seen
    requires n > 0 && PathIn(g, source, b, n)
    ensures b in seen
    decreases n
  {
    var m :| PathIn(g, source, m, n - 1) && Edge(g, m, b);
    if n > 1 { ClosedSetCovers(g, source, seen, m, n - 1); }
  }

  /** Recording replaces: afterwards a change of `s` reaches `derived` exactly through the newest source
      set, whatever set an earlier recording (under this or another cache) had named. */
  lemma CascadeAfterRecording(g: Graph, derived: Key, sources: set<Key>, s: Key)
    requires Mirror(g)
    ensures var h := WithSources(g, derived, sources);
      Affects(h, s, derived) <==> exists t :: t in sources && (t == s || Affects(h, s, t))
  {
    var h := WithSources(g, derived, sources);
    WithSourcesMirror(g, derived, sources);
    WithSourcesAt(g, derived, sources, derived);
    if Affects(h, s, derived) {
      var n: nat :| n > 0 && PathIn(h, s, derived, n);
      var m :| PathIn(h, s, m, n - 1) && Edge(h, m, derived);
      assert m in sources && (m == s || Affects(h, s, m));
    }
    if t :| t in sources && (t == s || Affects(h, s, t)) {
      assert Edge(h, t, derived);
      AffectsStep(h, s, t, derived);
    }
  }

  // ----- the graph object -----

  method Enumerate(s: set<Key>) returns (q: seq<Key>)
    ensures forall k :: k in q <==> k in s
  {
    q := [];
    var left := s;
    while left != {}
      invariant left <= s && forall k :: k in q <==> k in s - left
      decreases |left|
    {
      var k :| k in left;
      q, left := q + [k], left - {k};
    }
  }

  /** Everything found or queued is affected, and what a found key leads to is found or queued. */
  ghost predicate Frontier(g: Graph, source: Key, seen: set<Key>, queue: seq<Key>) {
    && (forall k :: k in seen || k in queue ==> Affects(g, source, k))
    && (forall k :: k in Dependents(g, source) ==> k in seen || k in queue)
    && (forall j, k :: j in seen && k in Dependents(g, j) ==> k in seen || k in queue)
  }

  lemma SearchStarts(g: Graph, source: Key, queue: seq<Key>)
    requires Mirror(g) && forall k :: k in queue <==> k in Dependents(g, source)
    ensures Frontier(g, source, {}, queue)
  {
    forall k | k in queue ensures Affects(g, source, k) {
      assert Edge(g, source, k);
      AffectsStep(g, source, source, k);
    }
  }

  lemma SearchGrows(g: Graph, source: Key, seen: set<Key>, key: Key, rest: seq<Key>, more: seq<Key>)
    requires Mirror(g) && Frontier(g, source, seen, [key] + rest)
    requires forall k :: k in more <==> k in Dependents(g, key) - (seen + {key})
    ensures Frontier(g, source, seen + {key}, rest + more) && key in g.reverse
  {
    assert key in [key] + rest;
    AffectedKeysAreDerived(g, source);
    assert key in Closure(g, source);
    forall k | k in more ensures Affects(g, source, k) {
      assert Edge(g, key, k);
      AffectsStep(g, source, key, k);
    }
    forall k | k in [key] + rest ensures k == key || k in rest {}
  }

  lemma SearchEnds(g: Graph, source: Key, seen: set<Key>)
    requires Mirror(g) && Frontier(g, source, seen, [])
    ensures seen == Closure(g, source)
  {
    AffectedKeysAreDerived(g, source);
    forall k | Affects(g, source, k) ensures k in seen {
      var n: nat :| n > 0 && PathIn(g, source, k, n);
      ClosedSetCovers(g, source, seen, k, n);
    }
  }

  lemma ForwardHolders(g: Graph, derived: Key)
    requires Mirror(g)
    ensures forall s :: s in Sources(g, derived) ==> s in g.forward && derived in g.forward[s]
    ensures forall s :: s in g.forward && s !in Sources(g, derived) ==> g.forward[s] - {derived} == g.forward[s] != {}
  {
    forall s ensures s in Sources(g, derived) <==> derived in Dependents(g, s) {
      assert Edge(g, s, derived) <==> s in Sources(g, derived);
    }
  }

  class DependencyGraph {
    var forward: map<Key, set<Key>>
    var reverse: map<Key, set<Key>>

    ghost function Deps(): Graph
      reads this
    { Graph(forward, reverse) }

    ghost predicate Valid()
      reads this
    { Mirror(Deps()) }

    constructor ()
      ensures Valid() && Deps() == Graph(map[], map[])
    { forward, reverse := map[], map[]; }

    method AddEdge(derived: Key, source: Key)
      modifies this
      ensures forward == old(forward)[source := Get(old(forward), source) + {derived}]
      ensures reverse == old(reverse)[derived := Get(old(reverse), derived) + {source}]
    {
      forward := forward[source := Get(forward, source) + {derived}];
      reverse := reverse[derived := Get(reverse, derived) + {source}];
    }

    method RemoveKey(derived: Key)
      requires Valid()
      modifies this
      ensures Valid() && Deps() == Without(old(Deps()), {derived})
    {
      ghost var g := Deps();
      var left := Get(reverse, derived);
      reverse := reverse - {derived};
      ForwardHolders(g, derived);
      while left != {}
        invariant left <= Sources(g, derived) && reverse == g.reverse - {derived}
        invariant forward.Keys == (set s | s in g.forward && (s in left || g.forward[s] - {derived} != {}))
        invariant forall s :: s in forward ==> forward[s] == if s in left then g.forward[s] else g.forward[s] - {derived}
        decreases |left|
      {
        var source :| source in left;
        forward := forward[source := forward[source] - {derived}];
        if forward[source] == {} {
          forward := forward - {source};
        }
        left := left - {source};
      }
      WithoutMirror(g, {derived});
      assert forward == Without(g, {derived}).forward;
    }

    method SetDependencies(derived: Key, sources: set<Key>)
      requires Valid()
      modifies this
      ensures Valid() && Deps() == WithSources(old(Deps()), derived, sources)
    {
      RemoveKey(derived);
      AddEdges(derived, sources);
      WithSourcesMirror(old(Deps()), derived, sources);
    }

    /** The loop of `set_dependencies`. */
    method AddEdges(derived: Key, sources: set<Key>)
      requires derived !in reverse
      modifies this
      ensures Deps() == Added(old(Deps()), derived, sources)
    {
      ghost var h := Deps();
      var done: set<Key> := {};
      AddedNone(h, derived);
      while done != sources
        invariant done <= sources && Deps() == Added(h, derived, done)
        decreases sources - done
      {
        var source :| source in sources && source !in done;
        AddedOne(h, derived, done, source);
        AddEdge(derived, source);
        done := done + {source};
      }
    }

    /** The breadth-first worklist. A key may be queued more than once; `seen` filters. */
    method DependentsOf(source: Key) returns (seen: set<Key>)
      requires Valid()
      ensures seen == Closure(Deps(), source)
    {
      ghost var g := Deps();
      seen := {};
      var queue := Enumerate(Get(forward, source));
      SearchStarts(g, source, queue);
      while queue != []
        invariant seen <= reverse.Keys && Frontier(g, source, seen, queue)
        decreases reverse.Keys - seen, |queue|
      {
        var key, rest := queue[0], queue[1..];
        assert queue == [key] + rest;
        queue := rest;
        if key in seen {
          continue;
        }
        var more := Enumerate(Get(forward, key) - (seen + {key}));
        SearchGrows(g, source, seen, key, rest, more);
        seen := seen + {key};
        queue := queue + more;
      }
      SearchEnds(g, source, seen);
    }
  }

  datatype Event = Event(key: Key, source: Option<Key>, reason: string, cacheNames: set<Cache>)

  /** An evictor callback invocation. */
  type Call = (Cache, Key)

  datatype Outcome = Evicted(keys: set<Key>) | CacheInvalidationError(call: Call)

  datatype RecordOutcome = Recorded(fingerprint: Option<Fingerprint>) | UnregisteredCache

  /** A bounded deque append. */
  function Pushed(q: seq<Event>, e: Event, cap: nat): (r: seq<Event>)
    ensures |r| <= cap || r == q + [e]
  {
    var r := q + [e];
    if |r| <= cap then r else r[|r| - cap..]
  }

  /** The newest events are kept, in order, and no older one is lost before the queue is full. */
  lemma NewestKept(q: seq<Event>, e: Event, cap: nat)
    requires |q| <= cap
    ensures Pushed(q, e, cap) == if |q| < cap then q + [e] else if cap == 0 then [] else q[1..] + [e]
  {}

  /** The callbacks due when `keys` are evicted: each registered evictor of each key. */
  function DueCalls(keyCaches: map<Key, set<Cache>>, evictors: set<Cache>, keys: set<Key>): set<Call> {
    set k, c | k in keys && c in Get(keyCaches, k) && c in evictors :: (c, k)
  }

  ghost predicate OnceEach(q: seq<Call>, due: set<Call>) {
    && (forall x :: x in q <==> x in due)
    && (forall i, j :: 0 <= i < j < |q| ==> q[i] != q[j])
  }

  function EvictionEvent(keyCaches: map<Key, set<Cache>>, evictors: set<Cache>, fails: set<Call>, k: Key,
                         source: Option<Key>, reason: string): Event {
    Event(k, source, reason, set c | c in Get(keyCaches, k) && c in evictors && (c, k) !in fails)
  }

  /** An eviction's event names the caches whose callback was due and did not raise. */
  lemma EventNamesSucceeded(keyCaches: map<Key, set<Cache>>, evictors: set<Cache>, fails: set<Call>, k: Key,
                            source: Option<Key>, reason: string, c: Cache)
    ensures var e := EvictionEvent(keyCaches, evictors, fails, k, source, reason);
      && e.key == k && e.source == source && e.reason == reason
      && (c in e.cacheNames <==> (c, k) in DueCalls(keyCaches, evictors, {k}) - fails)
  {}

  function EventsOf(audit: map<Key, seq<Event>>, k: Key): seq<Event> { if k in audit then audit[k] else [] }

  function AuditAfter(audit: map<Key, seq<Event>>, keyCaches: map<Key, set<Cache>>, evictors: set<Cache>,
                      fails: set<Call>, keys: set<Key>, source: Option<Key>, reason: string, cap: nat): map<Key, seq<Event>> {
    map k | k in audit.Keys + keys ::
      if k in keys then Pushed(EventsOf(audit, k), EvictionEvent(keyCaches, evictors, fails, k, source, reason), cap)
      else audit[k]
  }

  lemma OnceEachJoin(p: seq<Call>, q: seq<Call>, a: set<Call>, b: set<Call>)
    requires OnceEach(p, a) && OnceEach(q, b) && a !! b
    ensures OnceEach(p + q, a + b)
  {
    var r := p + q;
    forall i, j | 0 <= i < j < |r| ensures r[i] != r[j] {
      if i < |p| <= j { assert r[i] in a && r[j] in b; }
    }
  }

  lemma DueCallsSplit(keyCaches: map<Key, set<Cache>>, evictors: set<Cache>, done: set<Key>, key: Key)
    requires key !in done
    ensures DueCalls(keyCaches - done, evictors, {key}) == DueCalls(keyCaches, evictors, {key})
    ensures DueCalls(keyCaches, evictors, done) !! DueCalls(keyCaches, evictors, {key})
    ensures DueCalls(keyCaches, evictors, done + {key}) ==
      DueCalls(keyCaches, evictors, done) + DueCalls(keyCaches, evictors, {key})
  {}

  lemma AuditAfterOne(audit: map<Key, seq<Event>>, keyCaches: map<Key, set<Cache>>, evictors: set<Cache>,
                      fails: set<Call>, done: set<Key>, key: Key, source: Option<Key>, reason: string, cap: nat)
    requires key !in done
    ensures AuditAfter(AuditAfter(audit, keyCaches, evictors, fails, done, source, reason, cap),
                       keyCaches - done, evictors, fails, {key}, source, reason, cap)
         == AuditAfter(audit, keyCaches, evictors, fails, done + {key}, source, reason, cap)
  {
    assert Get(keyCaches - done, key) == Get(keyCaches, key);
  }

  lemma TailsJoin(a: seq<Call>, b: seq<Call>, c: seq<Call>)
    requires a <= b <= c
    ensures c[|a|..] == b[|a|..] + c[|b|..]
  {}

  class InvalidationRegistry {
    const graph: DependencyGraph
    const maxAuditEvents: nat
    var evictors: set<Cache>
    var keyCaches: map<Key, set<Cache>>
    var audit: map<Key, seq<Event>>
    var fingerprints: map<Key, Fingerprint>
    /** Every evictor callback made so far, failed or not. */
    var calls: seq<Call>

    ghost predicate Valid()
      reads this, graph
    { graph.Valid() }

    constructor (maxAuditEvents: nat)
      ensures Valid() && fresh(graph) && graph.Deps() == Graph(map[], map[])
      ensures evictors == {} && keyCaches == map[] && audit == map[] && fingerprints == map[] && calls == []
    {
      graph := new DependencyGraph();
      this.maxAuditEvents := maxAuditEvents;
      evictors, keyCaches, audit, fingerprints, calls := {}, map[], map[], map[], [];
    }

    method RegisterCache(cache: Cache)
      modifies `evictors
      ensures evictors == old(evictors) + {cache}
    { evictors := evictors + {cache}; }

    /** An absent `version` leaves an earlier fingerprint in place. */
    method RecordDependency(derived: Key, sources: set<Key>, cache: Cache, version: Option<Fingerprint>)
      returns (r: RecordOutcome)
      requires Valid()
      modifies `keyCaches, `fingerprints, graph
      ensures Valid() && (r.UnregisteredCache? <==> cache !in evictors)
      ensures r.UnregisteredCache? ==>
        graph.Deps() == old(graph.Deps()) && keyCaches == old(keyCaches) && fingerprints == old(fingerprints)
      ensures r.Recorded? ==>
        && graph.Deps() == WithSources(old(graph.Deps()), derived, sources)
        && keyCaches == old(keyCaches)[derived := Get(old(keyCaches), derived) + {cache}]
        && fingerprints == (if version.Some? then old(fingerprints)[derived := version.value] else old(fingerprints))
        && r.fingerprint == version
    {
      if cache !in evictors {
        return UnregisteredCache;
      }
      graph.SetDependencies(derived, sources);
      keyCaches := keyCaches[derived := Get(keyCaches, derived) + {cache}];
      if version.Some? {
        fingerprints := fingerprints[derived := version.value];
      }
      return Recorded(version);
    }

    /** Stale unless the recorded fingerprint is exactly the current one. */
    method IsStale(derived: Key, current: Fingerprint) returns (stale: bool)
      ensures !stale <==> derived in fingerprints && fingerprints[derived] == current
    {
      if derived !in fingerprints {
        return true;
      }
      return fingerprints[derived] != current;
    }

    /** `fails` are the callbacks that raise; the loop goes on past them. */
    method EvictKeyLocked(derived: Key, source: Option<Key>, reason: string, fails: set<Call>)
      returns (errors: seq<Call>)
      requires Valid()
      modifies this, graph
      ensures Valid() && graph.Deps() == Without(old(graph.Deps()), {derived})
      ensures evictors == old(evictors)
      ensures keyCaches == old(keyCaches) - {derived} && fingerprints == old(fingerprints) - {derived}
      ensures audit == AuditAfter(old(audit), old(keyCaches), evictors, fails, {derived}, source, reason, maxAuditEvents)
      ensures old(calls) <= calls
      ensures OnceEach(calls[|old(calls)|..], DueCalls(old(keyCaches), evictors, {derived}))
      ensures forall x :: x in errors <==> x in DueCalls(old(keyCaches), evictors, {derived}) && x in fails
    {
      var names := Get(keyCaches, derived);
      var done: set<Cache> := {};
      var succeeded: set<Cache> := {};
      errors := [];
      var made: seq<Call> := [];
      while done != names
        invariant done <= names
        invariant OnceEach(made, set c | c in done && c in evictors :: (c, derived))
        invariant succeeded == set c | c in done && c in evictors && (c, derived) !in fails
        invariant forall x :: x in errors <==> x in made && x in fails
        decreases names - done
      {
        var cache :| cache in names && cache !in done;
        done := done + {cache};
        if cache in evictors {
          made := made + [(cache, derived)];
          if (cache, derived) in fails {
            errors := errors + [(cache, derived)];
          } else {
            succeeded := succeeded + {cache};
          }
        }
      }
      calls := calls + made;
      audit := audit[derived := Pushed(EventsOf(audit, derived), Event(derived, source, reason, succeeded), maxAuditEvents)];
      fingerprints := fingerprints - {derived};
      keyCaches := keyCaches - {derived};
      graph.RemoveKey(derived);
    }

    /** The cascade. `fails` are the callbacks that raise; every due callback is still made. */
    method InvalidateSource(source: Key, reason: string, fails: set<Call>) returns (r: Outcome)
      requires Valid()
      modifies this, graph
      ensures Valid() && evictors == old(evictors)
      ensures var affected := Closure(old(graph.Deps()), source);
        var due := DueCalls(old(keyCaches), evictors, affected);
        && graph.Deps() == Without(old(graph.Deps()), affected) && source !in graph.forward
        && keyCaches == old(keyCaches) - affected && fingerprints == old(fingerprints) - affected
        && audit == AuditAfter(old(audit), old(keyCaches), evictors, fails, affected, Some(source), reason, maxAuditEvents)
        && old(calls) <= calls && OnceEach(calls[|old(calls)|..], due)
        && (if due !! fails then r == Evicted(affected)
            else r.CacheInvalidationError? && r.call in due && r.call in fails)
    {
      ghost var g := graph.Deps();
      var affected := graph.DependentsOf(source);
      var errors := EvictAll(affected, source, reason, fails);
      NothingLeftAt(g, source);
      assert graph.forward - {source} == graph.forward;
      graph.forward := graph.forward - {source};
      if errors != [] {
        assert errors[0] in errors;
        return CacheInvalidationError(errors[0]);
      }
      return Evicted(affected);
    }

    /** The cascade's loop over the affected keys. */
    method EvictAll(affected: set<Key>, source: Key, reason: string, fails: set<Call>) returns (errors: seq<Call>)
      requires Valid()
      modifies this, graph
      ensures Valid() && evictors == old(evictors)
      ensures graph.Deps() == Without(old(graph.Deps()), affected)
      ensures keyCaches == old(keyCaches) - affected && fingerprints == old(fingerprints) - affected
      ensures audit == AuditAfter(old(audit), old(keyCaches), evictors, fails, affected, Some(source), reason, maxAuditEvents)
      ensures old(calls) <= calls
      ensures OnceEach(calls[|old(calls)|..], DueCalls(old(keyCaches), evictors, affected))
      ensures forall x :: x in errors <==> x in DueCalls(old(keyCaches), evictors, affected) && x in fails
    {
      ghost var g, kc := graph.Deps(), keyCaches;
      errors := [];
      var done: set<Key> := {};
      WithoutNone(g);
      while done != affected
        invariant done <= affected && Valid() && evictors == old(evictors)
        invariant graph.Deps() == Without(g, done)
        invariant keyCaches == kc - done && fingerprints == old(fingerprints) - done
        invariant audit == AuditAfter(old(audit), kc, evictors, fails, done, Some(source), reason, maxAuditEvents)
        invariant old(calls) <= calls && OnceEach(calls[|old(calls)|..], DueCalls(kc, evictors, done))
        invariant forall x :: x in errors <==> x in DueCalls(kc, evictors, done) && x in fails
        decreases affected - done
      {
        var key :| key in affected && key !in done;
        ghost var made, earlier := calls, calls[|old(calls)|..];
        var more := EvictKeyLocked(key, Some(source), reason, fails);
        DueCallsSplit(kc, evictors, done, key);
        OnceEachJoin(earlier, calls[|made|..], DueCalls(kc, evictors, done), DueCalls(kc, evictors, {key}));
        TailsJoin(old(calls), made, calls);
        AuditAfterOne(old(audit), kc, evictors, fails, done, key, Some(source), reason, maxAuditEvents);
        WithoutTwice(g, done, {key});
        errors := errors + more;
        done := done + {key};
      }
    }

    /** Evicts one key and nothing derived from it. */
    method InvalidateKey(derived: Key, reason: string, fails: set<Call>) returns (r: Option<Call>)
      requires Valid()
      modifies this, graph
      ensures Valid() && evictors == old(evictors)
      ensures var due := DueCalls(old(keyCaches), evictors, {derived});
        && graph.Deps() == Without(old(graph.Deps()), {derived})
        && keyCaches == old(keyCaches) - {derived} && fingerprints == old(fingerprints) - {derived}
        && audit == AuditAfter(old(audit), old(keyCaches), evictors, fails, {derived}, None, reason, maxAuditEvents)
        && old(calls) <= calls && OnceEach(calls[|old(calls)|..], due)
        && (if due !! fails then r == None else r.Some? && r.value in due && r.value in fails)
    {
      var errors := EvictKeyLocked(derived, None, reason, fails);
      if errors != [] {
        assert errors[0] in errors;
        return Some(errors[0]);
      }
      return None;
    }
  }

  /** After the cascade no forward edge of the source is left, so forgetting it changes nothing. */
  lemma NothingLeftAt(g: Graph, source: Key)
    requires Mirror(g)
    ensures source !in Without(g, Closure(g, source)).forward
  {
    AffectedKeysAreDerived(g, source);
    forall d | d in Dependents(g, source) ensures d in Closure(g, source) {
      AffectsStep(g, source, source, d);
    }
  }
}
