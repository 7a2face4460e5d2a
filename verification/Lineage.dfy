/** The dataset lineage graph: registration, ancestors in topological order, descendants path by path. */
module Lineage {
  import Common

  type Id(==, 00, !new)

  datatype Node = Node(parents: seq<Id>)

  // ----- the graph -----

  ghost predicate Edge(nodes: map<Id, Node>, child: Id, parent: Id) {
    child in nodes && parent in nodes[child].parents && parent in nodes
  }

  /** n edges lead from `a` up to `b`. */
  ghost predicate PathUp(nodes: map<Id, Node>, a: Id, b: Id, n: nat)
    decreases n
  {
    if n == 0 then a == b else exists m :: Edge(nodes, a, m) && PathUp(nodes, m, b, n - 1)
  }

  ghost predicate IsAncestor(nodes: map<Id, Node>, x: Id, of: Id) {
    exists n: nat :: n > 0 && PathUp(nodes, of, x, n)
  }

  ghost function Descendants(nodes: map<Id, Node>, of: Id): set<Id> {
    set x | x in nodes && IsAncestor(nodes, of, x)
  }

  ghost predicate Acyclic(nodes: map<Id, Node>) { forall x :: !IsAncestor(nodes, x, x) }

  /** Every recorded parent is a node. */
  ghost predicate Closed(nodes: map<Id, Node>) {
    forall x, p :: x in nodes && p in nodes[x].parents ==> p in nodes
  }

  lemma {:induction false} PathJoin(nodes: map<Id, Node>, a: Id, b: Id, c: Id, n: nat, m: nat)
    requires PathUp(nodes, a, b, n) && PathUp(nodes, b, c, m)
    ensures PathUp(nodes, a, c, n + m)
    decreases n
  {
    if n > 0 {
      var x :| Edge(nodes, a, x) && PathUp(nodes, x, b, n - 1);
      PathJoin(nodes, x, b, c, n - 1, m);
      assert PathUp(nodes, x, c, n + m - 1);
    }
  }

  lemma EdgeIsAncestor(nodes: map<Id, Node>, child: Id, parent: Id)
    requires Edge(nodes, child, parent)
    ensures IsAncestor(nodes, parent, child)
  {
    assert PathUp(nodes, parent, parent, 0) && PathUp(nodes, child, parent, 1);
  }

  lemma AncestorTransitive(nodes: map<Id, Node>, x: Id, y: Id, z: Id)
    requires IsAncestor(nodes, x, y) && IsAncestor(nodes, y, z)
    ensures IsAncestor(nodes, x, z)
  {
    var n: nat :| n > 0 && PathUp(nodes, y, x, n);
    var m: nat :| m > 0 && PathUp(nodes, z, y, m);
    PathJoin(nodes, z, y, x, m, n);
  }

  /** The last node of a path is a node. */
  lemma {:induction false} PathEndsInGraph(nodes: map<Id, Node>, a: Id, b: Id, n: nat)
    requires n > 0 && PathUp(nodes, a, b, n)
    ensures a in nodes && b in nodes
    decreases n
  {
    var m :| Edge(nodes, a, m) && PathUp(nodes, m, b, n - 1);
    if n > 1 { PathEndsInGraph(nodes, m, b, n - 1); }
  }

  lemma AncestorInGraph(nodes: map<Id, Node>, x: Id, of: Id)
    requires IsAncestor(nodes, x, of)
    ensures x in nodes && of in nodes
  {
    var n: nat :| n > 0 && PathUp(nodes, of, x, n);
    PathEndsInGraph(nodes, of, x, n);
  }

  /** No cycle at the node or below it; the rest of the graph may have some. */
  ghost predicate AcyclicBelow(nodes: map<Id, Node>, id: Id) {
    !IsAncestor(nodes, id, id) && forall x :: IsAncestor(nodes, id, x) ==> !IsAncestor(nodes, x, x)
  }

  /** Above no cycle each step down loses a descendant, and the child is above no cycle either. */
  lemma FewerDescendants(nodes: map<Id, Node>, child: Id, parent: Id)
    requires AcyclicBelow(nodes, parent) && Edge(nodes, child, parent)
    ensures AcyclicBelow(nodes, child) && Descendants(nodes, child) < Descendants(nodes, parent)
  {
    EdgeIsAncestor(nodes, child, parent);
    forall x | IsAncestor(nodes, child, x) ensures !IsAncestor(nodes, x, x) {
      AncestorTransitive(nodes, parent, child, x);
    }
    forall x | x in Descendants(nodes, child) ensures x in Descendants(nodes, parent) {
      AncestorTransitive(nodes, parent, child, x);
    }
    assert child in Descendants(nodes, parent) && child !in Descendants(nodes, child);
  }

  // ----- registration -----

  function Registered(nodes: map<Id, Node>, id: Id, parents: seq<Id>): map<Id, Node> { nodes[id := Node(parents)] }

  ghost predicate ParentsKnown(nodes: map<Id, Node>, parents: seq<Id>) { forall p :: p in parents ==> p in nodes }

  lemma SameEdges(nodes: map<Id, Node>, id: Id, parents: seq<Id>, c: Id, p: Id)
    requires Closed(nodes) && ParentsKnown(nodes, parents) && c != id
    ensures Edge(Registered(nodes, id, parents), c, p) <==> Edge(nodes, c, p)
  {}

  /** A path of the new graph is an old path or goes through the registered node. */
  lemma {:induction false} OldOrThrough(nodes: map<Id, Node>, id: Id, parents: seq<Id>, a: Id, b: Id, n: nat) returns (i: nat)
    requires Closed(nodes) && ParentsKnown(nodes, parents) && PathUp(Registered(nodes, id, parents), a, b, n)
    ensures i <= n
    ensures PathUp(nodes, a, b, n) ||
      (PathUp(Registered(nodes, id, parents), a, id, i) && PathUp(Registered(nodes, id, parents), id, b, n - i))
    decreases n
  {
    i := 0;
    if a != id && n > 0 {
      var m :| Edge(Registered(nodes, id, parents), a, m) && PathUp(Registered(nodes, id, parents), m, b, n - 1);
      SameEdges(nodes, id, parents, a, m);
      var j := OldOrThrough(nodes, id, parents, m, b, n - 1);
      i := j + 1;
    }
  }

  /** An old path up to the registered node survives as far as its first visit there, and so does a new one. */
  lemma {:induction false} PathToNode(nodes: map<Id, Node>, id: Id, parents: seq<Id>, a: Id, n: nat)
    requires Closed(nodes) && ParentsKnown(nodes, parents)
    ensures PathUp(nodes, a, id, n) ==> exists i: nat :: i <= n && PathUp(Registered(nodes, id, parents), a, id, i)
    ensures PathUp(Registered(nodes, id, parents), a, id, n) ==> exists i: nat :: i <= n && PathUp(nodes, a, id, i)
    decreases n
  {
    var new' := Registered(nodes, id, parents);
    if a == id {
      assert PathUp(nodes, a, id, 0) && PathUp(new', a, id, 0);
    } else if n > 0 {
      if PathUp(nodes, a, id, n) {
        var m :| Edge(nodes, a, m) && PathUp(nodes, m, id, n - 1);
        SameEdges(nodes, id, parents, a, m);
        PathToNode(nodes, id, parents, m, n - 1);
        var i: nat :| i <= n - 1 && PathUp(new', m, id, i);
        assert PathUp(new', a, id, i + 1);
      }
      if PathUp(new', a, id, n) {
        var m :| Edge(new', a, m) && PathUp(new', m, id, n - 1);
        SameEdges(nodes, id, parents, a, m);
        PathToNode(nodes, id, parents, m, n - 1);
        var i: nat :| i <= n - 1 && PathUp(nodes, m, id, i);
        assert PathUp(nodes, a, id, i + 1);
      }
    }
  }

  ghost predicate SafeToRegister(nodes: map<Id, Node>, id: Id, parents: seq<Id>) {
    id !in parents && forall p :: p in parents ==> !IsAncestor(nodes, id, p)
  }

  lemma CycleAtNode(nodes: map<Id, Node>, id: Id, parents: seq<Id>)
    requires Closed(nodes) && ParentsKnown(nodes, parents)
    ensures IsAncestor(Registered(nodes, id, parents), id, id) <==> !SafeToRegister(nodes, id, parents)
  {
    var new' := Registered(nodes, id, parents);
    if IsAncestor(new', id, id) {
      var n: nat :| n > 0 && PathUp(new', id, id, n);
      var p :| Edge(new', id, p) && PathUp(new', p, id, n - 1);
      PathToNode(nodes, id, parents, p, n - 1);
      var i: nat :| i <= n - 1 && PathUp(nodes, p, id, i);
      assert i > 0 ==> IsAncestor(nodes, id, p);
    } else if !SafeToRegister(nodes, id, parents) {
      var p :| p in parents && (p == id || IsAncestor(nodes, id, p));
      assert Edge(new', id, p);
      if p == id {
        EdgeIsAncestor(new', id, id);
      } else {
        assert IsAncestor(nodes, id, p);
        var n: nat :| n > 0 && PathUp(nodes, p, id, n);
        PathToNode(nodes, id, parents, p, n);
        var i: nat :| i <= n && PathUp(new', p, id, i);
        assert PathUp(new', id, id, i + 1);
      }
    }
  }

  /** Registering (or overwriting) a node keeps the graph acyclic exactly when the id is neither one of its
      own parents nor an ancestor of one. */
  lemma RegisterKeepsAcyclicIff(nodes: map<Id, Node>, id: Id, parents: seq<Id>)
    requires Acyclic(nodes) && Closed(nodes) && ParentsKnown(nodes, parents)
    ensures Acyclic(Registered(nodes, id, parents)) <==> SafeToRegister(nodes, id, parents)
  {
    var new' := Registered(nodes, id, parents);
    CycleAtNode(nodes, id, parents);
    if SafeToRegister(nodes, id, parents) {
      forall x ensures !IsAncestor(new', x, x) {
        if IsAncestor(new', x, x) {
          var n: nat :| n > 0 && PathUp(new', x, x, n);
          var i := OldOrThrough(nodes, id, parents, x, x, n);
          assert !IsAncestor(nodes, x, x);
          PathJoin(new', id, x, id, n - i, i);
        }
      }
    }
  }

  /** A fresh id is always safe. */
  lemma FreshIsSafe(nodes: map<Id, Node>, id: Id, parents: seq<Id>)
    requires ParentsKnown(nodes, parents) && id !in nodes
    ensures SafeToRegister(nodes, id, parents)
  {
    forall p | p in parents ensures !IsAncestor(nodes, id, p) {
      if IsAncestor(nodes, id, p) { AncestorInGraph(nodes, id, p); }
    }
  }

  datatype Registration = Registration(id: Id, parents: seq<Id>)

  /** One registration; unknown parents make it raise and change nothing. */
  ghost function AfterOne(nodes: map<Id, Node>, r: Registration): map<Id, Node> {
    if ParentsKnown(nodes, r.parents) then Registered(nodes, r.id, r.parents) else nodes
  }

  ghost function AfterAll(rs: seq<Registration>): map<Id, Node> {
    if rs == [] then map[] else AfterOne(AfterAll(rs[..|rs| - 1]), rs[|rs| - 1])
  }

  /** Whole runs: as long as no accepted registration reuses an id above its own parents (a fresh id never
      does), every reachable graph is acyclic and complete. */
  lemma {:induction false} RunsStayAcyclic(rs: seq<Registration>)
    requires forall i :: 0 <= i < |rs| ==>
      rs[i].id !in AfterAll(rs[..i]) || SafeToRegister(AfterAll(rs[..i]), rs[i].id, rs[i].parents)
    ensures Acyclic(AfterAll(rs)) && Closed(AfterAll(rs))
  {
    if rs == [] {
      forall x ensures !IsAncestor(AfterAll(rs), x, x) {
        if IsAncestor(AfterAll(rs), x, x) { AncestorInGraph(AfterAll(rs), x, x); }
      }
    } else {
      var n := |rs| - 1;
      var nodes, r := AfterAll(rs[..n]), rs[n];
      forall i | 0 <= i < n ensures rs[..n][..i] == rs[..i] {}
      RunsStayAcyclic(rs[..n]);
      if ParentsKnown(nodes, r.parents) {
        if r.id !in nodes { FreshIsSafe(nodes, r.id, r.parents); }
        RegisterKeepsAcyclicIff(nodes, r.id, r.parents);
      }
    }
  }

  // ----- traversal upwards -----

  /** Everything reached upwards from a set that holds its members' parents stays in the set. */
  lemma {:induction false} ClosedUpwards(nodes: map<Id, Node>, s: set<Id>, a: Id, x: Id, n: nat)
    requires forall c, p :: c in s && Edge(nodes, c, p) ==> p in s
    requires a in s && PathUp(nodes, a, x, n)
    ensures x in s
    decreases n
  {
    if n > 0 {
      var m :| Edge(nodes, a, m) && PathUp(nodes, m, x, n - 1);
      ClosedUpwards(nodes, s, m, x, n - 1);
    }
  }

  ghost predicate NoRepeats(s: seq<Id>) { forall i, j :: 0 <= i < j < |s| ==> s[i] != s[j] }

  /** What one depth-first visit of `nid` appends to the list. */
  ghost predicate Visited(nodes: map<Id, Node>, nid: Id, before: set<Id>, after: set<Id>, new': seq<Id>) {
    && (forall x :: x in after <==> x in before || x in new')
    && NoRepeats(new') && (forall x :: x in new' ==> x !in before && IsAncestor(nodes, x, nid))
    && (forall x, p :: (x == nid || x in new') && Edge(nodes, x, p) ==> p in after)
  }

  /** Parents come first: in the list, or among the nodes visited before this visit. */
  ghost predicate ParentsFirst(nodes: map<Id, Node>, before: set<Id>, new': seq<Id>) {
    forall i, p :: 0 <= i < |new'| && Edge(nodes, new'[i], p) ==> p in before || p in new'[..i]
  }

  /** Every proper ancestor of a listed node is listed before it. */
  lemma {:induction false} AncestorsFirst(nodes: map<Id, Node>, s: seq<Id>, i: nat, x: Id, n: nat)
    requires ParentsFirst(nodes, {}, s) && i < |s| && n > 0 && PathUp(nodes, s[i], x, n)
    ensures x in s[..i]
    decreases n
  {
    var m :| Edge(nodes, s[i], m) && PathUp(nodes, m, x, n - 1);
    var none: set<Id> := {};
    assert m in none || m in s[..i];
    if n > 1 {
      var j :| 0 <= j < i && s[j] == m;
      AncestorsFirst(nodes, s, j, x, n - 1);
      assert s[..j] <= s[..i];
    }
  }

  lemma VisitCovers(nodes: map<Id, Node>, id: Id, visited: set<Id>, list: seq<Id>, x: Id)
    requires Visited(nodes, id, {}, visited, list) && IsAncestor(nodes, x, id)
    ensures x in list
  {
    var n: nat :| n > 0 && PathUp(nodes, id, x, n);
    var m :| Edge(nodes, id, m) && PathUp(nodes, m, x, n - 1);
    ClosedUpwards(nodes, visited, m, x, n - 1);
  }

  lemma AncestorsBefore(nodes: map<Id, Node>, list: seq<Id>, i: nat, x: Id)
    requires ParentsFirst(nodes, {}, list) && i < |list| && IsAncestor(nodes, x, list[i])
    ensures x in list[..i]
  {
    var n: nat :| n > 0 && PathUp(nodes, list[i], x, n);
    AncestorsFirst(nodes, list, i, x, n);
  }

  lemma VisitIsExact(nodes: map<Id, Node>, id: Id, visited: set<Id>, list: seq<Id>)
    requires Visited(nodes, id, {}, visited, list)
    ensures forall x :: x in list <==> IsAncestor(nodes, x, id)
    ensures ParentsFirst(nodes, {}, list) ==>
      forall i, x :: 0 <= i < |list| && IsAncestor(nodes, x, list[i]) ==> x in list[..i]
  {
    forall x | IsAncestor(nodes, x, id) ensures x in list { VisitCovers(nodes, id, visited, list, x); }
    if ParentsFirst(nodes, {}, list) {
      forall i, x | 0 <= i < |list| && IsAncestor(nodes, x, list[i]) ensures x in list[..i] {
        AncestorsBefore(nodes, list, i, x);
      }
    }
  }

  // ----- traversal downwards -----

  /** A path from a node down to one of its descendants, both ends included. */
  ghost predicate IsDownPath(nodes: map<Id, Node>, p: seq<Id>) {
    |p| >= 2 && forall i :: 0 < i < |p| ==> Edge(nodes, p[i], p[i - 1])
  }

  function Prefixed(id: Id, ps: seq<seq<Id>>): (r: seq<seq<Id>>)
    ensures |r| == |ps|
  { seq(|ps|, i requires 0 <= i < |ps| => [id] + ps[i]) }

  function Ends(ps: seq<seq<Id>>): (r: seq<Id>)
    requires forall i :: 0 <= i < |ps| ==> ps[i] != []
    ensures |r| == |ps|
  { seq(|ps|, i requires 0 <= i < |ps| => ps[i][|ps[i]| - 1]) }

  lemma EndsThroughChild(id: Id, c: Id, before: seq<seq<Id>>, deeper: seq<seq<Id>>)
    requires forall i :: 0 <= i < |before| ==> before[i] != []
    requires forall i :: 0 <= i < |deeper| ==> deeper[i] != []
    ensures forall i :: 0 <= i < |before + [[id, c]] + Prefixed(id, deeper)| ==>
      (before + [[id, c]] + Prefixed(id, deeper))[i] != []
    ensures Ends(before + [[id, c]] + Prefixed(id, deeper)) == Ends(before) + [c] + Ends(deeper)
  {}

  /** The paths down from `id` whose second node is among the first k of `order`, in the order in which the
      recursive enumeration meets their ends. */
  ghost function Down(nodes: map<Id, Node>, order: seq<Id>, id: Id, k: nat): (r: seq<seq<Id>>)
    requires AcyclicBelow(nodes, id) && k <= |order|
    ensures forall i :: 0 <= i < |r| ==> r[i] != []
    decreases Descendants(nodes, id), k
  {
    if k == 0 then []
    else
      var c, before := order[k - 1], Down(nodes, order, id, k - 1);
      if Edge(nodes, c, id) then
        FewerDescendants(nodes, c, id);
        before + [[id, c]] + Prefixed(id, Down(nodes, order, c, |order|))
      else before
  }

  ghost predicate NoRepeatedPaths(ps: seq<seq<Id>>) { forall i, j :: 0 <= i < j < |ps| ==> ps[i] != ps[j] }

  ghost predicate StartsDown(nodes: map<Id, Node>, id: Id, first: seq<Id>, p: seq<Id>) {
    IsDownPath(nodes, p) && p[0] == id && p[1] in first
  }

  lemma PrefixIsDownPath(nodes: map<Id, Node>, id: Id, q: seq<Id>)
    requires |q| >= 2
    ensures IsDownPath(nodes, [id] + q) <==> Edge(nodes, q[0], id) && IsDownPath(nodes, q)
  {
    var p := [id] + q;
    if IsDownPath(nodes, p) {
      assert Edge(nodes, p[1], p[0]);
      forall i | 0 < i < |q| ensures Edge(nodes, q[i], q[i - 1]) { assert Edge(nodes, p[i + 1], p[i]); }
    }
  }

  /** The recursive enumeration meets every path down exactly once. */
  lemma {:induction false} DownIsExact(nodes: map<Id, Node>, order: seq<Id>, id: Id, k: nat)
    requires AcyclicBelow(nodes, id) && NoRepeats(order) && k <= |order| && forall x :: x in nodes ==> x in order
    ensures forall p :: p in Down(nodes, order, id, k) <==> StartsDown(nodes, id, order[..k], p)
    ensures NoRepeatedPaths(Down(nodes, order, id, k))
    decreases Descendants(nodes, id), k
  {
    if k > 0 {
      var c, before := order[k - 1], Down(nodes, order, id, k - 1);
      DownIsExact(nodes, order, id, k - 1);
      assert order[..k] == order[..k - 1] + [c];
      if Edge(nodes, c, id) {
        FewerDescendants(nodes, c, id);
        DownIsExact(nodes, order, c, |order|);
        DownThroughChild(nodes, order, id, k, c, before, Down(nodes, order, c, |order|));
      } else {
        forall p | StartsDown(nodes, id, order[..k], p) ensures p[1] != c {
          assert Edge(nodes, p[1], p[0]);
        }
      }
    }
  }

  lemma DownThroughChild(nodes: map<Id, Node>, order: seq<Id>, id: Id, k: nat, c: Id, before: seq<seq<Id>>, deeper: seq<seq<Id>>)
    requires 0 < k <= |order| && NoRepeats(order) && c == order[k - 1] && Edge(nodes, c, id)
    requires forall x :: x in nodes ==> x in order
    requires NoRepeatedPaths(before) && forall p :: p in before <==> StartsDown(nodes, id, order[..k - 1], p)
    requires NoRepeatedPaths(deeper) && forall p :: p in deeper <==> StartsDown(nodes, c, order, p)
    ensures var all := before + [[id, c]] + Prefixed(id, deeper);
      NoRepeatedPaths(all) && forall p :: p in all <==> StartsDown(nodes, id, order[..k], p)
  {
    var longer := Prefixed(id, deeper);
    var all := before + [[id, c]] + longer;
    assert order[..k] == order[..k - 1] + [c] && c !in order[..k - 1];
    forall i | 0 <= i < |longer|
      ensures |longer[i]| > 2 && longer[i][1] == c && longer[i][1..] == deeper[i] && StartsDown(nodes, id, order[..k], longer[i])
    {
      assert deeper[i] in deeper;
      PrefixIsDownPath(nodes, id, deeper[i]);
    }
    forall p | StartsDown(nodes, id, order[..k], p) && p[1] == c ensures p == [id, c] || p in longer {
      if |p| > 2 {
        PrefixIsDownPath(nodes, id, p[1..]);
        assert p == [id] + p[1..] && Edge(nodes, p[2], p[1]);
        assert p[1..] in deeper;
        var i :| 0 <= i < |deeper| && deeper[i] == p[1..];
        assert longer[i] == p;
      }
    }
    forall i, j | 0 <= i < j < |all| ensures all[i] != all[j] {
      if i < |before| <= j { assert all[i] in before; }
    }
    forall p | p in all ensures StartsDown(nodes, id, order[..k], p) {
      var i :| 0 <= i < |all| && all[i] == p;
      if i < |before| { assert all[i] in before; }
    }
  }

  lemma {:induction false} PathAsSequence(nodes: map<Id, Node>, x: Id, a: Id, n: nat) returns (p: seq<Id>)
    requires PathUp(nodes, x, a, n)
    ensures |p| == n + 1 && p[0] == a && p[n] == x && forall i :: 0 < i < |p| ==> Edge(nodes, p[i], p[i - 1])
    decreases n
  {
    if n == 0 {
      p := [x];
    } else {
      var m :| Edge(nodes, x, m) && PathUp(nodes, m, a, n - 1);
      p := PathAsSequence(nodes, m, a, n - 1);
      p := p + [x];
    }
  }

  lemma {:induction false} SequenceAsPath(nodes: map<Id, Node>, p: seq<Id>)
    requires IsDownPath(nodes, p)
    ensures IsAncestor(nodes, p[0], p[|p| - 1])
    decreases |p|
  {
    var n := |p| - 1;
    assert Edge(nodes, p[n], p[n - 1]);
    EdgeIsAncestor(nodes, p[n], p[n - 1]);
    if n > 1 {
      SequenceAsPath(nodes, p[..n]);
      AncestorTransitive(nodes, p[0], p[n - 1], p[n]);
    }
  }

  /** The ends of the paths down are exactly the nodes that have `id` as an ancestor. */
  lemma EndsAreDescendants(nodes: map<Id, Node>, order: seq<Id>, id: Id)
    requires AcyclicBelow(nodes, id) && NoRepeats(order) && forall x :: x in nodes ==> x in order
    ensures forall x :: x in Ends(Down(nodes, order, id, |order|)) <==> IsAncestor(nodes, id, x)
  {
    var ps := Down(nodes, order, id, |order|);
    DownIsExact(nodes, order, id, |order|);
    forall x ensures x in Ends(ps) <==> IsAncestor(nodes, id, x) {
      if x in Ends(ps) {
        var i :| 0 <= i < |ps| && Ends(ps)[i] == x;
        assert ps[i] in ps;
        SequenceAsPath(nodes, ps[i]);
      }
      if IsAncestor(nodes, id, x) {
        var p := PathDownTo(nodes, order, id, x);
        assert p in ps;
        var i :| 0 <= i < |ps| && ps[i] == p;
        assert Ends(ps)[i] == x;
      }
    }
  }

  lemma PathDownTo(nodes: map<Id, Node>, order: seq<Id>, id: Id, x: Id) returns (p: seq<Id>)
    requires IsAncestor(nodes, id, x) && forall y :: y in nodes ==> y in order
    ensures StartsDown(nodes, id, order[..|order|], p) && p[|p| - 1] == x
  {
    var n: nat :| n > 0 && PathUp(nodes, x, id, n);
    p := PathAsSequence(nodes, x, id, n);
    assert Edge(nodes, p[1], p[0]);
  }

  lemma ProperSubsetSize(a: set<Id>, b: set<Id>)
    requires a < b
    ensures |a| < |b|
  {
    var x :| x in b && x !in a;
    Common.SubsetSize(a, b - {x});
  }

  /** Above no cycle a path down visits each descendant at most once. */
  lemma {:induction false} PathsAreShort(nodes: map<Id, Node>, p: seq<Id>)
    requires IsDownPath(nodes, p) && AcyclicBelow(nodes, p[0])
    ensures |p| <= |Descendants(nodes, p[0])| + 1
    decreases |p|
  {
    assert Edge(nodes, p[1], p[0]);
    FewerDescendants(nodes, p[1], p[0]);
    ProperSubsetSize(Descendants(nodes, p[1]), Descendants(nodes, p[0]));
    if |p| > 2 {
      assert p == [p[0]] + p[1..];
      PrefixIsDownPath(nodes, p[0], p[1..]);
      PathsAreShort(nodes, p[1..]);
    }
  }

  /** A cycle can be walked any number of times. */
  lemma {:induction false} LongWalk(nodes: map<Id, Node>, x: Id, m: nat) returns (n: nat)
    requires IsAncestor(nodes, x, x)
    ensures n >= m && PathUp(nodes, x, x, n)
  {
    n := 0;
    if m > 0 {
      var before := LongWalk(nodes, x, m - 1);
      var once: nat :| once > 0 && PathUp(nodes, x, x, once);
      PathJoin(nodes, x, x, x, before, once);
      n := before + once;
    }
  }

  lemma LongPathDown(nodes: map<Id, Node>, id: Id, m: nat) returns (p: seq<Id>)
    requires !AcyclicBelow(nodes, id)
    ensures IsDownPath(nodes, p) && p[0] == id && |p| > m
  {
    if IsAncestor(nodes, id, id) {
      var n := LongWalk(nodes, id, m + 1);
      p := PathAsSequence(nodes, id, id, n);
    } else {
      var x :| IsAncestor(nodes, id, x) && IsAncestor(nodes, x, x);
      var n := LongWalk(nodes, x, m + 1);
      var rest: nat :| rest > 0 && PathUp(nodes, x, id, rest);
      PathJoin(nodes, x, x, id, n, rest);
      p := PathAsSequence(nodes, x, id, n + rest);
    }
  }

  ghost predicate PathsBounded(nodes: map<Id, Node>, id: Id, bound: nat) {
    forall p :: IsDownPath(nodes, p) && p[0] == id ==> |p| <= bound
  }

  /** The paths down from a node, one recursive call each, are bounded exactly when it is above no cycle: the
      enumeration below is total on all the nodes on which the recursion ends. */
  lemma DescentEndsIff(nodes: map<Id, Node>, id: Id)
    ensures (exists bound: nat :: PathsBounded(nodes, id, bound)) <==> AcyclicBelow(nodes, id)
  {
    if AcyclicBelow(nodes, id) {
      forall p | IsDownPath(nodes, p) && p[0] == id ensures |p| <= |Descendants(nodes, id)| + 1 {
        PathsAreShort(nodes, p);
      }
      assert PathsBounded(nodes, id, |Descendants(nodes, id)| + 1);
    } else {
      forall bound: nat ensures !PathsBounded(nodes, id, bound) {
        var p := LongPathDown(nodes, id, bound);
      }
    }
  }

  datatype Outcome = Nodes(ids: seq<Id>) | KeyError | ValueError

  class LineageTracker {
    var nodes: map<Id, Node>
    /** The insertion order of the dictionary. */
    var order: seq<Id>

    ghost predicate Valid()
      reads this
    {
      Closed(nodes) && NoRepeats(order) && forall x :: x in order <==> x in nodes
    }

    constructor ()
      ensures Valid() && nodes == map[] && Acyclic(nodes)
    {
      nodes, order := map[], [];
      new;
      forall x ensures !IsAncestor(nodes, x, x) {
        if IsAncestor(nodes, x, x) { AncestorInGraph(nodes, x, x); }
      }
    }

    /** `register_dataset` and, with the deterministic id and the one parent, `register_model_input`. */
    method Register(id: Id, parents: seq<Id>) returns (r: Outcome)
      requires Valid()
      modifies this
      ensures Valid() && (r.ValueError? <==> !ParentsKnown(old(nodes), parents))
      ensures r.ValueError? ==> nodes == old(nodes) && order == old(order)
      ensures !r.ValueError? ==> r == Nodes([id]) && nodes == Registered(old(nodes), id, parents)
      ensures !r.ValueError? ==> order == if id in old(nodes) then old(order) else old(order) + [id]
      // a fresh id never closes a cycle; a reused one does exactly when it is above one of its parents
      ensures old(Acyclic(nodes)) && !r.ValueError? ==> (Acyclic(nodes) <==> SafeToRegister(old(nodes), id, parents))
      ensures old(Acyclic(nodes)) && id !in old(nodes) ==> Acyclic(nodes)
    {
      for i := 0 to |parents|
        invariant forall j :: 0 <= j < i ==> parents[j] in nodes
      {
        if parents[i] !in nodes {
          assert parents[i] in parents;
          return ValueError;
        }
      }
      if Acyclic(nodes) {
        RegisterKeepsAcyclicIff(nodes, id, parents);
        if id !in nodes { FreshIsSafe(nodes, id, parents); }
      }
      if id !in nodes {
        order := order + [id];
      }
      nodes := Registered(nodes, id, parents);
      return Nodes([id]);
    }

    method GetAncestors(id: Id) returns (r: Outcome)
      requires Valid()
      ensures r.KeyError? <==> id !in nodes
      ensures id in nodes ==> r.Nodes? && NoRepeats(r.ids) && forall x :: x in r.ids <==> IsAncestor(nodes, x, id)
      ensures id in nodes && Acyclic(nodes) ==>
        forall i, x :: 0 <= i < |r.ids| && IsAncestor(nodes, x, r.ids[i]) ==> x in r.ids[..i]
    {
      if id !in nodes {
        return KeyError;
      }
      var visited, list := Dfs(id, {}, []);
      assert list[0..] == list;
      VisitIsExact(nodes, id, visited, list);
      return Nodes(list);
    }

    /** One list entry per path down; the recursion follows the dictionary order. */
    method GetDescendants(id: Id) returns (r: Outcome)
      requires Valid() && AcyclicBelow(nodes, id)
      ensures r.KeyError? <==> id !in nodes
      ensures id in nodes ==> r == Nodes(Ends(Down(nodes, order, id, |order|)))
      ensures id in nodes ==> forall x :: x in r.ids <==> IsAncestor(nodes, id, x)
      decreases Descendants(nodes, id)
    {
      if id !in nodes {
        return KeyError;
      }
      var list: seq<Id> := [];
      for k := 0 to |order|
        invariant list == Ends(Down(nodes, order, id, k))
      {
        var c := order[k];
        if id in nodes[c].parents {
          FewerDescendants(nodes, c, id);
          var deeper := GetDescendants(c);
          EndsThroughChild(id, c, Down(nodes, order, id, k), Down(nodes, order, c, |order|));
          list := list + [c] + deeper.ids;
        }
      }
      EndsAreDescendants(nodes, order, id);
      return Nodes(list);
    }

    method Dfs(nid: Id, before: set<Id>, list: seq<Id>) returns (after: set<Id>, list': seq<Id>)
      requires Valid() && nid in nodes && before <= nodes.Keys
      ensures after <= nodes.Keys && list <= list'
      ensures Visited(nodes, nid, before, after, list'[|list|..])
      ensures Acyclic(nodes) ==> ParentsFirst(nodes, before, list'[|list|..])
      decreases nodes.Keys - before
    {
      after, list' := before, list;
      var parents := nodes[nid].parents;
      for i := 0 to |parents|
        invariant before <= after <= nodes.Keys && list <= list'
        invariant var new' := list'[|list|..];
          && (forall x :: x in after <==> x in before || x in new')
          && NoRepeats(new') && (forall x :: x in new' ==> x !in before && IsAncestor(nodes, x, nid))
          && (forall x, p :: x in new' && Edge(nodes, x, p) ==> p in after)
          && (Acyclic(nodes) ==> ParentsFirst(nodes, before, new'))
        invariant forall j :: 0 <= j < i && parents[j] in nodes ==> parents[j] in after
      {
        var pid := parents[i];
        if pid !in after && pid in nodes {
          ghost var done, seen := list'[|list|..], after;
          ghost var at := |list'|;
          var deeper, longer := Dfs(pid, after + {pid}, list');
          ghost var more := longer[at..];
          assert Edge(nodes, nid, pid);
          VisitJoins(nodes, nid, pid, before, seen, deeper, done, more);
          list' := longer + [pid];
          after := deeper;
          assert list'[|list|..] == done + more + [pid];
        }
      }
    }
  }

  /** Appending the visit of a parent, and then the parent, to what a visit has listed so far. */
  lemma VisitJoins(nodes: map<Id, Node>, nid: Id, pid: Id, before: set<Id>, seen: set<Id>, after: set<Id>,
                   done: seq<Id>, more: seq<Id>)
    requires Edge(nodes, nid, pid) && pid !in seen
    requires forall x :: x in seen <==> x in before || x in done
    requires NoRepeats(done) && forall x :: x in done ==> x !in before && IsAncestor(nodes, x, nid)
    requires forall x, p :: x in done && Edge(nodes, x, p) ==> p in seen
    requires Visited(nodes, pid, seen + {pid}, after, more)
    ensures var all := done + more + [pid];
      && (forall x :: x in after <==> x in before || x in all)
      && NoRepeats(all) && (forall x :: x in all ==> x !in before && IsAncestor(nodes, x, nid))
      && (forall x, p :: x in all && Edge(nodes, x, p) ==> p in after)
    ensures Acyclic(nodes) && ParentsFirst(nodes, before, done) && ParentsFirst(nodes, seen + {pid}, more) ==>
      ParentsFirst(nodes, before, done + more + [pid])
  {
    var all := done + more + [pid];
    EdgeIsAncestor(nodes, nid, pid);
    forall x | x in more ensures IsAncestor(nodes, x, nid) { AncestorTransitive(nodes, x, pid, nid); }
    forall i, j | 0 <= i < j < |all| ensures all[i] != all[j] {
      if i < |done| <= j {
        assert all[i] in done;
        if j < |done| + |more| { assert all[j] in more; }
      } else if i >= |done| && j == |done| + |more| {
        assert all[i] in more;
      }
    }
    if Acyclic(nodes) && ParentsFirst(nodes, before, done) && ParentsFirst(nodes, seen + {pid}, more) {
      forall i, p | 0 <= i < |all| && Edge(nodes, all[i], p) ensures p in before || p in all[..i] {
        if i < |done| {
          assert all[..i] == done[..i];
        } else if i < |done| + |more| {
          var j := i - |done|;
          assert all[..i] == done + more[..j];
          EdgeIsAncestor(nodes, more[j], p);
          if p == pid { AncestorTransitive(nodes, pid, more[j], pid); }
        } else {
          assert all[..i] == done + more;
          EdgeIsAncestor(nodes, pid, p);
        }
      }
    }
  }
}
