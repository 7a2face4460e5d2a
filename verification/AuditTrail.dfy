/** The Merkle audit chain. SHA-256 is a symbolic injective hash: `Leaf` is the hash of the text
    "index:content", `Node` of two digests written one after the other, `Content` of a canonical
    JSON text; the colon in a leaf's text keeps leaves and nodes apart. */
module AuditTrail {
  import opened Common

  datatype Digest =
    | Empty
    | Genesis
    | Content(json: string)
    | Leaf(index: nat, content: Digest)
    | Node(left: Digest, right: Digest)

  // ----- the tree -----

  /** Duplicate the last node of an odd level. */
  function Pad(nodes: seq<Digest>): (r: seq<Digest>)
    ensures |r| % 2 == 0 && nodes <= r && |r| <= |nodes| + 1
    ensures nodes == [] ==> r == []
  {
    if |nodes| % 2 == 1 then nodes + [nodes[|nodes| - 1]] else nodes
  }

  function PairUp(nodes: seq<Digest>): (r: seq<Digest>)
    requires |nodes| % 2 == 0
    ensures |r| == |nodes| / 2
  {
    seq(|nodes| / 2, i requires 0 <= i < |nodes| / 2 => Node(nodes[2 * i], nodes[2 * i + 1]))
  }

  function MerkleRoot(leaves: seq<Digest>): Digest
    decreases |leaves|
  {
    if leaves == [] then Empty
    else if |leaves| == 1 then leaves[0]
    else MerkleRoot(PairUp(Pad(leaves)))
  }

  /** The level-by-level loop; each round halves the number of nodes. */
  method ComputeMerkleRoot(leaves: seq<Digest>) returns (root: Digest)
    ensures root == MerkleRoot(leaves)
  {
    if leaves == [] {
      return Empty;
    }
    var nodes := leaves;
    while |nodes| > 1
      invariant nodes != [] && MerkleRoot(nodes) == MerkleRoot(leaves)
      decreases |nodes|
    {
      nodes := PairUp(Pad(nodes));
    }
    return nodes[0];
  }

  // ----- a root commits to the whole sequence -----

  function Leaves(contents: seq<Digest>): (r: seq<Digest>)
    ensures |r| == |contents|
  {
    seq(|contents|, i requires 0 <= i < |contents| => Leaf(i, contents[i]))
  }

  function RootOf(contents: seq<Digest>): Digest { MerkleRoot(Leaves(contents)) }

  /** The number of `Node`s above the leftmost leaf. */
  function Height(d: Digest): nat {
    if d.Node? then 1 + Height(d.left) else 0
  }

  /** A level of some tree over index-tagged leaves: distinct nodes of one height. */
  ghost predicate Level(nodes: seq<Digest>, height: nat) {
    && (forall i :: 0 <= i < |nodes| ==> Height(nodes[i]) == height)
    && (forall i, j :: 0 <= i < j < |nodes| ==> nodes[i] != nodes[j])
  }

  lemma NextLevel(nodes: seq<Digest>, height: nat)
    requires Level(nodes, height)
    ensures Level(PairUp(Pad(nodes)), height + 1)
  {
    var p, r := Pad(nodes), PairUp(Pad(nodes));
    forall i, j | 0 <= i < j < |r| ensures r[i] != r[j] {
      assert p[2 * i] == nodes[2 * i] && p[2 * j] == nodes[2 * j];
    }
  }

  lemma {:induction false} RootHeight(nodes: seq<Digest>, height: nat)
    requires nodes != [] && Level(nodes, height)
    ensures if |nodes| == 1 then Height(MerkleRoot(nodes)) == height else Height(MerkleRoot(nodes)) > height
    decreases |nodes|
  {
    if |nodes| > 1 {
      NextLevel(nodes, height);
      RootHeight(PairUp(Pad(nodes)), height + 1);
    }
  }

  /** Duplicating the last node cannot hide a difference, because the nodes of a level are distinct. */
  lemma UnpairLevel(a: seq<Digest>, b: seq<Digest>, height: nat)
    requires Level(a, height) && Level(b, height)
    requires PairUp(Pad(a)) == PairUp(Pad(b))
    ensures a == b
  {
    var p, q := Pad(a), Pad(b);
    assert |p| == 2 * |PairUp(p)| == 2 * |PairUp(q)| == |q|;
    forall i | 0 <= i < |p| ensures p[i] == q[i] {
      assert PairUp(p)[i / 2] == PairUp(q)[i / 2];
      assert i == 2 * (i / 2) || i == 2 * (i / 2) + 1;
    }
    assert p == q;
    var n := |p|;
    if n > 0 {
      assert |a| == n - 1 ==> p[n - 1] == p[n - 2];
      assert |b| == n - 1 ==> q[n - 1] == q[n - 2];
      assert |a| == n ==> a[n - 2] != a[n - 1];
      assert |b| == n ==> b[n - 2] != b[n - 1];
    }
    assert a == p[..|a|] && b == q[..|b|];
  }

  lemma {:induction false} RootInjective(a: seq<Digest>, b: seq<Digest>, height: nat)
    requires a != [] && b != [] && Level(a, height) && Level(b, height)
    requires MerkleRoot(a) == MerkleRoot(b)
    ensures a == b
    decreases |a|
  {
    RootHeight(a, height);
    RootHeight(b, height);
    if |a| > 1 {
      NextLevel(a, height);
      NextLevel(b, height);
      RootInjective(PairUp(Pad(a)), PairUp(Pad(b)), height + 1);
      UnpairLevel(a, b, height);
    }
  }

  /** Two histories with the same root are the same history: same length, same contents. */
  lemma RootCommits(a: seq<Digest>, b: seq<Digest>)
    ensures RootOf(a) == RootOf(b) <==> a == b
  {
    if RootOf(a) == RootOf(b) {
      if a != [] { RootHeight(Leaves(a), 0); NotEmpty(Leaves(a)); }
      if b != [] { RootHeight(Leaves(b), 0); NotEmpty(Leaves(b)); }
      if a != [] && b != [] {
        RootInjective(Leaves(a), Leaves(b), 0);
        assert |a| == |Leaves(a)| == |b|;
        forall i | 0 <= i < |a| ensures a[i] == b[i] {
          assert Leaves(a)[i] == Leaves(b)[i];
        }
      }
    }
  }

  lemma {:induction false} NotEmpty(nodes: seq<Digest>)
    requires nodes != [] && forall i :: 0 <= i < |nodes| ==> nodes[i].Leaf? || nodes[i].Node?
    ensures MerkleRoot(nodes).Leaf? || MerkleRoot(nodes).Node?
    decreases |nodes|
  {
    if |nodes| > 1 {
      NotEmpty(PairUp(Pad(nodes)));
    }
  }

  // ----- the order of the leaves in the tree -----

  /** The leaves below a digest, from left to right. */
  function Fringe(d: Digest): seq<Digest> { if d.Node? then Fringe(d.left) + Fringe(d.right) else [d] }

  function FringeAll(nodes: seq<Digest>): seq<Digest> {
    if nodes == [] then [] else FringeAll(nodes[..|nodes| - 1]) + Fringe(nodes[|nodes| - 1])
  }

  lemma {:induction false} PairsKeepFringe(nodes: seq<Digest>)
    requires |nodes| % 2 == 0
    ensures FringeAll(PairUp(nodes)) == FringeAll(nodes)
    decreases |nodes|
  {
    if nodes != [] {
      var n := |nodes|;
      var pre := nodes[..n - 2];
      PairsKeepFringe(pre);
      assert PairUp(nodes)[..|PairUp(nodes)| - 1] == PairUp(pre);
      assert nodes[..n - 1][..n - 2] == pre;
      assert FringeAll(nodes) == FringeAll(pre) + Fringe(nodes[n - 2]) + Fringe(nodes[n - 1]);
    }
  }

  lemma {:induction false} FringeMembers(nodes: seq<Digest>, i: nat, d: Digest)
    requires i < |nodes| && d in Fringe(nodes[i])
    ensures d in FringeAll(nodes)
    decreases |nodes|
  {
    if i < |nodes| - 1 { FringeMembers(nodes[..|nodes| - 1], i, d); }
  }

  /** `all` begins with `nodes` in order, and what follows only repeats members of it. */
  ghost predicate StartsWith(all: seq<Digest>, nodes: seq<Digest>) { nodes <= all && forall d :: d in all ==> d in nodes }

  lemma PadFringe(nodes: seq<Digest>)
    ensures StartsWith(FringeAll(Pad(nodes)), FringeAll(nodes))
  {
    var n := |nodes|;
    if n % 2 == 1 {
      assert Pad(nodes)[..n] == nodes;
      forall d | d in Fringe(nodes[n - 1]) ensures d in FringeAll(nodes) { FringeMembers(nodes, n - 1, d); }
    }
  }

  lemma {:induction false} RootFringe(nodes: seq<Digest>)
    requires nodes != []
    ensures StartsWith(Fringe(MerkleRoot(nodes)), FringeAll(nodes))
    decreases |nodes|
  {
    if |nodes| == 1 {
      assert FringeAll(nodes[..0]) == [];
    } else {
      PairsKeepFringe(Pad(nodes));
      PadFringe(nodes);
      RootFringe(PairUp(Pad(nodes)));
    }
  }

  lemma {:induction false} LeavesAreFringe(leaves: seq<Digest>)
    requires forall i :: 0 <= i < |leaves| ==> leaves[i].Leaf?
    ensures FringeAll(leaves) == leaves
  {
    if leaves != [] {
      LeavesAreFringe(leaves[..|leaves| - 1]);
      assert leaves == leaves[..|leaves| - 1] + [leaves[|leaves| - 1]];
    }
  }

  /** Read from left to right the tree has the leaves in the order of the history, each hash taking its left child
      first; after them come only repetitions made by the padding. */
  lemma RootReadsInOrder(contents: seq<Digest>)
    ensures if contents == [] then RootOf(contents) == Empty else StartsWith(Fringe(RootOf(contents)), Leaves(contents))
  {
    if contents != [] {
      LeavesAreFringe(Leaves(contents));
      RootFringe(Leaves(contents));
    }
  }

  // ----- the persisted table and the chain object -----

  /** One row of `audit_merkle_roots`; the two content columns are NULL in legacy rows. */
  datatype Row = Row(root: Digest, content: Option<Digest>, prev: Option<Digest>)

  datatype Entry = Entry(index: nat, row: Row)

  datatype AppendOutcome = Appended(entry: Entry) | ChainIncomplete | DuplicateIndex

  datatype Verdict = Accepted | Tampered(at: nat) | Incomplete(at: nat)

  /** `es` is the query "all rows, ordered by entry_index". */
  ghost predicate Ordered(es: seq<Entry>, rows: map<nat, Row>) {
    && (forall i, j :: 0 <= i < j < |es| ==> es[i].index < es[j].index)
    && (forall i :: 0 <= i < |es| ==> es[i].index in rows && rows[es[i].index] == es[i].row)
    && (forall k :: k in rows ==> exists i :: 0 <= i < |es| && es[i].index == k)
  }

  predicate Known(es: seq<Entry>) { forall e :: e in es ==> e.row.content.Some? }

  function ContentsOf(es: seq<Entry>): (r: seq<Digest>)
    requires Known(es)
    ensures |r| == |es|
  {
    seq(|es|, i requires 0 <= i < |es| => es[i].row.content.value)
  }

  /** The leaves `append` hashes: each entry's own index, not its position. */
  function TaggedLeaves(es: seq<Entry>): seq<Digest>
    requires Known(es)
  {
    seq(|es|, i requires 0 <= i < |es| => Leaf(es[i].index, es[i].row.content.value))
  }

  function NewEntry(es: seq<Entry>, content: Digest): Entry
    requires Known(es)
  {
    Entry(|es|, Row(MerkleRoot(TaggedLeaves(es) + [Leaf(|es|, content)]), Some(content),
                    Some(if es == [] then Genesis else es[|es| - 1].row.root)))
  }

  /** What `append` does to the in-memory list and to the table: the list grows before the insert can fail. */
  function AppendStep(es: seq<Entry>, rows: map<nat, Row>, json: string): (seq<Entry>, map<nat, Row>, AppendOutcome) {
    if !Known(es) then (es, rows, ChainIncomplete)
    else
      var e := NewEntry(es, Content(json));
      if e.index in rows then (es + [e], rows, DuplicateIndex)
      else (es + [e], rows[e.index := e.row], Appended(e))
  }

  /** The verdict of one round of the verification loop, given that earlier rounds passed. */
  function CheckAt(es: seq<Entry>, rows: map<nat, Row>, start: int, i: nat): Verdict {
    if i >= |es| then Tampered(i)
    else if !Known(es[..i + 1]) then Incomplete(i)
    else if i < start then Accepted
    else
      var recomputed := RootOf(ContentsOf(es[..i + 1]));
      if recomputed == es[i].row.root && i in rows && rows[i].root == recomputed then Accepted else Tampered(i)
  }

  ghost predicate Accepts(es: seq<Entry>, rows: map<nat, Row>, start: int, stop: int) {
    forall i :: 0 <= i < stop ==> CheckAt(es, rows, start, i) == Accepted
  }

  class RootTable {
    var rows: map<nat, Row>

    constructor ()
      ensures rows == map[]
    { rows := map[]; }

    method SelectOrdered() returns (es: seq<Entry>)
      ensures Ordered(es, rows)
    {
      es := [];
      var left := rows.Keys;
      while left != {}
        invariant left <= rows.Keys && Scanned(es, rows, left)
        decreases |left|
      {
        HasLeast(left);
        var k :| IsLeast(k, left);
        ScanStep(es, rows, left, k);
        es := es + [Entry(k, rows[k])];
        left := left - {k};
      }
    }
  }

  /** `es` lists in order the rows outside `left`, all of them below the rows in `left`. */
  ghost predicate Scanned(es: seq<Entry>, rows: map<nat, Row>, left: set<nat>) {
    && (forall i, j :: 0 <= i < j < |es| ==> es[i].index < es[j].index)
    && (forall i :: 0 <= i < |es| ==> es[i].index in rows && rows[es[i].index] == es[i].row)
    && (forall i, k :: 0 <= i < |es| && k in left ==> es[i].index < k)
    && (forall k :: k in rows && k !in left ==> exists i :: 0 <= i < |es| && es[i].index == k)
  }

  lemma ScanStep(es: seq<Entry>, rows: map<nat, Row>, left: set<nat>, k: nat)
    requires Scanned(es, rows, left) && k in rows && IsLeast(k, left)
    ensures Scanned(es + [Entry(k, rows[k])], rows, left - {k})
  {
    var es' := es + [Entry(k, rows[k])];
    forall m | m in rows && m !in left - {k} ensures exists i :: 0 <= i < |es'| && es'[i].index == m {
      if m == k {
        assert es'[|es|].index == m;
      } else {
        var i :| 0 <= i < |es| && es[i].index == m;
        assert es'[i].index == m;
      }
    }
  }

  class AuditMerkleChain {
    var entries: seq<Entry>
    const table: RootTable

    /** Start-up: rehydrate from durable storage. */
    constructor (table: RootTable)
      ensures this.table == table
      ensures Ordered(entries, table.rows)
    {
      this.table := table;
      var es := table.SelectOrdered();
      entries := es;
    }

    method Append(json: string) returns (r: AppendOutcome)
      modifies this, table
      ensures (entries, table.rows, r) == AppendStep(old(entries), old(table.rows), json)
    {
      if !Known(entries) {
        return ChainIncomplete;
      }
      var content := Content(json);
      var index := |entries|;
      var prev := if entries == [] then Genesis else entries[|entries| - 1].row.root;
      var leaves := TaggedLeaves(entries) + [Leaf(index, content)];
      var root := ComputeMerkleRoot(leaves);
      var entry := Entry(index, Row(root, Some(content), Some(prev)));
      entries := entries + [entry];
      if index in table.rows {
        return DuplicateIndex;
      }
      table.rows := table.rows[index := entry.row];
      return Appended(entry);
    }

    /** An omitted end means the number of entries in memory. The verdict names the first round that fails. */
    method VerifyChain(start: int, end: Option<int>) returns (v: Verdict)
      ensures var stop := if end.Some? then end.value else |entries|;
        && (v.Accepted? <==> Accepts(entries, table.rows, start, stop))
        && (!v.Accepted? ==> v.at < stop && v == CheckAt(entries, table.rows, start, v.at)
                             && Accepts(entries, table.rows, start, v.at))
    {
      var stop := if end.Some? then end.value else |entries|;
      var stored := table.rows;
      var contents: seq<Digest> := [];
      var i := 0;
      while i < stop
        invariant 0 <= i && (i <= stop || i == 0)
        invariant i <= |entries| && Known(entries[..i]) && contents == ContentsOf(entries[..i])
        invariant Accepts(entries, stored, start, i)
      {
        v, contents := CheckRound(stored, start, i, contents);
        if !v.Accepted? {
          return v;
        }
        i := i + 1;
      }
      return Accepted;
    }

    /** The body of the verification loop; `contents` collects what the running leaf list is built from. */
    method CheckRound(stored: map<nat, Row>, start: int, i: nat, contents: seq<Digest>)
      returns (v: Verdict, contents': seq<Digest>)
      requires i <= |entries| && Known(entries[..i]) && contents == ContentsOf(entries[..i])
      ensures v == CheckAt(entries, stored, start, i)
      ensures !v.Accepted? ==> v.at == i
      ensures v.Accepted? ==> i < |entries| && Known(entries[..i + 1]) && contents' == ContentsOf(entries[..i + 1])
    {
      contents' := contents;
      if i >= |entries| {
        return Tampered(i), contents;
      }
      var entry := entries[i];
      assert entries[..i + 1] == entries[..i] + [entry];
      if entry.row.content.None? {
        assert entry in entries[..i + 1];
        return Incomplete(i), contents;
      }
      contents' := contents + [entry.row.content.value];
      assert contents' == ContentsOf(entries[..i + 1]);
      if i < start {
        return Accepted, contents';
      }
      var recomputed := ComputeMerkleRoot(Leaves(contents'));
      if recomputed != entry.row.root {
        return Tampered(i), contents';
      }
      if i !in stored || stored[i].root != recomputed {
        return Tampered(i), contents';
      }
      return Accepted, contents';
    }
  }

  // ----- outcomes and verdicts -----

  /** An append is refused only for want of a content; if the table has the index already, the list still grows. */
  lemma AppendOutcomes(es: seq<Entry>, rows: map<nat, Row>, json: string)
    ensures var r := AppendStep(es, rows, json);
      && (r.2.ChainIncomplete? <==> exists i :: 0 <= i < |es| && es[i].row.content.None?)
      && (r.2.ChainIncomplete? ==> r.0 == es)
      && (!r.2.ChainIncomplete? ==> |r.0| == |es| + 1 && r.0[..|es|] == es && r.0[|es|].row.content == Some(Content(json)))
      && (r.2.DuplicateIndex? ==> |es| in rows && r.1 == rows)
      && (r.2.Appended? ==> |es| !in rows && r.1 == rows[|es| := r.0[|es|].row])
  {
    if !Known(es) {
      var e :| e in es && e.row.content.None?;
      var i :| 0 <= i < |es| && es[i] == e;
    }
  }

  /** A round is incomplete exactly when an entry up to it has no content; with the contents present it is tampered
      exactly when it is checked and the list or the table holds another root. */
  lemma VerdictMeans(es: seq<Entry>, rows: map<nat, Row>, start: int, i: nat)
    ensures CheckAt(es, rows, start, i).Incomplete? <==> i < |es| && exists j :: 0 <= j <= i && es[j].row.content.None?
    ensures i < |es| && Known(es[..i + 1]) ==>
      (CheckAt(es, rows, start, i) == Tampered(i) <==>
        i >= start && !(i in rows && es[i].row.root == RootOf(ContentsOf(es[..i + 1])) == rows[i].root))
  {
    if i < |es| {
      if !Known(es[..i + 1]) {
        var e :| e in es[..i + 1] && e.row.content.None?;
        var j :| 0 <= j < i + 1 && es[j] == e;
      } else {
        forall j | 0 <= j <= i ensures es[j].row.content.Some? { assert es[j] in es[..i + 1]; }
      }
    }
  }

  lemma PlacedLeavesMatch(es: seq<Entry>, c: Digest)
    requires Known(es)
    ensures TaggedLeaves(es) + [Leaf(|es|, c)] == Leaves(ContentsOf(es) + [c]) <==> forall i :: 0 <= i < |es| ==> es[i].index == i
  {
    var tagged, placed := TaggedLeaves(es) + [Leaf(|es|, c)], Leaves(ContentsOf(es) + [c]);
    forall i | 0 <= i < |es| ensures tagged[i] == placed[i] <==> es[i].index == i {}
    if tagged == placed {
      forall i | 0 <= i < |es| ensures es[i].index == i { assert tagged[i] == placed[i]; }
    }
  }

  lemma TaggedLevel(es: seq<Entry>, rows: map<nat, Row>, c: Digest)
    requires Ordered(es, rows) && Known(es) && |es| !in rows
    ensures Level(TaggedLeaves(es) + [Leaf(|es|, c)], 0)
  {
    forall i | 0 <= i < |es| ensures es[i].index != |es| {}
  }

  /** Appending tags leaves with the stored indices, verification with the positions: an entry appended to a list
      read back from the table passes its own check exactly when the table had no gap. */
  lemma AppendVerifiesIff(es: seq<Entry>, rows: map<nat, Row>, c: Digest)
    requires Ordered(es, rows) && Known(es) && |es| !in rows
    ensures NewEntry(es, c).row.root == RootOf(ContentsOf(es) + [c]) <==> forall i :: 0 <= i < |es| ==> es[i].index == i
  {
    var tagged, placed := TaggedLeaves(es) + [Leaf(|es|, c)], Leaves(ContentsOf(es) + [c]);
    PlacedLeavesMatch(es, c);
    TaggedLevel(es, rows, c);
    if MerkleRoot(tagged) == MerkleRoot(placed) { RootInjective(tagged, placed, 0); }
  }

  /** If another writer has put a different entry at the next index, the append fails, and from then on the list
      does not verify. */
  lemma ForeignRowIsDetected(es: seq<Entry>, rows: map<nat, Row>, json: string, start: int)
    requires Known(es) && |es| in rows && start <= |es|
    requires rows[|es|].root != RootOf(ContentsOf(es) + [Content(json)])
    ensures var r := AppendStep(es, rows, json);
      r.2.DuplicateIndex? && r.1 == rows && !Accepts(r.0, rows, start, |r.0|)
  {
    var all := AppendStep(es, rows, json).0;
    assert all[..|es| + 1] == all;
    assert ContentsOf(all) == ContentsOf(es) + [Content(json)];
    assert CheckAt(all, rows, start, |es|) == Tampered(|es|);
  }

  // ----- honest histories: any interleaving of appends and restarts -----

  function HonestRow(contents: seq<Digest>, i: nat): Row
    requires i < |contents|
  {
    Row(RootOf(contents[..i + 1]), Some(contents[i]), Some(if i == 0 then Genesis else RootOf(contents[..i])))
  }

  function HonestRows(contents: seq<Digest>): (r: seq<Row>)
    ensures |r| == |contents|
  {
    seq(|contents|, i requires 0 <= i < |contents| => HonestRow(contents, i))
  }

  ghost predicate Holds(rows: map<nat, Row>, rs: seq<Row>) {
    forall k: nat :: (k in rows <==> k < |rs|) && (k in rows ==> rows[k] == rs[k])
  }

  ghost predicate Lists(es: seq<Entry>, rs: seq<Row>) {
    |es| == |rs| && forall i :: 0 <= i < |es| ==> es[i] == Entry(i, rs[i])
  }

  /** The list and table that a tamper-free history of `contents` leaves behind. */
  ghost predicate Honest(es: seq<Entry>, rows: map<nat, Row>, contents: seq<Digest>) {
    Lists(es, HonestRows(contents)) && Holds(rows, HonestRows(contents))
  }

  datatype Op = DoAppend(json: string) | Restart

  ghost predicate Step(es: seq<Entry>, rows: map<nat, Row>, op: Op, es': seq<Entry>, rows': map<nat, Row>) {
    match op
    case DoAppend(json) => var r := AppendStep(es, rows, json); es' == r.0 && rows' == r.1
    case Restart => rows' == rows && Ordered(es', rows)
  }

  /** A run: the lists and tables seen between operations, from an empty store. */
  ghost predicate Run(ops: seq<Op>, lists: seq<seq<Entry>>, tables: seq<map<nat, Row>>) {
    && |lists| == |tables| == |ops| + 1
    && lists[0] == [] && tables[0] == map[]
    && forall i :: 0 <= i < |ops| ==> Step(lists[i], tables[i], ops[i], lists[i + 1], tables[i + 1])
  }

  function Appends(ops: seq<Op>): seq<Digest> {
    if ops == [] then []
    else Appends(ops[..|ops| - 1]) + (if ops[|ops| - 1].DoAppend? then [Content(ops[|ops| - 1].json)] else [])
  }

  lemma HistoryGrows(contents: seq<Digest>, c: Digest)
    ensures HonestRows(contents + [c]) == HonestRows(contents) + [HonestRow(contents + [c], |contents|)]
  {
    var all := contents + [c];
    forall i: nat | i < |contents| ensures HonestRow(all, i) == HonestRow(contents, i) {
      assert all[..i + 1] == contents[..i + 1] && all[..i] == contents[..i];
    }
  }

  lemma NewEntryIsHonest(es: seq<Entry>, contents: seq<Digest>, c: Digest)
    requires Lists(es, HonestRows(contents))
    ensures Known(es) && NewEntry(es, c) == Entry(|contents|, HonestRow(contents + [c], |contents|))
  {
    var all := contents + [c];
    assert TaggedLeaves(es) + [Leaf(|es|, c)] == Leaves(all);
    assert all[..|all|] == all && all[..|contents|] == contents;
    if contents != [] {
      assert contents[..|contents|] == contents;
      assert es[|es| - 1].row == HonestRow(contents, |contents| - 1);
    }
  }

  lemma ListGrows(es: seq<Entry>, rs: seq<Row>, row: Row)
    requires Lists(es, rs)
    ensures Lists(es + [Entry(|rs|, row)], rs + [row])
  {
  }

  lemma TableGrows(rows: map<nat, Row>, rs: seq<Row>, row: Row)
    requires Holds(rows, rs)
    ensures |rs| !in rows && Holds(rows[|rs| := row], rs + [row])
  {
  }

  lemma AppendKeepsHonest(es: seq<Entry>, rows: map<nat, Row>, contents: seq<Digest>, json: string)
    requires Honest(es, rows, contents)
    ensures var r := AppendStep(es, rows, json);
      r.2.Appended? && Honest(r.0, r.1, contents + [Content(json)])
  {
    var c := Content(json);
    var row := HonestRow(contents + [c], |contents|);
    NewEntryIsHonest(es, contents, c);
    HistoryGrows(contents, c);
    ListGrows(es, HonestRows(contents), row);
    TableGrows(rows, HonestRows(contents), row);
  }

  lemma DenseLength(es: seq<Entry>, rows: map<nat, Row>, n: nat)
    requires Ordered(es, rows) && forall k: nat :: k in rows <==> k < n
    ensures |es| <= n
  {
    if es != [] {
      IndexAtLeastPosition(es, |es| - 1);
      assert es[|es| - 1].index in rows;
    }
  }

  /** Reading back a table whose keys are 0..n-1 gives them in their places. */
  lemma {:induction false} DenseOrder(es: seq<Entry>, rows: map<nat, Row>, n: nat, i: nat)
    requires Ordered(es, rows) && (forall k: nat :: k in rows <==> k < n) && i <= n
    ensures i <= |es| <= n && (forall j :: 0 <= j < i ==> es[j].index == j)
  {
    DenseLength(es, rows, n);
    if i > 0 {
      var last := i - 1;
      DenseOrder(es, rows, n, last);
      assert last in rows;
      var p :| 0 <= p < |es| && es[p].index == last;
      IndexAtLeastPosition(es, p);
    }
  }

  lemma RestartKeepsHonest(es: seq<Entry>, rows: map<nat, Row>, contents: seq<Digest>)
    requires Holds(rows, HonestRows(contents)) && Ordered(es, rows)
    ensures Honest(es, rows, contents)
  {
    DenseOrder(es, rows, |contents|, |contents|);
  }

  /** Whole-run theorem: no interleaving of appends and restarts ever loses or changes an entry. */
  lemma {:induction false} RunsAreHonest(ops: seq<Op>, lists: seq<seq<Entry>>, tables: seq<map<nat, Row>>)
    requires Run(ops, lists, tables)
    ensures Honest(lists[|ops|], tables[|ops|], Appends(ops))
  {
    if ops != [] {
      var n := |ops| - 1;
      RunsAreHonest(ops[..n], lists[..n + 1], tables[..n + 1]);
      assert Step(lists[n], tables[n], ops[n], lists[n + 1], tables[n + 1]);
      match ops[n]
      case DoAppend(json) => AppendKeepsHonest(lists[n], tables[n], Appends(ops[..n]), json);
      case Restart =>
        RestartKeepsHonest(lists[n + 1], tables[n + 1], Appends(ops[..n]));
        assert Appends(ops) == Appends(ops[..n]);
    }
  }

  lemma HonestRound(es: seq<Entry>, rows: map<nat, Row>, contents: seq<Digest>, start: int, i: nat)
    requires Honest(es, rows, contents) && i < |contents|
    ensures CheckAt(es, rows, start, i) == Accepted
  {
    var front := es[..i + 1];
    forall j | 0 <= j < |front| ensures front[j].row.content == Some(contents[j]) {
      assert es[j] == Entry(j, HonestRows(contents)[j]);
    }
    ContentsAre(front, contents[..i + 1]);
    assert es[i].row == HonestRow(contents, i) && rows[i] == HonestRow(contents, i);
  }

  /** Completeness: an honest store verifies on exactly the ranges that end inside it. */
  lemma HonestVerifies(es: seq<Entry>, rows: map<nat, Row>, contents: seq<Digest>, start: int, stop: int)
    requires Honest(es, rows, contents)
    ensures Accepts(es, rows, start, stop) <==> stop <= |contents|
  {
    forall i: nat | i < |contents| ensures CheckAt(es, rows, start, i) == Accepted {
      HonestRound(es, rows, contents, start, i);
    }
    if stop > |contents| {
      assert CheckAt(es, rows, start, |contents|) != Accepted;
    }
  }

  // ----- tampering -----

  /** If the root stored at an accepted index is genuine, so is every content up to that index. */
  lemma AcceptedRootFixesContents(es: seq<Entry>, rows: map<nat, Row>, contents: seq<Digest>, start: int, stop: int, i: nat)
    requires Accepts(es, rows, start, stop) && start <= i < stop && i < |contents|
    requires i in rows && rows[i].root == RootOf(contents[..i + 1])
    ensures i < |es| && Known(es[..i + 1]) && ContentsOf(es[..i + 1]) == contents[..i + 1]
  {
    assert CheckAt(es, rows, start, i) == Accepted;
    RootCommits(ContentsOf(es[..i + 1]), contents[..i + 1]);
  }

  /** What is left of a table after deleting rows and rewriting content columns, the root column kept. */
  ghost predicate RootsGenuine(rows: map<nat, Row>, contents: seq<Digest>) {
    forall k :: k in rows ==> k < |contents| && rows[k].root == RootOf(contents[..k + 1])
  }

  ghost predicate IsPrefixOf(rows: map<nat, Row>, contents: seq<Digest>, m: nat) {
    && m <= |contents|
    && forall k: nat :: (k in rows <==> k < m) && (k in rows ==> rows[k].content == Some(contents[k]))
  }

  lemma AcceptedRound(es: seq<Entry>, rows: map<nat, Row>, contents: seq<Digest>, i: nat)
    requires RootsGenuine(rows, contents) && Ordered(es, rows)
    requires i < |es| && CheckAt(es, rows, 0, i) == Accepted
    ensures es[i].index == i && i in rows && es[i].row.content == Some(contents[i])
  {
    var k, c := es[i].index, ContentsOf(es[..i + 1]);
    assert es[i].row == rows[k];
    RootCommits(c, contents[..k + 1]);
    assert |c| == k + 1;
    assert c[i] == es[i].row.content.value;
  }

  /** The i-th entry read back is row i, with the content of history. */
  ghost predicate InPlace(es: seq<Entry>, rows: map<nat, Row>, contents: seq<Digest>, j: nat)
    requires j < |es|
  {
    j < |contents| && j in rows && es[j].row == rows[j] && es[j].row.content == Some(contents[j])
  }

  lemma PrefixRound(es: seq<Entry>, rows: map<nat, Row>, contents: seq<Digest>, i: nat)
    requires i < |es| && forall j: nat :: j < |es| ==> InPlace(es, rows, contents, j)
    requires i < |contents| && i in rows && rows[i].root == RootOf(contents[..i + 1])
    ensures CheckAt(es, rows, 0, i) == Accepted
  {
    var front, known := es[..i + 1], contents[..i + 1];
    forall j | 0 <= j < |front| ensures front[j].row.content == Some(known[j]) {
      assert InPlace(es, rows, contents, j);
    }
    ContentsAre(front, known);
    assert InPlace(es, rows, contents, i);
  }

  lemma PrefixEntries(es: seq<Entry>, rows: map<nat, Row>, contents: seq<Digest>)
    requires Ordered(es, rows) && IsPrefixOf(rows, contents, |es|)
    ensures forall j: nat :: j < |es| ==> InPlace(es, rows, contents, j)
  {
    DenseOrder(es, rows, |es|, |es|);
    forall j: nat | j < |es| ensures InPlace(es, rows, contents, j) {
      assert es[j].index == j;
    }
  }

  lemma ContentsAre(es: seq<Entry>, contents: seq<Digest>)
    requires |es| == |contents| && forall j :: 0 <= j < |es| ==> es[j].row.content == Some(contents[j])
    ensures Known(es) && ContentsOf(es) == contents
  {
  }

  /** After rows are deleted or contents rewritten, a restart followed by full verification accepts
      exactly when what is left is an unmodified prefix of the history. */
  lemma FullVerificationDetects(es: seq<Entry>, rows: map<nat, Row>, contents: seq<Digest>)
    requires RootsGenuine(rows, contents) && Ordered(es, rows)
    ensures Accepts(es, rows, 0, |es|) <==> IsPrefixOf(rows, contents, |es|)
  {
    OrderedSize(es, rows, contents);
    if Accepts(es, rows, 0, |es|) {
      forall i: nat | i < |es| ensures es[i].index == i && i in rows && es[i].row.content == Some(contents[i]) {
        AcceptedRound(es, rows, contents, i);
      }
      forall k: nat
        ensures k in rows <==> k < |es|
        ensures k in rows ==> rows[k].content == Some(contents[k])
      {
        if k in rows {
          var i :| 0 <= i < |es| && es[i].index == k;
        }
      }
    } else if IsPrefixOf(rows, contents, |es|) {
      PrefixEntries(es, rows, contents);
      forall i: nat | i < |es| ensures CheckAt(es, rows, 0, i) == Accepted {
        assert InPlace(es, rows, contents, i);
        PrefixRound(es, rows, contents, i);
      }
    }
  }

  /** Asking for the known length instead leaves nothing undetected. */
  lemma KnownLengthDetectsAll(es: seq<Entry>, rows: map<nat, Row>, contents: seq<Digest>)
    requires RootsGenuine(rows, contents) && Ordered(es, rows)
    ensures Accepts(es, rows, 0, |contents|) <==> IsPrefixOf(rows, contents, |contents|)
  {
    assert CheckAt(es, rows, 0, |es|) != Accepted;
    if Accepts(es, rows, 0, |contents|) {
      OrderedSize(es, rows, contents);
      FullVerificationDetects(es, rows, contents);
    } else if IsPrefixOf(rows, contents, |contents|) {
      DenseOrder(es, rows, |contents|, |contents|);
      FullVerificationDetects(es, rows, contents);
    }
  }

  lemma OrderedSize(es: seq<Entry>, rows: map<nat, Row>, contents: seq<Digest>)
    requires RootsGenuine(rows, contents) && Ordered(es, rows)
    ensures |es| <= |contents|
  {
    if es != [] {
      IndexAtLeastPosition(es, |es| - 1);
    }
  }

  lemma {:induction false} IndexAtLeastPosition(es: seq<Entry>, i: nat)
    requires i < |es| && forall i, j :: 0 <= i < j < |es| ==> es[i].index < es[j].index
    ensures es[i].index >= i
  {
    if i > 0 { IndexAtLeastPosition(es, i - 1); }
  }
}
