/** The partitioned row store: a tree of directories, each holding numbered shard files and a sidecar record. A key is
    a path, that is, a sequence of directory names. File writes are atomic and succeed. */
module Partitioning {
  import opened Common

  /** Sanitising keeps dots, so a name can be the one of the parent directory; a single dot is dropped when the path
      is built. */
  type Text(==, 00, !new)
  datatype Name = Parent | Named(text: Text)
  type Path = seq<Name>
  type Row(==, 00, !new)

  /** The sidecar. An update time that cannot be parsed is None. */
  datatype Meta = Meta(rowCount: nat, createdAt: int, updatedAt: Option<int>)
  datatype Dir = Dir(shards: map<nat, seq<Row>>, meta: Option<Meta>)
  type Tree = map<Path, Dir>

  /** Below the root. Only the first name of a key comes from the data; the others are parts of a date. */
  predicate Inside(p: Path) { p == [] || p[0] != Parent }

  // ---------------------------------------------------------------- bags of rows

  type Bags<!K> = K -> multiset<Row>

  ghost function Sum<K>(ks: set<K>, f: Bags<K>): multiset<Row>
    decreases |ks|
  {
    if ks == {} then multiset{} else
    var k :| k in ks;
    f(k) + Sum(ks - {k}, f)
  }

  /** The order in which the parts are added does not matter. */
  lemma {:induction false} SumTake<K>(ks: set<K>, f: Bags<K>, k: K)
    requires k in ks
    ensures Sum(ks, f) == f(k) + Sum(ks - {k}, f)
    decreases |ks|
  {
    var j :| j in ks && Sum(ks, f) == f(j) + Sum(ks - {j}, f);
    if j != k {
      SumTake(ks - {j}, f, k);
      SumTake(ks - {k}, f, j);
      assert ks - {j} - {k} == ks - {k} - {j};
    }
  }

  lemma {:induction false} SumAdds<K>(ks: set<K>, f: Bags<K>, g: Bags<K>, h: Bags<K>)
    requires forall k :: k in ks ==> f(k) == g(k) + h(k)
    ensures Sum(ks, f) == Sum(ks, g) + Sum(ks, h)
    decreases |ks|
  {
    if ks != {} {
      var k :| k in ks;
      SumAdds(ks - {k}, f, g, h);
      SumTake(ks, f, k);
      SumTake(ks, g, k);
      SumTake(ks, h, k);
    }
  }

  /** Equal parts, and empty ones, make no difference. */
  lemma {:induction false} SumSame<K>(ks: set<K>, ls: set<K>, f: Bags<K>, g: Bags<K>)
    requires ls <= ks
    requires forall k :: k in ks ==> f(k) == if k in ls then g(k) else multiset{}
    ensures Sum(ks, f) == Sum(ls, g)
    decreases |ks|
  {
    if ks != {} {
      var k :| k in ks;
      SumTake(ks, f, k);
      if k in ls {
        SumTake(ls, g, k);
        SumSame(ks - {k}, ls - {k}, f, g);
      } else {
        SumSame(ks - {k}, ls, f, g);
      }
    }
  }

  lemma {:induction false} SumMember<K>(ks: set<K>, f: Bags<K>, r: Row)
    ensures r in Sum(ks, f) <==> exists k :: k in ks && r in f(k)
    decreases |ks|
  {
    if ks != {} {
      var j :| j in ks && Sum(ks, f) == f(j) + Sum(ks - {j}, f);
      SumMember(ks - {j}, f, r);
    }
  }

  ghost function ShardBags(shards: map<nat, seq<Row>>): Bags<nat> {
    i => if i in shards then multiset(shards[i]) else multiset{}
  }

  /** Everything in one directory. */
  ghost function Rows(d: Dir): multiset<Row> { Sum(d.shards.Keys, ShardBags(d.shards)) }

  function Lookup(t: Tree, p: Path): Dir { if p in t then t[p] else Dir(map[], None) }

  ghost function DirBags(t: Tree): Bags<Path> { p => Rows(Lookup(t, p)) }

  /** Everything in the store. */
  ghost function Bag(t: Tree): multiset<Row> { Sum(t.Keys, DirBags(t)) }

  // ---------------------------------------------------------------- grouping

  function Group(rows: seq<Row>, key: Row -> Path, p: Path): seq<Row> {
    if rows == [] then []
    else
      var before, r := Group(rows[..|rows| - 1], key, p), rows[|rows| - 1];
      if key(r) == p then before + [r] else before
  }

  function KeysOf(rows: seq<Row>, key: Row -> Path): set<Path> { set r | r in rows :: key(r) }

  ghost function GroupBags(rows: seq<Row>, key: Row -> Path): Bags<Path> {
    p => multiset(Group(rows, key, p))
  }

  /** A group keeps the order of its rows: the group of two frames one after the other is that of the first, then
      that of the second. */
  lemma {:induction false} GroupKeepsOrder(a: seq<Row>, b: seq<Row>, key: Row -> Path, p: Path)
    ensures Group(a + b, key, p) == Group(a, key, p) + Group(b, key, p)
    decreases |b|
  {
    if b == [] {
      assert a + b == a;
    } else {
      GroupKeepsOrder(a, b[..|b| - 1], key, p);
      assert (a + b)[..|a + b| - 1] == a + b[..|b| - 1];
    }
  }

  lemma {:induction false} GroupMembers(rows: seq<Row>, key: Row -> Path, p: Path)
    ensures forall r :: r in Group(rows, key, p) <==> r in rows && key(r) == p
  {
    if rows != [] {
      assert rows == rows[..|rows| - 1] + [rows[|rows| - 1]];
      GroupMembers(rows[..|rows| - 1], key, p);
    }
  }

  lemma GroupHasKey(rows: seq<Row>, key: Row -> Path, p: Path)
    requires Group(rows, key, p) != []
    ensures p in KeysOf(rows, key)
  {
    GroupMembers(rows, key, p);
    var r := Group(rows, key, p)[0];
    assert r in rows && key(r) == p;
  }

  lemma NoGroup(rows: seq<Row>, key: Row -> Path, p: Path)
    requires p !in KeysOf(rows, key)
    ensures Group(rows, key, p) == []
  {
    if Group(rows, key, p) != [] { GroupHasKey(rows, key, p); }
  }

  ghost function Single(p: Path, r: Row): Bags<Path> { q => if q == p then multiset{r} else multiset{} }

  lemma SingleSum(ks: set<Path>, p: Path, r: Row)
    requires p in ks
    ensures Sum(ks, Single(p, r)) == multiset{r}
  {
    SumTake({p}, Single(p, r), p);
    SumSame(ks, {p}, Single(p, r), Single(p, r));
  }

  lemma OneMoreInGroup(pre: seq<Row>, r: Row, key: Row -> Path, p: Path)
    ensures GroupBags(pre + [r], key)(p) == GroupBags(pre, key)(p) + Single(key(r), r)(p)
  {
    assert (pre + [r])[..|pre|] == pre;
  }

  /** The groups of any set of keys that includes the rows' own, added up. */
  lemma MoreKeys(rows: seq<Row>, key: Row -> Path, ks: set<Path>)
    requires KeysOf(rows, key) <= ks
    ensures Sum(ks, GroupBags(rows, key)) == Sum(KeysOf(rows, key), GroupBags(rows, key))
  {
    forall p | p in ks && p !in KeysOf(rows, key) ensures GroupBags(rows, key)(p) == multiset{} { NoGroup(rows, key, p); }
    SumSame(ks, KeysOf(rows, key), GroupBags(rows, key), GroupBags(rows, key));
  }

  lemma GroupGrows(pre: seq<Row>, r: Row, key: Row -> Path, ks: set<Path>)
    requires ks == KeysOf(pre, key) + {key(r)}
    ensures Sum(ks, GroupBags(pre + [r], key)) == Sum(KeysOf(pre, key), GroupBags(pre, key)) + multiset{r}
  {
    MoreKeys(pre, key, ks);
    SingleSum(ks, key(r), r);
    forall p | p in ks ensures GroupBags(pre + [r], key)(p) == GroupBags(pre, key)(p) + Single(key(r), r)(p) {
      OneMoreInGroup(pre, r, key, p);
    }
    SumAdds(ks, GroupBags(pre + [r], key), GroupBags(pre, key), Single(key(r), r));
  }

  /** The groups are a partition of the rows. */
  lemma {:induction false} GroupsPartition(rows: seq<Row>, key: Row -> Path)
    ensures Sum(KeysOf(rows, key), GroupBags(rows, key)) == multiset(rows)
  {
    if rows != [] {
      var pre, r := rows[..|rows| - 1], rows[|rows| - 1];
      assert rows == pre + [r];
      GroupsPartition(pre, key);
      GroupGrows(pre, r, key, KeysOf(rows, key));
    }
  }

  // ---------------------------------------------------------------- what a write does

  /** The index after the last, or 0 in an empty directory. */
  ghost predicate IsNextShard(shards: map<nat, seq<Row>>, i: nat) {
    (forall j :: j in shards ==> j < i) && (i == 0 || (i - 1) as nat in shards)
  }

  function Updated(meta: Option<Meta>, added: nat, now: int): Meta {
    match meta
    case None => Meta(added, now, Some(now))
    case Some(m) => Meta(m.rowCount + added, m.createdAt, Some(now))
  }

  /** One new shard, holding the group, and an updated sidecar. */
  ghost predicate Appended(before: Dir, after: Dir, group: seq<Row>, now: int) {
    && (exists i :: IsNextShard(before.shards, i) && after.shards == before.shards[i := group])
    && after.meta == Some(Updated(before.meta, |group|, now))
  }

  /** The groups of the keys in `done` have been written, and nothing else has changed. */
  ghost predicate WrittenFor(before: Tree, after: Tree, rows: seq<Row>, key: Row -> Path, now: int, done: set<Path>) {
    && after.Keys == before.Keys + done
    && (forall p :: p in before && p !in done ==> after[p] == before[p])
    && (forall p :: p in done ==> Appended(Lookup(before, p), after[p], Group(rows, key, p), now))
  }

  lemma OneMoreWritten(before: Tree, t: Tree, after: Tree, rows: seq<Row>, key: Row -> Path, now: int, done: set<Path>,
                       p: Path)
    requires WrittenFor(before, t, rows, key, now, done) && p !in done
    requires p in after && after == t[p := after[p]] && Appended(Lookup(t, p), after[p], Group(rows, key, p), now)
    ensures WrittenFor(before, after, rows, key, now, done + {p})
  {
    assert Lookup(t, p) == Lookup(before, p);
  }

  ghost predicate Written(before: Tree, after: Tree, rows: seq<Row>, key: Row -> Path, now: int) {
    WrittenFor(before, after, rows, key, now, KeysOf(rows, key))
  }

  lemma AppendedRows(before: Dir, after: Dir, group: seq<Row>, now: int)
    requires Appended(before, after, group, now)
    ensures Rows(after) == Rows(before) + multiset(group)
  {
    var i :| IsNextShard(before.shards, i) && after.shards == before.shards[i := group];
    SumTake(after.shards.Keys, ShardBags(after.shards), i);
    assert i !in before.shards;
    assert after.shards.Keys - {i} == before.shards.Keys;
    SumSame(before.shards.Keys, before.shards.Keys, ShardBags(after.shards), ShardBags(before.shards));
  }

  lemma WriteAddsGroup(before: Tree, after: Tree, rows: seq<Row>, key: Row -> Path, now: int, p: Path)
    requires Written(before, after, rows, key, now) && p in after
    ensures DirBags(after)(p) == DirBags(before)(p) + GroupBags(rows, key)(p)
  {
    if p in KeysOf(rows, key) {
      AppendedRows(Lookup(before, p), after[p], Group(rows, key, p), now);
    } else {
      NoGroup(rows, key, p);
    }
  }

  /** A write adds exactly its rows to the store. */
  lemma WriteAddsRows(before: Tree, after: Tree, rows: seq<Row>, key: Row -> Path, now: int)
    requires Written(before, after, rows, key, now)
    ensures Bag(after) == Bag(before) + multiset(rows)
  {
    var ks := after.Keys;
    forall p | p in ks ensures DirBags(after)(p) == DirBags(before)(p) + GroupBags(rows, key)(p) {
      WriteAddsGroup(before, after, rows, key, now, p);
    }
    SumAdds(ks, DirBags(after), DirBags(before), GroupBags(rows, key));
    SumSame(ks, before.Keys, DirBags(before), DirBags(before));
    MoreKeys(rows, key, ks);
    GroupsPartition(rows, key);
  }

  /** No shard is ever rewritten or lost by a write. */
  lemma WriteKeepsShards(before: Tree, after: Tree, rows: seq<Row>, key: Row -> Path, now: int, p: Path, i: nat)
    requires Written(before, after, rows, key, now)
    requires p in before && i in before[p].shards
    ensures p in after && i in after[p].shards && after[p].shards[i] == before[p].shards[i]
  {
    if p in KeysOf(rows, key) { assert Appended(before[p], after[p], Group(rows, key, p), now); }
  }

  /** The sidecar's row count is the number of rows beside it. */
  ghost predicate Counted(d: Dir) { d.meta.Some? && d.meta.value.rowCount == |Rows(d)| }

  /** After appending, the count is right exactly when it was right before, a missing sidecar standing for zero. */
  lemma AppendKeepsCountIff(before: Dir, after: Dir, group: seq<Row>, now: int)
    requires Appended(before, after, group, now)
    ensures Counted(after) <==> if before.meta.None? then Rows(before) == multiset{} else Counted(before)
  {
    AppendedRows(before, after, group, now);
    assert |Rows(after)| == |Rows(before)| + |group|;
  }

  /** A write dates the update of every key it writes, keeps the creation time of the old ones and gives the new ones
      its own, and touches no other sidecar. */
  lemma WriteDates(before: Tree, after: Tree, rows: seq<Row>, key: Row -> Path, now: int, p: Path)
    requires Written(before, after, rows, key, now) && p in after
    ensures p in KeysOf(rows, key) ==>
      && after[p].meta.Some? && after[p].meta.value.updatedAt == Some(now)
      && after[p].meta.value.createdAt == if p in before && before[p].meta.Some? then before[p].meta.value.createdAt else now
    ensures p !in KeysOf(rows, key) ==> p in before && after[p] == before[p]
  {
    if p in KeysOf(rows, key) { assert Appended(Lookup(before, p), after[p], Group(rows, key, p), now); }
  }

  ghost predicate AllCounted(t: Tree) { forall p :: p in t ==> Counted(t[p]) }

  lemma WriteKeepsCounts(before: Tree, after: Tree, rows: seq<Row>, key: Row -> Path, now: int)
    requires Written(before, after, rows, key, now) && AllCounted(before)
    ensures AllCounted(after)
  {
    forall p | p in after ensures Counted(after[p]) {
      if p in KeysOf(rows, key) {
        AppendKeepsCountIff(Lookup(before, p), after[p], Group(rows, key, p), now);
      }
    }
  }

  /** Every row lies in the directory of its own key. */
  ghost predicate WellFiled(t: Tree, key: Row -> Path) {
    forall p, r :: p in t && r in Rows(t[p]) ==> key(r) == p
  }

  lemma WriteKeepsFiling(before: Tree, after: Tree, rows: seq<Row>, key: Row -> Path, now: int)
    requires Written(before, after, rows, key, now) && WellFiled(before, key)
    ensures WellFiled(after, key)
  {
    forall p, r | p in after && r in Rows(after[p]) ensures key(r) == p {
      if p in KeysOf(rows, key) {
        AppendedRows(Lookup(before, p), after[p], Group(rows, key, p), now);
        GroupMembers(rows, key, p);
      }
    }
  }

  /** Reading one partition is selecting the rows of its key from the whole. */
  lemma PartitionIsSelection(t: Tree, key: Row -> Path, p: Path, r: Row)
    requires WellFiled(t, key) && p in t
    ensures Rows(t[p])[r] == if key(r) == p then Bag(t)[r] else 0
  {
    SumTake(t.Keys, DirBags(t), p);
    SumMember(t.Keys - {p}, DirBags(t), r);
    if q :| q in t.Keys - {p} && r in DirBags(t)(q) { assert q in t && r in Rows(t[q]); }
    if key(r) != p { assert r !in Rows(t[p]); }
  }

  // ---------------------------------------------------------------- runs

  datatype Batch = Batch(rows: seq<Row>, now: int)

  ghost predicate IsRun(states: seq<Tree>, batches: seq<Batch>, key: Row -> Path) {
    && |states| == |batches| + 1
    && forall n :: 0 <= n < |batches| ==> WroteBatch(states, n, batches[n], key)
  }

  ghost predicate WroteBatch(states: seq<Tree>, n: nat, batch: Batch, key: Row -> Path)
    requires n + 1 < |states|
  {
    Written(states[n], states[n + 1], batch.rows, key, batch.now)
  }

  function AllRows(batches: seq<Batch>): seq<Row> {
    if batches == [] then [] else AllRows(batches[..|batches| - 1]) + batches[|batches| - 1].rows
  }

  /** From an empty root, any series of writes stores exactly the rows written, filed under their keys and counted. */
  lemma {:induction false} RunStoresExactlyItsRows(states: seq<Tree>, batches: seq<Batch>, key: Row -> Path)
    requires IsRun(states, batches, key) && states[0] == map[]
    ensures Bag(states[|batches|]) == multiset(AllRows(batches))
    ensures AllCounted(states[|batches|]) && WellFiled(states[|batches|], key)
  {
    if batches == [] {
      assert Bag(states[0]) == multiset{};
    } else {
      var n := |batches| - 1;
      forall i | 0 <= i < n ensures WroteBatch(states[..|batches|], i, batches[..n][i], key) {
        assert WroteBatch(states, i, batches[i], key);
      }
      RunStoresExactlyItsRows(states[..|batches|], batches[..n], key);
      assert WroteBatch(states, n, batches[n], key);
      WriteAddsRows(states[n], states[n + 1], batches[n].rows, key, batches[n].now);
      WriteKeepsCounts(states[n], states[n + 1], batches[n].rows, key, batches[n].now);
      WriteKeepsFiling(states[n], states[n + 1], batches[n].rows, key, batches[n].now);
    }
  }

  /** The times of the first and the last batch with a row of the key. */
  function FirstWrite(batches: seq<Batch>, key: Row -> Path, p: Path): Option<int> {
    if batches == [] then None
    else
      var before, b := FirstWrite(batches[..|batches| - 1], key, p), batches[|batches| - 1];
      if before.None? && p in KeysOf(b.rows, key) then Some(b.now) else before
  }

  function LastWrite(batches: seq<Batch>, key: Row -> Path, p: Path): Option<int> {
    if batches == [] then None
    else
      var b := batches[|batches| - 1];
      if p in KeysOf(b.rows, key) then Some(b.now) else LastWrite(batches[..|batches| - 1], key, p)
  }

  ghost predicate DatedBy(t: Tree, batches: seq<Batch>, key: Row -> Path, p: Path) {
    && (p in t <==> LastWrite(batches, key, p).Some?) && (p in t <==> FirstWrite(batches, key, p).Some?)
    && (p in t ==> t[p].shards != map[] && t[p].meta.Some?)
    && (p in t ==> t[p].meta.value.updatedAt == LastWrite(batches, key, p))
    && (p in t ==> Some(t[p].meta.value.createdAt) == FirstWrite(batches, key, p))
  }

  /** On every run a partition exists exactly if a row of its key was written, and its sidecar says when the first
      and the last such write was. */
  lemma {:induction false} RunDates(states: seq<Tree>, batches: seq<Batch>, key: Row -> Path, p: Path)
    requires IsRun(states, batches, key) && states[0] == map[]
    ensures DatedBy(states[|batches|], batches, key, p)
  {
    if batches != [] {
      var n := |batches| - 1;
      forall i | 0 <= i < n ensures WroteBatch(states[..|batches|], i, batches[..n][i], key) {
        assert WroteBatch(states, i, batches[i], key);
      }
      RunDates(states[..|batches|], batches[..n], key, p);
      assert WroteBatch(states, n, batches[n], key);
      StepDates(states[n], states[n + 1], batches[..n], batches[n], key, p);
      assert batches == batches[..n] + [batches[n]];
    }
  }

  lemma StepDates(before: Tree, after: Tree, pre: seq<Batch>, b: Batch, key: Row -> Path, p: Path)
    requires DatedBy(before, pre, key, p) && Written(before, after, b.rows, key, b.now)
    ensures DatedBy(after, pre + [b], key, p)
  {
    assert (pre + [b])[..|pre|] == pre;
    if p in after { WriteDates(before, after, b.rows, key, b.now, p); }
    if p in KeysOf(b.rows, key) {
      assert Appended(Lookup(before, p), after[p], Group(b.rows, key, p), b.now);
      var i :| after[p].shards == Lookup(before, p).shards[i := Group(b.rows, key, p)];
      assert i in after[p].shards;
    }
  }

  /** The groups written for a key, one for each batch that has a row of it. */
  function GroupsWritten(batches: seq<Batch>, key: Row -> Path, p: Path): seq<seq<Row>> {
    if batches == [] then []
    else
      var before, b := GroupsWritten(batches[..|batches| - 1], key, p), batches[|batches| - 1];
      if p in KeysOf(b.rows, key) then before + [Group(b.rows, key, p)] else before
  }

  ghost predicate Shards(d: Dir, groups: seq<seq<Row>>) { d.shards == map i: nat | i < |groups| :: groups[i] }

  lemma NextShardIsNext(before: Dir, after: Dir, group: seq<Row>, now: int, groups: seq<seq<Row>>)
    requires Shards(before, groups) && Appended(before, after, group, now)
    ensures Shards(after, groups + [group])
  {
    var i :| IsNextShard(before.shards, i) && after.shards == before.shards[i := group];
    assert i == |groups| by {
      if groups != [] { assert (|groups| - 1) as nat in before.shards; }
    }
  }

  /** On every run the shards of a partition are numbered from 0 without a gap, and shard i holds, in order, the rows
      of the i-th batch that had any of its key. */
  lemma {:induction false} RunShards(states: seq<Tree>, batches: seq<Batch>, key: Row -> Path, p: Path)
    requires IsRun(states, batches, key) && states[0] == map[]
    ensures Shards(Lookup(states[|batches|], p), GroupsWritten(batches, key, p))
  {
    if batches != [] {
      var n := |batches| - 1;
      forall i | 0 <= i < n ensures WroteBatch(states[..|batches|], i, batches[..n][i], key) {
        assert WroteBatch(states, i, batches[i], key);
      }
      RunShards(states[..|batches|], batches[..n], key, p);
      assert WroteBatch(states, n, batches[n], key);
      if p in KeysOf(batches[n].rows, key) {
        NextShardIsNext(Lookup(states[n], p), states[n + 1][p], Group(batches[n].rows, key, p), batches[n].now,
                        GroupsWritten(batches[..n], key, p));
      }
    }
  }

  /** What a walk from the root finds. */
  function View(t: Tree): Tree { map p | p in t && Inside(p) :: t[p] }

  function Beside(t: Tree): Tree { map p | p in t && !Inside(p) :: t[p] }

  lemma ViewSplitsRows(t: Tree)
    ensures Bag(t) == Bag(View(t)) + Bag(Beside(t))
  {
    var v, b := View(t), Beside(t);
    SumAdds(t.Keys, DirBags(t), Only(v.Keys, DirBags(t)), Only(b.Keys, DirBags(t)));
    SumSame(t.Keys, v.Keys, Only(v.Keys, DirBags(t)), DirBags(v));
    SumSame(t.Keys, b.Keys, Only(b.Keys, DirBags(t)), DirBags(b));
  }

  /** So an unfiltered read returns the rows written exactly when no key leaves the root. */
  lemma ReadIsCompleteIff(states: seq<Tree>, batches: seq<Batch>, key: Row -> Path)
    requires IsRun(states, batches, key) && states[0] == map[]
    ensures Bag(View(states[|batches|])) == multiset(AllRows(batches)) <==> forall r :: r in AllRows(batches) ==> Inside(key(r))
  {
    var t := states[|batches|];
    RunStoresExactlyItsRows(states, batches, key);
    ViewSplitsRows(t);
    forall r ensures r in Bag(Beside(t)) <==> r in AllRows(batches) && !Inside(key(r)) {
      BesideHolds(t, key, r);
      assert r in multiset(AllRows(batches)) <==> r in AllRows(batches);
    }
    assert Bag(View(t)) == Bag(t) <==> Bag(Beside(t)) == multiset{};
    if Bag(Beside(t)) != multiset{} { var r :| r in Bag(Beside(t)); }
  }

  lemma BesideHolds(t: Tree, key: Row -> Path, r: Row)
    requires WellFiled(t, key)
    ensures r in Bag(Beside(t)) <==> r in Bag(t) && !Inside(key(r))
  {
    SumMember(Beside(t).Keys, DirBags(Beside(t)), r);
    SumMember(t.Keys, DirBags(t), r);
    if r in Bag(t) && !Inside(key(r)) {
      var p :| p in t.Keys && r in DirBags(t)(p);
      assert r in Rows(t[p]) && p in Beside(t).Keys && r in DirBags(Beside(t))(p);
    }
    if r in Bag(Beside(t)) {
      var p :| p in Beside(t).Keys && r in DirBags(Beside(t))(p);
      assert r in Rows(t[p]) && r in DirBags(t)(p);
    }
  }

  /** A shard, once written, is found unchanged in every later state. */
  lemma {:induction false} ShardsAreImmutable(states: seq<Tree>, batches: seq<Batch>, key: Row -> Path, m: nat, n: nat,
                                              p: Path, i: nat)
    requires IsRun(states, batches, key) && m <= n < |states|
    requires p in states[m] && i in states[m][p].shards
    ensures p in states[n] && i in states[n][p].shards && states[n][p].shards[i] == states[m][p].shards[i]
    decreases n - m
  {
    if m < n {
      assert WroteBatch(states, m, batches[m], key);
      WriteKeepsShards(states[m], states[m + 1], batches[m].rows, key, batches[m].now, p, i);
      ShardsAreImmutable(states, batches, key, m + 1, n, p, i);
    }
  }

  // ---------------------------------------------------------------- the writer and the reader

  class Root {
    /** What lies below the root, and what keys that leave it have written elsewhere. */
    var tree: Tree
    var outside: Tree

    constructor ()
      ensures Valid() && Whole() == map[]
    {
      tree, outside := map[], map[];
    }

    ghost predicate Valid()
      reads this
    { (forall p :: p in tree ==> Inside(p)) && forall p :: p in outside ==> !Inside(p) }

    ghost function Whole(): Tree
      reads this
    { tree + outside }
  }

  /** The two parts are what a walk from the root finds, and the rest. */
  lemma PartsAreViews(root: Root)
    requires root.Valid()
    ensures root.tree == View(root.Whole()) && root.outside == Beside(root.Whole())
  {}

  method NextShardIndex(shards: map<nat, seq<Row>>) returns (i: nat)
    ensures IsNextShard(shards, i)
  {
    i := 0;
    var left := shards.Keys;
    while left != {}
      invariant left <= shards.Keys
      invariant forall j :: j in shards && j !in left ==> j < i
      invariant i == 0 || (i - 1) as nat in shards
      decreases |left|
    {
      var j :| j in left;
      left := left - {j};
      if j >= i { i := j + 1; }
    }
  }

  class PartitionedDatasetWriter {
    const root: Root
    const key: Row -> Path
    const derive: Row -> Row

    constructor (root: Root, key: Row -> Path, derive: Row -> Row)
      ensures this.root == root && this.key == key && this.derive == derive
    {
      this.root, this.key, this.derive := root, key, derive;
    }

    method WriteGroup(p: Path, group: seq<Row>, now: int)
      requires root.Valid()
      modifies root
      ensures root.Valid() && p in root.Whole() && root.Whole() == old(root.Whole())[p := root.Whole()[p]]
      ensures Appended(Lookup(old(root.Whole()), p), root.Whole()[p], group, now)
    {
      var dir := Lookup(if Inside(p) then root.tree else root.outside, p);
      var i := NextShardIndex(dir.shards);
      var after := Dir(dir.shards[i := group], Some(Updated(dir.meta, |group|, now)));
      ghost var before := root.Whole();
      assert dir == Lookup(before, p);
      if Inside(p) { root.tree := root.tree[p := after]; } else { root.outside := root.outside[p := after]; }
      assert root.Whole() == before[p := after];
    }

    /** The keys in order of first appearance. */
    method DistinctKeys(rows: seq<Row>) returns (keys: seq<Path>)
      ensures forall p :: p in keys <==> p in KeysOf(rows, key)
      ensures forall i, j :: 0 <= i < j < |keys| ==> keys[i] != keys[j]
    {
      keys := [];
      for n := 0 to |rows|
        invariant forall p :: p in keys <==> p in KeysOf(rows[..n], key)
        invariant forall i, j :: 0 <= i < j < |keys| ==> keys[i] != keys[j]
      {
        assert rows[..n + 1] == rows[..n] + [rows[n]];
        assert KeysOf(rows[..n + 1], key) == KeysOf(rows[..n], key) + {key(rows[n])};
        if key(rows[n]) !in keys { keys := keys + [key(rows[n])]; }
      }
      assert rows[..|rows|] == rows;
    }

    /** Groups the rows by key, one new shard for each group. */
    method Write(rows: seq<Row>, now: int) returns (r: Result<map<Path, nat>>)
      requires root.Valid()
      modifies root
      ensures root.Valid()
      ensures rows == [] ==> r.ValueError? && root.Whole() == old(root.Whole())
      ensures rows != [] ==> Written(old(root.Whole()), root.Whole(), Derived(rows, derive), key, now)
      ensures rows != [] ==> r.Ok? && r.value.Keys == KeysOf(Derived(rows, derive), key)
      ensures rows != [] ==> forall p :: p in r.value ==> r.value[p] == |Group(Derived(rows, derive), key, p)|
    {
      if rows == [] { return ValueError; }
      var derived := Derived(rows, derive);
      var keys := DistinctKeys(derived);
      var result: map<Path, nat> := map[];
      ghost var before := root.Whole();
      for n := 0 to |keys|
        invariant root.Valid()
        invariant result.Keys == FirstKeys(keys, n)
        invariant forall p :: p in result ==> result[p] == |Group(derived, key, p)|
        invariant WrittenFor(before, root.Whole(), derived, key, now, FirstKeys(keys, n))
      {
        var p := keys[n];
        var group := Group(derived, key, p);
        ghost var whole := root.Whole();
        WriteGroup(p, group, now);
        OneMoreWritten(before, whole, root.Whole(), derived, key, now, FirstKeys(keys, n), p);
        MoreFirstKeys(keys, n);
        result := result[p := |group|];
      }
      assert FirstKeys(keys, |keys|) == KeysOf(derived, key);
      r := Ok(result);
    }
  }

  /** The rows with the strategy's columns added. */
  function Derived(rows: seq<Row>, derive: Row -> Row): (r: seq<Row>)
    ensures |r| == |rows| && forall i :: 0 <= i < |rows| ==> r[i] == derive(rows[i])
  {
    seq(|rows|, i requires 0 <= i < |rows| => derive(rows[i]))
  }

  function FirstKeys(keys: seq<Path>, n: nat): set<Path>
    requires n <= |keys|
  {
    set i | 0 <= i < n :: keys[i]
  }

  lemma MoreFirstKeys(keys: seq<Path>, n: nat)
    requires n < |keys|
    ensures FirstKeys(keys, n + 1) == FirstKeys(keys, n) + {keys[n]}
  {}

  method ReadDir(d: Dir) returns (rows: seq<Row>)
    ensures multiset(rows) == Rows(d)
  {
    rows := [];
    var left := d.shards.Keys;
    while left != {}
      invariant left <= d.shards.Keys
      invariant multiset(rows) + Sum(left, ShardBags(d.shards)) == Rows(d)
      decreases |left|
    {
      var i :| i in left;
      SumTake(left, ShardBags(d.shards), i);
      rows := rows + d.shards[i];
      left := left - {i};
    }
  }

  function Matching(t: Tree, matches: Path -> bool): set<Path> { set p | p in t && matches(p) }

  class PartitionedDatasetReader {
    const root: Root

    constructor (root: Root)
      ensures this.root == root
    {
      this.root := root;
    }

    /** Reads every partition for which `matches` holds; with no filter, all of them. */
    method Read(matches: Path -> bool) returns (rows: seq<Row>)
      ensures multiset(rows) == Sum(Matching(root.tree, matches), DirBags(root.tree))
    {
      rows := [];
      var left := Matching(root.tree, matches);
      ghost var all := left;
      while left != {}
        invariant left <= all
        invariant multiset(rows) + Sum(left, DirBags(root.tree)) == Sum(all, DirBags(root.tree))
        decreases |left|
      {
        var p :| p in left;
        SumTake(left, DirBags(root.tree), p);
        var chunk := ReadDir(root.tree[p]);
        rows := rows + chunk;
        left := left - {p};
      }
    }

    method ReadAll() returns (rows: seq<Row>)
      ensures multiset(rows) == Bag(root.tree)
    {
      rows := Read(_ => true);
      assert Matching(root.tree, _ => true) == root.tree.Keys;
    }
  }

  /** A filter on the partition key returns exactly the stored rows whose key passes it. */
  lemma FilterIsSelection(t: Tree, key: Row -> Path, matches: Path -> bool, r: Row)
    requires WellFiled(t, key)
    ensures Sum(Matching(t, matches), DirBags(t))[r] == if matches(key(r)) then Bag(t)[r] else 0
  {
    var ks, p := Matching(t, matches), key(r);
    if p in t {
      PartitionIsSelection(t, key, p, r);
    } else {
      SumMember(t.Keys, DirBags(t), r);
      assert r !in Bag(t);
    }
    if p in ks {
      SumTake(ks, DirBags(t), p);
      SumMember(ks - {p}, DirBags(t), r);
    } else {
      SumMember(ks, DirBags(t), r);
    }
  }

  /** A filter on a documented column: the sidecar does not hold it, so the value is compared with the whole key. */
  function ColumnFilter(value: Name): Path -> bool { p => p == [value] }

  ghost predicate FiltersRight(t: Tree, column: Row -> Name, value: Name) {
    forall r :: Sum(Matching(t, ColumnFilter(value)), DirBags(t))[r] == if column(r) == value then Bag(t)[r] else 0
  }

  /** Whatever the column, it selects the stored rows with that value exactly when they are those whose key is
      that one name. */
  lemma ColumnFilterIsRightIff(t: Tree, key: Row -> Path, column: Row -> Name, value: Name)
    requires WellFiled(t, key)
    ensures FiltersRight(t, column, value) <==> forall r :: r in Bag(t) ==> (column(r) == value <==> key(r) == [value])
  {
    forall r
      ensures Sum(Matching(t, ColumnFilter(value)), DirBags(t))[r] == if key(r) == [value] then Bag(t)[r] else 0
    {
      FilterIsSelection(t, key, ColumnFilter(value), r);
    }
    if FiltersRight(t, column, value) {
      forall r | r in Bag(t) ensures column(r) == value <==> key(r) == [value] {
        assert Sum(Matching(t, ColumnFilter(value)), DirBags(t))[r] == if column(r) == value then Bag(t)[r] else 0;
      }
    }
  }

  /** A column that is the i-th name of the key, as a year, a month or a pair is: past the first name the filter is
      right only when there is nothing to find, and for the first one only when it is the whole key. */
  lemma KeyColumnFilterIsRightIff(t: Tree, key: Row -> Path, column: Row -> Name, i: nat, value: Name)
    requires WellFiled(t, key) && forall r :: i < |key(r)| && key(r)[i] == column(r)
    ensures FiltersRight(t, column, value) <==>
      forall r :: r in Bag(t) && column(r) == value ==> i == 0 && |key(r)| == 1
  {
    ColumnFilterIsRightIff(t, key, column, value);
    forall r ensures key(r) == [value] <==> column(r) == value && |key(r)| == 1 {
      if column(r) == value && |key(r)| == 1 { assert key(r) == [key(r)[0]]; }
    }
  }

  // ---------------------------------------------------------------- pruning

  /** A partition the pruner acts on: it holds a shard, and its sidecar gives a time before the cutoff. */
  predicate Expired(d: Dir, cutoff: int) {
    d.shards != map[] && d.meta.Some? && d.meta.value.updatedAt.Some? && d.meta.value.updatedAt.value < cutoff
  }

  /** `p` is `top` or lies below it. */
  predicate Under(p: Path, top: Path) { top <= p }

  ghost predicate Doomed(t: Tree, p: Path, cutoff: int) {
    exists q :: q in t && Under(p, q) && Expired(t[q], cutoff)
  }

  /** The directories with shards, in some order. */
  method DiscoverPartitions(t: Tree) returns (found: seq<Path>)
    ensures forall p :: p in found <==> p in t && t[p].shards != map[]
  {
    found := [];
    var left := set p | p in t && t[p].shards != map[];
    ghost var all := left;
    while left != {}
      invariant left <= all && forall p :: p in found <==> p in all - left
      decreases |left|
    {
      var p :| p in left;
      found, left := found + [p], left - {p};
    }
  }

  predicate Covered(p: Path, tops: seq<Path>) { exists top :: top in tops && Under(p, top) }

  function Without(t: Tree, tops: seq<Path>): Tree { map p | p in t && !Covered(p, tops) :: t[p] }

  ghost function Pruned(t: Tree, cutoff: int): Tree { map p | p in t && !Doomed(t, p, cutoff) :: t[p] }

  /** Deleting one directory with everything below it. */
  function RemoveTree(t: Tree, p: Path): Tree { map q | q in t && !Under(q, p) :: t[q] }

  lemma CoveredGrows(q: Path, tops: seq<Path>, p: Path)
    ensures Covered(q, tops + [p]) <==> Covered(q, tops) || Under(q, p)
  {
    if top :| top in tops && Under(q, top) { assert top in tops + [p]; }
    assert p in tops + [p];
  }

  lemma WithoutGrows(t: Tree, tops: seq<Path>, p: Path)
    ensures Without(t, tops + [p]) == RemoveTree(Without(t, tops), p)
  {
    forall q ensures Covered(q, tops + [p]) <==> Covered(q, tops) || Under(q, p) { CoveredGrows(q, tops, p); }
  }

  /** The first n directories have been considered: `pruned` lists expired ones only and covers them all. */
  ghost predicate Considered(t: Tree, found: seq<Path>, n: nat, pruned: seq<Path>, cutoff: int)
    requires n <= |found| && forall p :: p in found ==> p in t
  {
    && (forall p :: p in pruned ==> p in t && Expired(t[p], cutoff))
    && forall i :: 0 <= i < n && Expired(t[found[i]], cutoff) ==> Covered(found[i], pruned)
  }

  lemma ConsiderOne(t: Tree, found: seq<Path>, n: nat, pruned: seq<Path>, cutoff: int)
    requires n < |found| && forall p :: p in found ==> p in t
    requires Considered(t, found, n, pruned, cutoff)
    ensures Expired(t[found[n]], cutoff) ==> Considered(t, found, n + 1, pruned + [found[n]], cutoff)
    ensures !Expired(t[found[n]], cutoff) || Covered(found[n], pruned) ==>
      Considered(t, found, n + 1, pruned, cutoff)
  {
    forall i | 0 <= i < n + 1 && Expired(t[found[i]], cutoff) ensures Covered(found[i], pruned + [found[n]]) {
      CoveredGrows(found[i], pruned, found[n]);
      assert Under(found[n], found[n]);
    }
  }

  lemma AllConsidered(t: Tree, found: seq<Path>, pruned: seq<Path>, cutoff: int)
    requires forall p :: p in found <==> p in t && t[p].shards != map[]
    requires Considered(t, found, |found|, pruned, cutoff)
    ensures forall p :: p in t ==> (Covered(p, pruned) <==> Doomed(t, p, cutoff))
    ensures Without(t, pruned) == Pruned(t, cutoff)
  {
    forall p | p in t && Doomed(t, p, cutoff) ensures Covered(p, pruned) {
      var q :| q in t && Under(p, q) && Expired(t[q], cutoff);
      assert q in found;
      var i :| 0 <= i < |found| && found[i] == q;
      var top :| top in pruned && Under(q, top);
      assert Under(p, top);
    }
  }

  ghost predicate Listed(t: Tree, found: seq<Path>, n: nat, pruned: seq<Path>, cutoff: int)
    requires n <= |found| && forall p :: p in found ==> p in t
  {
    forall i :: 0 <= i < n && Expired(t[found[i]], cutoff) ==> found[i] in pruned
  }

  /** What the loop keeps, after n directories. */
  ghost predicate PruneState(t: Tree, tree: Tree, found: seq<Path>, n: nat, pruned: seq<Path>, cutoff: int,
                             dryRun: bool)
    requires n <= |found| && forall p :: p in found ==> p in t
  {
    && tree == (if dryRun then t else Without(t, pruned))
    && Considered(t, found, n, pruned, cutoff)
    && (dryRun ==> Listed(t, found, n, pruned, cutoff))
  }

  predicate Hit(tree: Tree, p: Path, cutoff: int) { p in tree && Expired(tree[p], cutoff) }

  lemma PruneHit(t: Tree, tree: Tree, found: seq<Path>, n: nat, pruned: seq<Path>, cutoff: int, dryRun: bool)
    requires n < |found| && forall p :: p in found ==> p in t
    requires PruneState(t, tree, found, n, pruned, cutoff, dryRun) && Hit(tree, found[n], cutoff)
    ensures
      var after := if dryRun then tree else RemoveTree(tree, found[n]);
      PruneState(t, after, found, n + 1, pruned + [found[n]], cutoff, dryRun)
  {
    ConsiderOne(t, found, n, pruned, cutoff);
    WithoutGrows(t, pruned, found[n]);
  }

  lemma PruneMiss(t: Tree, tree: Tree, found: seq<Path>, n: nat, pruned: seq<Path>, cutoff: int, dryRun: bool)
    requires n < |found| && forall p :: p in found ==> p in t
    requires PruneState(t, tree, found, n, pruned, cutoff, dryRun) && !Hit(tree, found[n], cutoff)
    ensures PruneState(t, tree, found, n + 1, pruned, cutoff, dryRun)
  {
    ConsiderOne(t, found, n, pruned, cutoff);
  }

  /** The tree and the list a call leaves behind. Only a dry run lists what lies below an expired directory. */
  ghost predicate PruneOutcome(t: Tree, after: Tree, pruned: seq<Path>, cutoff: int, dryRun: bool) {
    after == (if dryRun then t else Pruned(t, cutoff)) && PruneList(t, pruned, cutoff, dryRun)
  }

  ghost predicate PruneList(t: Tree, pruned: seq<Path>, cutoff: int, dryRun: bool) {
    && (forall p :: p in pruned ==> p in t && Expired(t[p], cutoff))
    && (forall p :: p in t ==> (Covered(p, pruned) <==> Doomed(t, p, cutoff)))
    && (dryRun ==> forall p :: p in t && Expired(t[p], cutoff) ==> p in pruned)
  }

  lemma PruneEnds(t: Tree, tree: Tree, found: seq<Path>, pruned: seq<Path>, cutoff: int, dryRun: bool)
    requires forall p :: p in found <==> p in t && t[p].shards != map[]
    requires PruneState(t, tree, found, |found|, pruned, cutoff, dryRun)
    ensures PruneOutcome(t, tree, pruned, cutoff, dryRun)
  {
    AllConsidered(t, found, pruned, cutoff);
    if dryRun {
      forall p | p in t && Expired(t[p], cutoff) ensures p in pruned {
        assert p in found;
      }
    }
  }

  /** Deletes each expired partition together with everything below it; a dry run only lists the expired ones. */
  method PruneExpired(root: Root, cutoff: int, dryRun: bool) returns (pruned: seq<Path>)
    requires root.Valid()
    modifies root`tree
    ensures root.Valid() && PruneOutcome(old(root.tree), root.tree, pruned, cutoff, dryRun)
  {
    ghost var before := root.tree;
    var found := DiscoverPartitions(root.tree);
    pruned := [];
    for n := 0 to |found|
      invariant PruneState(before, root.tree, found, n, pruned, cutoff, dryRun)
    {
      var p := found[n];
      if Hit(root.tree, p, cutoff) {
        PruneHit(before, root.tree, found, n, pruned, cutoff, dryRun);
        pruned := pruned + [p];
        if !dryRun { root.tree := RemoveTree(root.tree, p); }
      } else {
        PruneMiss(before, root.tree, found, n, pruned, cutoff, dryRun);
      }
    }
    PruneEnds(before, root.tree, found, pruned, cutoff, dryRun);
  }

  /** prune_partitions; `ok` is false where the source raises ValueError. */
  method PrunePartitions(root: Root, maxAge: int, now: int, dryRun: bool) returns (ok: bool, pruned: seq<Path>)
    requires root.Valid()
    modifies root`tree
    ensures root.Valid() && (ok <==> maxAge > 0)
    ensures !ok ==> root.tree == old(root.tree)
    ensures ok ==> PruneOutcome(old(root.tree), root.tree, pruned, now - maxAge, dryRun)
  {
    if maxAge <= 0 { return false, []; }
    ok := true;
    pruned := PruneExpired(root, now - maxAge, dryRun);
  }

  ghost predicate PrunesExactly(t: Tree, cutoff: int) {
    forall p :: p in t ==> (p in Pruned(t, cutoff) <==> !Expired(t[p], cutoff))
  }

  /** Pruning removes exactly the expired partitions when none that has not expired lies below one that has. */
  lemma PruneIsExactIff(t: Tree, cutoff: int)
    ensures PrunesExactly(t, cutoff) <==>
            forall p, q :: p in t && q in t && Under(p, q) && Expired(t[q], cutoff) ==> Expired(t[p], cutoff)
  {
  }

  /** A partition that can expire, as each one does that the writer leaves. */
  predicate Dated(d: Dir) { d.shards != map[] && d.meta.Some? && d.meta.value.updatedAt.Some? }

  function UpdateTime(d: Dir): int
    requires Dated(d)
  {
    d.meta.value.updatedAt.value
  }

  /** `d` has expired whenever `outer` has. */
  predicate NoNewer(d: Dir, outer: Dir) { Dated(outer) ==> Dated(d) && UpdateTime(d) <= UpdateTime(outer) }

  lemma NewerIsPruned(t: Tree, p: Path, q: Path) returns (cutoff: int)
    requires p in t && q in t && Under(p, q) && !NoNewer(t[p], t[q])
    ensures !PrunesExactly(t, cutoff)
  {
    cutoff := if Dated(t[p]) then UpdateTime(t[p]) else UpdateTime(t[q]) + 1;
    assert Expired(t[q], cutoff) && !Expired(t[p], cutoff);
    PruneIsExactIff(t, cutoff);
  }

  /** It does so at every cutoff exactly when no partition is newer than one it lies below. */
  lemma PruneIsAlwaysExactIff(t: Tree)
    ensures (forall cutoff: int :: PrunesExactly(t, cutoff)) <==>
            forall p, q :: p in t && q in t && Under(p, q) ==> NoNewer(t[p], t[q])
  {
    if forall cutoff: int :: PrunesExactly(t, cutoff) {
      forall p, q | p in t && q in t && Under(p, q)
        ensures NoNewer(t[p], t[q])
      {
        if !NoNewer(t[p], t[q]) { var cutoff := NewerIsPruned(t, p, q); }
      }
    } else {
      var cutoff: int :| !PrunesExactly(t, cutoff);
      PruneIsExactIff(t, cutoff);
    }
  }

  ghost function DoomedIn(t: Tree, cutoff: int): set<Path> { set p | p in t && Doomed(t, p, cutoff) }

  /** The rows of a tree are those that pruning keeps and those of the directories it deletes. */
  lemma PruneSplitsRows(t: Tree, cutoff: int)
    ensures Bag(t) == Bag(Pruned(t, cutoff)) + Sum(DoomedIn(t, cutoff), DirBags(t))
  {
    var doomed := DoomedIn(t, cutoff);
    var kept := Pruned(t, cutoff);
    SumAdds(t.Keys, DirBags(t), Only(kept.Keys, DirBags(t)), Only(doomed, DirBags(t)));
    SumSame(t.Keys, kept.Keys, Only(kept.Keys, DirBags(t)), DirBags(t));
    SumSame(t.Keys, doomed, Only(doomed, DirBags(t)), DirBags(t));
    forall p | p in kept.Keys ensures DirBags(kept)(p) == DirBags(t)(p) {}
    SumSame(kept.Keys, kept.Keys, DirBags(t), DirBags(kept));
  }

  ghost function Only(ks: set<Path>, f: Bags<Path>): Bags<Path> { p => if p in ks then f(p) else multiset{} }

  function OneRowDir(row: Row, now: int): Dir { Dir(map[0 := [row]], Some(Meta(1, now, Some(now)))) }

  /** Two writers on one root whose keys nest (a pair strategy without and with the time part, say): when the
      outer directory expires, the newer inner one goes with it, and with it rows that had not expired. */
  lemma NestedWritesArePruned(outer: Row -> Path, inner: Row -> Path, a: Row, b: Row, then': int, now: int, cutoff: int)
    requires outer(a) < inner(b) && then' < cutoff <= now
    ensures
      var first: Tree := map[outer(a) := OneRowDir(a, then')];
      var second := first[inner(b) := OneRowDir(b, now)];
      && Written(map[], first, [a], outer, then') && Written(first, second, [b], inner, now)
      && !Expired(second[inner(b)], cutoff) && b in Bag(second)
      && Pruned(second, cutoff) == map[] && !PrunesExactly(second, cutoff)
  {
    var none: Tree := map[];
    var first: Tree := map[outer(a) := OneRowDir(a, then')];
    var second := first[inner(b) := OneRowDir(b, now)];
    OneRowWritten(none, outer, a, then');
    assert none[outer(a) := OneRowDir(a, then')] == first;
    OneRowWritten(first, inner, b, now);
    WriteAddsRows(first, second, [b], inner, now);
    assert Under(inner(b), outer(a)) && Under(outer(a), outer(a));
    assert 0 in OneRowDir(a, then').shards;
    assert Expired(second[outer(a)], cutoff);
    assert inner(b) in second && inner(b) !in Pruned(second, cutoff);
  }

  lemma OneRowWritten(t: Tree, key: Row -> Path, row: Row, now: int)
    requires key(row) !in t
    ensures Written(t, t[key(row) := OneRowDir(row, now)], [row], key, now)
  {
    assert KeysOf([row], key) == {key(row)};
    OneRowGroup(row, key);
    OneRowAppended(row, now);
  }

  lemma OneRowGroup(row: Row, key: Row -> Path)
    ensures Group([row], key, key(row)) == [row]
  {
    var none: seq<Row> := [];
    assert [row][..0] == none;
    assert Group(none, key, key(row)) == none;
  }

  lemma OneRowAppended(row: Row, now: int)
    ensures Appended(Dir(map[], None), OneRowDir(row, now), [row], now)
  {
    var none: map<nat, seq<Row>> := map[];
    assert IsNextShard(none, 0) && OneRowDir(row, now).shards == none[0 := [row]];
  }

  /** So on a store written under keys of one depth pruning keeps a partition, with all its rows, exactly if its last
      write was not before the cutoff. */
  lemma PruningGoesByLastWrite(states: seq<Tree>, batches: seq<Batch>, key: Row -> Path, depth: nat, cutoff: int, p: Path)
    requires IsRun(states, batches, key) && states[0] == map[] && forall r :: |key(r)| == depth
    requires p in View(states[|batches|])
    ensures var t := View(states[|batches|]); var last := LastWrite(batches, key, p);
      && last.Some? && (p in Pruned(t, cutoff) <==> last.value >= cutoff)
      && (last.value >= cutoff ==> Rows(Pruned(t, cutoff)[p]) == Rows(t[p]))
  {
    var t := View(states[|batches|]);
    RunDates(states, batches, key, p);
    forall q | q in t ensures |q| == depth { RunKeysHaveDepth(states, batches, key, depth, q); }
    OneDepthPrunesExactly(t, cutoff, depth);
  }

  lemma {:induction false} RunKeysHaveDepth(states: seq<Tree>, batches: seq<Batch>, key: Row -> Path, depth: nat, q: Path)
    requires IsRun(states, batches, key) && states[0] == map[] && forall r :: |key(r)| == depth
    requires q in states[|batches|]
    ensures |q| == depth
  {
    RunDates(states, batches, key, q);
    LastWriteHasDepth(batches, key, depth, q);
  }

  lemma {:induction false} LastWriteHasDepth(batches: seq<Batch>, key: Row -> Path, depth: nat, q: Path)
    requires LastWrite(batches, key, q).Some? && forall r :: |key(r)| == depth
    ensures |q| == depth
  {
    var b := batches[|batches| - 1];
    if q in KeysOf(b.rows, key) {
      var r :| r in b.rows && key(r) == q;
    } else {
      LastWriteHasDepth(batches[..|batches| - 1], key, depth, q);
    }
  }

  /** Under a strategy whose keys all have one depth no partition lies below another, so pruning is exact. */
  lemma OneDepthPrunesExactly(t: Tree, cutoff: int, depth: nat)
    requires forall p :: p in t ==> |p| == depth
    ensures PrunesExactly(t, cutoff)
    ensures forall p :: p in Pruned(t, cutoff) ==> Pruned(t, cutoff)[p] == t[p]
  {
    forall p, q | p in t && q in t && Under(p, q) ensures p == q { assert q == p[..depth] == p; }
    PruneIsExactIff(t, cutoff);
  }
}
