/** The versioned model-artifact registry: a stage machine per version, one active version per name, and a
    manifest file that lags behind memory when a call raises half-way. */
module ArtifactLifecycle {
  import opened Common

  type Name(==, 00, !new)
  type Version(==, 00, !new)

  datatype Stage = Staged | Validated | Promoted | Deprecated | RolledBack

  /** `verified`: the trust verifier has accepted this record; bookkeeping of the model. */
  datatype Record = Record(stage: Stage, parent: Option<Version>, history: seq<Stage>, verified: bool)

  type Family = map<Version, Record>

  datatype Outcome =
    | Done(version: Version)
    | Restarted
    | FileMissing
    | NotFound
    | InvalidTransition(current: Stage, target: Stage)
    | VerifierRequired
    | VerifierRejected

  datatype Verifier = Absent | Accepts | Rejects

  predicate Legal(from: Stage, to: Stage) {
    match from
    case Staged => to == Validated || to == Deprecated
    case Validated => to == Promoted || to == Deprecated
    case Promoted => to == Deprecated || to == RolledBack
    case Deprecated => false
    case RolledBack => to == Staged
  }

  function Rank(s: Stage): nat {
    match s
    case Staged => 0
    case Validated => 1
    case Promoted => 2
    case Deprecated | RolledBack => 3
  }

  /** Stages only move forward, one release step at a time or out of use; a rolled-back version alone may be staged
      again, and nothing leaves DEPRECATED. */
  lemma LegalMovesForward(from: Stage, to: Stage)
    ensures Legal(from, to) ==> Rank(from) < Rank(to) || (from.RolledBack? && to.Staged?)
    ensures Legal(from, to) && !to.Deprecated? && !from.RolledBack? ==> Rank(to) == Rank(from) + 1
    ensures Legal(from, Deprecated) <==> Rank(from) < 3
    ensures from.Deprecated? ==> !Legal(from, to)
    ensures Legal(Staged, Validated) && Legal(Validated, Promoted) && Legal(Promoted, RolledBack) && Legal(RolledBack, Staged)
  {}

  // ----- one family of versions -----

  function Moved(r: Record, to: Stage): Record { r.(stage := to, history := r.history + [to]) }

  ghost function Active(f: Family): Option<Version> {
    if v :| v in f && f[v].stage == Promoted then Some(v) else None
  }

  function Transition(f: Family, v: Version, to: Stage): (Family, Outcome) {
    if v !in f then (f, NotFound)
    else if !Legal(f[v].stage, to) then (f, InvalidTransition(f[v].stage, to))
    else (f[v := Moved(f[v], to)], Done(v))
  }

  function NewRecord(parent: Option<Version>): Record { Record(Staged, parent, [Staged], false) }

  /** Every promoted version but `v` is superseded. */
  function Demoted(f: Family, v: Version): Family {
    map w | w in f :: if w != v && f[w].stage == Promoted then Moved(f[w], Deprecated) else f[w]
  }

  /** The verifier runs first, then the demotions, and only then the transition that may be illegal. */
  function PromoteIn(f: Family, v: Version, verifier: Verifier): (Family, Outcome) {
    if v !in f then (f, NotFound)
    else if verifier.Absent? then (f, VerifierRequired)
    else if verifier.Rejects? then (f, VerifierRejected)
    else Transition(Demoted(f[v := f[v].(verified := true)], v), v, Promoted)
  }

  function Reactivated(f: Family, v: Version): Family
    requires v in f
  {
    match f[v].parent
    case Some(p) => if p in f && (f[p].stage == Deprecated || f[p].stage == Validated) then f[p := Moved(f[p], Promoted)] else f
    case None => f
  }

  /** The parent's record is always there: see `RunsStaySound`. */
  ghost function RollbackIn(f: Family, version: Option<Version>): (Family, Outcome) {
    var v := if version.Some? then version else Active(f);
    if v.None? then (f, NotFound)
    else
      var t := Transition(f, v.value, RolledBack);
      if !t.1.Done? then t
      else (Reactivated(t.0, v.value), t.1)
  }

  // ----- the invariant -----

  ghost predicate OneActive(f: Family) {
    forall v, w :: v in f && w in f && f[v].stage == Promoted && f[w].stage == Promoted ==> v == w
  }

  /** What holds whatever ids are used: at most one active version, and every parent's record is still there. */
  ghost predicate Sound(f: Family) {
    OneActive(f) && forall v :: v in f && f[v].parent.Some? ==> f[v].parent.value in f
  }

  lemma OnlyActive(f: Family, v: Version)
    requires OneActive(f) && v in f && f[v].stage == Promoted
    ensures Active(f) == Some(v)
  {}

  /** Once promoted, a record never goes back to the stages before. */
  predicate NeverBack(r: Record) {
    Promoted in r.history ==> r.stage == Promoted || r.stage == Deprecated || r.stage == RolledBack
  }

  predicate WasVerified(f: Family, p: Version) { p in f && Promoted in f[p].history && f[p].verified }

  ghost predicate Good(f: Family) {
    && OneActive(f)
    && (forall v :: v in f ==> NeverBack(f[v]))
    && (forall v :: v in f && f[v].stage == Promoted ==> f[v].verified && Promoted in f[v].history)
    && (forall v :: v in f && f[v].parent.Some? && f[v].parent.value != v ==> WasVerified(f, f[v].parent.value))
  }

  /** Every version once promoted is still there and still counts as promoted once, so by `NeverBack` it has not
      gone back. */
  ghost predicate NoneGoneBack(f: Family, g: Family) {
    forall v :: v in f && Promoted in f[v].history ==> v in g && Promoted in g[v].history
  }

  /** An id that is not itself promoted once and that no other version names as its parent; a fresh one always is. */
  ghost predicate SafeIn(f: Family, v: Version) {
    && (forall w :: w in f && w != v ==> f[w].parent != Some(v))
    && (v in f ==> Promoted !in f[v].history)
  }

  /** The exact guard of a registration. */
  lemma RegisterKeepsGoodIff(f: Family, v: Version)
    requires Good(f)
    ensures var g := f[v := NewRecord(Active(f))];
      Good(g) && NoneGoneBack(f, g) <==> SafeIn(f, v)
    ensures v !in f ==> SafeIn(f, v)
  {
    var g := f[v := NewRecord(Active(f))];
    if w :| w in f && w != v && f[w].parent == Some(v) {
      assert w in g && !WasVerified(g, v);
      assert v in f ==> WasVerified(f, v);
    } else {
      forall w | w in g && g[w].parent.Some? && g[w].parent.value != w ensures WasVerified(g, g[w].parent.value) {
        if w != v { assert WasVerified(f, f[w].parent.value); }
      }
    }
  }

  lemma TransitionKeepsGood(f: Family, v: Version, to: Stage)
    requires Good(f) && to != Promoted && to != Staged
    ensures Good(Transition(f, v, to).0)
  {
    var g := Transition(f, v, to).0;
    forall w | w in g && g[w].parent.Some? && g[w].parent.value != w ensures WasVerified(g, g[w].parent.value) {
      assert WasVerified(f, f[w].parent.value);
    }
  }

  lemma DemotedKeepsGood(f: Family, v: Version)
    requires Good(f) && v in f
    ensures Good(Demoted(f[v := f[v].(verified := true)], v))
  {
    var g := Demoted(f[v := f[v].(verified := true)], v);
    forall w | w in g && g[w].parent.Some? && g[w].parent.value != w ensures WasVerified(g, g[w].parent.value) {
      assert WasVerified(f, f[w].parent.value);
    }
  }

  lemma PromoteKeepsGood(f: Family, v: Version, verifier: Verifier)
    requires Good(f)
    ensures Good(PromoteIn(f, v, verifier).0)
  {
    if v in f && verifier.Accepts? {
      DemotedKeepsGood(f, v);
      var d, g := Demoted(f[v := f[v].(verified := true)], v), PromoteIn(f, v, verifier).0;
      forall w | w in g && g[w].parent.Some? && g[w].parent.value != w ensures WasVerified(g, g[w].parent.value) {
        assert WasVerified(d, d[w].parent.value);
      }
    }
  }

  /** Rolling back keeps the invariant; the parent it reactivates was verified, and is never VALIDATED. */
  lemma RollbackKeepsGood(f: Family, version: Option<Version>)
    requires Good(f)
    ensures Good(RollbackIn(f, version).0)
    ensures RollbackIn(f, version).1.Done? ==>
      var v := RollbackIn(f, version).1.version;
      v in f && f[v].stage == Promoted && (version.Some? ==> version.value == v) &&
      (f[v].parent.Some? && f[v].parent.value != v ==>
        f[v].parent.value in f && f[f[v].parent.value].stage in {Deprecated, RolledBack})
  {
    var v := if version.Some? then version else Active(f);
    if v.Some? && v.value in f && f[v.value].stage == Promoted {
      var t := Transition(f, v.value, RolledBack).0;
      TransitionKeepsGood(f, v.value, RolledBack);
      var parent := t[v.value].parent;
      if parent.Some? && parent.value != v.value {
        var p, g := parent.value, RollbackIn(f, version).0;
        assert WasVerified(t, p) && NeverBack(t[p]) && f[p] == t[p];
        forall w | w in g && g[w].parent.Some? && g[w].parent.value != w ensures WasVerified(g, g[w].parent.value) {
          assert WasVerified(t, t[w].parent.value);
        }
      }
    }
  }

  // ----- promote is not atomic -----

  function Stages(f: Family): map<Version, Stage> { map v | v in f :: f[v].stage }

  /** A promotion that raises leaves all stages as they were exactly when it raised before the demotions or
      no other version was promoted. */
  lemma FailedPromoteUnchangedIff(f: Family, v: Version, verifier: Verifier)
    requires !PromoteIn(f, v, verifier).1.Done?
    ensures Stages(PromoteIn(f, v, verifier).0) == Stages(f) <==>
      v !in f || !verifier.Accepts? || forall w :: w in f && w != v ==> f[w].stage != Promoted
  {
    if v in f && verifier.Accepts? {
      var g := PromoteIn(f, v, verifier).0;
      if w :| w in f && w != v && f[w].stage == Promoted {
        assert Stages(g)[w] == Deprecated && Stages(f)[w] == Promoted;
      }
    }
  }

  /** Otherwise the name is left without an active version. */
  lemma FailedPromoteLosesActive(f: Family, v: Version, w: Version)
    requires Good(f) && v in f && w in f && v != w && f[w].stage == Promoted && f[v].stage != Validated
    ensures PromoteIn(f, v, Accepts).1 == InvalidTransition(f[v].stage, Promoted)
    ensures Active(PromoteIn(f, v, Accepts).0) == None
  {}

  /** Re-registering an id that another version names as its parent lets a rollback promote a record that
      no verifier ever accepted. */
  lemma ReusedIdIsPromotedUnverified(a: Version, b: Version)
    requires a != b
    ensures var f0: Family := map[a := NewRecord(None)];
      var f1 := PromoteIn(Transition(f0, a, Validated).0, a, Accepts).0;
      var f2 := f1[b := NewRecord(Active(f1))];
      var f3 := PromoteIn(Transition(f2, b, Validated).0, b, Accepts).0;
      var f4 := f3[a := NewRecord(Active(f3))];
      var f5 := RollbackIn(Transition(f4, a, Validated).0, Some(b)).0;
      f5[a].stage == Promoted && !f5[a].verified
  {
    var f0: Family := map[a := NewRecord(None)];
    var f1 := PromoteIn(Transition(f0, a, Validated).0, a, Accepts).0;
    assert f1.Keys == {a} && f1[a].stage == Promoted;
    assert Active(f1) == Some(a);
    var f2 := f1[b := NewRecord(Active(f1))];
    var f3 := PromoteIn(Transition(f2, b, Validated).0, b, Accepts).0;
    assert f3[b].stage == Promoted && f3[b].parent == Some(a);
  }

  // ----- the whole registry: memory and manifest -----

  type Data = map<Name, Family>

  datatype Registry = Registry(memory: Data, manifest: Data)

  datatype Op =
    | Register(name: Name, version: Version, fileExists: bool)
    | Validate(name: Name, version: Version)
    | Promote(name: Name, version: Version, verifier: Verifier)
    | Deprecate(name: Name, version: Version)
    | Rollback(name: Name, which: Option<Version>)
    | Restart

  function FamilyOf(d: Data, name: Name): Family { if name in d then d[name] else map[] }

  /** A change that is saved reaches the manifest together with everything else in memory. */
  function Saved(r: Registry, name: Name, f: Family): Registry { Registry(r.memory[name := f], r.memory[name := f]) }

  function Unsaved(r: Registry, name: Name, f: Family): Registry {
    r.(memory := if name in r.memory then r.memory[name := f] else r.memory)
  }

  function Commit(r: Registry, name: Name, t: (Family, Outcome)): (Registry, Outcome) {
    (if t.1.Done? then Saved(r, name, t.0) else Unsaved(r, name, t.0), t.1)
  }

  ghost function Apply(r: Registry, op: Op): (Registry, Outcome) {
    match op
    case Register(name, v, fileExists) =>
      if !fileExists then (r, FileMissing)
      else var f := FamilyOf(r.memory, name);
        (Saved(r, name, f[v := NewRecord(Active(f))]), Done(v))
    case Validate(name, v) => Commit(r, name, Transition(FamilyOf(r.memory, name), v, Validated))
    case Promote(name, v, verifier) => Commit(r, name, PromoteIn(FamilyOf(r.memory, name), v, verifier))
    case Deprecate(name, v) => Commit(r, name, Transition(FamilyOf(r.memory, name), v, Deprecated))
    case Rollback(name, which) => Commit(r, name, RollbackIn(FamilyOf(r.memory, name), which))
    case Restart => (Registry(r.manifest, r.manifest), Restarted)
  }

  ghost predicate AllGood(d: Data) { forall name :: name in d ==> Good(d[name]) }

  ghost predicate GoodRegistry(r: Registry) { AllGood(r.memory) && AllGood(r.manifest) }

  /** A registration uses a safe id. */
  ghost predicate SafeId(r: Registry, op: Op) { op.Register? ==> SafeIn(FamilyOf(r.memory, op.name), op.version) }

  lemma CommitKeepsGood(r: Registry, name: Name, t: (Family, Outcome))
    requires GoodRegistry(r) && Good(t.0)
    ensures GoodRegistry(Commit(r, name, t).0)
  {
  }

  lemma ApplyKeepsGood(r: Registry, op: Op)
    requires GoodRegistry(r) && SafeId(r, op)
    ensures GoodRegistry(Apply(r, op).0)
  {
    match op
    case Register(name, v, _) => RegisterKeepsGoodIff(FamilyOf(r.memory, name), v);
    case Validate(name, v) =>
      TransitionKeepsGood(FamilyOf(r.memory, name), v, Validated);
      CommitKeepsGood(r, name, Transition(FamilyOf(r.memory, name), v, Validated));
    case Promote(name, v, verifier) =>
      PromoteKeepsGood(FamilyOf(r.memory, name), v, verifier);
      CommitKeepsGood(r, name, PromoteIn(FamilyOf(r.memory, name), v, verifier));
    case Deprecate(name, v) =>
      TransitionKeepsGood(FamilyOf(r.memory, name), v, Deprecated);
      CommitKeepsGood(r, name, Transition(FamilyOf(r.memory, name), v, Deprecated));
    case Rollback(name, which) =>
      RollbackKeepsGood(FamilyOf(r.memory, name), which);
      CommitKeepsGood(r, name, RollbackIn(FamilyOf(r.memory, name), which));
    case Restart =>
  }

  ghost function RunOps(ops: seq<Op>): Registry {
    if ops == [] then Registry(map[], map[]) else Apply(RunOps(ops[..|ops| - 1]), ops[|ops| - 1]).0
  }

  // ----- whatever ids are used -----

  ghost predicate AllSound(d: Data) { forall name :: name in d ==> Sound(d[name]) }

  ghost predicate SoundRegistry(r: Registry) { AllSound(r.memory) && AllSound(r.manifest) }

  lemma RegisterKeepsSound(f: Family, v: Version)
    requires Sound(f)
    ensures Sound(f[v := NewRecord(Active(f))])
  {}

  lemma TransitionKeepsSound(f: Family, v: Version, to: Stage)
    requires Sound(f) && to != Promoted
    ensures Sound(Transition(f, v, to).0)
  {}

  lemma PromoteKeepsSound(f: Family, v: Version, verifier: Verifier)
    requires Sound(f)
    ensures Sound(PromoteIn(f, v, verifier).0)
  {}

  lemma RollbackKeepsSound(f: Family, which: Option<Version>)
    requires Sound(f)
    ensures Sound(RollbackIn(f, which).0)
  {
    var v := if which.Some? then which else Active(f);
    if v.Some? { TransitionKeepsSound(f, v.value, RolledBack); }
  }

  lemma ApplyKeepsSound(r: Registry, op: Op)
    requires SoundRegistry(r)
    ensures SoundRegistry(Apply(r, op).0)
  {
    match op
    case Register(name, v, _) => RegisterKeepsSound(FamilyOf(r.memory, name), v);
    case Validate(name, v) => TransitionKeepsSound(FamilyOf(r.memory, name), v, Validated);
    case Promote(name, v, verifier) => PromoteKeepsSound(FamilyOf(r.memory, name), v, verifier);
    case Deprecate(name, v) => TransitionKeepsSound(FamilyOf(r.memory, name), v, Deprecated);
    case Rollback(name, which) => RollbackKeepsSound(FamilyOf(r.memory, name), which);
    case Restart =>
  }

  /** Both invariants at once. */
  lemma ApplyKeeps(r: Registry, op: Op)
    requires SoundRegistry(r)
    ensures SoundRegistry(Apply(r, op).0)
    ensures GoodRegistry(r) && SafeId(r, op) ==> GoodRegistry(Apply(r, op).0)
  {
    ApplyKeepsSound(r, op);
    if GoodRegistry(r) && SafeId(r, op) { ApplyKeepsGood(r, op); }
  }

  /** On every run, with ids reused in any way, a name has at most one active version, in memory and on file. */
  lemma {:induction false} RunsStaySound(ops: seq<Op>)
    ensures SoundRegistry(RunOps(ops))
  {
    if ops != [] {
      RunsStaySound(ops[..|ops| - 1]);
      ApplyKeepsSound(RunOps(ops[..|ops| - 1]), ops[|ops| - 1]);
    }
  }

  /** A record's history begins with its staging and ends with its present stage. */
  ghost predicate IsTold(r: Record) {
    r.history != [] && r.history[0] == Staged && r.history[|r.history| - 1] == r.stage
  }

  ghost predicate Told(f: Family) { forall v :: v in f ==> IsTold(f[v]) }

  lemma MovedIsTold(r: Record, to: Stage)
    requires IsTold(r)
    ensures IsTold(Moved(r, to))
  {}

  ghost predicate AllTold(r: Registry) {
    (forall name :: name in r.memory ==> Told(r.memory[name])) && forall name :: name in r.manifest ==> Told(r.manifest[name])
  }

  lemma CommitKeepsTold(r: Registry, name: Name, t: (Family, Outcome))
    requires AllTold(r) && Told(t.0)
    ensures AllTold(Commit(r, name, t).0)
  {}

  lemma TransitionKeepsTold(f: Family, v: Version, to: Stage)
    requires Told(f)
    ensures Told(Transition(f, v, to).0)
  {
    if v in f { MovedIsTold(f[v], to); }
  }

  lemma PromoteKeepsTold(f: Family, v: Version, verifier: Verifier)
    requires Told(f)
    ensures Told(PromoteIn(f, v, verifier).0)
  {
    if v in f && verifier.Accepts? {
      var d := Demoted(f[v := f[v].(verified := true)], v);
      forall w | w in d ensures IsTold(d[w]) {
        assert IsTold(f[w]);
        if w != v { MovedIsTold(f[w], Deprecated); }
      }
      TransitionKeepsTold(d, v, Promoted);
    }
  }

  lemma RollbackKeepsTold(f: Family, which: Option<Version>)
    requires Told(f)
    ensures Told(RollbackIn(f, which).0)
  {
    var v := if which.Some? then which else Active(f);
    if v.Some? {
      TransitionKeepsTold(f, v.value, RolledBack);
      var g := Transition(f, v.value, RolledBack).0;
      forall w | w in g ensures IsTold(Moved(g[w], Promoted)) { MovedIsTold(g[w], Promoted); }
    }
  }

  lemma ApplyKeepsTold(r: Registry, op: Op)
    requires AllTold(r)
    ensures AllTold(Apply(r, op).0)
  {
    match op
    case Register(_, _, _) =>
    case Validate(name, v) =>
      TransitionKeepsTold(FamilyOf(r.memory, name), v, Validated);
      CommitKeepsTold(r, name, Transition(FamilyOf(r.memory, name), v, Validated));
    case Promote(name, v, verifier) =>
      PromoteKeepsTold(FamilyOf(r.memory, name), v, verifier);
      CommitKeepsTold(r, name, PromoteIn(FamilyOf(r.memory, name), v, verifier));
    case Deprecate(name, v) =>
      TransitionKeepsTold(FamilyOf(r.memory, name), v, Deprecated);
      CommitKeepsTold(r, name, Transition(FamilyOf(r.memory, name), v, Deprecated));
    case Rollback(name, which) =>
      RollbackKeepsTold(FamilyOf(r.memory, name), which);
      CommitKeepsTold(r, name, RollbackIn(FamilyOf(r.memory, name), which));
    case Restart =>
  }

  lemma {:induction false} RunsTell(ops: seq<Op>)
    ensures AllTold(RunOps(ops))
  {
    if ops != [] {
      RunsTell(ops[..|ops| - 1]);
      ApplyKeepsTold(RunOps(ops[..|ops| - 1]), ops[|ops| - 1]);
    }
  }

  // ----- what each call achieves -----

  /** The stages from which a call succeeds. */
  ghost predicate Succeeds(f: Family, op: Op) {
    match op
    case Register(_, _, fileExists) => fileExists
    case Validate(_, v) => v in f && f[v].stage == Staged
    case Promote(_, v, verifier) => v in f && verifier.Accepts? && f[v].stage == Validated
    case Deprecate(_, v) => v in f && f[v].stage in {Staged, Validated, Promoted}
    case Rollback(_, Some(v)) => v in f && f[v].stage == Promoted
    case Rollback(_, None) => exists v :: v in f && f[v].stage == Promoted
    case Restart => false
  }

  lemma SucceedsIff(r: Registry, op: Op)
    ensures Apply(r, op).1.Done? <==> Succeeds(if op.Restart? then map[] else FamilyOf(r.memory, op.name), op)
  {}

  /** Why a call fails. */
  ghost predicate Fails(f: Family, op: Op, r: Outcome) {
    match op
    case Register(_, _, _) => r == FileMissing
    case Promote(_, v, verifier) =>
      if v !in f then r == NotFound
      else if verifier.Absent? then r == VerifierRequired
      else if verifier.Rejects? then r == VerifierRejected
      else r == InvalidTransition(f[v].stage, Promoted)
    case Validate(_, v) => if v in f then r == InvalidTransition(f[v].stage, Validated) else r == NotFound
    case Deprecate(_, v) => if v in f then r == InvalidTransition(f[v].stage, Deprecated) else r == NotFound
    case Rollback(_, Some(v)) => if v in f then r == InvalidTransition(f[v].stage, RolledBack) else r == NotFound
    case Rollback(_, None) => r == NotFound
    case Restart => r == Restarted
  }

  lemma FailsWith(r: Registry, op: Op)
    ensures !Apply(r, op).1.Done? ==> Fails(if op.Restart? then map[] else FamilyOf(r.memory, op.name), op, Apply(r, op).1)
  {}

  /** A promotion that raises after the demotions leaves memory ahead of the manifest; a restart undoes it. */
  lemma RestartUndoesFailedPromote(r: Registry, name: Name, v: Version, verifier: Verifier)
    requires r.memory == r.manifest && !Apply(r, Op.Promote(name, v, verifier)).1.Done?
    ensures var failed := Apply(r, Op.Promote(name, v, verifier)).0;
      && failed.manifest == r.manifest && FamilyOf(failed.memory, name) == PromoteIn(FamilyOf(r.memory, name), v, verifier).0
      && Apply(failed, Restart).0 == r
  {
    if name in r.memory { assert r.memory[name := FamilyOf(r.memory, name)] == r.memory; }
  }

  /** A rollback takes the version out of use and nothing else but its parent's place: a deprecated parent (or a
      validated one, which safe ids rule out) is active again, and otherwise the name has no active version. */
  lemma RollbackOutcome(f: Family, which: Option<Version>)
    requires Sound(f) && RollbackIn(f, which).1.Done?
    ensures var t := RollbackIn(f, which); var v, g := t.1.version, t.0;
      && v in f && f[v].stage == Promoted && (which.Some? ==> which.value == v)
      && g.Keys == f.Keys && g[v] == Moved(f[v], RolledBack)
      && var back := f[v].parent.Some? && f[v].parent.value != v && f[f[v].parent.value].stage in {Deprecated, Validated};
         && Active(g) == (if back then f[v].parent else None)
         && forall w :: w in f && w != v && !(back && f[v].parent == Some(w)) ==> g[w] == f[w]
  {
    var v := if which.Some? then which.value else Active(f).value;
    TransitionKeepsSound(f, v, RolledBack);
    RollbackKeepsSound(f, which);
    var g := RollbackIn(f, which).0;
    if Active(g).Some? { OnlyActive(g, Active(g).value); }
  }

  /** Promoting b over the active a and rolling b back makes a active again exactly when a is b's parent, that is,
      was active when b was registered. */
  lemma RollbackRestoresIff(f: Family, a: Version, b: Version)
    requires Sound(f) && Active(f) == Some(a) && a != b && b in f && f[b].stage == Validated
    ensures var g := PromoteIn(f, b, Accepts).0; var h := RollbackIn(g, None);
      h.1 == Done(b) && (Active(h.0) == Some(a) <==> f[b].parent == Some(a))
  {
    var g := PromoteIn(f, b, Accepts).0;
    PromoteKeepsSound(f, b, Accepts);
    assert g[b].stage == Promoted;
    OnlyActive(g, b);
    RollbackOutcome(g, None);
    assert f[a].stage == Promoted && g[a].stage == Deprecated;
  }

  function Replacing(name: Name, b: Version): seq<Op> {
    [Op.Register(name, b, true), Op.Validate(name, b), Op.Promote(name, b, Accepts), Op.Rollback(name, None)]
  }

  lemma RunSnoc(ops: seq<Op>, op: Op)
    ensures RunOps(ops + [op]) == Apply(RunOps(ops), op).0
  {
    assert (ops + [op])[..|ops|] == ops;
  }

  /** A new version released over the active one and rolled back. */
  lemma ReplaceInFamily(f: Family, a: Version, b: Version)
    requires Sound(f) && Active(f) == Some(a) && b !in f
    ensures var g := Transition(f[b := NewRecord(Some(a))], b, Validated);
      var h := PromoteIn(g.0, b, Accepts); var k := RollbackIn(h.0, None);
      g.1.Done? && h.1.Done? && k.1.Done? && Active(k.0) == Some(a)
  {
    RegisterKeepsSound(f, b);
    var r := f[b := NewRecord(Some(a))];
    TransitionKeepsSound(r, b, Validated);
    var g := Transition(r, b, Validated).0;
    assert g[a].stage == Promoted;
    OnlyActive(g, a);
    RollbackRestoresIff(g, a, b);
  }

  lemma ReplaceInRegistry(r: Registry, name: Name, a: Version, b: Version)
    requires SoundRegistry(r) && Active(FamilyOf(r.memory, name)) == Some(a) && b !in FamilyOf(r.memory, name)
    ensures var q := Replacing(name, b);
      var s := Apply(Apply(Apply(Apply(r, q[0]).0, q[1]).0, q[2]).0, q[3]).0;
      Active(FamilyOf(s.memory, name)) == Some(a) && s.manifest == s.memory
  {
    ReplaceInFamily(FamilyOf(r.memory, name), a, b);
  }

  lemma RunFour(ops: seq<Op>, q: seq<Op>)
    requires |q| == 4
    ensures RunOps(ops + q) == Apply(Apply(Apply(Apply(RunOps(ops), q[0]).0, q[1]).0, q[2]).0, q[3]).0
  {
    RunSnoc(ops, q[0]);
    RunSnoc(ops + [q[0]], q[1]);
    RunSnoc(ops + [q[0]] + [q[1]], q[2]);
    RunSnoc(ops + [q[0]] + [q[1]] + [q[2]], q[3]);
    assert ops + q == ops + [q[0]] + [q[1]] + [q[2]] + [q[3]];
  }

  /** On every run: releasing a new version over the active one and rolling it back restores the active one, in
      memory and on file. */
  lemma ReplacedVersionReturns(ops: seq<Op>, name: Name, a: Version, b: Version)
    requires Active(FamilyOf(RunOps(ops).memory, name)) == Some(a) && b !in FamilyOf(RunOps(ops).memory, name)
    ensures var r := RunOps(ops + Replacing(name, b));
      Active(FamilyOf(r.memory, name)) == Some(a) && r.manifest == r.memory
  {
    RunsStaySound(ops);
    ReplaceInRegistry(RunOps(ops), name, a, b);
    RunFour(ops, Replacing(name, b));
  }

  // ----- no promoted version goes back -----

  /** PROMOTED, or one of the stages after. */
  predicate Past(stage: Stage) { stage == Promoted || stage == Deprecated || stage == RolledBack }

  predicate IsPast(d: Data, name: Name, v: Version) { v in FamilyOf(d, name) && Past(FamilyOf(d, name)[v].stage) }

  predicate OnceIn(d: Data, name: Name, v: Version) {
    v in FamilyOf(d, name) && Promoted in FamilyOf(d, name)[v].history
  }

  /** What memory shows as past promotion, or as promoted once, the manifest shows so too. */
  ghost predicate PastIsSaved(r: Registry) {
    && (forall name, v :: IsPast(r.memory, name, v) ==> IsPast(r.manifest, name, v))
    && (forall name, v :: OnceIn(r.memory, name, v) ==> OnceIn(r.manifest, name, v))
  }

  ghost predicate NoneBack(f: Family, g: Family) {
    && (forall w :: w in f ==> w in g && (Past(f[w].stage) ==> Past(g[w].stage)))
    && (forall w :: w in f && Promoted in f[w].history ==> w in g && Promoted in g[w].history)
  }

  /** The step brings no version back, and if it raises it brings none forward. */
  ghost predicate KeepsPast(f: Family, t: (Family, Outcome)) {
    NoneBack(f, t.0) && (!t.1.Done? ==> NoneBack(t.0, f))
  }

  lemma TransitionKeepsPast(f: Family, v: Version, to: Stage)
    requires to != Staged && to != Promoted
    ensures KeepsPast(f, Transition(f, v, to))
  {
  }

  lemma PromoteKeepsPast(f: Family, v: Version, verifier: Verifier)
    ensures KeepsPast(f, PromoteIn(f, v, verifier))
  {
  }

  lemma RollbackKeepsPast(f: Family, which: Option<Version>)
    ensures KeepsPast(f, RollbackIn(f, which))
  {
    var v := if which.Some? then which else Active(f);
    if v.Some? {
      TransitionKeepsPast(f, v.value, RolledBack);
      var t := Transition(f, v.value, RolledBack);
      if t.1.Done? { assert NoneBack(t.0, Reactivated(t.0, v.value)); }
    }
  }

  lemma CommitKeepsPast(r: Registry, name: Name, t: (Family, Outcome))
    requires PastIsSaved(r) && KeepsPast(FamilyOf(r.memory, name), t)
    ensures var after := Commit(r, name, t).0;
      && PastIsSaved(after)
      && (forall n, w :: IsPast(r.memory, n, w) ==> IsPast(after.memory, n, w))
      && (forall n, w :: OnceIn(r.memory, n, w) ==> OnceIn(after.memory, n, w))
  {
    var after := Commit(r, name, t).0;
    forall n, w | IsPast(after.memory, n, w) ensures IsPast(after.manifest, n, w) {
      if !t.1.Done? { assert IsPast(r.memory, n, w); }
    }
    forall n, w | OnceIn(after.memory, n, w) ensures OnceIn(after.manifest, n, w) {
      if !t.1.Done? { assert OnceIn(r.memory, n, w); }
    }
  }

  predicate Registers(op: Op, name: Name, v: Version) {
    op.Register? && op.fileExists && op.name == name && op.version == v
  }

  lemma ApplyKeepsPast(r: Registry, op: Op)
    requires PastIsSaved(r)
    ensures PastIsSaved(Apply(r, op).0)
    ensures forall name, v :: IsPast(r.memory, name, v) && !Registers(op, name, v) ==> IsPast(Apply(r, op).0.memory, name, v)
    ensures forall name, v :: OnceIn(r.memory, name, v) && !Registers(op, name, v) ==> OnceIn(Apply(r, op).0.memory, name, v)
  {
    match op
    case Register(name, v, _) =>
    case Validate(name, v) =>
      TransitionKeepsPast(FamilyOf(r.memory, name), v, Validated);
      CommitKeepsPast(r, name, Transition(FamilyOf(r.memory, name), v, Validated));
    case Promote(name, v, verifier) =>
      PromoteKeepsPast(FamilyOf(r.memory, name), v, verifier);
      CommitKeepsPast(r, name, PromoteIn(FamilyOf(r.memory, name), v, verifier));
    case Deprecate(name, v) =>
      TransitionKeepsPast(FamilyOf(r.memory, name), v, Deprecated);
      CommitKeepsPast(r, name, Transition(FamilyOf(r.memory, name), v, Deprecated));
    case Rollback(name, which) =>
      RollbackKeepsPast(FamilyOf(r.memory, name), which);
      CommitKeepsPast(r, name, RollbackIn(FamilyOf(r.memory, name), which));
    case Restart =>
  }

  lemma {:induction false} RunsSavePast(ops: seq<Op>)
    ensures PastIsSaved(RunOps(ops))
  {
    if ops != [] {
      RunsSavePast(ops[..|ops| - 1]);
      ApplyKeepsPast(RunOps(ops[..|ops| - 1]), ops[|ops| - 1]);
    }
  }

  /** On every run, whatever ids are used: a version PROMOTED after i calls is STAGED or VALIDATED after j calls
      only if it was registered again in between. */
  lemma {:induction false} PromotedGoesBackOnlyByRegistration(ops: seq<Op>, i: nat, j: nat, name: Name, v: Version)
    requires i <= j <= |ops| && IsPast(RunOps(ops[..i]).memory, name, v)
    requires forall n :: i <= n < j ==> !Registers(ops[n], name, v)
    ensures IsPast(RunOps(ops[..j]).memory, name, v)
  {
    if i < j {
      var n := j - 1;
      PromotedGoesBackOnlyByRegistration(ops, i, n, name, v);
      RunsSavePast(ops[..n]);
      assert ops[..j] == ops[..n] + [ops[n]];
      assert ops[..j][..n] == ops[..n];
      ApplyKeepsPast(RunOps(ops[..n]), ops[n]);
    }
  }

  /** Every registration of the run uses an id that is safe at that moment. */
  ghost predicate SafeRun(ops: seq<Op>) { forall i :: 0 <= i < |ops| ==> SafeId(RunOps(ops[..i]), ops[i]) }

  /** Whole runs from an empty manifest, with calls that raise and restarts: at most one version per name is
      promoted, every promoted version was verified, no promoted version ever goes back. */
  lemma {:induction false} RunsStayGood(ops: seq<Op>)
    requires SafeRun(ops)
    ensures GoodRegistry(RunOps(ops))
  {
    if ops != [] {
      var n := |ops| - 1;
      forall i | 0 <= i < n ensures SafeId(RunOps(ops[..n][..i]), ops[..n][i]) {
        assert ops[..n][..i] == ops[..i];
        assert SafeId(RunOps(ops[..i]), ops[i]);
      }
      RunsStayGood(ops[..n]);
      assert SafeId(RunOps(ops[..n]), ops[n]);
      ApplyKeepsGood(RunOps(ops[..n]), ops[n]);
    }
  }

  /** With safe ids no version once promoted is ever STAGED or VALIDATED again. */
  lemma {:induction false} SafeRunsNeverGoBack(ops: seq<Op>, i: nat, j: nat, name: Name, v: Version)
    requires SafeRun(ops) && i <= j <= |ops| && OnceIn(RunOps(ops[..i]).memory, name, v)
    ensures OnceIn(RunOps(ops[..j]).memory, name, v) && IsPast(RunOps(ops[..j]).memory, name, v)
  {
    if i < j {
      var n := j - 1;
      SafeRunsNeverGoBack(ops, i, n, name, v);
      RunsSavePast(ops[..n]);
      assert ops[..j] == ops[..n] + [ops[n]];
      assert ops[..j][..n] == ops[..n];
      assert SafeId(RunOps(ops[..n]), ops[n]);
      ApplyKeepsPast(RunOps(ops[..n]), ops[n]);
    }
    SafePrefix(ops, j);
    RunsStayGood(ops[..j]);
    assert Good(FamilyOf(RunOps(ops[..j]).memory, name)) && NeverBack(FamilyOf(RunOps(ops[..j]).memory, name)[v]);
  }

  lemma SafePrefix(ops: seq<Op>, j: nat)
    requires SafeRun(ops) && j <= |ops|
    ensures SafeRun(ops[..j])
  {
    forall i | 0 <= i < j ensures SafeId(RunOps(ops[..j][..i]), ops[..j][i]) {
      assert ops[..j][..i] == ops[..i];
      assert SafeId(RunOps(ops[..i]), ops[i]);
    }
  }

  /** Registering a promoted id again sends it back, and leaves the name with no active version. */
  lemma ReregisteredIdGoesBack(f: Family, v: Version)
    requires Good(f) && v in f && f[v].stage == Promoted
    ensures var g := f[v := NewRecord(Active(f))];
      g[v].stage == Staged && Active(g) == None
  {
    OnlyActive(f, v);
  }

  class ModelArtifactRegistry {
    var memory: Data
    var manifest: Data

    ghost function State(): Registry
      reads this
    { Registry(memory, manifest) }

    ghost predicate Valid()
      reads this
    { SoundRegistry(State()) }

    /** Kept by every call but a registration under an unsafe id. */
    ghost predicate Trusted()
      reads this
    { GoodRegistry(State()) }

    constructor (manifest: Data)
      requires AllSound(manifest)
      ensures Valid() && State() == Registry(manifest, manifest)
    { memory, this.manifest := manifest, manifest; }

    method GetActive(name: Name) returns (v: Option<Version>)
      requires Valid()
      ensures v == Active(FamilyOf(memory, name))
    {
      var f := FamilyOf(memory, name);
      var left := f.Keys;
      while left != {}
        invariant left <= f.Keys && forall w :: w in f && w !in left ==> f[w].stage != Promoted
        decreases left
      {
        var w :| w in left;
        if f[w].stage == Promoted {
          assert Sound(f);
          OnlyActive(f, w);
          return Some(w);
        }
        left := left - {w};
      }
      return None;
    }

    /** `version` is the caller's id or a generated one. */
    method Register(name: Name, version: Version, fileExists: bool) returns (r: Outcome)
      requires Valid()
      modifies this
      ensures Valid() && (State(), r) == Apply(old(State()), Op.Register(name, version, fileExists))
      ensures old(Trusted()) && SafeId(old(State()), Op.Register(name, version, fileExists)) ==> Trusted()
    {
      ApplyKeeps(State(), Op.Register(name, version, fileExists));
      if !fileExists {
        return FileMissing;
      }
      var parent := GetActive(name);
      memory := memory[name := FamilyOf(memory, name)[version := NewRecord(parent)]];
      Save();
      return Done(version);
    }

    method Save()
      modifies `manifest
      ensures manifest == memory
    { manifest := memory; }

    method MoveTo(name: Name, version: Version, target: Stage) returns (r: Outcome)
      modifies this
      ensures (State(), r) == Commit(old(State()), name, Transition(FamilyOf(old(memory), name), version, target))
    {
      var f := FamilyOf(memory, name);
      if version !in f {
        assert name in memory ==> memory[name := f] == memory;
        return NotFound;
      }
      if !Legal(f[version].stage, target) {
        assert memory[name := f] == memory;
        return InvalidTransition(f[version].stage, target);
      }
      memory := memory[name := f[version := Moved(f[version], target)]];
      Save();
      return Done(version);
    }

    method Validate(name: Name, version: Version) returns (r: Outcome)
      requires Valid()
      modifies this
      ensures Valid() && (State(), r) == Apply(old(State()), Op.Validate(name, version))
      ensures old(Trusted()) ==> Trusted()
    {
      ApplyKeeps(State(), Op.Validate(name, version));
      r := MoveTo(name, version, Validated);
    }

    method Deprecate(name: Name, version: Version) returns (r: Outcome)
      requires Valid()
      modifies this
      ensures Valid() && (State(), r) == Apply(old(State()), Op.Deprecate(name, version))
      ensures old(Trusted()) ==> Trusted()
    {
      ApplyKeeps(State(), Op.Deprecate(name, version));
      r := MoveTo(name, version, Deprecated);
    }

    method Promote(name: Name, version: Version, verifier: Verifier) returns (r: Outcome)
      requires Valid()
      modifies this
      ensures Valid() && (State(), r) == Apply(old(State()), Op.Promote(name, version, verifier))
      ensures old(Trusted()) ==> Trusted()
    {
      ApplyKeeps(State(), Op.Promote(name, version, verifier));
      var f := FamilyOf(memory, name);
      assert name in memory ==> memory[name := f] == memory;
      if version !in f {
        return NotFound;
      }
      if verifier.Absent? {
        return VerifierRequired;
      }
      if verifier.Rejects? {
        return VerifierRejected;
      }
      var demoted := DemoteOthers(f[version := f[version].(verified := true)], version);
      memory := memory[name := demoted];
      r := MoveTo(name, version, Promoted);
      var t := PromoteIn(f, version, verifier);
      assert memory == old(memory)[name := t.0];
      assert r.Done? ==> manifest == memory;
    }

    method DemoteOthers(f: Family, version: Version) returns (g: Family)
      ensures g == Demoted(f, version)
    {
      g := f;
      var left := f.Keys;
      while left != {}
        invariant left <= f.Keys && g.Keys == f.Keys
        invariant forall w :: w in g ==> g[w] == if w in left then f[w] else Demoted(f, version)[w]
        decreases left
      {
        var other :| other in left;
        if g[other].stage == Promoted && other != version {
          g := g[other := Moved(g[other], Deprecated)];
        }
        left := left - {other};
      }
    }

    method Rollback(name: Name, which: Option<Version>) returns (r: Outcome)
      requires Valid()
      modifies this
      ensures Valid() && (State(), r) == Apply(old(State()), Op.Rollback(name, which))
      ensures old(Trusted()) ==> Trusted()
    {
      ApplyKeeps(State(), Op.Rollback(name, which));
      r := RollbackAndReactivate(name, which);
    }

    method RollbackAndReactivate(name: Name, which: Option<Version>) returns (r: Outcome)
      requires Valid()
      modifies this
      ensures (State(), r) == Apply(old(State()), Op.Rollback(name, which))
    {
      var f := FamilyOf(memory, name);
      assert name in memory ==> memory[name := f] == memory;
      var v := which;
      if v.None? {
        v := GetActive(name);
      }
      if v.None? {
        return NotFound;
      }
      r := MoveTo(name, v.value, RolledBack);
      if !r.Done? {
        return r;
      }
      ghost var after := Reactivated(FamilyOf(memory, name), v.value);
      var g := FamilyOf(memory, name);
      var parent := g[v.value].parent;
      if parent.Some? {
        assert parent.value in g;
        var p := g[parent.value];
        if p.stage == Deprecated || p.stage == Validated {
          memory := memory[name := g[parent.value := Moved(p, Promoted)]];
        }
      }
      assert memory == old(memory)[name := after];
      Save();
      return r;
    }
  }
}

