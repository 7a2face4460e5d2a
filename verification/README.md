# Verified models of the StellarLense cores

A Dafny model of the self-contained algorithms in this repository, with proofs of what they promise. Each module
follows one source file:

- `Common`: shared option and result types, and two facts about finite sets.
- `CertifiedRobustness`: interval bound propagation through linear, ReLU and batch-norm layers, and the bisection for
  a certified radius. Arithmetic is over the reals; a batch-norm layer carries the square root of `var + eps`.
- `AuditTrail`: the Merkle audit chain over a symbolic injective hash, with its root table, restarts and verification.
- `CacheInvalidation`, `CacheCoherence` and `CacheValues`: the dependency graph, the registry and its cascades; what a
  cache that follows the protocol holds over whole runs; and when its values are stale.
- `ReservoirSampler`: Algorithm R as a counting theorem over all draw sequences, and the sampler object.
- `Deduplicator`: the streaming alert grouper against the offline gap split of each key's alerts.
- `Lineage`: the dataset DAG with its recursive traversals.
- `ArtifactLifecycle`: the model-artifact stage machine, in memory and in the manifest that lags behind it.
- `Streaming`: the buffer, flush and cursor protocol as a state machine with crashes, and the loop of one process.
- `BenfordDrift`: Welford's running baseline and the drift episodes.
- `CausalAttribution`: the greedy exonerating set, for any deterministic scorer.
- `BenfordEngine`: leading digits and the conformity statistics, for any positive expected frequencies summing to one.
- `WalletFeatures`: the weighted wallet features and the heuristic score.
- `Partitioning`: the partitioned row store as a multiset of rows.

Code that updates objects is modelled by classes whose methods are proved against functions of the old state; the
theorems are lemmas about those functions. Files, tables and sidecars are values that change in one successful step;
clocks, random draws, verifier verdicts, file existence and failing callbacks are parameters, quantified over.

Where the code does less than its documentation or its names say, the model follows the code; a lemma exhibits an
input and another says when the code does meet the promise. Exact conditions, for all inputs or runs:

- at-least-once delivery with the streamer's de-duplication, which is on by default (`Streaming.AtLeastOnceIff`, with
  `LoadedAheadLoses`; beside no historical load, `AtLeastOnceAloneIff`, with `OutageLoses`);
- recordings and direct invalidations in the cache registry (`CacheCoherence.RunIsCoherentIff` and, on values,
  `CacheValues.RunIsFreshIff`, with `CacheCoherence.DropLeavesStaleValue`);
- the order in which silent groups are emitted (`Deduplicator.EmittedInSilenceOrderIff`, with
  `EmittedInCreationOrder`);
- order of arrival in the round-trip scan (`WalletFeatures.RoundTripsIgnoreOrderIff`, with `TiesDependOnOrder`);
- the clustering coefficient against its documentation (`WalletFeatures.ClusteringIsDocumentedIff`, with
  `ClusteringUnderstates`);
- pruning of nested directories (`Partitioning.PruneIsAlwaysExactIff`, with `NestedWritesArePruned`), filters on key
  columns (`Partitioning.ColumnFilterIsRightIff`) and keys that leave the root (`Partitioning.ReadIsCompleteIff`);
- re-use of version ids (`ArtifactLifecycle.RegisterKeepsGoodIff`, with `ReregisteredIdGoesBack` and
  `ReusedIdIsPromotedUnverified`) and promotion that raises half-way (`ArtifactLifecycle.FailedPromoteUnchangedIff`,
  with `FailedPromoteLosesActive`);
- removed suffixes in default verification (`AuditTrail.FullVerificationDetects`), appending behind a gap in the table
  (`AuditTrail.AppendVerifiesIff`), reactivation by a rollback (`ArtifactLifecycle.RollbackRestoresIff`) and reloaded
  reservoirs (`ReservoirSampler.ReloadedUniformIff`).

Two conditions go one way only. The exonerating set is minimal, and None is conclusive, for additive scores, and any
result of at most two ids is minimal (`CausalAttribution.AdditiveResultIsSmallest`, `AdditiveNoneIsRight`,
`ShortResultIsSmallest`); other scorers can break both (`GreedyIsNotMinimal`, `GreedyMissesPairs`), and no simpler
test of an arbitrary scorer is known than comparing all subsets. A reconnection whose cursor the
server rejects, or that has none yet, loses trades under every setting (`Streaming.RejectionLoses`,
`CursorlessLoses`), so the delivery theorems speak of runs whose reconnections keep their place.

`dafny verify dfyconfig.toml` checks the whole project.

## Model

| member | source | states |
|---|---|---|
| CertifiedRobustness.CertifyIbp | data/pipelines/detection/certified_robustness.py:126-192 | for a correctly classified input every point of the returned L-infinity ball stays on its side of the threshold; the radius lies in [0, epsilon], everything up to it is certified, and below epsilon nothing from epsilon/2^steps above it is; an unknown layer type is the error case |
| CertifiedRobustness.Propagate | data/pipelines/detection/certified_robustness.py:91-118 | the layer loop computes the box form of the whole network on the ball, or reports an unsupported layer |
| CertifiedRobustness.IsCertified | data/pipelines/detection/certified_robustness.py:172-179 | the certificate test decides whether the worst mean output of the propagated box is on the labelled side |
| CertifiedRobustness.CertifiedIsSound | data/pipelines/detection/certified_robustness.py:126-192 | every input in a certified ball is classified like the label by the real forward pass, for any layer list |
| CertifiedRobustness.CertifiedIsDownwardClosed | data/pipelines/detection/certified_robustness.py:172-192 | a smaller radius is certified whenever a larger one is, which is what bisection relies on |
| CertifiedRobustness.CertifiedAtZero | data/pipelines/detection/certified_robustness.py:164-170 | at radius zero the box is exactly the network's output and certification is exactly a correct prediction |
| CertifiedRobustness.BoxesNested | data/pipelines/detection/certified_robustness.py:91-118 | nested input boxes give nested output boxes through any layer list |
| CertifiedRobustness.PointsExact | data/pipelines/detection/certified_robustness.py:91-118 | a one-point box goes to the one-point box of the forward image |
| CertifiedRobustness.LayerNested | data/pipelines/detection/certified_robustness.py:52-88 | each of the linear, ReLU and batch-norm interval rules is monotone in the box |
| CertifiedRobustness.LayerExact | data/pipelines/detection/certified_robustness.py:52-88 | each interval rule is exact on points: the positive/negative weight split and the signed scale lose nothing |
| CertifiedRobustness.LayerTight | data/pipelines/detection/certified_robustness.py:52-88 | both ends of every output interval are attained by a point of the input box, so no tighter interval rule is sound for one layer |
| CertifiedRobustness.LinearMoves | data/pipelines/detection/certified_robustness.py:52-62 | a linear layer takes the zero vector to its bias and moves output j by W[j][i] times what input i moves: it is W.x + b |
| CertifiedRobustness.ReluRectifies | data/pipelines/detection/certified_robustness.py:65-69 | ReLU keeps what is not negative and takes the rest to zero |
| CertifiedRobustness.BatchNormNormalises | data/pipelines/detection/certified_robustness.py:72-88 | an input at its mean goes to beta, one standard deviation above it to beta + gamma |
| CertifiedRobustness.MeanMoves | data/pipelines/detection/certified_robustness.py:166-179 | the output score is the mean: zero for zeros, and moving one of n outputs moves it by the n-th part |
| CertifiedRobustness.BallIsExact | data/pipelines/detection/certified_robustness.py:96-97 | the starting box holds exactly the points of the L-infinity ball |
| CertifiedRobustness.ClassesPartition | data/pipelines/detection/certified_robustness.py:166-179 | each score is right for exactly one of the two labels, the threshold itself for the positive one |
| CertifiedRobustness.HalvedIsQuotient | data/pipelines/detection/certified_robustness.py:183-190 | k halvings leave the 2^k-th part of the interval |
| AuditTrail.ComputeMerkleRoot | data/pipelines/detection/audit_trail.py:285-294 | the level loop with duplicated last node ends and computes the root |
| AuditTrail.RootCommits | data/pipelines/detection/audit_trail.py:277-294 | two content lists have one root exactly when they are the same list: same length, same contents, despite the padding |
| AuditTrail.RootInjective | data/pipelines/detection/audit_trail.py:285-294 | over distinct nodes of one height the root determines the level |
| AuditTrail.UnpairLevel | data/pipelines/detection/audit_trail.py:289-293 | pairing after duplicating the last node of an odd level can be undone |
| AuditTrail.RootHeight | data/pipelines/detection/audit_trail.py:285-294 | a tree of more than one leaf has a node root, higher than any leaf, so no leaf passes for a root of several |
| AuditTrail.RootReadsInOrder | data/pipelines/detection/audit_trail.py:277-294 | read from left to right the tree has the leaves in the order of the history, and after them only repetitions from the padding; no leaves give the hash of the empty text |
| AuditTrail.RootTable.SelectOrdered | data/pipelines/detection/audit_trail.py:340-366 | rehydration reads back exactly the stored rows in index order |
| AuditTrail.AuditMerkleChain.constructor | data/pipelines/detection/audit_trail.py:325-338 | a restarted chain holds what durable storage holds |
| AuditTrail.AuditMerkleChain.Append | data/pipelines/detection/audit_trail.py:391-446 | the new list, table and outcome of an append, including the incomplete chain and the insert that fails after the list has grown |
| AuditTrail.AuditMerkleChain.VerifyChain | data/pipelines/detection/audit_trail.py:448-512 | verification accepts exactly when every round up to the end does, and otherwise names the first failing round and its verdict |
| AuditTrail.AuditMerkleChain.CheckRound | data/pipelines/detection/audit_trail.py:474-511 | one round: missing entry, missing content, entry before the start, recomputed root against both copies |
| AuditTrail.AppendOutcomes | data/pipelines/detection/audit_trail.py:391-446 | an append is refused exactly when a content is missing; otherwise the list grows by the new content even if the insert then fails |
| AuditTrail.VerdictMeans | data/pipelines/detection/audit_trail.py:474-511 | a round is incomplete exactly when an entry up to it has no content, and with contents present tampered exactly when it is checked and list or table hold another root than the contents give |
| AuditTrail.AppendVerifiesIff | data/pipelines/detection/audit_trail.py:391-446 | an entry appended to a list read back from the table passes its own verification exactly when the table had no gap, since leaves are tagged with stored indices and verified by position |
| AuditTrail.ForeignRowIsDetected | data/pipelines/detection/audit_trail.py:430-446 | after an insert that failed on an entry of another writer the chain no longer verifies |
| AuditTrail.RunsAreHonest | data/pipelines/detection/audit_trail.py:325-446 | after any interleaving of appends and restarts from an empty store the list and table hold exactly the appended history |
| AuditTrail.AppendKeepsHonest | data/pipelines/detection/audit_trail.py:391-446 | an append to an honest chain succeeds and extends the history by its entry |
| AuditTrail.RestartKeepsHonest | data/pipelines/detection/audit_trail.py:340-366 | reading an honest table back restores the list |
| AuditTrail.HonestVerifies | data/pipelines/detection/audit_trail.py:448-512 | an honest chain is accepted on exactly the ranges that end inside it |
| AuditTrail.AcceptedRootFixesContents | data/pipelines/detection/audit_trail.py:493-511 | when an accepted root is genuine every content up to it is the original one |
| AuditTrail.FullVerificationDetects | data/pipelines/detection/audit_trail.py:470-512 | after rows were deleted or contents rewritten, default verification accepts exactly when an unmodified prefix is left |
| AuditTrail.KnownLengthDetectsAll | data/pipelines/detection/audit_trail.py:448-512 | asking for the known length accepts exactly the unmodified whole history |
| CacheInvalidation.DependencyGraph.RemoveKey | data/pipelines/detection/cache_invalidation.py:175-181 | a key's incoming edges go from both maps and no empty set is left |
| CacheInvalidation.DependencyGraph.SetDependencies | data/pipelines/detection/cache_invalidation.py:162-173 | the recorded sources replace the old ones in both maps, which stay mirror images |
| CacheInvalidation.DependencyGraph.AddEdge | data/pipelines/detection/cache_invalidation.py:158-160 | both maps gain the edge and nothing else |
| CacheInvalidation.DependencyGraph.DependentsOf | data/pipelines/detection/cache_invalidation.py:183-201 | the worklist ends and returns exactly the keys reachable by one or more edges |
| CacheInvalidation.AffectedKeysAreDerived | data/pipelines/detection/cache_invalidation.py:183-201 | everything reachable is a recorded derived key, so the closure is finite and complete |
| CacheInvalidation.WithoutMirror | data/pipelines/detection/cache_invalidation.py:175-181 | removing keys keeps the maps mirror images |
| CacheInvalidation.WithSourcesMirror | data/pipelines/detection/cache_invalidation.py:162-173 | replacing sources keeps the maps mirror images |
| CacheInvalidation.CascadeAfterRecording | data/pipelines/detection/cache_invalidation.py:249-289 | after a recording a source reaches the key exactly through the newest source set, so a recording under a second cache drops the first one's sources |
| CacheInvalidation.InvalidationRegistry.RecordDependency | data/pipelines/detection/cache_invalidation.py:249-289 | an unregistered cache changes nothing; otherwise the graph, the key's caches and the fingerprint are updated and nothing else |
| CacheInvalidation.InvalidationRegistry.IsStale | data/pipelines/detection/cache_invalidation.py:327-340 | a key is fresh exactly when its recorded fingerprint equals the current one |
| CacheInvalidation.InvalidationRegistry.EvictKeyLocked | data/pipelines/detection/cache_invalidation.py:372-411 | each registered evictor of the key is called once whatever fails, then the record, audit entry and incoming edges are settled |
| CacheInvalidation.InvalidationRegistry.InvalidateSource | data/pipelines/detection/cache_invalidation.py:295-318 | the graph loses exactly the affected keys, every due evictor of the whole closure is called once even if some fail, affected keys become stale, and a failure is reported with its cache and key |
| CacheInvalidation.InvalidationRegistry.InvalidateKey | data/pipelines/detection/cache_invalidation.py:320-325 | one key is evicted without any cascade |
| CacheInvalidation.NothingLeftAt | data/pipelines/detection/cache_invalidation.py:413-419 | after the cascade no forward edge of the source remains, so forgetting the source changes nothing |
| CacheInvalidation.EventNamesSucceeded | data/pipelines/detection/cache_invalidation.py:372-411 | the audit event of an eviction names exactly the caches whose due callback did not raise |
| CacheInvalidation.NewestKept | data/pipelines/detection/cache_invalidation.py:372-411 | a full audit queue drops its oldest event and no other |
| CacheCoherence.CacheAgreesWithRecomputation | data/pipelines/detection/cache_invalidation.py:1-57 | over every such run each key still cached has the value a recomputation from the raw sources of that moment would give, through all levels of derivation |
| CacheCoherence.RunIsCoherentIff | data/pipelines/detection/cache_invalidation.py:249-325 | a run of source changes, cascades, recordings (on a hit or a miss), refreshes and direct invalidations has, after every step, every recorded source at hand and every value given by them, exactly when each recording closes no loop and leaves every dependent value reproduced, and each direct invalidation hits a key nothing was derived from |
| CacheValues.RunIsFreshIff | data/pipelines/detection/cache_invalidation.py:249-325 | on any such run no cached value ever differs from its recomputation through the sources recorded last if every change and refresh reaches by its cascade all it affects, and every recording closes no loop and keeps its value or affects nothing cached; and only then, for formulas that notice every change of an input |
| CacheValues.StepKeepsValuesIff | data/pipelines/detection/cache_invalidation.py:249-325 | the same for one operation: a direct invalidation or a cascade alone makes no value stale, and a later change does so exactly when it reaches a cached key only through keys no longer cached |
| CacheValues.RecordedIsFresh | data/pipelines/detection/cache_invalidation.py:249-289 | a value computed from a cache without stale values is what recomputation gives |
| CacheCoherence.FreshMoves | data/pipelines/detection/cache_invalidation.py:183-201 | when one key moves, the recomputed value of everything it affects moves, for formulas that notice every change |
| CacheCoherence.FreshAside | data/pipelines/detection/cache_invalidation.py:183-201 | and of nothing else, for any formulas |
| CacheCoherence.ApplyKeepsCoherenceIff | data/pipelines/detection/cache_invalidation.py:249-325 | the same for one operation on any coherent cache |
| CacheCoherence.CachedIsFresh | data/pipelines/detection/cache_invalidation.py:249-289 | a coherent cache agrees with recomputation through all levels of derivation |
| CacheCoherence.ChangeKeepsCoherence | data/pipelines/detection/cache_invalidation.py:295-318 | a source change followed by its cascade leaves no stale value |
| CacheCoherence.CascadeKeepsCoherence | data/pipelines/detection/cache_invalidation.py:295-318 | so does a cascade on its own |
| CacheCoherence.CascadeEvictsExactly | data/pipelines/detection/cache_invalidation.py:295-318 | a cascade evicts exactly the keys its source affects, with or without a change of the source |
| CacheCoherence.RecordKeepsCoherenceIff | data/pipelines/detection/cache_invalidation.py:249-289 | recording a computed key, cached before or not, keeps coherence exactly when it closes no loop and the keys derived from it are reproduced by its new value |
| CacheCoherence.UnnoticedIsSafe | data/pipelines/detection/cache_invalidation.py:162-173 | that is so when nothing was derived from the key or its value stays the same, and in no other case if the formulas notice every change of an input |
| CacheCoherence.RecordingKeepsAcyclicIff | data/pipelines/detection/cache_invalidation.py:162-173 | recording keeps the dependency graph acyclic exactly when no new source is the key or derived from it |
| CacheCoherence.RefreshKeepsCoherence | data/pipelines/detection/cache_invalidation.py:249-318 | recording a key and then invalidating it as a source always keeps coherence, and leaves the key cached exactly when no loop was closed |
| CacheCoherence.DropKeepsCoherenceIff | data/pipelines/detection/cache_invalidation.py:320-325 | a direct invalidation leaves every recorded source available exactly when nothing was derived from the key |
| CacheCoherence.DropHidesChange | data/pipelines/detection/cache_invalidation.py:320-325 | in any coherent cache, after a direct invalidation of k a change of r evicts exactly the keys it reaches without passing k; every other key stays with its old value |
| CacheCoherence.DropLeavesStaleValue | data/pipelines/detection/cache_invalidation.py:320-325 | a key that r affects through k only then stays cached, where without the invalidation the change would have evicted it, and differs from its recomputation if the formulas notice every change |
| CacheCoherence.DropCutsCascade | data/pipelines/detection/cache_invalidation.py:320-325 | the smallest instance, three keys from an empty cache |
| CacheCoherence.CallsDropExactly | data/pipelines/detection/cache_invalidation.py:372-411 | the evictor calls that the registry owes for a cascade remove exactly the affected keys from the cached values |
| ReservoirSampler.Uniform | data/pipelines/data/reservoir_sampler.py:124-136 | after n items each of them is kept by the same share k/n of all draw sequences |
| ReservoirSampler.NewestCount | data/pipelines/data/reservoir_sampler.py:133-136 | the newest item is kept by k of its n draws |
| ReservoirSampler.OlderCount | data/pipelines/data/reservoir_sampler.py:133-136 | a kept item survives all draws but one |
| ReservoirSampler.ExtensionCount | data/pipelines/data/reservoir_sampler.py:124-136 | c continuations of each of m draw sequences are m times c longer ones |
| ReservoirSampler.KeptDistinct | data/pipelines/data/reservoir_sampler.py:124-136 | no stream position is held twice and none is held before it was seen |
| ReservoirSampler.ReloadedShares | data/pipelines/data/reservoir_sampler.py:101-118 | the whole distribution after a reload at n items: of all pairs of runs a later item is kept by k/(k+m), an earlier one by k/n of that |
| ReservoirSampler.ReloadedUniformIff | data/pipelines/data/reservoir_sampler.py:101-118 | so the reservoir stays uniform over all items exactly when nothing beyond the capacity had been seen at the reload |
| ReservoirSampler.SampledReplace | data/pipelines/data/reservoir_sampler.py:124-136 | a stable replacement keeps the buffer equal to what the recorded draws keep, pair by pair |
| ReservoirSampler.SampledAppend | data/pipelines/data/reservoir_sampler.py:165-169 | so does filling up |
| ReservoirSampler.DriftAwareReservoirSampler.constructor | data/pipelines/data/reservoir_sampler.py:77-118 | a new sampler holds the file's rows, with the count restarted at their number |
| ReservoirSampler.DriftAwareReservoirSampler.Update | data/pipelines/data/reservoir_sampler.py:138-178 | append, stable or biased replacement, with example and time stamp kept paired, size min(seen, capacity), the flush, and the assertion that fails on an oversized reload in drift mode |
| ReservoirSampler.DriftAwareReservoirSampler.Flush | data/pipelines/data/reservoir_sampler.py:201-212 | an empty buffer is not written; otherwise the file holds the pairs |
| ReservoirSampler.DriftAwareReservoirSampler.Reset | data/pipelines/data/reservoir_sampler.py:214-224 | buffer, counters and file are cleared |
| Deduplicator.Group.constructor | data/pipelines/alerts/deduplicator.py:40-48 | a group of one alert |
| Deduplicator.Group.Absorb | data/pipelines/alerts/deduplicator.py:50-56 | the group gains the alert |
| Deduplicator.Deduplicate | data/pipelines/alerts/deduplicator.py:69-135 | the generator yields the flushed groups of the online grouping and then the remaining ones, all of them, in key order |
| Deduplicator.GroupStream | data/pipelines/alerts/deduplicator.py:120-132 | the loop over the stream is the online grouping, group objects and reports alike |
| Deduplicator.FlushStale | data/pipelines/alerts/deduplicator.py:126-127 | exactly the groups silent for a window are popped, in creation order |
| Deduplicator.Fold | data/pipelines/alerts/deduplicator.py:129-132 | the alert goes to its key's open group or opens one |
| Deduplicator.FlushInKeyOrder | data/pipelines/alerts/deduplicator.py:134-135 | the remaining groups come out in key order, none missing |
| Deduplicator.GroupsReportTheirMembers | data/pipelines/alerts/deduplicator.py:40-66 | every group reports the maximal score, earliest time, union of detectors and last-wins evidence of its members, on any stream |
| Deduplicator.EvidenceLastWins | data/pipelines/alerts/deduplicator.py:45-53 | each evidence field has the value of the last member that carries it |
| Deduplicator.EachAlertInOneGroup | data/pipelines/alerts/deduplicator.py:120-135 | on any stream each alert occurs in the groups exactly as often as in the stream |
| Deduplicator.OnlineEqualsOffline | data/pipelines/alerts/deduplicator.py:120-135 | on a time-ordered stream the groups of a key are, in order, the gap split of its own alerts |
| Deduplicator.RunsAreGapSplit | data/pipelines/alerts/deduplicator.py:90-103 | that split consists of runs with silences below the window, a window or more apart, and loses nothing |
| Deduplicator.GapSplitUnique | data/pipelines/alerts/deduplicator.py:90-103 | and is the only such split |
| Deduplicator.EmittedInSilenceOrderIff | data/pipelines/alerts/deduplicator.py:113-127 | on every time-ordered stream the groups flushed on the way come out in order of silence exactly when no alert finds two stale groups of which the one created first was heard from last |
| Deduplicator.StepOrder | data/pipelines/alerts/deduplicator.py:126-132 | groups flushed by different alerts are always in that order |
| Deduplicator.OneStaleAtATime | data/pipelines/alerts/deduplicator.py:113-127 | so is the whole output when each alert makes at most one group stale |
| Deduplicator.EmittedInCreationOrder | data/pipelines/alerts/deduplicator.py:113-127 | an instance of the failure: groups going stale together come out in creation order |
| Lineage.LineageTracker.Register | data/pipelines/data/lineage.py:166-242 | unknown parents raise and change nothing; otherwise the node is written, and the graph stays acyclic exactly when the id is not above one of its parents |
| Lineage.RegisterKeepsAcyclicIff | data/pipelines/data/lineage.py:183-241 | registering keeps the graph acyclic exactly when the id is neither its own parent nor an ancestor of one |
| Lineage.FreshIsSafe | data/pipelines/data/lineage.py:183-210 | a fresh id always keeps it acyclic |
| Lineage.RunsStayAcyclic | data/pipelines/data/lineage.py:166-242 | every graph reached by fresh or otherwise safe registrations is acyclic with all parents present |
| Lineage.LineageTracker.GetAncestors | data/pipelines/data/lineage.py:272-289 | exactly the proper ancestors, each once, each after all of its own ancestors |
| Lineage.LineageTracker.Dfs | data/pipelines/data/lineage.py:280-287 | one recursive visit ends and lists exactly the unvisited ancestors, parents first |
| Lineage.VisitIsExact | data/pipelines/data/lineage.py:272-289 | a complete visit lists every ancestor |
| Lineage.AncestorsFirst | data/pipelines/data/lineage.py:280-287 | parents before children means all ancestors before descendants |
| Lineage.LineageTracker.GetDescendants | data/pipelines/data/lineage.py:291-301 | for a node above no cycle the recursion ends and lists the ends of the downward paths in the order it meets them; the listed nodes are exactly those that have the node as an ancestor |
| Lineage.DescentEndsIff | data/pipelines/data/lineage.py:291-301 | the downward paths the recursion follows are bounded exactly when the node is above no cycle |
| Lineage.DownIsExact | data/pipelines/data/lineage.py:291-301 | every downward path is met exactly once |
| Lineage.EndsAreDescendants | data/pipelines/data/lineage.py:272-301 | b is listed below a exactly when a is an ancestor of b |
| Lineage.FewerDescendants | data/pipelines/data/lineage.py:291-301 | each recursion step has strictly fewer descendants |
| ArtifactLifecycle.RunsStaySound | data/pipelines/detection/artifact_lifecycle.py:231-349 | on every run, with ids reused in any way, a name has at most one promoted version, in memory and in the manifest, and no parent is missing |
| ArtifactLifecycle.RunsStayGood | data/pipelines/detection/artifact_lifecycle.py:231-349 | over all call sequences with safe ids, raising calls and restarts included: moreover every promoted version was verified |
| ArtifactLifecycle.SafeRunsNeverGoBack | data/pipelines/detection/artifact_lifecycle.py:231-349 | on those runs a version promoted after i calls is not staged or validated after any later number of calls, re-registered or not |
| ArtifactLifecycle.PromotedGoesBackOnlyByRegistration | data/pipelines/detection/artifact_lifecycle.py:59-65 | on every run, whatever ids are used, a promoted version is staged or validated again only if it was registered again in between |
| ArtifactLifecycle.ApplyKeepsGood | data/pipelines/detection/artifact_lifecycle.py:231-349 | every public call keeps that invariant in memory and in the manifest |
| ArtifactLifecycle.RegisterKeepsGoodIff | data/pipelines/detection/artifact_lifecycle.py:231-262 | registering keeps the invariant and sends no version back exactly when no other version has the id as parent and the id was not promoted before; a fresh id always does |
| ArtifactLifecycle.ReregisteredIdGoesBack | data/pipelines/detection/artifact_lifecycle.py:231-262 | registering a promoted id again stages it and leaves the name with no active version |
| ArtifactLifecycle.TransitionKeepsGood | data/pipelines/detection/artifact_lifecycle.py:59-65 | so do the plain stage transitions |
| ArtifactLifecycle.PromoteKeepsGood | data/pipelines/detection/artifact_lifecycle.py:285-317 | promotion keeps it, whatever the verifier says and whatever raises |
| ArtifactLifecycle.RollbackKeepsGood | data/pipelines/detection/artifact_lifecycle.py:322-349 | rollback keeps it, and the reactivated parent is never a validated one |
| ArtifactLifecycle.FailedPromoteUnchangedIff | data/pipelines/detection/artifact_lifecycle.py:285-317 | a promotion that raises leaves all stages alone exactly when it raised before the demotions or no other version was promoted |
| ArtifactLifecycle.FailedPromoteLosesActive | data/pipelines/detection/artifact_lifecycle.py:307-317 | otherwise the name is left with no active version |
| ArtifactLifecycle.ReusedIdIsPromotedUnverified | data/pipelines/detection/artifact_lifecycle.py:243-260 | re-registering a parent's id lets a rollback promote a record no verifier accepted |
| ArtifactLifecycle.ModelArtifactRegistry.Register | data/pipelines/detection/artifact_lifecycle.py:231-262 | the new memory and manifest, the missing file included |
| ArtifactLifecycle.ModelArtifactRegistry.MoveTo | data/pipelines/detection/artifact_lifecycle.py:270-279 | one legal or illegal transition, saved only when legal |
| ArtifactLifecycle.ModelArtifactRegistry.Validate | data/pipelines/detection/artifact_lifecycle.py:281-283 | the registry step, keeping the invariant |
| ArtifactLifecycle.ModelArtifactRegistry.Promote | data/pipelines/detection/artifact_lifecycle.py:285-317 | the registry step in its order: look-up, verifier, demotions in memory, transition |
| ArtifactLifecycle.ModelArtifactRegistry.Deprecate | data/pipelines/detection/artifact_lifecycle.py:319-320 | the registry step, keeping the invariant |
| ArtifactLifecycle.ModelArtifactRegistry.Rollback | data/pipelines/detection/artifact_lifecycle.py:322-349 | the registry step, with the active version as default and the parent reactivated |
| ArtifactLifecycle.RollbackOutcome | data/pipelines/detection/artifact_lifecycle.py:322-349 | a successful rollback makes a deprecated parent active again, leaves the name without an active version if there is none, and changes no other version |
| ArtifactLifecycle.RollbackRestoresIff | data/pipelines/detection/artifact_lifecycle.py:322-349 | promoting b over the active a and rolling it back makes a active again exactly when a was active at the registration of b |
| ArtifactLifecycle.ReplacedVersionReturns | data/pipelines/detection/artifact_lifecycle.py:231-349 | on every run, registering, validating, promoting and rolling back a new version restores the one active before, in memory and on file |
| ArtifactLifecycle.SucceedsIff | data/pipelines/detection/artifact_lifecycle.py:231-349 | the stages and verdicts from which each call succeeds |
| ArtifactLifecycle.FailsWith | data/pipelines/detection/artifact_lifecycle.py:231-349 | the error of each call that does not |
| ArtifactLifecycle.LegalMovesForward | data/pipelines/detection/artifact_lifecycle.py:59-65 | stages move forward one step or out of use, only a rolled-back version can be staged again, and nothing leaves DEPRECATED |
| ArtifactLifecycle.RestartUndoesFailedPromote | data/pipelines/detection/artifact_lifecycle.py:285-317 | a promotion that raises leaves memory ahead of the manifest, and a restart undoes it |
| ArtifactLifecycle.RunsTell | data/pipelines/detection/artifact_lifecycle.py:270-279 | on every run each history begins with STAGED and ends with the present stage |
| ArtifactLifecycle.ModelArtifactRegistry.GetActive | data/pipelines/detection/artifact_lifecycle.py:363-370 | finds the promoted version or none, where the source raises unless asked to be silent, in every state a run can reach |
| Streaming.AtLeastOnceIff | packages/core/run_pipeline.py:689-813 | every trade from the start up to the persisted cursor is in a saved batch, on every run with crashes, restarts, historical loads beside it and reconnections that keep their place, exactly when de-duplication is off |
| Streaming.AtLeastOnceAloneIff | packages/core/run_pipeline.py:689-813 | without historical loads, or with loads that end before the persisted cursor, exactly when de-duplication or its replay window is off |
| Streaming.OnlyLoadsAreSeen | packages/core/ingestion/horizon_streamer.py:182-188 | on every run the table holds only what the historical loader marked: the streamer marks no trade, since the key it passes on is always None and the table refuses it |
| Streaming.SafeRuns | packages/core/run_pipeline.py:689-813 | the whole-run invariant, for any window as long as no trade received is older than it and loads end before the persisted cursor |
| Streaming.StepKeepsOk | packages/core/run_pipeline.py:718-813 | each step of receive, reconnect, save scores, write cursor, go on after a yield, interrupt, crash, restart and historical load keeps it |
| Streaming.LoadedAheadLoses | packages/core/ingestion/historical_loader.py:338-376 | with de-duplication a trade that the loader marks before the streamer reaches it is skipped and the cursor moves past it, at any batch size and window |
| Streaming.OutageLoses | packages/core/ingestion/dedup.py:189-218 | with a replay window the trades missed during an outage longer than the window are skipped after the restart and the cursor moves past them |
| Streaming.RejectionLoses | packages/core/ingestion/horizon_streamer.py:190-212 | under any setting a rejected cursor loses the trades between it and the head of the stream |
| Streaming.CursorlessLoses | packages/core/ingestion/horizon_streamer.py:203-212 | so does a connection that drops before any cursor is known |
| Streaming.RunStreaming | packages/core/run_pipeline.py:689-715 | batches followed by the buffer are exactly the received stream, the cursor on file belongs to the last batch, every batch but that of the interrupt ends at the first trade at which it is full or the interval has passed, and the interrupt leaves nothing behind |
| Streaming.Listen | packages/core/run_pipeline.py:700-710 | the loop itself: no batch is flushed earlier or later than that, and the buffer holds no trade at which a flush was due |
| Streaming.CutIsUnique | packages/core/run_pipeline.py:700-710 | the events and their clock readings leave one way to cut the batches |
| Streaming.BuffersFit | packages/core/run_pipeline.py:700-710 | on every run, crashes and reconnections included, no batch exceeds the size limit |
| Streaming.InterruptFlushes | packages/core/run_pipeline.py:711-715 | an interrupt saves what is buffered and writes the cursor before the process ends |
| Streaming.SkippedIsPassed | packages/core/ingestion/horizon_streamer.py:176-181 | a skipped trade changes nothing on disk and is not delivered again |
| Streaming.UnnumberedComesAgain | packages/core/ingestion/horizon_streamer.py:167-212 | a trade without an id is delivered again after a reconnection |
| Streaming.FlushStreamingBuffer | packages/core/run_pipeline.py:718-813 | an empty buffer does nothing; otherwise the scores are saved and then the cursor |
| Streaming.AccountedReceive | packages/core/run_pipeline.py:702-704 | receiving a trade keeps batches plus buffer equal to the stream |
| Streaming.AccountedFlush | packages/core/run_pipeline.py:707-710 | so does a flush |
| BenfordDrift.WelfordIsTwoPass | data/pipelines/detection/benford_drift_detector.py:283-298 | the running mean is the sum over n, and the field called variance is the sum of squared distances from that mean |
| BenfordDrift.BaselineIgnoresOrder | data/pipelines/detection/benford_drift_detector.py:283-298 | the baseline does not depend on the order of the fits |
| BenfordDrift.ZTest | data/pipelines/detection/benford_drift_detector.py:351-363 | the z-test compares squared distance times count with squared threshold times the stored field, the zero-variance case included |
| BenfordDrift.ZTestIsExceeds | data/pipelines/detection/benford_drift_detector.py:351-363 | with the true square roots the computed z-score exceeds the threshold exactly when the stored fields say so |
| BenfordDrift.EpisodesAreRuns | data/pipelines/detection/benford_drift_detector.py:362-382 | the drift total grows by the number of maximal drifted runs and the current counter is the length of the open run |
| BenfordDrift.BenfordDriftDetector.FitBaseline | data/pipelines/detection/benford_drift_detector.py:251-301 | skips empty and non-finite fits and otherwise takes one Welford step in both statistics |
| BenfordDrift.BenfordDriftDetector.Check | data/pipelines/detection/benford_drift_detector.py:308-382 | the status, exactly which checks touch the drift state and how, and the verdict in terms of the stored fields |
| CausalAttribution.MinimalExoneratingSet | data/pipelines/detection/causal_attribution.py:257-314 | the removals form a greedy path of at most 20 distinct ids, each strictly lowering the true score; a result ends below the threshold, none means stuck or out of steps |
| CausalAttribution.BestRemoval | data/pipelines/detection/causal_attribution.py:287-310 | the best single removal, the first in id order among equals |
| CausalAttribution.GreedyPathGrows | data/pipelines/detection/causal_attribution.py:284-314 | one more best step extends the path |
| CausalAttribution.GreedyPathDistinct | data/pipelines/detection/causal_attribution.py:284-314 | a greedy path removes no id twice and only ids that are there |
| CausalAttribution.GreedyPathUnique | data/pipelines/detection/causal_attribution.py:284-314 | the scores decide the removals, ties by id included |
| CausalAttribution.RemovalNeverRaises | data/pipelines/detection/causal_attribution.py:192-232 | the reported score is capped by the one before the removal and otherwise that of what remains |
| CausalAttribution.WithoutTwice | data/pipelines/detection/causal_attribution.py:192-232 | removing in two rounds is removing once, so the running score is the score of what remains |
| CausalAttribution.AdditiveResultIsSmallest | data/pipelines/docs/causal_inference.md:59 | for scores that add up over the trades a result has the minimum size, as documented |
| CausalAttribution.AdditiveNoneIsRight | data/pipelines/docs/causal_inference.md:35 | and None means that no subset of at most 20 trades gets below the threshold, as documented |
| CausalAttribution.GreedyTakesTheHeaviest | data/pipelines/detection/causal_attribution.py:287-310 | since no k ids weigh more than the first k removed |
| CausalAttribution.ShortResultIsSmallest | data/pipelines/detection/causal_attribution.py:257-314 | for any scorer a result of at most two ids has the minimum size |
| CausalAttribution.GreedyIsNotMinimal | data/pipelines/detection/causal_attribution.py:257-314 | a result of three ids need not: two others suffice |
| CausalAttribution.GreedyMissesPairs | data/pipelines/detection/causal_attribution.py:298-314 | None need not mean that nothing works: removing two trades suffices where no single removal helps |
| BenfordEngine.LeadingDigit | apps/api/detection/benford_engine.py:19-27 | both scaling loops end and give the first digit; a non-positive amount raises |
| BenfordEngine.LeadingDigitUnique | apps/api/detection/benford_engine.py:19-27 | a positive amount has exactly one leading digit, in 1..9, and no other amount has any |
| BenfordEngine.ScaleByPower | apps/api/detection/benford_engine.py:19-27 | multiplying by a power of ten changes no leading digit |
| BenfordEngine.CountsPartition | apps/api/detection/benford_engine.py:30-37 | the digit counts add up to the number of positive amounts |
| BenfordEngine.CountIsNumber | apps/api/detection/benford_engine.py:30-37 | the count of a digit is the number of positive amounts that start with it |
| BenfordEngine.DigitDistribution | apps/api/detection/benford_engine.py:30-37 | the shares of the nine digits among the positive amounts, all zero when there is none |
| BenfordEngine.FrequenciesSum | apps/api/detection/benford_engine.py:30-37 | the frequencies are non-negative and sum to one whenever an amount is positive |
| BenfordEngine.MadScore | apps/api/detection/benford_engine.py:70-77 | the mean absolute deviation of the frequencies, zero for no amounts |
| BenfordEngine.MadBelowTwoNinths | apps/api/detection/benford_engine.py:70-77 | the score is non-negative and below 2/9, and 1/9 when amounts exist but none is positive |
| BenfordEngine.MadIgnoresScale | apps/api/detection/benford_engine.py:70-77 | the score does not depend on the power-of-ten unit of the amounts |
| BenfordEngine.ChiSquareStatistic | apps/api/detection/benford_engine.py:40-52 | the goodness-of-fit sum over the nine digits, zero without positive amounts |
| BenfordEngine.ChiSquareInShares | apps/api/detection/benford_engine.py:40-52 | the statistic is the sample size times the squared relative deviations of the frequencies |
| BenfordEngine.ChiSquareZeroIff | apps/api/detection/benford_engine.py:40-52 | it is never negative and zero exactly when every digit has its expected share |
| BenfordEngine.ChiSquareDominatesMad | apps/api/detection/benford_engine.py:40-77 | a mean deviation m forces a statistic of at least 81 n m^2 |
| WalletFeatures.RoundTripTradeFrequency | apps/api/detection/feature_engineering.py:39-63 | the sorted scan with its early break counts the trades that some later trade within the gap reverses |
| WalletFeatures.RoundTripsAreReversedTrades | apps/api/detection/feature_engineering.py:39-63 | when ties of the closing time are harmless the frequency is the share of trades that a strictly later one reverses, plus one of each lone tied pair: a count without sorting or scanning |
| WalletFeatures.RoundTripsIgnoreOrderIff | apps/api/detection/feature_engineering.py:39-63 | the frequency is the same for every order of arrival exactly when the ties are harmless: of trades closing together and reversing each other, either both directions are reversed later or neither is and there is one trade each way |
| WalletFeatures.RoundTripsIgnoreOrder | apps/api/detection/feature_engineering.py:39-63 | one direction of it, for two given orders |
| WalletFeatures.HarmfulTiesShow | apps/api/detection/feature_engineering.py:44-62 | two orders with different counts for any harmful tie |
| WalletFeatures.TiesDependOnOrder | apps/api/detection/feature_engineering.py:44-62 | the smallest instance |
| WalletFeatures.CounterpartyConcentrationRatio | apps/api/detection/feature_engineering.py:24-36 | the largest counterparty's volume over the total, zero without trades |
| WalletFeatures.ConcentrationBounds | apps/api/detection/feature_engineering.py:24-36 | the ratio lies in [0, 1] and is one exactly for a single counterparty |
| WalletFeatures.VolumesByCounterparty | apps/api/detection/feature_engineering.py:29-33 | the per-counterparty volumes and the total agree with the sums over the trades |
| WalletFeatures.VolumeAtMostTotal | apps/api/detection/feature_engineering.py:30-36 | no counterparty exceeds the total, and one reaches it only when it is the only one |
| WalletFeatures.VolumesAdd | apps/api/detection/feature_engineering.py:29-33 | each trade adds its amount to its counterparty and to the total |
| WalletFeatures.OtherSide | apps/api/detection/feature_engineering.py:19-21 | the counterparty is the other side of the trade |
| WalletFeatures.IntraMinuteClusteringCoefficient | apps/api/detection/feature_engineering.py:93-106 | the share of neighbouring pairs, in time order, within the window |
| WalletFeatures.ClusteringPositiveIff | apps/api/detection/feature_engineering.py:93-106 | it is positive exactly when any two trades lie within the window |
| WalletFeatures.ClusteringIsDocumentedIff | apps/api/detection/feature_engineering.py:93-106 | it never exceeds the documented fraction of trades within the window of another one, and equals it exactly when all neighbouring pairs are close or none is |
| WalletFeatures.ClusteringUnderstates | apps/api/detection/feature_engineering.py:93-106 | at times 0, 10 and 1000 it is 1/2 where the documented fraction is 2/3 |
| WalletFeatures.SelfMatchingRate | apps/api/detection/feature_engineering.py:66-78 | the share of trades with one known funder on both sides |
| WalletFeatures.OffHoursActivityRatio | apps/api/detection/feature_engineering.py:109-115 | the share of trades in hours 0 to 5 |
| WalletFeatures.MarksMean | apps/api/detection/feature_engineering.py:66-78 | a trade is self-matched exactly when one account funds both sides |
| WalletFeatures.ExtractWalletFeatures | apps/api/detection/feature_engineering.py:149-172 | the five weighted features, each computed on the wallet's own trades |
| WalletFeatures.FeaturesAreDetermined | apps/api/detection/feature_engineering.py:149-172 | and these are determined by the trades |
| WalletFeatures.ScoreWallet | apps/api/detection/model_inference.py:67-125 | the heuristic score is the rounded raw score, lies in 0..100, and the flag is set from 50 on |
| WalletFeatures.NoClampNeeded | apps/api/detection/model_inference.py:28-36 | for every trade list each weighted feature is a fraction and the raw score is within 0..100, so the clamp never acts |
| WalletFeatures.ScoreIsMonotone | apps/api/detection/model_inference.py:117-125 | raising any signal never lowers the score |
| WalletFeatures.SignalsAdd | apps/api/detection/model_inference.py:28-36 | the share of each signal: 25, 25, 20, 10 and 5 points, and 15 for the digits from a deviation of 3 percent on, 100 in all |
| WalletFeatures.RoundIsNearest | apps/api/detection/model_inference.py:117-125 | rounding goes to the nearest whole number, of two to the even one |
| Partitioning.PartitionedDatasetWriter.Write | data/pipelines/data/partitioning.py:417-443 | an empty frame raises; otherwise each key's group becomes one new shard with its sidecar updated, nothing else changes, and the reported counts are the group sizes |
| Partitioning.PartitionedDatasetWriter.WriteGroup | data/pipelines/data/partitioning.py:452-471 | one directory gains one shard |
| Partitioning.NextShardIndex | data/pipelines/data/partitioning.py:473-482 | the index after the largest existing one, zero in an empty directory |
| Partitioning.RunStoresExactlyItsRows | data/pipelines/data/partitioning.py:417-510 | after any series of writes from an empty root exactly the multiset of rows written is stored, each under its key, with every sidecar count right |
| Partitioning.ReadIsCompleteIff | data/pipelines/data/partitioning.py:69-74 | an unfiltered read then returns all of them exactly when no key starts with the parent directory, a name that sanitising lets through |
| Partitioning.WriteAddsRows | data/pipelines/data/partitioning.py:417-443 | a write adds exactly its rows |
| Partitioning.WriteDates | data/pipelines/data/partitioning.py:484-510 | a write dates the update of every key it writes and of no other, and keeps creation times |
| Partitioning.RunDates | data/pipelines/data/partitioning.py:484-510 | on every run a partition exists exactly if a row of its key was written, and its sidecar has the times of the first and last such write |
| Partitioning.RunShards | data/pipelines/data/partitioning.py:452-482 | on every run the shards of a partition are numbered without a gap and shard i holds, in order, the rows of the i-th batch with its key |
| Partitioning.GroupKeepsOrder | data/pipelines/data/partitioning.py:435-443 | a group keeps the order of its rows |
| Partitioning.GroupsPartition | data/pipelines/data/partitioning.py:435-443 | the key groups are a partition of the rows |
| Partitioning.WriteKeepsShards | data/pipelines/data/partitioning.py:452-482 | no shard is overwritten or lost by a write |
| Partitioning.ShardsAreImmutable | data/pipelines/data/partitioning.py:452-482 | a shard is found unchanged in every later state of a run |
| Partitioning.AppendKeepsCountIff | data/pipelines/data/partitioning.py:484-510 | the sidecar count is right afterwards exactly when it was right before |
| Partitioning.PartitionedDatasetReader.Read | data/pipelines/data/partitioning.py:541-596 | the rows of the matching partitions, as a multiset |
| Partitioning.PartitionedDatasetReader.ReadAll | data/pipelines/data/partitioning.py:575-596 | an unfiltered read returns everything below the root |
| Partitioning.FilterIsSelection | data/pipelines/data/partitioning.py:635-664 | filtering directories by key returns exactly the stored rows whose key passes the filter |
| Partitioning.ColumnFilterIsRightIff | data/pipelines/data/partitioning.py:666-692 | a filter on a column that the sidecar lacks is compared with the whole key, so it selects the right rows exactly when the rows with that value are those with that one name as key |
| Partitioning.KeyColumnFilterIsRightIff | data/pipelines/data/partitioning.py:666-692 | for the column behind the i-th name of the key (year, month, pair, bucket) that means: never past the first name unless there is nothing to find, and for the first one only when it is the whole key |
| Partitioning.PrunePartitions | data/pipelines/data/partitioning.py:700-757 | a non-positive age is refused; otherwise expired directories and what lies below them go, a dry run only lists the expired ones |
| Partitioning.PruneIsAlwaysExactIff | data/pipelines/data/partitioning.py:736-757 | pruning removes exactly the expired partitions at every cutoff when and only when no partition is newer than one it lies below |
| Partitioning.NestedWritesArePruned | data/pipelines/data/partitioning.py:736-757 | two writers whose keys nest reach a tree where it does not: unexpired rows go with the outer directory |
| Partitioning.PruneSplitsRows | data/pipelines/data/partitioning.py:736-757 | the rows before are the rows kept and the rows of the deleted directories, with multiplicity |
| Partitioning.OneDepthPrunesExactly | data/pipelines/data/partitioning.py:736-757 | which is always so under a strategy whose keys have one depth |
| Partitioning.PruningGoesByLastWrite | data/pipelines/data/partitioning.py:736-757 | so on a store written under such keys pruning keeps a partition with all its rows exactly if its last write was not before the cutoff |

## Left out

- Deduplicator.Deduplicate: the `raw_count` field of a flushed group and the metrics are not modelled, and the sort of key tuples is given as a position in the reals.
- Lineage.LineageTracker.GetDescendants: is specified for nodes above no cycle, because above one the source recurses until Python's limit (`Lineage.DescentEndsIff`).
- Lineage.LineageTracker.Register: covers `register_model_input` with its deterministic id and single parent; node metadata, transformation steps and file hashes are values without influence here.
- CertifiedRobustness.CertifyIbp: demands shapes that numpy accepts without broadcasting, a non-empty input and at least one output, because NaN means and broadcast shapes are not modelled.
- AuditTrail.RootCommits: rests on an ideal hash; collisions of SHA-256 and the byte form of canonical JSON are not modelled.
- CacheInvalidation.InvalidationRegistry.EvictKeyLocked: the alphabetical order in which evictors are called and the time stamps of audit events are not modelled.
- ReservoirSampler.DriftAwareReservoirSampler.Update: the sampling weights of the recency-biased replacement are not modelled, only which place an allowed draw changes.
- BenfordDrift.BenfordDriftDetector.Check: takes the two square roots as parameters, because a real square root is not computable here; the clause on the stored fields assumes that they are the true ones.
- Partitioning.PartitionedDatasetWriter.Write: schema hashes, strategy records and failing writes are not modelled; one clock reading serves a whole write.
- Partitioning.PartitionedDatasetReader.Read: row order, column selection and unreadable shards are not modelled; a filter is a predicate on the partition key, with the equality test on a key column as one instance, and filters on other sidecar fields are left out.
- Partitioning.PrunePartitions: the order in which directories are walked is not modelled, so the list of a real run is fixed only up to what its entries cover.
- Streaming.AtLeastOnceIff: is over runs whose reconnections keep their place, because a rejected or missing cursor loses trades under any setting (`Streaming.RejectionLoses`, `Streaming.CursorlessLoses`); the scoring of a batch, event publication, the circuit breaker (an open circuit ends the process like a crash) and the expiry of idempotency records (which only skips less) are not modelled, and a key identifies its trade.
- WalletFeatures.ScoreWallet: the trained-model path, confidence and explanations are not modelled.
- Floating-point rounding and NaN: all arithmetic is over the reals, so equalities that hold here can be off by rounding in the program.
- Locks and concurrent callers: every operation is one atomic step, except in `Streaming`, where a crash can fall between any two writes.
- Network, SQL, file formats, signatures, key loading, logging and metrics: no claim rests on them.
- `layers_from_neural_process`: it replaces the final sigmoid by ReLU, so no exact claim can be made from it.
- `interventional_score` and feature recomputation: a single pass over a fixed small graph with one formula per feature.
- `should_trigger_retrain`, `digit_z_scores` and the volume ratio features: each is a single expression or branch.
- Partition strategies: a key is any function of a row; of the three concrete ones only the nesting of their keys, the place of a column in them and a first name that is the parent directory matter to the theorems, and later names are dates.
