# Verified models of RepoGround's evidence tooling

This project models the algorithms on which RepoGround's release, sync and audit evidence rests, and
proves what they promise.  Each module keeps the form of the code it models: what computes a value is
a function, what changes state step by step is a method or a class proved against a function, and the
promises are lemmas about those functions.

| area | modules |
|---|---|
| Binding analyser of the validates-schema audit | `PythonFragment`, `BindingAnalyzer`, `BindingVisitor`, `PythonSemantics`, `BindingSoundness`, `BindingFrames`, `BindingTheorem`, `BindingPrecision`, `BindingLimits`, `BindingRecording` |
| Deterministic release archive, builder and verifier | `ReleaseModel`, `ReleaseVerifier`, `ReleasePinning`, `ReleaseRoundTrip`, `ReleaseAcceptance`, `ReleaseListing`, `Paths`, `Ordering` |
| Bounded readers | `BoundedReaders` |
| Transactional publication of dependency locks | `LockPublication`, `LockGeneration` |
| Manifest-driven sync of a hub | `MetarepoSync`, `MetarepoLaws`, `MetarepoShared`, `MetarepoHub`, `MetarepoCoverage` |
| Patch-evaluation run | `PatchEvaluation`, `PatchEvaluationLaws` |
| Event-stream collection | `StreamLines` |
| Planning-registration baseline and ratchet | `BaselineModel`, `BaselineLaws`, `BaselineStore`, `BaselineMeaning` |
| Workflow image scanner | `IndentationScan` |
| Signed file-system tokens | `SignedToken` |
| Reusable-workflow inventory | `WorkflowInventory`, `WorkflowInventoryLaws` |
| Shared | `Wrappers`, `PythonText` |

What the surroundings answer is never fixed.  The analysed Python program runs against an oracle that
chooses every foreign value, branch, exception and loop count; the file system of the lock publication
fails at whichever operations a parameter names; the byte sources of the readers deliver any nonempty part
of what is asked for; an evaluation run is driven by a script of replies; a hub runs under an arbitrary
schedule.  Digests, HMAC, gzip, tar
headers, JSON and link validation of path roots are parameters, with the assumptions a theorem needs
in its `requires`.

## Findings

Where the code does not do what one would expect of it, a lemma gives the input, and another says when it
does: exactly, where the text below says "if and only if", and otherwise by a condition that suffices.

- The analyser's environment can misdescribe a name after a `try` body that changes it and then raises
  (six ways of doing so: two statements, an import of two names, a `from` import of two names, unpacking, a
  chained assignment, deletion of two names), after a handler that rebinds its own exception name, under a
  context manager that swallows an exception, after a star import, and in a loop that copies a name it
  rebinds later (`BindingLimits`).  A loop that calls a method of a name and then rebinds the name reaches
  a recorded engine call with a foreign receiver (`BindingLimits.StaleReceiverIsMisrecorded`).
  `BindingSoundness.IsCovered` excludes these by syntactic conditions, under which the analysis is sound.
  The conditions suffice; they are not necessary.  Its condition on calls in loops is shown to be needed
  for an expression statement and is the same for every other statement that evaluates an expression.
- Merging the bindings "module" and "optional module" gives "unknown" although "optional module" covers
  both (`BindingPrecision.ModuleOrOptionalIsGivenUp`); this is the only such set.
- A lock that was replaced and rolled back gets back its bytes but only the permission bits of its mode,
  so a rollback is exact if and only if those modes have no other bits (`LockPublication.RollbackIsExact`).
- The verifier accepts a built candidate if and only if the tree is within its limits
  (`ReleaseRoundTrip.VerifierAcceptsWhatIsBuilt`); the builder checks none of these, and for instance builds a
  candidate with a lock that is a symbolic link, which the verifier refuses (`LinkedLockIsRefused`).
- Source-bound verification looks at neither the type nor the permissions of the root member: with a link in
  place of its root, the members of an accepted archive still pass every check that is made of them
  (`ReleasePinning.RootIsNotPinned`).  It pins every other member (`AcceptancePinsTree`,
  `AcceptedArchivesAgree`).
- Manifest entries with one id can share a wrong cached hash (`MetarepoHub.SharedIdBreaksCache`); the cache
  makes no difference to any hash if and only if entries with one id agree on theirs
  (`MetarepoHub.CacheIsTransparentIff`).
- Manifest entries that share a target can make a dry run report what an apply does not do
  (`MetarepoShared.SharedTargetIsMispredicted`).  A dry run predicts an apply if and only if no item's
  decision is changed by what the last earlier writer of its target would leave there
  (`DryRunPredictsIff`).
- They can also keep an apply from settling (`MetarepoShared.SharedTargetDoesNotSettle`), in every later run
  if both copies are managed (`MetarepoLaws.SharedTargetIsAlwaysUpdated`).  An apply settles if and only if no
  readable target starts with managed content, has copies of two hashes, and replaces content of another
  hash only by marked copies (`MetarepoShared.SettlesIff`).
- An update writes a baseline that cannot be loaded back if two findings share an id or a path is not
  canonical; `BaselineLaws.BuiltLoadsIff` is the exact condition, and `BaselineStore.UpdateThenRatchet` says
  when the ratchet passes right after an update.

## Model

| member | source | states |
|---|---|---|
| BindingVisitor.MergeInto | scripts/proofs/guard_relation_validates_schema_audit.py:359-366 | the dictionary filled name by name is the merge of the environments, with absent bindings left out |
| BindingVisitor.Visitor.VisitCall | scripts/proofs/guard_relation_validates_schema_audit.py:841-873 | a call goes into the engine, meta or unresolved set by its kind in the current bindings, and the sets stay those of all calls met |
| BindingVisitor.Visitor.VisitImport | scripts/proofs/guard_relation_validates_schema_audit.py:556-569 | binds the alias, or the first segment of a dotted name, in order |
| BindingVisitor.Visitor.VisitImportFrom | scripts/proofs/guard_relation_validates_schema_audit.py:571-589 | binds the imported names in order and skips a star |
| BindingVisitor.Visitor.VisitAssign | scripts/proofs/guard_relation_validates_schema_audit.py:591-598 | visits the value, then binds plain names to an instance, None or unknown, and every other target to unknown |
| BindingVisitor.Visitor.VisitIf | scripts/proofs/guard_relation_validates_schema_audit.py:737-755 | merges the environments of the branches that do not terminate, and keeps the baseline if both do |
| BindingVisitor.Visitor.VisitTry | scripts/proofs/guard_relation_validates_schema_audit.py:757-783 | merges the body path with the handler paths that do not terminate; every handler starts from the baseline |
| BindingVisitor.Visitor.VisitWhile | scripts/proofs/guard_relation_validates_schema_audit.py:807-814 | merges the baseline with one pass over the body, then visits the else block |
| BindingVisitor.Visitor.VisitFor | scripts/proofs/guard_relation_validates_schema_audit.py:787-805 | the same with the target bound to unknown before the body |
| BindingVisitor.Analyze | scripts/proofs/guard_relation_validates_schema_audit.py:420-876 | the three reported sets of a module are those of the calls met by the specification walk |
| BindingSoundness.MergeCovers | scripts/proofs/guard_relation_validates_schema_audit.py:344-356 | every value that one of the merged bindings describes is described by the merge |
| BindingSoundness.MergeIsExact | scripts/proofs/guard_relation_validates_schema_audit.py:344-356 | unless it is unknown, the merge describes no value that none of the merged bindings describes |
| BindingSoundness.MergedEnvironmentCovers | scripts/proofs/guard_relation_validates_schema_audit.py:359-366 | a name described by one of the merged environments is described by the merged one |
| BindingSoundness.EvalDescribed | scripts/proofs/guard_relation_validates_schema_audit.py:506-535 | in every run the value of an expression is one that its binding describes |
| BindingSoundness.ExprCallsMet | scripts/proofs/guard_relation_validates_schema_audit.py:841-873 | every call reached while an expression is evaluated has been met, in an environment that is right about its receiver |
| BindingFrames.TerminatingBlockNeverEnds | scripts/proofs/guard_relation_validates_schema_audit.py:369-377 | no run reaches the end of a block that is said to terminate |
| BindingTheorem.IfSound | scripts/proofs/guard_relation_validates_schema_audit.py:737-755 | both branches, dropped or merged, leave names described and calls met |
| BindingTheorem.TrySound | scripts/proofs/guard_relation_validates_schema_audit.py:757-783 | the same for try, handlers and else, when the body changes no name before it raises |
| BindingTheorem.WhileSound | scripts/proofs/guard_relation_validates_schema_audit.py:807-814 | after any number of rounds the one-pass merge describes every name that is not stale |
| BindingTheorem.ForSound | scripts/proofs/guard_relation_validates_schema_audit.py:787-805 | the same for a for loop, whose target is assigned anew in every round |
| BindingTheorem.WithSound | scripts/proofs/guard_relation_validates_schema_audit.py:816-824 | the same for a with block, when nothing is bound under a context that may suppress |
| BindingTheorem.BlockSound | scripts/proofs/guard_relation_validates_schema_audit.py:543-545 | soundness of a covered block for every oracle and every set of stale names |
| BindingTheorem.AnalysisDescribesEveryRun | scripts/proofs/guard_relation_validates_schema_audit.py:420-876 | every run of a covered block that reaches its end leaves every name with a value its computed binding describes |
| BindingTheorem.CandidateCallsAreAccountedFor | scripts/proofs/guard_relation_validates_schema_audit.py:841-876 | a reached validate, iter_errors or check_schema call is listed as unresolved at its line, or listed as engine or meta with a jsonschema receiver, or None for the optional module |
| BindingTheorem.RecordedLinesAreTrue | scripts/proofs/guard_relation_validates_schema_audit.py:841-876 | if every call met at a line is an engine or meta call then so is every call reached there |
| BindingPrecision.BlockVisitsItsCalls | scripts/proofs/guard_relation_validates_schema_audit.py:543-545 | the calls met are exactly the calls written in the block, in unreachable code too, except in the else of a try whose body terminates |
| BindingPrecision.UnknownAttributeMayBeForeign | scripts/proofs/guard_relation_validates_schema_audit.py:511-522 | an attribute is unknown only where a described base can yield a foreign value, or where the base is None and the lookup raises |
| BindingPrecision.UnknownCallMayBeForeign | scripts/proofs/guard_relation_validates_schema_audit.py:523-529 | a call is unknown only where a described callee can return a foreign value |
| BindingPrecision.MergeIsStrongest | scripts/proofs/guard_relation_validates_schema_audit.py:344-356 | a merge gives up only when no other binding covers what it merges, but for one set |
| BindingPrecision.ModuleOrOptionalIsGivenUp | scripts/proofs/guard_relation_validates_schema_audit.py:344-356 | that set: module and optional module merge to unknown although optional module covers both |
| BindingPrecision.OptionalImportIsResolved | scripts/proofs/guard_relation_validates_schema_audit.py:757-785 | after an import guarded by a handler that sets the name to None, validate and check_schema on the name are engine and meta calls |
| BindingRecording.RecordedIff | scripts/proofs/guard_relation_validates_schema_audit.py:841-876 | a call is put on the engine or meta list iff every value that its name or receiver may have makes it a true engine or meta call |
| BindingRecording.ClassesAre | scripts/proofs/guard_relation_validates_schema_audit.py:841-873 | which list that is; a candidate method call that is not recorded is unresolved, and no other call is |
| BindingRecording.UnreboundCallsKeepTheirClass | scripts/proofs/guard_relation_validates_schema_audit.py:543-545 | every call written in a block is met, and classified as before the block if the block does not rebind what it is called on |
| BindingRecording.UnreboundTrueCallsAreListed | scripts/proofs/guard_relation_validates_schema_audit.py:841-876 | so a call that is surely true before the block has its line on the list |
| BindingRecording.ChainHasSampleValue | scripts/proofs/guard_relation_validates_schema_audit.py:506-535 | for a chain of names, attributes and calls the computed binding is the one of a value that the chain has in some run |
| BindingRecording.ConditionalIsStrongest | scripts/proofs/guard_relation_validates_schema_audit.py:530-534 | a conditional expression is unknown only if no other binding covers both arms, but for module and optional module |
| BindingRecording.AssignedBindingIs | scripts/proofs/guard_relation_validates_schema_audit.py:537-541 | an assignment keeps what is surely a validator instance or surely None, and nothing else |
| BindingRecording.UnknownImportMayBeForeign | scripts/proofs/guard_relation_validates_schema_audit.py:556-589 | an import is unknown only where the imported value may be foreign |
| BindingRecording.ImportedNameIs | scripts/proofs/guard_relation_validates_schema_audit.py:558-575 | an import binds its alias, or the first segment of the module name, and a from-import the alias or the name |
| BindingRecording.BlockEnds | scripts/proofs/guard_relation_validates_schema_audit.py:369-377 | a block terminates if its last statement returns, raises, or is an if both of whose branches do |
| BindingRecording.EndedBranchIsDropped | scripts/proofs/guard_relation_validates_schema_audit.py:737-755 | a branch that ends for sure leaves no trace, and what both reachable branches agree on is kept |
| BindingRecording.EndedHandlerIsDropped | scripts/proofs/guard_relation_validates_schema_audit.py:757-783 | the same for a handler of a try |
| BindingRecording.LoopKeepsAgreement | scripts/proofs/guard_relation_validates_schema_audit.py:787-814 | a loop keeps a binding on which the environments before it and after its body agree |
| BindingRecording.RebindingIsUnknown | scripts/proofs/guard_relation_validates_schema_audit.py:611-625 | augmented assignment, deletion and a with target (816-824) leave their names unknown |
| BindingRecording.BoundNamesAreWritten | scripts/proofs/guard_relation_validates_schema_audit.py:311-318 | the names that a target binds are names that a store into it writes |
| BindingRecording.ImportedFunctionIsResolved | scripts/proofs/guard_relation_validates_schema_audit.py:571-589 | `from jsonschema import validate` and then `validate(...)` is an engine call |
| BindingRecording.ConstructorsAre | scripts/proofs/guard_relation_validates_schema_audit.py:56-59 | exactly the six draft validator classes are constructors where they are imported or looked up |
| BindingRecording.ConstructedInstanceIsResolved | scripts/proofs/guard_relation_validates_schema_audit.py:571-598 | a validator imported, constructed, assigned and asked for `iter_errors` is an engine call, for each of the six classes |
| BindingLimits.HalfDoneTryIsMisdescribed | scripts/proofs/guard_relation_validates_schema_audit.py:757-783 | a try body that rebinds a name and then raises leaves it misdescribed in some run |
| BindingLimits.HalfDoneImportIsMisdescribed | scripts/proofs/guard_relation_validates_schema_audit.py:757-783 | so does an import of two names whose second fails |
| BindingLimits.HalfDoneFromImportIsMisdescribed | scripts/proofs/guard_relation_validates_schema_audit.py:757-783 | so does a from-import whose second name is missing |
| BindingLimits.HalfDoneUnpackingIsMisdescribed | scripts/proofs/guard_relation_validates_schema_audit.py:757-783 | so does an unpacking that runs out of values |
| BindingLimits.HalfDoneChainIsMisdescribed | scripts/proofs/guard_relation_validates_schema_audit.py:757-783 | so does a chained assignment whose second target cannot be set |
| BindingLimits.HalfDoneDeleteIsMisdescribed | scripts/proofs/guard_relation_validates_schema_audit.py:757-783 | so does a deletion of two names of which the second is missing |
| BindingLimits.RebindingHandlerIsMisdescribed | scripts/proofs/guard_relation_validates_schema_audit.py:765-774 | so does a handler that rebinds its own exception name |
| BindingLimits.SuppressingWithIsMisdescribed | scripts/proofs/guard_relation_validates_schema_audit.py:816-824 | so does a context manager that swallows the exception of its body |
| BindingLimits.StarImportIsMisdescribed | scripts/proofs/guard_relation_validates_schema_audit.py:571-589 | so does a star import |
| BindingLimits.CopyingLoopIsMisdescribed | scripts/proofs/guard_relation_validates_schema_audit.py:807-814 | so does a loop that copies a name before it rebinds it |
| BindingLimits.StaleReceiverIsMisrecorded | scripts/proofs/guard_relation_validates_schema_audit.py:807-873 | a loop that calls validate on a name and then rebinds it reaches a recorded engine call with a foreign receiver |
| LockPublication.PrepareLock | scripts/release/compile_dependency_locks.py:329-355 | new and rollback copies of one lock are complete and nothing else changes, or nothing changes at all; the copies are made iff no operation fails, the lock exists and its new bytes were staged |
| LockPublication.ReplaceAll | scripts/release/compile_dependency_locks.py:357-361 | the locks before the first failing rename are new, the others old; all are new iff no rename fails |
| LockPublication.RollBack | scripts/release/compile_dependency_locks.py:362-365 | every replaced lock has its old bytes again |
| LockPublication.RemoveCopies | scripts/release/compile_dependency_locks.py:366-369 | no temporary file is left |
| LockPublication.PublishLocks | scripts/release/compile_dependency_locks.py:322-369 | publishes all named locks iff they are staged and exist and no file operation fails, whichever operations may fail; otherwise every byte is as before, and with plain modes every mode too |
| LockPublication.TransactionEnds | scripts/release/compile_dependency_locks.py:322-369 | with all copies gone the files are exactly the published or exactly the restored ones |
| LockPublication.RollbackIsExact | scripts/release/compile_dependency_locks.py:332-365 | a rollback restores bytes and modes if and only if the replaced locks had permission bits only |
| LockGeneration.PublishingStaleLocks | scripts/release/compile_dependency_locks.py:405-432 | publishing exactly the locks that differ makes the locks one whole generation |
| LockGeneration.GenerateLocks | scripts/release/compile_dependency_locks.py:372-436 | exactly when the exit code is 0, 1 and 2, by environment, inputs, compiler, file faults and staleness; checks and failures change nothing, and after code 0 the locks are the compiled generation |
| LockGeneration.NoMixedGenerations | scripts/release/compile_dependency_locks.py:372-436 | over any sequence of runs with any faults the locks are the initial bytes or one complete generation |
| MetarepoSync.RepoSync.SyncTarget | merger/repoground/adapters/metarepo.py:225-295 | one target is decided, backed up and written, and its outcome recorded |
| MetarepoSync.RepoSync.SyncEntry | merger/repoground/adapters/metarepo.py:184-293 | an entry is a source error or its targets in order |
| MetarepoSync.RepoSync.Sync | merger/repoground/adapters/metarepo.py:146-307 | files, report and report file after a whole repository |
| MetarepoLaws.ReportAddsUp | merger/repoground/adapters/metarepo.py:285-297 | whatever fails, the summary counts the details by action, totals their number, and the status is error iff the error count is positive |
| MetarepoShared.DryRunPredictsApply | merger/repoground/adapters/metarepo.py:184-303 | for separate writable targets a dry run gives the report of an apply and touches only the report file |
| MetarepoShared.ApplySettles | merger/repoground/adapters/metarepo.py:184-303 | a run after an apply adds and updates nothing and rewrites only its report |
| MetarepoLaws.DecisionAfterApply | merger/repoground/adapters/metarepo.py:242-268 | a written target is then skipped as identical; every other target decides as before |
| MetarepoLaws.ApplyWritesTarget | merger/repoground/adapters/metarepo.py:242-283 | a target gets the source's bytes iff the decision was add or update |
| MetarepoLaws.ApplyLeavesAlone | merger/repoground/adapters/metarepo.py:268-283 | no path is written but targets and the backups of updates |
| MetarepoLaws.ApplyBacksUp | merger/repoground/adapters/metarepo.py:268-280 | an update leaves the old bytes under the backup's name |
| MetarepoLaws.SharedTargetNeverSettles | merger/repoground/adapters/metarepo.py:225-283 | an apply of two copy entries for one managed file with different content updates it and leaves the second content |
| MetarepoLaws.SharedTargetIsAlwaysUpdated | merger/repoground/adapters/metarepo.py:225-283 | however many applies have run, the next one updates the shared target again |
| MetarepoShared.SharedTargetIsMispredicted | merger/repoground/adapters/metarepo.py:225-283 | two entries for one absent file are two additions in a dry run and one in an apply |
| MetarepoShared.DryRunPredictsIff | merger/repoground/adapters/metarepo.py:184-303 | dry run and apply report the same iff no item's decision is changed by what the last earlier writer of its target leaves there |
| MetarepoShared.SettlesIff | merger/repoground/adapters/metarepo.py:184-303 | a run after an apply adds and updates nothing iff no readable target starts managed, has copies of two hashes, and changes hash only to marked copies |
| MetarepoShared.SharedTargetDoesNotSettle | merger/repoground/adapters/metarepo.py:225-283 | two marked copies of different hash for one managed file are such a target |
| MetarepoShared.SeparateTargetsAreFine | merger/repoground/adapters/metarepo.py:225-283 | separate targets meet both conditions |
| MetarepoHub.PrecomputeHashes | merger/repoground/adapters/metarepo.py:329-358 | the loop computes the hash cache of the selected entries |
| MetarepoHub.CacheIsTransparentIff | merger/repoground/adapters/metarepo.py:212-223 | every selected entry gets its own source's hash iff entries with one id have sources of equal hash |
| MetarepoHub.CacheIsTransparent | merger/repoground/adapters/metarepo.py:212-223 | then the cached plan is the uncached plan |
| MetarepoHub.OwnIdsAgree | merger/repoground/adapters/metarepo.py:329-358 | which holds in particular if ids are present and distinct |
| MetarepoHub.SharedIdBreaksCache | merger/repoground/adapters/metarepo.py:329-358 | with a shared id it need not be |
| MetarepoHub.PlanIsHonest | merger/repoground/adapters/metarepo.py:212-223 | without a cache every planned hash is that of the data that would be copied |
| MetarepoHub.EnoughSteps | merger/repoground/adapters/metarepo.py:225-307 | the micro-steps of a repository run alone, report file included, end in the sequential result |
| MetarepoHub.Projection | merger/repoground/adapters/metarepo.py:375-385 | under any interleaving a repository does what it would do alone with its share of the steps |
| MetarepoHub.ParallelIsSequential | merger/repoground/adapters/metarepo.py:375-385 | in both modes a finished interleaving gives every repository its sequential report and files, report file included |
| MetarepoHub.InterleavingsAgree | merger/repoground/adapters/metarepo.py:375-385 | two finished interleavings agree on every file and report |
| MetarepoHub.AggregateReports | merger/repoground/adapters/metarepo.py:384-404 | the loop over completed repositories gives the summed summary and the status |
| MetarepoHub.AggregateIgnoresOrder | merger/repoground/adapters/metarepo.py:384-390 | every completion order gives the same sum |
| MetarepoHub.FailedIffErrors | merger/repoground/adapters/metarepo.py:399-404 | the run is an error iff an error was counted |
| MetarepoHub.HubGivesRepositoryAlone | merger/repoground/adapters/metarepo.py:310-385 | under any schedule a repository planned with the shared cache ends as if synced alone |
| MetarepoHub.HubSummaryIsSequential | merger/repoground/adapters/metarepo.py:375-404 | under any schedule and completion order the hub's summary is that of the repositories synced alone, and a report failed iff an error was counted |
| MetarepoHub.HubCacheIsTransparent | merger/repoground/adapters/metarepo.py:329-385 | with the hub's own cache over shared sources, and ids that agree, every schedule gives the run without a cache |
| MetarepoCoverage.ReportCoversManifest | merger/repoground/adapters/metarepo.py:184-293 | the report has, in order, one detail for every target of every selected entry with a usable source, one for each other selected entry, and no more |
| MetarepoCoverage.SelectedIff | merger/repoground/adapters/metarepo.py:127-143 | an entry is selected iff the filter is empty or its id is one of its texts or continues one after a slash or colon |
| MetarepoCoverage.SegmentsAreWhole | merger/repoground/adapters/metarepo.py:127-143 | `wgx` selects `wgx`, `wgx/foo` and `wgx:bar`, but neither `wgx_extra` nor an entry without id |
| MetarepoCoverage.DecisionIs | merger/repoground/adapters/metarepo.py:242-266 | each action iff: absent, unreadable, identical or not to be copied over, marked, or unmarked and therefore blocked |
| MetarepoCoverage.ReasonIs | merger/repoground/adapters/metarepo.py:242-266 | the reason that goes with each action |
| MetarepoCoverage.DryRunOnlyReports | merger/repoground/adapters/metarepo.py:268-293 | a dry run writes nothing and reports the decision |
| MetarepoCoverage.SuccessIsReported | merger/repoground/adapters/metarepo.py:268-293 | an apply writes the source bytes, saves the old ones under the backup name before an update, and touches nothing else |
| MetarepoCoverage.FailureIsReported | merger/repoground/adapters/metarepo.py:268-293 | a failed backup or copy is reported as an error and leaves the target as it was |
| MetarepoCoverage.BrokenIsReported | merger/repoground/adapters/metarepo.py:193-239 | a path that cannot be used is reported as an error and nothing is written |
| MetarepoCoverage.ApplyCoversManifest | merger/repoground/adapters/metarepo.py:184-303 | an apply gives every target of every selected entry the bytes of its source iff it is missing, or managed, different and to be copied over |
| MetarepoCoverage.ReportIsWritten | merger/repoground/adapters/metarepo.py:299-307 | the report file holds the report in both modes, and a dry run changes nothing else |
| MetarepoCoverage.CachedIff | merger/repoground/adapters/metarepo.py:337-352 | a hash is cached under its id iff id and source are present and the digest is 64 hexadecimal digits |
| MetarepoCoverage.SummaryCounts | merger/repoground/adapters/metarepo.py:285-297 | each count is the number of details with that action, and the status is error iff one detail is |
| MetarepoCoverage.AggregateIsSum | merger/repoground/adapters/metarepo.py:384-390 | each count of the hub is the sum of the counts of its repositories |
| Paths.SafeSymlinkTarget | scripts/release/build_release_candidate.py:155-168 | the stack walk accepts exactly the relative targets that never climb above the root at any step |
| Paths.JoinInvertsSplit | scripts/release/verify_release_candidate.py:295-303 | a path is the join of its pieces |
| Paths.PartsAre | scripts/release/build_release_candidate.py:155-168 | the parts of a path are its nonempty pieces between slashes other than dots |
| Paths.ClimbIsSafeIff | scripts/release/build_release_candidate.py:155-168 | a link may climb as far as its own directory is deep, and once more after it has gone down, and no further |
| Paths.UnsafeTargets | scripts/release/build_release_candidate.py:156-157 | empty and absolute targets and those with a NUL are unsafe |
| Ordering.LexLeIff | scripts/release/build_release_candidate.py:141-141 | the order of paths is that of the first difference, and a prefix comes first |
| ReleaseModel.BuildTar | scripts/release/build_release_candidate.py:183-220 | the stream is that of the root and one member per entry in order, or nothing iff some link is unsafe |
| ReleaseModel.BuildReleaseCandidate | scripts/release/build_release_candidate.py:272-364 | a candidate comes out iff the working tree is clean, the output is outside it and empty, and the tree passes the builder's checks; it is the archive, the manifest and their sums |
| ReleaseVerifier.VerifySums | scripts/release/verify_release_candidate.py:337-365 | accepts iff the file is small enough and UTF-8, every line is well formed, no name repeats, and the digests are the expected ones |
| ReleaseVerifier.ArchiveMembers | scripts/release/verify_release_candidate.py:429-490 | accepts iff names are distinct, safe and canonically ordered, metadata is normal, links are safe, and count, sizes and ratio are in bounds; indexes the members by name |
| ReleaseVerifier.ValidateMember | scripts/release/verify_release_candidate.py:368-383 | accepts iff name, ownership, time, kind and link target are admissible |
| ReleaseVerifier.VerifyDependencyLocks | scripts/release/verify_release_candidate.py:551-588 | accepts iff the records are the expected paths in order and the archive holds each with its size and digest |
| ReleaseVerifier.CheckBlobSizes | scripts/release/verify_release_candidate.py:750-792 | accepts iff each blob and their sum are within the limits |
| ReleaseVerifier.CompareWithRepo | scripts/release/verify_release_candidate.py:904-951 | accepts iff commit, tree and path set agree and every entry matches its member in kind, mode and bytes |
| ReleaseVerifier.VerifyReleaseCandidate | scripts/release/verify_release_candidate.py:962-1061 | accepts iff there is one manifest and the conjunction of all checks holds |
| ReleasePinning.CanonicalNamesAreTreeNames | scripts/release/verify_release_candidate.py:477-489 | a canonically ordered name list with the tree's path set is the root followed by the paths in byte order |
| ReleasePinning.AcceptancePinsTree | scripts/release/verify_release_candidate.py:865-951 | source-bound acceptance means the archive is the root and then exactly the tree: paths in byte order, modes, bytes, link targets inside the root |
| ReleasePinning.AcceptedArchivesAgree | scripts/release/verify_release_candidate.py:865-951 | two candidates accepted for one repository agree on every archive member but the root |
| ReleasePinning.RootIsNotPinned | scripts/release/verify_release_candidate.py:368-383 | with a link without permissions in place of the root, the members of an accepted archive still pass the member checks, the content checks and the comparison with the tree |
| ReleaseRoundTrip.MemberContent | scripts/release/build_release_candidate.py:183-220 | reading a member's size at its data offset gives back its content, through headers and 512-byte padding |
| ReleaseRoundTrip.BuiltNames | scripts/release/build_release_candidate.py:183-220 | the member names of a built archive are the root and the tree's paths |
| ReleaseRoundTrip.TotalSizeIsFileTotal | scripts/release/verify_release_candidate.py:405-426 | the accounted size of a built archive is the sum of the regular files and fits the stream |
| ReleaseRoundTrip.BuiltSumsParse | scripts/release/build_release_candidate.py:359-364 | the written sums decode to themselves and are read as exactly the two digests |
| ReleaseRoundTrip.BuiltMembersAccepted | scripts/release/verify_release_candidate.py:429-490 | the member checks accept a built archive iff its entries are within the limits |
| ReleaseRoundTrip.BuiltTreeMatches | scripts/release/verify_release_candidate.py:904-951 | a built archive matches its repository iff the blobs are within the limits |
| ReleaseRoundTrip.VerifierAcceptsWhatIsBuilt | scripts/release/verify_release_candidate.py:962-1061 | a built candidate is accepted, with or without the repository, iff it is within the stated limits |
| ReleaseRoundTrip.LinkedLockIsRefused | scripts/release/verify_release_candidate.py:526-588 | a built candidate with a lock that is a symbolic link is refused |
| ReleaseAcceptance.AcceptedSums | scripts/release/verify_release_candidate.py:337-365 | the sums file of an accepted candidate has two lines, those of the digests of its archive and of its manifest |
| ReleaseAcceptance.LinesKeepTheRest | scripts/release/verify_release_candidate.py:356-356 | splitting into lines drops the line breaks and nothing else |
| ReleaseAcceptance.AcceptedDirectory | scripts/release/verify_release_candidate.py:306-334 | an accepted directory is three regular files of bounded size; the archive has the recorded size and digest, no time stamp, and unpacks within the limits |
| ReleaseAcceptance.AcceptedManifest | scripts/release/verify_release_candidate.py:679-747 | the fields of an accepted manifest: the contract's texts, and ids, names and prefix that follow from version and commit |
| ReleaseAcceptance.AcceptedMembers | scripts/release/verify_release_candidate.py:429-506 | the members of an accepted archive are as many as recorded, distinct, admissible one by one, not retired, and bounded in number, size and ratio |
| ReleaseAcceptance.AcceptedRecords | scripts/release/verify_release_candidate.py:551-676 | every recorded lock and semantic file has its path, size and digest in a regular file of the archive |
| ReleaseAcceptance.AcceptedLicense | scripts/release/verify_release_candidate.py:735-742 | the archive holds a license of at most a mebibyte that the check recognises |
| ReleaseListing.ListedIff | scripts/release/build_release_candidate.py:123-143 | a tree is taken iff every record is a blob of one of three modes at a path that stays below the root; sorting loses, adds and changes nothing |
| ReleaseListing.AcceptancePinsRaw | scripts/release/verify_release_candidate.py:865-951 | besides its root an accepted archive holds, for each record of the tree and nothing else, a file with its bytes and permissions or a safe link to its text |
| ReleaseListing.AcceptedLocksAreOfTree | scripts/release/verify_release_candidate.py:551-588 | the recorded locks of a source-bound candidate have the sizes and digests of the tree's files |
| ReleaseListing.VersionIff | scripts/release/build_release_candidate.py:20-20 | a version is three numbers with dots between them, and perhaps a hyphen and a suffix |
| ReleaseListing.BuildableIff | scripts/release/build_release_candidate.py:272-306 | a tree can be built iff its ids, version, records, links, license, retired paths and recorded files meet these conditions, record by record |
| ReleaseListing.SourcesAre | scripts/release/build_release_candidate.py:171-209 | what is written: the root directory, then each record in byte order of paths, with permissions, bytes or link text |
| ReleaseListing.SumsTextIs | scripts/release/build_release_candidate.py:359-364 | the sums file is the two lines in order, each ended by a newline |
| ReleaseListing.LimitsAre | scripts/release/verify_release_candidate.py:93-103 | the verifier's limits on a built candidate, in bytes, members and ratio |
| BoundedReaders.ReadLimited | scripts/release/verify_release_candidate.py:509-523 | the whole stream iff it fits, at most limit plus one bytes consumed, for every pattern of short reads |
| BoundedReaders.HashOpenArchive | scripts/release/verify_release_candidate.py:127-145 | the digest of the whole archive and its first eight bytes iff it fits |
| BoundedReaders.ReadExact | scripts/release/verify_release_candidate.py:821-833 | exactly the next size bytes iff there are so many |
| BoundedReaders.CaptureStream | tools/patch_evaluation_sidecar_hardening.py:339-355 | the first limit bytes, flagged as truncated iff there were more, with the pipe read to its end |
| PatchEvaluation.Evaluation.WorkspaceIsIntact | tools/patch_evaluation_sidecar_hardening.py:522-542 | true iff a fingerprint was taken and is observed again; otherwise the error flag is set |
| PatchEvaluation.Evaluation.RunDeclaredCommands | tools/patch_evaluation_sidecar_hardening.py:559-617 | the loop's records, flags and way of ending are those of the specification from every state |
| PatchEvaluation.Evaluation.PerformEvaluation | tools/patch_evaluation_sidecar_hardening.py:703-759 | which step fails and what is recorded by then |
| PatchEvaluation.Evaluation.CleanUpEvaluation | tools/patch_evaluation_sidecar_hardening.py:762-824 | workspace, snapshot, runtime, source and producer are checked in order and every doubt sets the error flag |
| PatchEvaluation.EvaluatePatch | tools/patch_evaluation_sidecar_hardening.py:850-883 | the artifact that is found at the output path, for every script of replies |
| PatchEvaluationLaws.LoopHasShape | tools/patch_evaluation_sidecar_hardening.py:559-617 | what every record says of how its command ended, and how the loop ended: all commands run, or up to the deadline, a fault, an exception or a failure when failing fast, the others skipped |
| PatchEvaluationLaws.LoopIsCleanIff | tools/patch_evaluation_sidecar_hardening.py:559-617 | all records pass without an error iff every command started, ended in time with exit code zero, and found the fingerprint on both sides |
| PatchEvaluationLaws.RollsUpToPassed | tools/patch_evaluation_sidecar_hardening.py:620-636 | the status is passed iff applied, unmarked, nonempty and all passed |
| PatchEvaluationLaws.CleanUpIsCleanIff | tools/patch_evaluation_sidecar_hardening.py:817-824 | cleanup leaves the flag alone iff everything is gone and source and producer are unchanged; it never clears the flag or alters the records |
| PatchEvaluationLaws.PassedIffFlawless | tools/patch_evaluation_sidecar_hardening.py:850-883 | an artifact with status passed is published iff no step, command, fingerprint or cleanup had any fault |
| PatchEvaluationLaws.PassedArtifactIsComplete | tools/patch_evaluation_sidecar_legacy.py:1390-1440 | such an artifact says applied and isolated and has one passed record with exit code zero per command, in order, at least one |
| PatchEvaluationLaws.SetupIs | tools/patch_evaluation_sidecar_hardening.py:703-759 | the performance ends at the first of ten steps that is not done, with the state of the steps before it, or else with the command loop |
| PatchEvaluationLaws.RollsUpAs | tools/patch_evaluation_sidecar_hardening.py:620-636 | each status of an artifact by its records: error, mixed, failed, incomplete and passed |
| PatchEvaluationLaws.PublishedIs | tools/patch_evaluation_sidecar_hardening.py:850-883 | when an artifact is published, and its records, flags and status in every case |
| StreamLines.LinesJoinBack | tools/agent_study_codex_runner.py:579-581 | joining the complete lines and the tail gives back the bytes, and no piece holds a newline |
| StreamLines.OnlySplit | tools/agent_study_codex_runner.py:579-581 | there is no other way to cut bytes at newlines |
| StreamLines.SplitInPieces | tools/agent_study_codex_runner.py:578-581 | splitting the buffer with each new fragment splits the concatenation |
| StreamLines.DrainBuffer | tools/agent_study_codex_runner.py:579-581 | takes off all complete lines, or stops at the first that does not parse |
| StreamLines.CollectStream | tools/agent_study_codex_runner.py:543-587 | for every fragmentation the result depends on the concatenated bytes alone; the trace is a prefix within the budget, and after a failure it is the first budget bytes or shows the bad line |
| StreamLines.EventsAreLines | tools/agent_study_codex_runner.py:534-540 | the events are the parsed nonblank lines, one each and in order |
| StreamLines.CollectionIs | tools/agent_study_codex_runner.py:543-587 | a collection succeeds iff the bytes fit and every line that counts is white or parses; it then has the bytes, one event per line that is not white in order, and says whether time ran out |
| StreamLines.FinalNewlineIsOptional | tools/agent_study_codex_runner.py:582-583 | a newline at the end changes nothing, and makes a timed-out stream count its last line |
| BaselineLaws.BaselinePathIff | scripts/docmeta/check_planning_registration.py:554-577 | a path is accepted iff it is relative, its pieces are ordinary, it has no backslash and does not start with two dots |
| BaselineLaws.CanonicalIffSorted | scripts/docmeta/check_planning_registration.py:694-699 | comparing the keys with their sorted copy is asking for sortedness by path, code and id |
| BaselineLaws.BuiltLoadsIff | scripts/docmeta/check_planning_registration.py:531-551 | a built baseline loads iff its findings have distinct ids, canonical paths and a kind; it holds each eligible finding once |
| BaselineLaws.RepeatedFindingIsNotLoadable | scripts/docmeta/check_planning_registration.py:688-692 | a finding reported twice gives a baseline that cannot be loaded |
| BaselineLaws.FreshBaselineTolerates | scripts/docmeta/check_planning_registration.py:703-723 | against a fresh baseline nothing is resolved, and nothing is new if all ratchetable findings are eligible |
| BaselineLaws.KnownAndResolvedAreAll | scripts/docmeta/check_planning_registration.py:734-742 | for distinct ids known plus resolved is the size of the baseline, and known plus new that of the findings |
| BaselineLaws.RatchetPassesIff | scripts/docmeta/check_planning_registration.py:1112-1144 | the ratchet passes iff every finding is ratchetable and has its id in the baseline |
| BaselineMeaning.PartitionMeans | scripts/docmeta/check_planning_registration.py:703-723 | how often each finding is new or known and each entry resolved, by ids alone; resolved entries come in key order |
| BaselineMeaning.ReportedOrderIsKept | scripts/docmeta/check_planning_registration.py:703-723 | new and known findings come in the order in which they are reported |
| BaselineMeaning.RatchetExitIs | scripts/docmeta/check_planning_registration.py:1112-1144 | exit code 2 iff a control file is missing or broken, 1 iff otherwise an exception is invalid or a finding new, and 0 iff neither |
| BaselineMeaning.PruneExitIs | scripts/docmeta/check_planning_registration.py:995-1064 | a prune ends with 0 or 2; a dry one writes nothing and passes iff the baseline loads and nothing is broken |
| BaselineMeaning.UpdateExitIs | scripts/docmeta/check_planning_registration.py:1066-1110 | when an update ends with 0, 1 and 2; it never writes over a broken control file or an invalid exception |
| BaselineMeaning.IdsTellFindingsApart | scripts/docmeta/check_planning_registration.py:428-432 | for a digest that tells texts apart, equal ids mean equal code, path up to slashes, and kind |
| BaselineMeaning.LoadableIff | scripts/docmeta/check_planning_registration.py:580-700 | a document loads iff it is ours, each entry has the id of its path and kind, a plain path and a kind, no id repeats, and entries come by path and id |
| BaselineMeaning.ForgedEntryIsRefused | scripts/docmeta/check_planning_registration.py:597-636 | an entry with another id or code is never loaded |
| BaselineStore.CheckDistinct | scripts/docmeta/check_planning_registration.py:688-692 | finds a repeated id iff there is one |
| BaselineStore.LoadBaseline | scripts/docmeta/check_planning_registration.py:639-700 | gives the document iff it passes every check |
| BaselineStore.Store.WritePrunedBaseline | scripts/docmeta/check_planning_registration.py:799-870 | file and exit code for every combination of resolved list, document and fault |
| BaselineStore.Store.PruneBaseline | scripts/docmeta/check_planning_registration.py:995-1064 | file and exit code of the prune mode |
| BaselineStore.Store.UpdateBaseline | scripts/docmeta/check_planning_registration.py:1066-1110 | the update mode performs `Update`, which the next row characterises |
| BaselineStore.UpdateThenRatchet | scripts/docmeta/check_planning_registration.py:1066-1144 | an update succeeds iff nothing is broken and no fault strikes; the file then loads iff ids are distinct and findings recordable, and the ratchet passes iff besides every finding is recorded or shares a recorded id; a failed update leaves the file as it was, unloadable, or, if only the end of the write failed, as a success would |
| BaselineStore.Store.Ratchet | scripts/docmeta/check_planning_registration.py:1112-1144 | the exit code of the ratchet mode |
| BaselineStore.WithoutIsLoadable | scripts/docmeta/check_planning_registration.py:819-834 | removing entries leaves a loadable baseline and reorders nothing |
| BaselineStore.PartitionAfterPrune | scripts/docmeta/check_planning_registration.py:703-723 | partitioning again after a prune gives the same new and known lists and nothing resolved |
| BaselineStore.PruneEffect | scripts/docmeta/check_planning_registration.py:1011-1049 | a writing prune leaves the file or replaces it by a nonempty remainder, and succeeds iff it is not blocked and, where it writes, no fault strikes |
| BaselineStore.PruneKeepsVerdict | scripts/docmeta/check_planning_registration.py:1011-1049 | a successful prune leaves the ratchet's verdict unchanged |
| BaselineStore.SecondPruneDoesNothing | scripts/docmeta/check_planning_registration.py:799-809 | a second prune with the same findings changes nothing and succeeds |
| BaselineStore.PrunesOnlyRemove | scripts/docmeta/check_planning_registration.py:799-870 | no sequence of prunes adds or alters an entry, empties a baseline or makes it unloadable |
| BaselineStore.PrunesNeverRelax | scripts/docmeta/check_planning_registration.py:1112-1144 | no sequence of prunes lets a ratchet pass that would have failed before |
| IndentationScan.GuardDecides | scripts/ci/check_github_actions_pins.py:66-77 | a line is inside a block scalar iff it is deeper than the remembered header |
| IndentationScan.PoppingLeavesParents | scripts/ci/check_github_actions_pins.py:79-80 | popping what is not less indented leaves exactly the keys that every processed line since stays below |
| IndentationScan.DeepStack | scripts/ci/check_github_actions_pins.py:79-80 | the stack is strictly deeper towards its top |
| IndentationScan.WorkflowImageEntries | scripts/ci/check_github_actions_pins.py:63-105 | the scanner reports exactly the image lines of the declarative reading |
| IndentationScan.UsesEntries | scripts/ci/check_github_actions_pins.py:44-60 | the reported references are those outside block scalars |
| IndentationScan.ReportedIff | scripts/ci/check_github_actions_pins.py:83-102 | something is reported iff some line reports it |
| IndentationScan.ParentIsNearest | scripts/ci/check_github_actions_pins.py:86-86 | the last parent is the nearest shallower valueless key that nothing between comes out of |
| IndentationScan.ImageLineIs | scripts/ci/check_github_actions_pins.py:82-105 | a line is reported iff its key is `container` two levels below `jobs`, or `image` right below `container` or two levels below `services`, and it has a value |
| IndentationScan.UsesAre | scripts/ci/check_github_actions_pins.py:44-60 | a reference is reported iff it stands outside block scalars on a line that starts none, with its line number |
| IndentationScan.ImagesAscend | scripts/ci/check_github_actions_pins.py:63-105 | images are reported in line order, each line at most once |
| SignedToken.Base64UrlRoundTrip | merger/repoground/adapters/filesystem.py:43-48 | for every byte string decoding inverts encoding, and the encoding holds no dot |
| SignedToken.IssuedTokenIsAcceptedIff | merger/repoground/adapters/filesystem.py:56-97 | an issued token is accepted iff its path may be named, is allowed and the token has not expired; it gives back path and expiry |
| SignedToken.TokensDetermineTheirPayload | merger/repoground/adapters/filesystem.py:56-63 | equal tokens stand for the same path and expiry |
| SignedToken.TokenIsAcceptedIff | merger/repoground/adapters/filesystem.py:65-97 | any token is accepted iff it is two parts around a dot, the second being the HMAC of the first, and the signed payload names an allowed path and has not expired |
| SignedToken.WrongSignatureIsForbidden | merger/repoground/adapters/filesystem.py:70-95 | a wrong signature is forbidden whatever the payload, and each fault of a signed payload has its error |
| SignedToken.UnreadableTokens | merger/repoground/adapters/filesystem.py:50-73 | the errors for a token without dot, an undecodable part, and a missing secret |
| SignedToken.Vectors | merger/repoground/adapters/filesystem.py:43-44 | vectors of section 10 of RFC 4648 and the digits of its section 5 |
| WorkflowInventory.InventoryFindings | scripts/ci/check_reusable_workflow_contracts.py:97-176 | the list of findings, one for each violation and in order; it is empty iff the whole record is closed |
| WorkflowInventory.ReportedIff | scripts/ci/check_reusable_workflow_contracts.py:97-176 | a code is reported iff a node at some depth breaks its rule |
| WorkflowInventory.NoFindingsIffClosed | scripts/ci/check_reusable_workflow_contracts.py:97-176 | there are no findings iff no node at any depth breaks any rule |
| WorkflowInventory.CheckNode | scripts/ci/check_reusable_workflow_contracts.py:105-155 | the findings about one node, one for each unpinned use and each item that is not a mapping |
| WorkflowInventory.OwnCodesIff | scripts/ci/check_reusable_workflow_contracts.py:105-155 | whose codes are those of the rules that the node breaks itself |
| WorkflowInventoryLaws.FindingsAre | scripts/ci/check_reusable_workflow_contracts.py:97-176 | a finding is reported iff it says something true of the node at its place, or is one about an item, at all depths, placed behind an arrow |
| WorkflowInventoryLaws.OwnFindingsAre | scripts/ci/check_reusable_workflow_contracts.py:105-155 | what each finding about a node is about |
| WorkflowInventoryLaws.PinnedIff | scripts/ci/check_reusable_workflow_contracts.py:59-60 | a reference is pinned iff it ends in `@` and forty hexadecimal digits |
| WorkflowInventoryLaws.ReusableIff | scripts/ci/check_reusable_workflow_contracts.py:63-65 | a reference is reusable iff the workflow directory occurs before its last `@` |
| WorkflowInventoryLaws.CountersAgreeIff | scripts/ci/check_reusable_workflow_contracts.py:141-155 | the counters agree iff every reusable use is recorded as often as it is declared and nothing else is |
| WorkflowInventory.UsedWorkflowIsRecorded | scripts/ci/check_reusable_workflow_contracts.py:143-155 | in a closed record every reusable use of any recorded node has a hashed, pinned record below it |
| WorkflowInventory.ChainIsRecorded | scripts/ci/check_reusable_workflow_contracts.py:157-176 | however long a chain of reusable uses through recorded workflows, the workflow at its end has a hashed record |

## Left out

- Binding analyser: nested functions and classes, comprehensions, lambdas, walrus, annotated assignment, match, finally, break and continue, and calls inside subscript or attribute targets, where the single pass is a heuristic.
- Binding analyser: the attributes of the jsonschema module are taken not to be reassigned, `validator_for` to return a validator class, and calls not to rebind names of the analysed scope, as a function with a `global` declaration could.
- BindingVisitor.Analyze: one scope, so without owners and without the bodies that the analyser defers.
- BindingVisitor.Visitor.VisitTry: without finally.
- BindingTheorem.TrySound: without finally, and only for bodies that change no name before they raise; `BindingLimits` shows what happens otherwise.
- BindingTheorem.WhileSound: without break and continue, and under the condition that what the body reads is fresh.
- BindingTheorem.ForSound: without break and continue, and under the condition that what the body reads is fresh.
- BindingTheorem.WithSound: one context manager, of which several are nested statements, and nothing bound under one that may suppress.
- BindingTheorem.BlockSound: the condition under which the analysis is sound is sufficient and not necessary; a violated clause misdescribes a name only in programs that go on to use what it protects against.
- BindingTheorem.AnalysisDescribesEveryRun: for one scope and under the same condition.
- BindingTheorem.CandidateCallsAreAccountedFor: for one scope and under the same condition; lines are reported without their owner.
- BindingTheorem.RecordedLinesAreTrue: asks that every call met at the line be an engine or meta call, because the analyser reports lines and two calls can share one.
- LockPublication.PublishLocks: renames during rollback and the removal of temporary files are taken to work, as the code has no answer to their failure.
- LockGeneration: probing the toolchain, copying inputs and running the compiler are answers that a run is given.
- ReleaseModel.BuildReleaseCandidate: commit and tree resolution and reading RELEASE_VERSION are given; texts of paths are strings of bytes and manifests are typed records.
- Release: JSON typing of manifest fields, UTF-8 validity of the license text, and `git show` of a path that names a directory.
- Release: the verifier does not compare the manifest's release version with the tree's RELEASE_VERSION file, and so neither does the model.
- ReleaseRoundTrip.VerifierAcceptsWhatIsBuilt: gzip, JSON, UTF-8 on ASCII text, and tar on the archives that the builder writes are taken to read back what they write.
- ReleaseVerifier.VerifyReleaseCandidate: without reopening the archive and comparing its identity before and after reading, and without reading the manifest again, which guard against concurrent replacement.
- BoundedReaders: the pipe from `git cat-file` and the temporary file for the unpacked stream are one byte source.
- Sync: loading and typing the manifest, the worker pool's exceptions outside a repository's own errors, and report rendering; resolved paths are taken to lie inside their root.
- MetarepoHub.ParallelIsSequential: repositories are taken to own disjoint files, and reading a source or a target is one step.
- Patch evaluation: log capture and redaction, argument vectors of the sandbox, the texts of error details, and removal of the logs after a failed publication.
- PatchEvaluation.EvaluatePatch: the temporary file of the publication is not modelled; the reply `linked` says whether the artifact appeared at the output path.
- Stream collection: arrival times, the reaping of the process, and the flush of the trace.
- Baseline: JSON typing, unexpected fields, time stamps and rendering of reports; a document is ours or is not.
- Baseline: how findings are collected from the repository; they are given, each with its id.
- Indentation scan: the regular expressions that find keys, headers and references in a line; a line is given by what they find.
- Indentation scan: which of the reported references are pinned, a single pattern match.
- Signed tokens: that an HMAC cannot be computed without the secret is a matter of the HMAC, which is a parameter.
- WorkflowInventory.InventoryFindings: a finding carries its location and its subject, but not the rendering of values that are not lists or mappings.
- Workflow inventory: YAML loading, caller permissions, secrets and conditions, each a direct comparison.
- Benchmarks, document-text checks, user interface and command lines.
