# radiata in Dafny

radiata is a membership and routing node: every node keeps its identity, its trust records and the
registers it shares with its peers in one conditional key-value store, and survives a crash or an
indeterminate answer at every commit and every key-custody call. This project models that core and
proves what it promises over all inputs, all runs and all crash points.

`dafny verify dfyconfig.toml` checks everything. The modules, bottom up:

- `Storage`, `StorageRuns`, `TransactionDigest`, `FaultyStorage`: the conditional store (receipt
  replay, base revision, expectations, atomic change), whole runs of commits, the hashed byte
  string, and storage whose answers may be lost.
- `IdentityRecords`, `IdentityMachine`: every write of the identity protocols as the exact
  transaction prepared from a snapshot, and the machine of all interleavings of identity creation,
  key deletion, leave, other writers and crashes.
- `IdentityNode`, `Lifecycle`, `Deletion`, `LeaveProgress`, `Leave`: one node process with a fault
  script around every storage and provider call, and the three protocols as programs on it.
- `MergeAdmission`, `Merge`: the admission decision on a snapshot and the member that commits it.
- `Tags`, `SelectorGrammar`, `SelectorCanonical`, `SelectorSpacing`, `SelectorCursor`: label selectors,
  their grammar as functions, their canonical form, the texts the parser accepts, and the cursor parser.
- `Routing`, `Membership`, `Paging`, `Tombstones`, `Identifiers`, `Sync`: route runs, descriptor
  registers, keyset pages, removal evidence, identifier suffixes, peer rotation and chunking.
- `Results`, `Ordering`, `Arithmetic`: shared vocabulary.

A fault script (`FaultyStorage.Fault`) says for each call whether it completes, is refused, takes
effect but loses its answer, or takes the process down before or after taking effect. A crash is an
error nothing handles, so a method's contract on its error results is its contract at every crash
point. The writer permit makes a section atomic; interleavings of sections are in `IdentityMachine`.
Signature checks, clocks, entropy, label lookups, planners and record decoding are parameters. A key
provider keeps the first key it makes for an operation, and its handles name their operations.

## What the code does and its documentation does not say

- A deletion can succeed and leave its journal record behind. `Deletion.DeleteUnreferencedKey` says exactly
  when: its first pass lands the tombstone and both cleanup commits are proven aborted
  (`Deletion.LeavesJournal`, a condition on the faults, the stored intent and whether the key is held).
  `Leave.OpenLocalIdentity` carries the condition through one start of a leave; the record then outlives
  the leave, since a start that finds the leave completed changes nothing. `Deletion.TwoRefusedCleanupsLeaveTheJournal` and
  `Leave.AStartMayKeepTheJournal` are such inputs; crashes and lost answers of applied
  calls alone are none (`FaultyStorage.AbortFreeIsHarmless`).
- The merge journal slot belongs to the generation, not to the attempt. While a journal record is in it,
  an attempt is answered from the recovery and not from the decision: `MergeAdmission.RecoveryTable` is
  the whole answer. An attempt of another subject is answered "storage corrupt" although nothing is
  (`MergeAdmission.AnotherSubjectIsCalledCorrupt`), exactly when it would otherwise be admitted
  (`MergeAdmission.RecoveryReportsCorruptionExactly`). A member that re-joins under a new merge id right
  after the crash is answered with a conflict although the documentation promises its grant
  (`MergeAdmission.ReJoinMeetsTheJournal`); `Merge.Member.CommitMerge` says that an admitted subject gets
  its grant exactly when the slot is free or it presents the merge id it was admitted under.
- The page contest is documented to equal one-at-a-time installs. It does exactly when no node that is
  neither stored nor adopted has both a first and a higher revision on the page
  (`Membership.ContestEqualsSequence`).
- An absent receipt is documented to mean that a transaction never applied. A forgotten receipt is
  the exception (`StorageRuns.ForgottenReceiptReadsAsAborted`); `StorageRuns.ReconcileIsExact` is the
  exact statement.
- A value with a whitespace character other than the four escaped ones does not survive escaping;
  `SelectorCanonical.EscapeRoundTripsExactly` gives the exact condition, and no accepted selector
  holds such a value (`SelectorCanonical.StreamIsAdmissible`).
- A page limit of zero acts as one, and a one-item page whose first key is empty is refused by the
  cursor rule (`Paging.EmptyCursorExactly`).

## Model

| member | source | states |
|---|---|---|
| `SelectorCanonical.CanonicalIsFixedPoint` | src/routing.rs:366-396 | for every accepted input the canonical text is accepted, parses to the very same selector and is the text its own predicates print |
| `SelectorCanonical.ReparseNeverFails` | src/routing.rs:366-396 | a selector is accepted exactly when its first parse gives predicates and the canonical text fits; the second parse can never fail |
| `SelectorCanonical.LabelKeysAreSelectors` | src/routing.rs:366-396 | every label key alone is an accepted selector, asks for that key and is its own canonical text |
| `SelectorCanonical.SomeSelectorIsAccepted` | src/routing.rs:366-396 | a concrete accepted input |
| `SelectorCanonical.StoredPredicates` | src/routing.rs:375-396 | the stored predicates are exactly the normal forms of the predicates written |
| `SelectorCanonical.CanonicalKeepsMeaning` | src/routing.rs:443-448 | under every label lookup the stored selector matches exactly when the written predicates do |
| `SelectorCanonical.CanonicalIdentifies` | src/routing.rs:375-396 | two accepted inputs have the same canonical text exactly when their normalised predicate sets are equal, and then they are the same selector |
| `SelectorCanonical.TextIdentifiesPredicate` | src/routing.rs:124-148 | one predicate's canonical text determines it up to the order and repetition of its set |
| `SelectorCanonical.CanonicalParses` | src/routing.rs:124-148 | the printed form of every admissible predicate, followed by anything a predicate may be followed by, parses back to its normal form and leaves the rest |
| `SelectorCanonical.TextParses` | src/routing.rs:410-434 | the printed forms of admissible predicates joined by spaces parse back to their normal forms in order |
| `SelectorCanonical.CanonicalTextParses` | src/routing.rs:366-396 | the sorted, deduplicated text parses to one representative per distinct predicate text |
| `SelectorCanonical.StreamIsAdmissible` | src/routing.rs:410-434 | everything the parser accepts is admissible, so it can be printed and read again |
| `SelectorSpacing.ParserIsTheLanguage` | src/routing.rs:307-434 | the parser accepts exactly the texts that write admissible predicates one behind the other with any blanks around operators, commas and parentheses, and reads out of each exactly the predicates written in it |
| `SelectorSpacing.AcceptedExactly` | src/routing.rs:366-396 | a selector is accepted exactly when it is such a text of one to sixteen predicates and it and its canonical text have at most 1024 bytes |
| `SelectorSpacing.SpacedPredicateParses` | src/routing.rs:307-361 | a written predicate, however spaced, parses to itself and leaves what follows |
| `SelectorSpacing.SpacedTextParses` | src/routing.rs:410-434 | a spaced text parses to its predicates in order |
| `SelectorSpacing.SpacingDoesNotMatter` | src/routing.rs:366-396 | two spellings of the same predicates are the same selector |
| `SelectorCanonical.EscapedValueParses` | src/routing.rs:245-275 | an escaped value is read back exactly, in and out of set lists, up to whatever ends it |
| `SelectorCanonical.EscapeRoundTripsExactly` | src/routing.rs:153-192 | parse-after-escape returns a value exactly when every whitespace character in it has an escape |
| `SelectorCanonical.NoBreakSpaceIsLost` | src/routing.rs:153-192 | the concrete value that does not survive escaping |
| `SelectorCanonical.SetTextParses` | src/routing.rs:277-305 | a printed set list parses back item by item to exactly its values |
| `SelectorCanonical.NormaliseKeepsMeaning` | src/routing.rs:107-123 | sorting and deduplicating a set changes no match |
| `SelectorGrammar.OperatorsMean` | src/routing.rs:107-121 | for every lookup: equality is the lookup giving that value, membership is some equality, existence is some equality, and each negated operator is the complement, so it matches where the label is missing |
| `SelectorGrammar.PredicatesNarrow` | src/routing.rs:443-448 | all predicates must match, each one more narrows the selection, and none asks for nothing |
| `SelectorCursor.ParseSelector` | src/routing.rs:366-396 | the two cursor passes compute exactly the grammar's `Parse` |
| `SelectorCursor.SelectorParser.SkipSpace` | src/routing.rs:211-217 | the cursor stands after all whitespace |
| `SelectorCursor.SelectorParser.ParseKey` | src/routing.rs:219-241 | the key the grammar reads, or its error, and the rest of the input |
| `SelectorCursor.SelectorParser.ParseValue` | src/routing.rs:245-275 | the unescaped value the grammar reads, or its error, and the rest of the input |
| `SelectorCursor.SelectorParser.ParseSet` | src/routing.rs:277-305 | the set list the grammar reads, or its error, and the rest of the input |
| `SelectorCursor.SelectorParser.ParseOperatorTail` | src/routing.rs:307-361 | the operator the grammar reads; when there is none the cursor is where it was |
| `SelectorCursor.SelectorParser.ParsePredicateStream` | src/routing.rs:410-434 | the predicates of the whole input with the predicate bound applied only on the bounded pass |
| `Tags.TagShape` | src/protocol/tag.rs:245-299 | a qualified tag is a non-empty path of tag characters, so no selector delimiter or keyword can be read into a key |
| `Tags.TagsAreTheirParts` | src/protocol/tag.rs:245-299 | a text of slash-free parts is a tag exactly when host name, category, optional version, name and length are valid and it is not a built-in crypto tag |
| `Tags.KeySpaceIsClosed` | src/routing.rs:410-434 | a selector key is a label or one of exactly two reserved resource keys |
| `Ordering.NormalIdentifiesSets` | src/routing.rs:139-148 | sort-then-deduplicate gives equal lists exactly for equal sets |
| `Storage.CommitPrecheck` | src/provider.rs:893-926 | the loop gives the pinned verdict: receipt replay, then base revision, then every expectation |
| `Storage.ValidateDistinctOperations` | src/provider.rs:553-575 | sort-and-compare-neighbours accepts exactly the pairwise distinct operation lists |
| `StorageRuns.BatchIsSerialInAnyOrder` | src/provider.rs:842-926 | for a distinct batch, checking all conditions and applying together equals checking and applying one by one in any order |
| `StorageRuns.LandsExactly` | src/provider.rs:842-926 | a commit lands exactly when its id is unused, its base is the current revision and every put, check, delete and forget finds the value it names |
| `StorageRuns.ApplyAllIsJoint` | src/provider.rs:766-779 | a distinct batch leaves every named key at its operation's effect and touches no other |
| `StorageRuns.CommitsOnlyOnItsSnapshot` | src/provider.rs:893-926 | a transaction prepared from a state of the run lands only on that same state, so no update is lost |
| `StorageRuns.RevisionsAdvance` | src/provider.rs:766-779 | revisions never decrease along a run and equal revisions are equal states |
| `StorageRuns.ChangesAtMostOnce` | src/provider.rs:893-946 | a transaction changes the store at most once in a run, also after its receipt is forgotten |
| `StorageRuns.ReplayIsAnswered` | src/provider.rs:899-946 | over every run, committing again under an id whose receipt is kept changes nothing whatever the base and expectations: the same transaction is answered with exactly the receipt of the first commit, another one is refused, and reconciling tells them apart |
| `StorageRuns.ReconcileIsExact` | src/provider.rs:938-946 | reconcile answers Committed exactly when the transaction landed and its receipt was not forgotten since |
| `StorageRuns.ReconcileTable` | src/provider.rs:938-946 | reconcile answers Aborted exactly when no receipt of the id is kept, and a digest conflict exactly when another transaction holds it |
| `StorageRuns.KeptReceiptsReconcileExactly` | src/provider.rs:793-798 | while receipts are kept, reconcile answers Committed exactly when the effects landed |
| `StorageRuns.ForgottenReceiptReadsAsAborted` | src/provider.rs:793-798 | a run where an applied transaction reconciles to Aborted |
| `TransactionDigest.PreimageInjective` | src/provider.rs:948-1019 | the hashed byte string determines base revision and operation list uniquely, over all four kinds and both expectations |
| `TransactionDigest.AbsorbTransaction` | src/provider.rs:948-1019 | the incremental hasher absorbs exactly that byte string |
| `TransactionDigest.OperationSplits` | src/provider.rs:948-1019 | equal encodings of two operations with arbitrary continuations come from equal operations and continuations |
| `TransactionDigest.OperationLayout` | src/provider.rs:953-1019 | the tag and field order of each operation kind |
| `FaultyStorage.TryCommit` | src/provider.rs:779-783 | a commit applies whole or not at all, and a definite answer is true |
| `FaultyStorage.CommitWithReconcile` | src/identity/lifecycle.rs:589-602 | for an unused id a definite verdict is the truth about the store; a transaction that can land is committed, aborted or undecided exactly as the faults say |
| `FaultyStorage.CleanupExact` | src/identity/lifecycle.rs:260-290 | success means the record is gone and nothing else changed; it conflicts, with no change, exactly when both commits are proven aborted; the faults it meets decide it |
| `FaultyStorage.AbortFreeIsHarmless` | src/identity/lifecycle.rs:260-290 | crashes and lost answers of applied calls alone never make a landed journaled commit lose both of its cleanups |
| `FaultyStorage.RecoverJournal` | src/identity/lifecycle.rs:245-258 | the prologue reports a recovery exactly when a journal record was stored, and then it is gone; it succeeds exactly when the reconcile answers and the cleanup succeeds |
| `IdentityRecords.PreparedOutcome` | src/identity/lifecycle.rs:494-541 | each prepared identity transaction turns the entries into its decision's outcome and forgets no receipt |
| `IdentityRecords.PreparedConditions` | src/identity/deletion.rs:92-129 | when the prepared conditions hold on the snapshot they came from, for every write of the protocols |
| `IdentityRecords.PreparedIsDistinct` | src/provider.rs:553-575 | every prepared identity transaction passes the store's distinctness check |
| `IdentityMachine.ReachedKeepsInv` | src/identity/lifecycle.rs:177-225 | every state of every interleaved run with crashes satisfies the invariant: at most one intent, never beside an identity, live handle, backed key, exact lineage |
| `IdentityMachine.LiveKeyIsNeverDeleted` | src/identity/deletion.rs:63-150 | in every reachable state the stored identity's handle was never given to the provider for deletion and is the key it created for that operation |
| `IdentityMachine.HandlesOnlyAdvance` | src/identity/deletion.rs:194-260 | along every run a handle moves only from live to intended to deleted, one step at a time |
| `IdentityMachine.FirstIntentFixesIdentity` | src/identity/lifecycle.rs:481-557 | after the first committed creation intent every later state has its coordinates, or those reached from them through committed leave intents |
| `IdentityMachine.WithoutLeaveTheIdentityIsTheFirst` | src/identity/lifecycle.rs:375-438 | with no leave committed the first intent's node and operation are the only ones ever stored |
| `IdentityMachine.CreationCommitsOnce` | src/identity/lifecycle.rs:375-416 | a creation intent commits only while nothing was ever created |
| `IdentityMachine.UninterruptedCommitIsTwoEvents` | src/identity/lifecycle.rs:589-602 | a program's decide-and-commit section is two consecutive events of the machine, with the store's own verdict |
| `IdentityMachine.ResumedDeletionAsks` | src/identity/deletion.rs:155-189 | a resumed deletion intent does ask the provider, and an operation keeps its first key |
| `IdentityMachine.LandsOnItsSnapshot` | src/identity/leave.rs:576-599 | a landing commit finds the very state it was decided on, so its guards still hold |
| `IdentityMachine.OutcomeKeepsIdentityLive` | src/identity/records.rs:192-213 | no landed decision leaves an identity whose handle has a deletion intent or tombstone |
| `IdentityMachine.OutcomeKeepsExclusion` | src/identity/lifecycle.rs:494-541 | no landed decision leaves two creation intents or an intent beside an identity |
| `IdentityMachine.OutcomeKeepsHandlesApart` | src/identity/deletion.rs:194-260 | no landed decision leaves a handle with both an intent and a tombstone, or a deletion journal without its tombstone |
| `IdentityNode.Node.CommitDecision` | src/identity/lifecycle.rs:589-602 | a committed decision leaves exactly its outcome, an aborted one nothing, an error one of the two, and the node's invariant always holds |
| `IdentityNode.Node.CommitOrFail` | src/provider.rs:628-639 | without reconciliation success still means the outcome is stored |
| `IdentityNode.Node.constructor` | src/identity/lifecycle.rs:177-190 | a node over an empty store satisfies the invariant every open starts from |
| `IdentityNode.Node.CreateKey` | src/provider.rs:137-139 | the first key made for an operation is the one every later call returns |
| `IdentityNode.Node.VerifyProviderKey` | src/identity/lifecycle.rs:460-472 | success means the provider holds the handle with exactly the expected key |
| `IdentityNode.Node.DeleteKey` | src/provider.rs:142-144 | only a handle with a journaled deletion may be asked for; after a definite answer it is no longer held |
| `Lifecycle.OpenIdentity` | src/identity/lifecycle.rs:177-225 | stored coordinates stay, a blank store takes the generated ones or stays blank, success returns the stored identity with no journal left, and with a usable key it succeeds exactly under a condition on the faults and on what is stored |
| `Lifecycle.OpenRepeatedly` | src/identity/lifecycle.rs:177-225 | over any number of starts with any faults all completed opens return one identity, which stays stored |
| `Lifecycle.CreateIdentity` | src/identity/lifecycle.rs:375-416 | from a blank store only the generated coordinates can appear; success stores the identity and comes exactly when the handle is not spent and intent, key, check, identity and cleanup all get through |
| `Lifecycle.ResumeCreation` | src/identity/lifecycle.rs:420-438 | a pending intent keeps its coordinates whatever happens; success stores the identity, exactly when the handle is not spent and the remaining calls get through |
| `Lifecycle.FinalizeIdentity` | src/identity/lifecycle.rs:481-557 | the intent is replaced by exactly its identity or still there; a spent handle is refused; otherwise success is exactly a landed commit and a cleanup |
| `Lifecycle.DiscoverCreationIntent` | src/identity/lifecycle.rs:335-358 | the scan finds the one stored intent or none; it answers corrupt exactly for a second or misplaced row |
| `Lifecycle.SoundIsDiscoverable` | src/identity/lifecycle.rs:206-216 | on every store the protocols leave the discovery answers, and never finds an identity beside an intent |
| `Lifecycle.Classify` | src/identity/lifecycle.rs:206-216 | an identity beside an intent is corruption; otherwise the stored identity, the intent, or a fresh start |
| `Lifecycle.CreateKeyExact` | src/identity/lifecycle.rs:440-454 | success is the provider's key for this operation, exactly when both provider calls answer |
| `Lifecycle.ResumeKey` | src/identity/lifecycle.rs:420-438 | on resume the already created key is found, or created when proven absent, exactly when the provider calls answer |
| `Lifecycle.LoadExisting` | src/identity/lifecycle.rs:361-373 | a stored identity opens as itself exactly when the provider answers |
| `Deletion.DeleteUnreferencedKey` | src/identity/deletion.rs:44-150 | a referenced handle is refused with no effect; faults only carry this deletion on; success is a tombstone and a key no longer held, and comes exactly when the faults let one of two passes finish; it leaves the journal record exactly under the stated condition |
| `Deletion.DeleteInPasses` | src/identity/deletion.rs:62-150 | at most two passes, the second exactly after a conflict of the first |
| `Deletion.OneAbortIsSurvived` | src/identity/deletion.rs:119-150 | one proven abort of the intent, of the tombstone or of the cleanup is survived; a second one of the intent is not |
| `Deletion.HarmlessLeavesNoJournal` | src/identity/deletion.rs:44-150 | faults without a landed commit followed by two aborted ones never leave a journal record |
| `Deletion.TwoRefusedCleanupsLeaveTheJournal` | src/identity/deletion.rs:247-260 | a concrete script that leaves one |
| `Deletion.DeleteOnce` | src/identity/deletion.rs:66-149 | one pass ends exactly as its faults say: finished, given up, or worth a second pass with exactly the intent, tombstone, key and journal record it then leaves |
| `Deletion.DeleteProviderStep` | src/identity/deletion.rs:155-260 | a tombstone is stored only after the provider let go of the key; the end of the step is exactly what its faults say |
| `Deletion.FinishDeletion` | src/identity/deletion.rs:186-260 | the intent becomes exactly its tombstone, then the journal record goes; a proven abort is a conflict worth another pass |
| `Deletion.AskProvider` | src/identity/deletion.rs:160-189 | a definite outcome, fresh or resumed, means the key is no longer held |
| `Deletion.AdvancesTransitive` | src/identity/deletion.rs:63-150 | steps of one deletion compose: nothing is undone and no other entry changes |
| `LeaveProgress.LeaveIsNeverMixed` | src/identity/leave.rs:631-661 | at every point the identity is exactly former or replacement, deletion begins only after the swap, a swapped identity has its record stored, the intent stays until completion, all else is untouched |
| `LeaveProgress.DeletionStep` | src/identity/leave.rs:651-659 | carrying the former key's deletion on moves the leave forward and changes nothing else |
| `Leave.LeaveThroughCrashes` | src/identity/leave.rs:631-661 | an interrupted leave that then has one undisturbed start ends in the entries of the uninterrupted leave, with the record stamped by the start that signed it, and without the journal record unless some start's faults hold a landed commit followed by two aborted ones |
| `Leave.LeaveInterrupted` | src/identity/leave.rs:631-661 | after any number of starts with any faults the leave stands at a point of its plan, no row is gone while the swap has not landed, and its record has the stamp of the start that signed it; without the intent commit the store is untouched |
| `Leave.Execute` | src/identity/leave.rs:355-387 | the uninterrupted leave ends completed with its own record and no journal; an interrupted one stands at a point of its plan; it succeeds exactly under a condition on its faults, the replacement key and the batches to wipe |
| `Leave.RunLeave` | src/identity/leave.rs:631-661 | until the swap lands nothing is touched, rows only shrink, success is completion, without faults it succeeds, and it completes with the deletion's journal record left exactly under a condition on its faults, its progress, the keys held and the batches to wipe; it succeeds exactly under such a condition too |
| `Leave.RunSwapped` | src/identity/leave.rs:650-661 | the same for the phases behind the swap, with its exact success condition |
| `Leave.AStartMayKeepTheJournal` | src/identity/leave.rs:650-661 | a concrete script under which a resumed leave completes with the journal record left |
| `Leave.OpenLocalIdentity` | src/identity/lifecycle.rs:177-225 | a start with a leave pending finishes it and opens as the replacement, wipes nothing before the swap, and leaves the deletion's journal record behind a leave it completes exactly under the stated condition; it succeeds exactly under a condition on its faults, its progress, the keys held and the batches to wipe |
| `Leave.ResumeIfPending` | src/identity/leave.rs:737-752 | a pending leave is completed and the replacement returned; no row goes before the swap; the journal record is left exactly under the stated condition; with none pending nothing changes |
| `Leave.JournalLeave` | src/identity/leave.rs:355-387 | nothing changes before the intent commits; an earlier intent is reused with its record; success has intent and record stored; a new leave is journaled exactly when the intent lands within its tries and signing and record commit answer |
| `Leave.EnsureRecord` | src/identity/leave.rs:760-775 | a missing record is signed fresh while the former key is held, exactly when signing and commit answer; an existing one is never replaced |
| `Leave.PersistRecord` | src/identity/leave.rs:235-260 | a diverging binding is refused as untrusted; of a stored record the exact repeat succeeds and a different one conflicts, both without a call or change; a new one is stored exactly when its commit answers |
| `Leave.PersistAgain` | src/identity/records.rs:213-243 | through any faults, after a success the same record again succeeds and another one fails |
| `Leave.BeginIntent` | src/identity/leave.rs:688-732 | the intent of the opened identity is stored exactly on success; proven aborts are retried within the budget and nothing else is; an existing intent makes every retry fail with no change |
| `Leave.FewAbortsAreSurvived` | src/identity/leave.rs:712-732 | refusals fewer than the tries are survived, and no more |
| `Leave.BudgetsInNumbers` | src/identity/leave.rs:466-469 | seven refusals of the intent and eight within one family's wipe are survived, and a batch has 64 rows |
| `Leave.WipeFamily` | src/identity/leave.rs:473-513 | only this family's rows go, whole batches of 64 in scan order; success leaves none and comes exactly when no commit stays undecided and at most the retry budget are proven aborted; without faults it takes exactly one commit per started batch |
| `Leave.FewAbortsAreWiped` | src/identity/leave.rs:500-511 | refusals up to the retry budget are survived in one family's wipe, and no more |
| `Leave.ScanBatch` | src/identity/leave.rs:479-492 | the first rows of the family in key order, each once, up to the batch bound |
| `Leave.WipeOldMetadata` | src/identity/leave.rs:516-524 | success leaves no row of any wiped family and comes exactly when every family's wipe succeeds in turn |
| `Leave.ReplacementKey` | src/identity/leave.rs:528-551 | success is the one key of the intent's operation, whether found or created, and comes exactly when every provider call answers |
| `Leave.SwapIdentity` | src/identity/leave.rs:556-600 | the identity becomes the replacement in one step or nothing changes; success is exactly a commit known to have landed |
| `Leave.WipeAndDelete` | src/identity/leave.rs:650-659 | wipe and former-key deletion advance only a swapped leave; success ends with the former key tombstoned, and with the journal record left exactly when the deletion met that condition on the faults the wipe left |
| `Leave.FinishLeave` | src/identity/leave.rs:603-621 | the intent is removed exactly when its commit takes effect, and otherwise the leave stands where it stood; success is exactly a commit known to have landed |
| `MergeAdmission.NeverCorrupt` | src/identity/merge.rs:571-636 | on every store a run of commits and adoptions leaves the classifiers answer consumed, unapplied or conflict, never corrupt |
| `MergeAdmission.AdoptionNeverCorrupt` | src/identity/merge.rs:462-502 | the adoption classifier never answers corrupt, and a grant is never stored without its issuer's binding |
| `MergeAdmission.DecisionTable` | src/identity/merge.rs:135-193 | the whole decision: an admitted credential gets its original grant under any merge id, another key or a taken merge id conflicts, otherwise the subject is admitted reusing a binding |
| `MergeAdmission.AdoptionTable` | src/identity/merge.rs:334-378 | the whole adoption decision: wrong subject or signature fails, another key or grant conflicts, a repeat is a no-op, otherwise it is stored |
| `MergeAdmission.AdmittedIsSound` | src/identity/merge.rs:191-278 | an admission keeps the invariant, loses nothing and is what re-admission then returns |
| `MergeAdmission.AdoptedIsSound` | src/identity/merge.rs:380-418 | an adoption keeps the invariant, loses nothing and stores grant and binding |
| `MergeAdmission.AdmittedForever` | src/identity/merge.rs:514-561 | in every later state of every run the same credential's decision is the original grant under any merge id, its recovery is that grant under the admitted merge id, and any other key conflicts in both |
| `MergeAdmission.BoundForever` | src/identity/merge.rs:183-193 | no run rebinds a node: a proposal with another key is refused for good, by the decision and by the recovery |
| `MergeAdmission.FreshMemberIsSound` | src/identity/lifecycle.rs:206-225 | the invariant holds of a member that has admitted and adopted nothing |
| `MergeAdmission.SelfBoundIsSound` | src/identity/lifecycle.rs:108-157 | storing the own binding keeps the invariant and loses nothing; before it every proposal is refused as untrusted and after it none is |
| `MergeAdmission.RecoveryTable` | src/identity/merge.rs:119-133 | the whole answer while a journal record is in the slot: the grant for the merge id it was admitted under, corrupt for an attempt that would be admitted, otherwise a conflict |
| `MergeAdmission.ReJoinMeetsTheJournal` | src/identity/merge.rs:119-133 | right after a crash behind the admission commit a re-join under a new merge id is answered with a conflict |
| `MergeAdmission.RecoveryReportsCorruptionExactly` | src/identity/merge.rs:119-133 | recovery answers corrupt exactly for attempts that would be admitted |
| `MergeAdmission.RetryRecoversItsGrant` | src/identity/merge.rs:119-133 | a retry of the journaled attempt recovers its grant |
| `MergeAdmission.AdoptionRecoversExactly` | src/identity/merge.rs:318-332 | a recovered adoption succeeds exactly when this grant is stored, its issuer is bound to the key and the key verifies it |
| `MergeAdmission.RetryRecoversItsAdoption` | src/identity/merge.rs:318-332 | a retry of the journaled adoption succeeds |
| `MergeAdmission.AnotherSubjectIsCalledCorrupt` | src/identity/merge.rs:119-133 | another subject's attempt in that generation is called corrupt, and is admitted once the journal is gone |
| `Merge.Member.CommitMerge` | src/identity/merge.rs:108-293 | through any faults the invariant holds and nothing is lost; a returned grant is stored with use and binding; an answered attempt changes nothing; undisturbed, an admission succeeds and an admitted subject gets its grant exactly when the slot is free or its merge id is the admitted one; under any faults an admission succeeds exactly when its commit is known to have landed and its journal record goes, and a missing or wrong signature is answered with no change |
| `Merge.Member.Admit` | src/identity/merge.rs:225-293 | the journaled admission and its cleanup: it returns its grant exactly when the commit is known to have landed and the journal record goes; a proven abort is a conflict with no change |
| `Merge.Member.AfterAbort` | src/identity/merge.rs:285-291 | a proven abort is answered from the stored attempt if there is one, and otherwise with a conflict |
| `Merge.Member.AdoptMerge` | src/identity/merge.rs:311-449 | a completed adoption has grant and issuer binding stored; a refused one changes nothing; undisturbed, a journaled one is answered from its recovery; under any faults success comes exactly when the commit is known to have landed and the journal record goes |
| `Merge.Member.constructor` | src/identity/lifecycle.rs:206-225 | a member opened for the first time, with only its own identity stored, satisfies the invariant |
| `Merge.Member.EnsureSelfBinding` | src/identity/lifecycle.rs:108-157 | the node's own binding is stored once; an existing one changes nothing; it succeeds exactly when the binding was there or its commit is known to have landed |
| `Merge.Serve` | src/identity/merge.rs:108-293 | any run of starts, commits and adoptions, interrupted anywhere, keeps the invariant and loses nothing |
| `Merge.AdmitLands` | src/identity/merge.rs:225-278 | the admission transaction is well-formed, lands unless a journal occupies the slot, and stores the triple |
| `Merge.AdoptLands` | src/identity/merge.rs:380-418 | the adoption transaction is well-formed, lands unless a journal occupies the slot, and stores grant and binding |
| `Membership.Contest` | src/membership.rs:447-467 | winners and losers partition the page; the winners are the first positions of their nodes' greatest revisions, one per node, in first-seen order; the losers stand in decision order |
| `Membership.WinnersAreWinning` | src/membership.rs:447-467 | the winner positions hold exactly the winning rows |
| `Membership.BestAt` | src/membership.rs:447-467 | the position holds the first row of the node's greatest revision, or the node has no row |
| `Membership.ContestEqualsSequence` | src/membership.rs:485-500 | contest-then-install equals one-at-a-time install exactly under the stated condition |
| `Membership.SequenceOffersBest` | src/membership.rs:425-438 | a stored or adopted register ends where its best row alone would bring it |
| `Membership.FreshRegister` | src/membership.rs:425-438 | a register neither stored nor adopted starts at revision 1 or stays empty |
| `Membership.ReplicasConverge` | src/membership.rs:425-467 | replicas fed the same descriptors in any order, batching and repetition end equal |
| `Membership.Converges` | src/membership.rs:425-438 | order and repetition do not matter from any common state |
| `Membership.RevisionsIncrease` | src/membership.rs:425-438 | a register changes only to a strictly greater revision and never empties |
| `Membership.LazyProbe` | src/membership.rs:513-525 | probing the binding only when it can matter gives the same verdict |
| `Membership.ApplyPage` | src/membership.rs:485-573 | the page lands whole on the store it was decided on or not at all; success names exactly the installed and the refused nodes; a commit overtaken by another writer is decided again once, and without faults it fails exactly when both attempts are overtaken; under any faults it succeeds exactly when the first attempt goes in, or is refused and the second goes in |
| `Membership.AttemptPage` | src/membership.rs:499-571 | one attempt lands on its own snapshot or leaves what the other writer left; it asks for another exactly when it is proven aborted or overtaken |
| `Membership.VerdictsTell` | src/membership.rs:523-571 | the installed nodes are exactly those whose register the page changed, the refused ones exactly the others |
| `Membership.ReceiveRows` | src/membership.rs:447-573 | wire rows through the contest and the page leave exactly the winning rows installed, also on what another writer left; without faults they are acknowledged exactly unless both attempts are overtaken |
| `Membership.Feed` | src/membership.rs:447-573 | after any deliveries with any faults and other writers in between the registers are those of the rows that landed; what was acknowledged landed |
| `Membership.RivalsLeaveRegisters` | src/membership.rs:485-573 | another writer's transaction on other keys changes no register and no adoption |
| `Membership.FeedTwoReplicas` | src/membership.rs:447-573 | two stores fed the same descriptors through contest and page apply, each in its own order, batching, repetition and faults and beside its own other writers, hold the same registers once every descriptor was acknowledged by both |
| `Membership.DecidePage` | src/membership.rs:500-545 | the loop builds exactly the accepted rows' writes and both node lists |
| `Membership.AppliedPageIsASequence` | src/membership.rs:485-573 | an applied page is its rows installed one at a time |
| `Routing.RunsKeepTheirBooks` | src/routing.rs:717-763 | under any planners visited length plus budget is constant, relays are paid for, visited and current are the holder history, and delivery is only at the destination |
| `Routing.PathIsDeliveredExactly` | src/routing.rs:775-787 | a duplicate-free path to the destination is delivered without planning exactly when it has at most budget plus one entries; otherwise the walk stops after exactly the budget many relays |
| `Routing.Envelope.ReceiveAt` | src/routing.rs:717-752 | a peer other than the recorded holder is refused as untrusted and nothing changes; arrival is exactly that holder handing over at the destination; a relay spends one hop, records the holder and follows the path or its own valid plan |
| `Routing.ReceiveTable` | src/routing.rs:717-752 | when a received envelope is refused, arrives or goes on, for every envelope, node, peer and planner |
| `Routing.StrangersCannotForge` | src/routing.rs:717-763 | in every run where strangers hand any envelopes to any nodes over their own sessions, a packet arrives only at its destination and from the holder it names, and one that names only honest holders was originated by its source for this destination with the budget its hops account for |
| `Routing.Envelope.Dispatch` | src/routing.rs:681-698 | the origin's send takes the first hop off the path and uses no budget |
| `Routing.ValidatePathShape` | src/routing.rs:793-812 | accepted exactly when non-empty, within the bound and duplicate-free |
| `Paging.ScanPaged` | src/paging.rs:186-214 | the loop delivers exactly the specified page, or the error of the first failing entry it meets |
| `Paging.PageKeys` | src/paging.rs:216-236 | the in-memory form is the same page with nothing filtered |
| `Paging.PartitionPoint` | src/paging.rs:219-221 | the position where keys past the cursor begin |
| `Paging.PageIsExact` | src/paging.rs:186-214 | a page has exactly the selected keys past its cursor up to the cursor it hands out, in order, and that cursor is its last key |
| `Paging.DeliveredKeysIncrease` | src/paging.rs:186-214 | along a walk, whatever limit each page asks for, delivered keys strictly increase even when the table changes between pages |
| `Paging.StableKeysAreDeliveredOnce` | src/paging.rs:186-214 | in a finished walk a key present and selected at every page read is delivered by exactly one page |
| `Paging.PagesAreTheTable` | src/paging.rs:186-214 | a finished walk along the handed-out cursors over an unchanged table, whatever limit each page asks for, delivers exactly the filtered table |
| `Paging.ResumesBehindThePage` | src/paging.rs:186-214 | resuming at the cursor any page of a walk hands out continues right behind the entries that page processed; a page hands out none exactly when it processed all |
| `Paging.WalkIsBounded` | src/paging.rs:186-214 | over an unchanged table every walk ends: it reads at most one page more than there are items |
| `Paging.UnfilteredPageCount` | src/paging.rs:216-236 | in memory a finished walk with one limit reads ceiling(size/limit) pages and none is empty; an empty table takes one page |
| `Paging.SkippingScan.Next` | src/provider.rs:740-752 | delivers the first entry past the start and keeps the rest |
| `Paging.DrainSkippingScan` | src/provider.rs:715-752 | the skipping scan yields exactly what the positioned scan holds |
| `Paging.EmptyCursorExactly` | src/paging.rs:243-251 | the one page the cursor rule refuses |
| `Tombstones.SlotIsTheWinner` | src/identity/cleanup.rs:168-185 | after any deliveries the slot holds the minimum by stamp and encoding among records pinning the first one's key, and a record pinning another key is refused without change |
| `Tombstones.AnswersTellTheSlot` | src/identity/records.rs:284-308 | the answer is Installed exactly when the slot changed, Unchanged only for a record the stored one precedes, and an error exactly for another pinned key |
| `Tombstones.TombstonesConverge` | src/identity/cleanup.rs:168-185 | every order and repetition over one pinned key leaves the same slot |
| `Tombstones.WatermarkIsTheMaximum` | src/identity/cleanup.rs:345-458 | the watermark never decreases and is the maximum of all issued and received |
| `Tombstones.PersistCleanup` | src/identity/records.rs:284-308 | a record the retained bindings do not vouch for is refused with no change; a success is exactly the merge's delivery; a losing or conflicting record changes nothing; a winning record is installed exactly when its commit answers |
| `Tombstones.VerifyRetained` | src/identity/records.rs:454-469 | accepted exactly when a bound issuer signed the record and no other subject key is bound, with the error of each refusal |
| `Tombstones.IssueCheckpoint` | src/identity/cleanup.rs:345-397 | a success answers with the watermark then in force, exactly when one as high is in force or the commit answers |
| `Tombstones.PersistCheckpoint` | src/identity/cleanup.rs:425-458 | a success is exactly the max-wins step, exactly when it is stale or the commit answers |
| `Identifiers.EncodeSuffix` | src/identity/id.rs:29-42 | the array loop yields the 21 most significant-first base-36 digits |
| `Identifiers.RoundTripExactly` | src/identity/id.rs:29-42 | a value survives encoding exactly when it is below 36^21 |
| `Identifiers.EncodeDecode` | src/identity/id.rs:29-42 | every valid suffix is the encoding of its value, so encoding is a bijection |
| `Identifiers.EncodingKeepsOrder` | src/identity/id.rs:29-42 | values and suffixes order alike |
| `Identifiers.ValidIdsAreTheComposed` | src/identity/id.rs:224-241 | the valid identifiers of a family are exactly the composed ones |
| `Identifiers.ComposedNumber` | src/identity/id.rs:121-155 | the masked base or-ed with a counter is their sum, below 2^108 and so below 36^21 |
| `Identifiers.ComposeIsExact` | src/identity/id.rs:149-155 | composition succeeds exactly below the counter limit and truncates nothing |
| `Identifiers.TaskIdsOrder` | src/identity/id.rs:138-155 | ids order by counter within a base, and a higher masked base outranks any counter |
| `Sync.RoundsAreOneCycle` | src/sync_common.rs:327-342 | consecutive windows are consecutive arcs of one cycle of the peers |
| `Sync.FullTurn` | src/sync_common.rs:327-342 | any n consecutive services serve each of the n peers once and end where they began |
| `Sync.RotationIsFair` | src/sync_common.rs:327-342 | after any number of windows two peers' service counts differ by at most one |
| `Sync.WindowIsAnArc` | src/sync_common.rs:327-342 | one window serves the next peers and hands on where it stopped |
| `Sync.WindowFromTheFront` | src/sync_common.rs:327-342 | without a known continuation point the window is the front of the list |
| `Sync.DrainBody` | src/sync_common.rs:32-49 | the body is the joined chunks exactly when the whole stream fits; otherwise the answer is the stream's error or exhaustion, whichever is met first |
| `Sync.ChunkedPayloadArrivesExactly` | src/sync_common.rs:56-60 | a chunked payload is reassembled exactly when it is within the receiver's byte bound |

## Left out

- LeaveThroughCrashes: the record carries the stamp of the start that signed it; over the whole run the journal clause goes one way, and the exact condition is `OpenLocalIdentity`'s and `RunLeave`'s for each start, because a start's progress is itself a result of the faults before it.
- FeedTwoReplicas: the other writers of a delivery write neither registers nor bindings.
- Signatures, hashing and entropy: verification is a parameter, an unused transaction id is assumed to exist and be drawn, a value's digest stands for the value, and no distribution of drawn ids is claimed.
- Stores that no run produces: the node and member methods start from the proved invariant; of the corruption answers only those of the identity discovery, the merge classifiers and the recoveries are modelled.
- Record encodings: records are datatypes, and rows that cannot be decoded appear only in the descriptor registers.
- Receipt references, receipt retention and used-id markers: every identity and merge receipt is kept.
- The frozen-store slot and its resolution within one process: an unresolved outcome is an error, and the next start reads the store.
- Writers of the merge and leave sections outside the writer permit: they appear only as the other writers of `IdentityMachine`.
- Merge runs with tombstone collection, revocation or the leave wipe between them: they remove bindings, so the permanence results are for starts, commits and adoptions.
- The announcement of a leave to peers and the leave of a node whose id has a leave record already.
- Tombstone collection behind the checkpoint watermark, and revocation records.
- Resource metadata patches, descriptor signing and the views built from registers.
- The load-balancing and next-hop policies: planners are arbitrary.
- Transports, sessions, retries on saturated channels and all timing.
- `StreamMetadata`, label storage and configuration: insert-once maps and setters.
