# A model of the sign-language service and its extraction pipeline

This Dafny project models six parts of the repository and proves what they promise. It verifies with
`dafny verify dfyconfig.toml`.

**Crash-safe reboot recovery** (`RecoveryJournal`, `Disk`, `RecoverySpec`, `RecoveryProgress`,
`RecoveryChecks`, `RecoveryCrash`, `RecoveryOutcome`, `RecoveryHistory`, `RecoveryRoundTrip`,
`RecoveryAcceptance`, `RebootRecovery`, `DiskNumbers`, `ServiceRuns`, `ModelService`). The disk has
a live and a durable tree and a list of unsynced operations; a machine crash keeps any selection of
them and either journal. `RecoverySpec` gives every run as the exact sequence of disk states it
passes through, the class `RebootRecovery` is proved to pass through just those, and the theorems
hold for every prefix of them: artifacts are never lost or overwritten, check-then-execute, and over
whole lives of a host a finish between two begins of one boot. `RecoveryAcceptance` says over the
tree and the journal alone what `prepare`, `begin` and `finish` demand. One promise turned out to
need a condition. A run that is stopped between replacing the journal and syncing its directory
leaves a plan that is not durable, and a rerun in the same boot does not repeat that barrier; a
crash can then keep a rename and lose the plan, and every later `prepare` is refused.
`RecoveryHistory` decides this for every mixture of stops and crashes: a run is restartable from all
its crash points if and only if the journal it finds is durable and its plan is not lost already,
the next `prepare` succeeds if and only if no moved artifact has lost its plan, and the artifacts
are whole either way.

**Beam search** (`BeamModel`, `BeamSelection`, `BeamReference`, `BeamTruncation`, `BeamDecode`,
`BeamContract`, `BeamProperties`, `GreedyDecode`, `StableSort`). The network is an arbitrary
row-wise function. The reference search of one sample expands everything and keeps the k best; the
program truncates per parent, flattens live beams across the batch and stops early, and still
returns just that. `BeamContract` describes the search without the functions that compute it.

**Tokenizer** (`Utf8`, `TokenDecode`, `TokenMeaning`). The hand-written decoder accepts exactly the
encodings of RFC 3629 (section 3, the byte sequences of section 4), and the streaming token decoder
computes a grouped meaning, which is what the tokens spell one after the other.

**Worker pool and protocol** (`WorkerFraming`, `WireFormat`, `WorkerProcess`, `WorkerCancellation`,
`WarmModelProcess`, `Sidecar`, `Rewarming`, `CommunityModelSidecar`, `ServiceWorkers`). Coroutines
are cut into atomic steps between two waits. The classes `WarmModelProcess` and
`CommunityModelSidecar` carry the fields of the source's objects; each of their methods is one step
of the state machine beside it, and the theorems hold over every interleaving of steps.
`ServiceWorkers` runs the service with its slots: each side is a run of its own model, and a clean
shutdown leaves no process.

**Frame selection and its re-check** (`ClipTime`, `FrameSelector`, `DerivedView`, `MediaProbe`,
`ReceiptCheck`, `ReceiptMeaning`). Fractions are exact reals. The host, with its own formulas,
accepts the numbers of every receipt the worker writes, and only those; `ReceiptMeaning` says what
the numbers mean.

**Trees** (`BundleTree`, `BundleMeaning`, `RuntimeInventory`, `InventoryMeaning`). A recursive walk
that accepts exactly one tree, and a stack traversal whose result does not depend on listing order.

Where the documentation and the code differ, the code is followed. `WarmModelProcess` promises that
a failure destroys the worker before another request launches its replacement; a request that fails
before it holds the lock leaves the running worker alone, as in the code.

## Model

| member | source | states |
|---|---|---|
| BeamModel.LexTotal | src/bitsign_motion/portable_model.py:544-545 | token tuples are totally ordered, so equal scores are always decided |
| BeamModel.LexSiblings | src/bitsign_motion/portable_model.py:615-635 | two children of one beam are ordered by their last token, as the stable argsort orders them |
| BeamModel.BeforeTotal | src/bitsign_motion/portable_model.py:639-641 | beams with different tokens are strictly ordered by the sort key (descending score, then tokens) |
| BeamModel.AskedRowIsDetermined | src/bitsign_motion/portable_model.py:581-595 | the network is asked with one row per prefix: BOS, then the prefix, then padding; the column of the answer is the last without padding |
| BeamSelection.TopIgnoresOutdone | src/bitsign_motion/portable_model.py:621-641 | leaving out candidates that k others beat never changes the k best |
| BeamSelection.SortedCutIsTop | src/bitsign_motion/portable_model.py:639-641 | sorting distinct candidates and cutting at the width gives the k best of their set, in order |
| BeamReference.PoolMembers | src/bitsign_motion/portable_model.py:572-577 | a round's competitors are exactly the finished beams and all children of live ones |
| BeamReference.Round | src/bitsign_motion/portable_model.py:572-641 | one untruncated round keeps the beams ranked, distinct, well formed and, when live, exactly as long as the position |
| BeamReference.Rounds | src/bitsign_motion/portable_model.py:572-641 | the same for any number of rounds |
| BeamReference.ChildIsGood | src/bitsign_motion/portable_model.py:607-635 | a child has no repeated n-gram, no PAD or BOS, EOS only at its end, and is one token longer |
| BeamReference.PoolToldApart | src/bitsign_motion/portable_model.py:607-641 | all competitors of a sample have different tokens, so the order on them is total |
| BeamTruncation.ArgsortFacts | src/bitsign_motion/portable_model.py:618-620 | the stable descending argsort lists every token once, higher values first and equal values by token |
| BeamTruncation.KeptFacts | src/bitsign_motion/portable_model.py:621-635 | the truncated expansion keeps exactly the best `beam_width` allowed finite tokens of a beam |
| BeamTruncation.DroppedAreOutdone | src/bitsign_motion/portable_model.py:621-635 | every child the truncation drops is beaten by `beam_width` kept siblings |
| BeamTruncation.TruncationIsLossless | src/bitsign_motion/portable_model.py:607-641 | the k best of the truncated candidates are the k best of the full expansion, ties included |
| BeamDecode.BanIsExact | src/bitsign_motion/portable_model.py:608-613 | the ban set contains a token exactly when it is PAD, BOS or would complete an n-gram a second time |
| BeamDecode.BannedTokens | src/bitsign_motion/portable_model.py:608-613 | the loop over earlier suffix matches computes that set |
| BeamDecode.ExpandBeam | src/bitsign_motion/portable_model.py:621-637 | the loop over the argsort order appends exactly the kept children; none means no finite candidate |
| BeamDecode.FlatteningSeparates | src/bitsign_motion/portable_model.py:572-577 | the rows of one sample in the flattened live list are that sample's live beams, in order |
| BeamDecode.LiveBeamsAreAtPosition | src/bitsign_motion/portable_model.py:600-604 | every live beam is exactly as long as the loop position and repeats no n-gram |
| BeamDecode.ScoreRows | src/bitsign_motion/portable_model.py:581-605 | each live beam is scored by the network asked with BOS, the beam's tokens and padding, at the column of its own end, with its own sample's memory |
| BeamDecode.Expand | src/bitsign_motion/portable_model.py:607-637 | the row loop gathers, per sample, its finished beams and the kept children of its own live beams |
| BeamDecode.SortAndCut | src/bitsign_motion/portable_model.py:639-641 | sort and cut is one reference round for every sample |
| BeamDecode.BeamDecode | src/bitsign_motion/portable_model.py:531-651 | each argument error exactly for its range; otherwise every output is returned by a search of its own sample alone, written out in `BeamContract`, or some sample alone comes to a dead end |
| BeamContract.ExtensionsAreChildren | src/bitsign_motion/portable_model.py:607-637 | the children of a beam are exactly its one-token extensions: not PAD, not BOS, no n tokens said twice, the score raised by what the network gives for the asked row, finished by EOS only |
| BeamContract.LexIsSmaller | src/bitsign_motion/portable_model.py:639-641 | token tuples are ordered by the first token that differs, a front part first |
| BeamContract.RoundIsExact | src/bitsign_motion/portable_model.py:572-641 | the next beams of a round are exactly those that are ordered, compete, and leave out only what comes behind beam-width many; a round fails exactly at a live beam that nothing extends |
| BeamContract.HypothesisIsTheSearch | src/bitsign_motion/portable_model.py:531-651 | an output is returned for a sample if and only if a search of that many rounds from the empty beam ends with its tokens first, padded; and failure means a search that comes to a dead end |
| BeamProperties.EveryOutputIsWellFormed | src/bitsign_motion/portable_model.py:540-546 | every output is a well-formed token sequence within the limit, padded to the requested length |
| BeamProperties.FinishedSampleStays | src/bitsign_motion/portable_model.py:576-579 | a sample without live beams is unchanged by further rounds, so stopping only when all are finished is harmless |
| BeamProperties.FinishedLeaderIsAbsorbing | src/bitsign_motion/portable_model.py:572-579 | with log-probabilities at most zero a finished first beam stays first to the end |
| GreedyDecode.ArgMaxIsBest | src/bitsign_motion/portable_model.py:516 | arg-max is the first token of the stable descending order |
| GreedyDecode.ArgMaxIsFirst | src/bitsign_motion/portable_model.py:516 | arg-max is the first token whose value no other exceeds, not-a-number above every number |
| GreedyDecode.GreedyPathFollows | src/bitsign_motion/portable_model.py:514-527 | each token of a greedy path is ranked first by the network asked with the tokens before it, and only the last may be EOS |
| GreedyDecode.GreedyRow | src/bitsign_motion/portable_model.py:514-527 | one row of the greedy loop is the recursive greedy path, padded |
| GreedyDecode.GreedyDecode | src/bitsign_motion/portable_model.py:486-528 | every output is, token by token, what the network asked with the tokens before it ranks first, up to EOS, then padding; exactly a bad token count is refused |
| GreedyDecode.WidthOneIsGreedyExactlyWhenUnconstrained | src/bitsign_motion/portable_model.py:486-651 | beam width one returns the greedy output if and only if no greedy arg-max is banned or not finite |
| StableSort.SortSorts | src/bitsign_motion/portable_model.py:640 | the library sort, as used here, sorts under every strict weak order |
| StableSort.SortKeepsDistinct | src/bitsign_motion/portable_model.py:640 | and neither repeats nor drops an element |
| Utf8.AcceptedIsAnEncoding | src/bitsign_motion/s1_decode_tokenizer.py:252-288 | whatever a branch of the decoder accepts is the shortest encoding of the scalar it computes |
| Utf8.EncodingIsAccepted | src/bitsign_motion/s1_decode_tokenizer.py:252-288 | the encoding of every scalar is accepted with its width and value |
| Utf8.AcceptsExactlyEncodings | src/bitsign_motion/s1_decode_tokenizer.py:252-292 | a position is accepted if and only if an encoding of RFC 3629 (section 3, the byte sequences of section 4) starts there |
| Utf8.UnitsPartitionTheInput | src/bitsign_motion/s1_decode_tokenizer.py:247-292 | accepted encodings and rejected bytes together spell the input out |
| Utf8.DecodingInvertsEncoding | src/bitsign_motion/s1_decode_tokenizer.py:247-292 | decoding an encoded text followed by any bytes gives the text and then the decoding of those bytes |
| Utf8.ReencodingRoundTrip | src/bitsign_motion/s1_decode_tokenizer.py:247-292 | re-encoding the output gives the input if and only if no substitution changed a byte |
| Utf8.NothingRejectedRoundTrip | src/bitsign_motion/s1_decode_tokenizer.py:286-292 | without a rejected byte, re-encoding gives the input |
| Utf8.ReadScalar | src/bitsign_motion/s1_decode_tokenizer.py:251-285 | the branches of the program at one index compute exactly that acceptance |
| Utf8.DecodeBytes | src/bitsign_motion/s1_decode_tokenizer.py:247-292 | the loop decodes: one character per encoding, one U+FFFD per rejected byte |
| TokenDecode.LoadPieces | src/bitsign_motion/s1_decode_tokenizer.py:166-239 | the table loop accepts a piece list if and only if it is the frozen table with distinct texts |
| TokenDecode.DecodeTokens | src/bitsign_motion/s1_decode_tokenizer.py:294-334 | the streaming loop with pending bytes and one-time prefix removal computes the grouped meaning, with the same errors |
| TokenDecode.OnlyTokensBeforeEosMatter | src/bitsign_motion/s1_decode_tokenizer.py:308-313 | nothing behind the first EOS influences the result |
| TokenDecode.PaddingIsInvisible | src/bitsign_motion/s1_decode_tokenizer.py:315-316 | PAD and BOS may be inserted anywhere, even inside a character, within the ceiling |
| TokenDecode.AtMostOneSpaceIsDropped | src/bitsign_motion/s1_decode_tokenizer.py:325-329 | at most one leading marker is dropped, exactly when the first group is a marked text piece |
| TokenDecode.ByteTokensAreOneRun | src/bitsign_motion/s1_decode_tokenizer.py:317-319 | byte tokens in a row form one run |
| TokenDecode.ByteFallbackRoundTrip | src/bitsign_motion/s1_decode_tokenizer.py:317-334 | the byte tokens of any text of at most 128 bytes decode to that text |
| TokenDecode.Spaced | src/bitsign_motion/s1_decode_tokenizer.py:325 | every marker of a piece becomes a space and every other character stays |
| TokenMeaning.FrozenTableIsFixed | src/bitsign_motion/s1_decode_tokenizer.py:166-239 | the table, column by column: identifiers, kinds by range, the four reserved texts, byte pieces named in hexadecimal, no text twice |
| TokenMeaning.GroupsAreWritten | src/bitsign_motion/s1_decode_tokenizer.py:308-330 | the groups spell what the tokens spell one after the other: 0 and 1 nothing, 4 to 259 bytes decoded together, 260 to 4095 their piece with spaces for markers, all others the unknown mark |
| TokenMeaning.DropsExactlyMarkedOpenings | src/bitsign_motion/s1_decode_tokenizer.py:325-329 | a space is dropped if and only if the first token that is not passed over is a piece that starts with a marker |
| TokenMeaning.MeaningIsWhatTokensSpell | src/bitsign_motion/s1_decode_tokenizer.py:294-334 | the answer, by the tokens before the first 2: each error exactly for its cause, in the order of the checks, and otherwise the spelled text less one opening space |
| Disk.FileSystem.MoveObject | community/reboot_recovery.py:329 | a rename to a free path; its effect and the recorded state |
| Disk.FileSystem.CreateDirectory | community/reboot_recovery.py:341 | a mkdir at a free path |
| Disk.FileSystem.SyncDirectory | community/reboot_recovery.py:168-173 | an fsync of one directory makes the operations in it durable |
| Disk.SyncedIsByDirectory | community/reboot_recovery.py:168-173 | a sync leaves what is seen alone and unsynced exactly the operations in other directories |
| Disk.FileSystem.ReplaceJournal | community/reboot_recovery.py:267-280 | the atomic replacement of the journal, not yet durable |
| RecoveryChecks.TargetsAreInjective | community/reboot_recovery.py:307-310 | different sources have different quarantine targets |
| RecoveryChecks.DryThenExecute | community/reboot_recovery.py:318-347 | an entry that passes the dry pass is executed without refusal and touches only its own two paths, on any disk |
| RecoveryChecks.DryThenExecuteAll | community/reboot_recovery.py:376-399 | hence entries are independent: the execute pass of a checked plan cannot be refused |
| RecoveryChecks.CheckedPlanHasDistinctPaths | community/reboot_recovery.py:183-194 | the construction checks, the bindings and the dry pass together make all paths of a plan distinct |
| RecoveryChecks.RunPlanChecksFirst | community/reboot_recovery.py:370-399 | a plan is carried out to the end or not begun at all |
| RecoveryChecks.RefusedPrepareMovesNothing | community/reboot_recovery.py:349-399 | a refused `prepare` has moved nothing, whatever the disk held |
| RecoveryProgress.RenameStep | community/reboot_recovery.py:326-330 | the rename is the only unsynced operation and keeps the recovery in progress |
| RecoveryProgress.BarrierStep | community/reboot_recovery.py:333-336 | the parent barrier leaves nothing of this or an earlier entry unsynced, also when a previous attempt skipped it |
| RecoveryProgress.MakeStep | community/reboot_recovery.py:340-341 | recreating the scratch directory settles the entry |
| RecoveryProgress.SettleProgress | community/reboot_recovery.py:331-347 | from a moved artifact on, every state is in progress and the entry ends settled |
| RecoveryProgress.EntryProgress | community/reboot_recovery.py:318-347 | executing an entry of a recovery in progress never fails and settles it, from whichever stage it was left in |
| RecoveryProgress.ExecuteProgress | community/reboot_recovery.py:398-399 | so does the whole execute pass, and every state on the way is in progress |
| RecoveryProgress.DryPassPasses | community/reboot_recovery.py:376-397 | a recovery in progress passes every check of the dry pass |
| RecoveryCrash.PlanIsSound | community/reboot_recovery.py:296-316 | the plan made from a journal and a tree is bound to the journal, has distinct paths and describes the tree |
| RecoveryCrash.PrepareRecovers | community/reboot_recovery.py:349-399 | from any recoverable disk `prepare` succeeds and every state it passes through is on the way |
| RecoveryCrash.CrashLeavesRecoverable | community/reboot_recovery.py:318-399 | a machine crash at any of those states leaves a recoverable disk |
| RecoveryCrash.CrashKeepsProgress | community/reboot_recovery.py:318-347 | what a crash shows of a recovery in progress is that recovery in progress, fully durable |
| RecoveryCrash.EveryCrashHistoryIsRecoverable | community/reboot_recovery.py:318-399 | any number of runs cut off by machine crashes at any operations in any later boots leaves a disk from which the next undisturbed run completes; runs stopped without a crash are in `RecoveryHistory` |
| RecoveryOutcome.ArtifactsAreNeverLost | community/reboot_recovery.py:318-347 | on every disk that stops and crashes can lead to, live and durable, even when the plan is lost: each recorded artifact stands whole in exactly one of source and target, and every other path is untouched |
| RecoveryOutcome.PlanPathsAreSeparate | community/reboot_recovery.py:183-194 | no path of a plan lies below another, so moving one artifact carries no other along |
| RecoveryOutcome.CompletionReachesTheEndState | community/reboot_recovery.py:398-399 | completion means: artifacts quarantined, fresh empty scratch directories, no socket or capacity file, all durable |
| RecoveryOutcome.RerunReachesTheEndState | community/reboot_recovery.py:349-399 | however often `prepare` is stopped between operations, each rerun is accepted and, left alone, reaches the end state |
| RecoveryOutcome.CompletedPlanMovesNothing | community/reboot_recovery.py:318-347 | running a completed plan again repeats barriers only |
| RecoveryOutcome.PrepareIsIdempotent | community/reboot_recovery.py:349-399 | a `prepare` after a completed one leaves every artifact where it is |
| RecoveryOutcome.CompletionsAgree | community/reboot_recovery.py:318-399 | two completions differ at most in the identities of the fresh directories |
| RecoveryOutcome.CompletionAllowsBegin | community/reboot_recovery.py:401-407 | after a completed recovery `begin` is not refused |
| RecoveryHistory.NoPlanOnceMoved | community/reboot_recovery.py:296-316 | once an artifact stands in quarantine no plan can be made from a journal without one |
| RecoveryHistory.NothingQuarantined | community/reboot_recovery.py:318-347 | a tree of the recovery with nothing in quarantine is the tree the plan was made in, so the plan is made again |
| RecoveryHistory.PrepareFromReached | community/reboot_recovery.py:349-399 | wherever stops and crashes have led, `prepare` completes the recovery or, exactly when the plan is lost, is refused without touching the disk |
| RecoveryHistory.CrashFromReached | community/reboot_recovery.py:267-282 | a crash on any such disk leaves another such disk |
| RecoveryHistory.EveryHistoryKeepsTheArtifacts | community/reboot_recovery.py:318-399 | over every history that mixes stops within a boot and machine crashes: no artifact is lost, nothing outside the plan changes, and the next `prepare` reaches the end state if and only if no moved artifact has lost its plan |
| RecoveryHistory.LostStaysLost | community/reboot_recovery.py:318-399 | a lost plan stays lost and the artifacts stay where they are, whatever is rerun or rebooted |
| RecoveryHistory.DurableJournalIsRestartable | community/reboot_recovery.py:349-399 | a run that finds its journal durable can be restarted from every crash point |
| RecoveryHistory.UnsyncedPlanCanStrand | community/reboot_recovery.py:278-279 | a run that finds its plan unsynced, before or after the first rename, can be crashed into a disk on which every later `prepare` is refused |
| RecoveryHistory.RestartableExactlyWhenJournalIsDurable | community/reboot_recovery.py:267-282 | from every disk that stops and crashes can lead to: the next run is restartable from all its crash points if and only if the journal it finds is durable and its plan is not lost already |
| RecoveryRoundTrip.RecordsAreClean | community/reboot_recovery.py:401-415 | `begin` records the configured directories exactly when each is private and empty |
| RecoveryRoundTrip.BeginIsAcceptedExactlyWhenClean | community/reboot_recovery.py:401-425 | `begin` is accepted if and only if there is no socket artifact and every scratch directory is private and empty |
| RecoveryRoundTrip.BeginThenFinish | community/reboot_recovery.py:401-431 | what `begin` records is what `finish` verifies |
| RecoveryRoundTrip.FinishThenPrepare | community/reboot_recovery.py:356-361 | after `finish`, `prepare` does nothing and is accepted if and only if the files are still clean |
| RecoveryAcceptance.BeginDemands | community/reboot_recovery.py:401-415 | `begin` is accepted if and only if neither the socket nor the capacity file is in the tree and every configured scratch is there as a private directory with no contents |
| RecoveryAcceptance.BeginRecords | community/reboot_recovery.py:416-425 | it leaves the tree as it is and a durable active journal with every scratch directory and its identity |
| RecoveryAcceptance.FinishDemands | community/reboot_recovery.py:427-431 | `finish` is accepted if and only if no socket artifact is in the tree and every recorded scratch is there with its identity, private and with no contents |
| RecoveryAcceptance.FinishRecords | community/reboot_recovery.py:427-431 | it leaves the tree as it is and the same journal, clean and durable |
| RecoveryAcceptance.PrepareDemandsWithoutJournal | community/reboot_recovery.py:349-353 | without a journal `prepare` is accepted if and only if no socket artifact is in the tree |
| RecoveryAcceptance.PrepareDemandsOnCleanJournal | community/reboot_recovery.py:354-361 | on a clean journal it is accepted if and only if host and platform are the recorded ones, there is no plan and the tree meets what `finish` demands |
| RecoveryAcceptance.PlanIsMadeExactly | community/reboot_recovery.py:296-316 | a plan can be made if and only if every recorded scratch stands at its path, socket and capacity file are safe or absent, and no quarantine path is taken |
| RecoveryAcceptance.PlanIsAcceptedExactly | community/reboot_recovery.py:370-397 | a plan is carried out if and only if every entry has the source, kind, target and identity that configuration and journal determine and is found absent, unmoved, or moved with nothing but a fresh empty directory in its place |
| RecoveryAcceptance.PrepareDemandsOnActiveJournal | community/reboot_recovery.py:349-397 | on an unfinished journal `prepare` is accepted if and only if the journal is this configuration's, of this host and another boot, and a plan can be made or the stored one is acceptable as above |
| RecoveryAcceptance.CompletionIsOnDisk | community/reboot_recovery.py:398-399 | the disk of a completed recovery, written out over the tree |
| RebootRecovery.CheckScratches | community/reboot_recovery.py:183-194 | the constructor's loops accept a configuration if and only if scratch directories are separate and hold no control file |
| RebootRecovery.RebootRecovery.constructor | community/reboot_recovery.py:177-195 | the record in memory is the journal on disk |
| RebootRecovery.RebootRecovery.Write | community/reboot_recovery.py:267-282 | replaces and syncs the journal, then the record in memory |
| RebootRecovery.RebootRecovery.CleanScratches | community/reboot_recovery.py:289-294 | accepts if and only if every recorded scratch is present, private, the recorded one and empty |
| RebootRecovery.RebootRecovery.Entries | community/reboot_recovery.py:296-316 | the loop builds the plan or stops with the first error |
| RebootRecovery.RebootRecovery.Apply | community/reboot_recovery.py:318-347 | one entry passes through exactly the specified disk states |
| RebootRecovery.RebootRecovery.Prepare | community/reboot_recovery.py:349-399 | `prepare` passes through exactly the specified disk states and ends as specified |
| RebootRecovery.RebootRecovery.CarryOut | community/reboot_recovery.py:370-399 | the two loops are the specified dry and execute passes |
| RebootRecovery.RebootRecovery.Begin | community/reboot_recovery.py:401-425 | `begin` passes through exactly the specified states, and is accepted if and only if the tree holds no socket artifact and every scratch as a private directory with no contents |
| RebootRecovery.RebootRecovery.Finish | community/reboot_recovery.py:427-431 | `finish` passes through exactly the specified states, and is accepted if and only if the tree holds no socket artifact and every recorded scratch with its identity and no contents |
| DiskNumbers.PrepareNumbered | community/reboot_recovery.py:349-399 | identities are never handed out twice during a recovery |
| DiskNumbers.CrashNumbered | community/reboot_recovery.py:318-347 | nor by a crash that brings operations back |
| ServiceRuns.RecoveringKeepsFit | community/reboot_recovery.py:349-399 | recovering an inherited journal for any number of operations keeps both journals backed by a recovery the disk is in |
| ServiceRuns.PrepareKeepsInv | community/service.py:182-187 | any prefix of `prepare` keeps the invariant of the whole host |
| ServiceRuns.BeginKeepsInv | community/service.py:189-192 | so does `begin`, which never follows an unfinished begin of the same boot |
| ServiceRuns.FinishKeepsInv | community/service.py:197-199 | so does `finish` |
| ServiceRuns.CrashKeepsInv | community/reboot_recovery.py:349-399 | so does a machine crash into a fresh boot at any moment |
| ServiceRuns.StepKeepsInv | community/service.py:182-199 | so does every step of a host |
| ServiceRuns.EveryRunKeepsInv | community/service.py:182-199 | so it holds in every reachable state |
| ServiceRuns.BeginsAreSeparatedByAFinish | community/reboot_recovery.py:349-431 | in every run, two begins under one boot identity have a finish between them |
| ServiceRuns.UnfinishedIsPassedOnlyRecovered | community/reboot_recovery.py:349-399 | an unfinished journal is passed only in another boot of the same host under the same configuration, with the disk in its end state |
| ServiceRuns.CleanJournalsHaveNoPlan | community/reboot_recovery.py:356-358 | every reachable clean journal has a null plan |
| ModelService.BuildSidecar | community/service.py:150-169 | the loop accepts worker lists if and only if they are bounded and scratch directories are pairwise separate |
| ModelService.ScratchesApartBuild | community/service.py:165-166 | in recovery mode the workers' overlap check repeats a stronger one that has already passed |
| ModelService.RunConfiguration | community/service.py:172-201 | the order prepare, build, begin, serve, finish: each stage is reported if and only if its own condition fails after all earlier ones held; a run that fails nowhere leaves a durable clean journal, one that fails while or after serving an active one |
| WorkerFraming.FieldRoundTrip | community/worker_transport.py:31-32 | packing a field and unpacking it gives the number back |
| WorkerFraming.FieldIsCanonical | community/worker_transport.py:31-32 | unpacking bytes and packing them gives the bytes back |
| WireFormat.NumbersAreSpelled | community/worker_transport.py:31-32 | the four and eight bytes of a number are exactly those that spell it, most significant first |
| WireFormat.RequestsAreLaidOut | community/worker_transport.py:227-233 | a frame is the request if and only if it has the marker, nonce, digest, length, deadline and video at bytes 0, 23, 55, 87, 95 and 103 |
| WireFormat.RepliesAreLaidOut | community/worker_transport.py:340-348 | a frame is the reply if and only if it has the marker, nonce, length and text at bytes 0, 22, 54 and 58 |
| WireFormat.ReadinessMarker | community/worker_transport.py:26 | the readiness marker byte by byte |
| WireFormat.RequestMarker | community/worker_transport.py:27 | the request marker byte by byte |
| WireFormat.ReplyMarker | community/worker_transport.py:28 | the reply marker byte by byte |
| WireFormat.BlankMeansSpaces | community/worker_transport.py:242-243 | a text is empty once stripped if and only if all its characters are among 29 code points |
| WireFormat.LimitsAreFixed | community/worker_transport.py:29-30 | a request fits and an answer is carried exactly within 16 MiB, 64 bits and 4096 bytes |
| WireFormat.AcceptsExactlyReplies | community/worker_transport.py:235-244 | the service accepts a text if and only if the stream starts with such a frame for its nonce and the text is not blank and within 4096 bytes |
| WorkerFraming.HeaderFields | community/worker_transport.py:227-233 | an encoded request carries its fields at the offsets the worker reads |
| WorkerFraming.OneRequest | community/worker_transport.py:325-348 | a well-formed, timely, answerable request yields exactly one reply echoing its nonce, and the worker goes on with the rest |
| WorkerFraming.RequestsAreServedInOrder | community/worker_transport.py:296-348 | any concatenation of encoded requests is parsed back exactly, one reply each, in order |
| WorkerFraming.AcceptedHeader | community/worker_transport.py:326-346 | an input that is not refused starts with the encoding of a fitting, answerable, timely request |
| WorkerFraming.ServedInputIsRequests | community/worker_transport.py:296-348 | an input is served to its end if and only if it is a concatenation of encoded requests; otherwise all answered ones are its front |
| WorkerFraming.StrictDecodeInverts | community/worker_transport.py:241 | strict decoding of an encoded text gives the text |
| WorkerFraming.AcceptsExactlyTheEchoedReply | community/worker_transport.py:235-244 | the service accepts a text if and only if the stream starts with the reply that carries it under this request's nonce |
| WorkerFraming.WorkerWritesOnlyReplies | community/worker_transport.py:296-348 | whatever part of the requests has arrived and wherever the worker stops, it has written replies to them, in order |
| WorkerFraming.RepliesArePrefixFree | community/worker_transport.py:235-241 | one reply is never the front of a different reply to the same request |
| WorkerFraming.ReadExact | community/worker_transport.py:286-293 | collects exactly the asked bytes from short reads, or everything when the input ends early |
| WorkerFraming.ServeOne | community/worker_transport.py:326-348 | one turn of the loop: the specified refusal, or one reply and the input advanced by one request |
| WorkerFraming.ServeWorker | community/worker_transport.py:323-348 | the loop writes readiness and then exactly the specified replies, however the input is cut into reads |
| WorkerProcess.StepKeepsLock | community/worker_transport.py:219-261 | exactly the holder of the lock is in the middle of an operation |
| WorkerProcess.StepKeepsChildren | community/worker_transport.py:159-217 | at most one child exists, and a missing child of an open slot means a cleared scratch directory |
| WorkerProcess.StepKeepsRequests | community/worker_transport.py:249-274 | every request written to a child is one the protocol can carry |
| WorkerProcess.StepKeepsOpenWhileWorking | community/worker_transport.py:184-196 | until `close` is called, a slot in which a child is being created or in use is open |
| WorkerProcess.SuccessLeavesItReady | community/worker_transport.py:192-247 | an operation that has just succeeded leaves an open slot with a child |
| WorkerProcess.ServingWritesTheStream | community/worker_transport.py:323-348 | whatever `serve_worker` writes for any front of the requests sent to it, under any clock, is a front of readiness and the replies to them, in order |
| WorkerProcess.HonestReply | community/worker_transport.py:225-244 | an accepted text of an honest child is its answer to the last request, and nothing is left to read |
| WorkerProcess.StepKeepsPipes | community/worker_transport.py:219-247 | between operations every expected reply of a running child has been read |
| WorkerProcess.EveryRunKeepsInv | community/worker_transport.py:159-283 | lock, children, requests and pipes stay so in every interleaving |
| WorkerProcess.AtMostOneProcess | community/worker_transport.py:192-217 | there is never more than one live process per worker |
| WorkerProcess.ReplacementNeedsCleanup | community/worker_transport.py:184-190 | a process is created only when every earlier one was reaped and its scratch cleared |
| WorkerProcess.ClosedNeverCreates | community/worker_transport.py:192-196 | closing is permanent; a closed slot takes no operation and begins no creation |
| WorkerProcess.ReturnedTextIsTheAnswer | community/worker_transport.py:219-247 | over any interleaving of success, timeout, cancellation and malformed reply, the text returned for a video is the answer for that video and deadline, if the child writes what `serve_worker` writes for the requests that have reached it |
| WorkerProcess.TextComesOnlyFromReplies | community/worker_transport.py:241-247 | no other path gives a caller text |
| WorkerProcess.ClosedGainsNoProcess | community/worker_transport.py:266-269 | a closed slot without a creation under way never gains a process |
| WorkerProcess.ClosedGainsNoProcessBeforeClose | community/worker_transport.py:184-196 | until `close` is called, a closed slot never reopens and gains no process, creations included |
| WorkerProcess.CloseLeavesItDead | community/worker_transport.py:276-283 | a `close` without error leaves no process and no operation |
| WorkerProcess.ClosedForGood | community/worker_transport.py:276-283 | and that stays so in every later state |
| WorkerCancellation.StoppedNeverSucceeds | community/worker_transport.py:245-261 | over every run: an operation that is stopped, or under way when `close` is called, never ends in a result |
| WorkerCancellation.StoppedChildIsDiscarded | community/worker_transport.py:245-247 | over every run: stopped while it waits for its child, an operation keeps the lock with that child recorded until a reap or a failed reap, which frees the lock and ends it with an error |
| WorkerCancellation.RiddingEnds | community/worker_transport.py:159-190 | reaped, the child is gone and the scratch clear or the slot closed; not reaped, the slot is closed |
| WarmModelProcess.ReadFrame | community/worker_transport.py:235-244 | the reader computes the specified acceptance |
| WarmModelProcess.WarmModelProcess.constructor | community/worker_transport.py:106-126 | a new slot is open, without a process and with an empty scratch directory |
| WarmModelProcess.WarmModelProcess.Submit | community/worker_transport.py:249-254 | a closed slot refuses; an open one queues exactly one operation |
| WarmModelProcess.WarmModelProcess.EnterLock | community/worker_transport.py:192-197 | with the lock: refuse, create, or use the running child |
| WarmModelProcess.WarmModelProcess.CreationDone | community/worker_transport.py:197-210 | the child exists, or creation failed and the lock is free |
| WarmModelProcess.WarmModelProcess.RecordChild | community/worker_transport.py:209-214 | the child is recorded; a canceled operation records it only to discard it |
| WarmModelProcess.WarmModelProcess.Cancel | community/worker_transport.py:245-261 | in every phase: a queued operation ends, one whose child is being created is marked, one that waits for its child begins to discard it |
| WarmModelProcess.WarmModelProcess.ReceiveReadiness | community/worker_transport.py:215-233 | only the readiness frame of the reviewed revision lets the operation go on |
| WarmModelProcess.WarmModelProcess.ReceiveReply | community/worker_transport.py:235-244 | a reply is returned under this request's nonce only; anything else discards the child |
| WarmModelProcess.WarmModelProcess.Discard | community/worker_transport.py:159-190 | reaped and cleared, or closed for good |
| WarmModelProcess.WarmModelProcess.BeginShutdown | community/worker_transport.py:276-281 | the loop stops every pending operation and closes the slot |
| WarmModelProcess.WarmModelProcess.FinishDraining | community/worker_transport.py:281-283 | nothing to discard, or one child left to discard |
| WarmModelProcess.WarmModelProcess.FinishShutdown | community/worker_transport.py:282-283 | the end of `close`, with or without an error |
| Sidecar.StepKeepsPlaces | community/sidecar.py:73-146 | every step keeps each worker in at most one place, and in one place while the service is open |
| Sidecar.StepKeepsLock | community/sidecar.py:116-130 | the recovery lock is held by the one recovery that is warming |
| Sidecar.StepKeepsClosing | community/sidecar.py:199-234 | the closing task is unique and each of its stages holds what it waited for |
| Sidecar.EveryWorkerIsInOnePlace | community/sidecar.py:73-157 | slot conservation: while open, each worker is in exactly one of not started, queued, held by one request, in one recovery |
| Sidecar.QueueNeverOverflows | community/sidecar.py:54 | the bounded queue always has room for a worker that is put back |
| Sidecar.NothingNewOnceClosed | community/sidecar.py:199-231 | once closed, no step adds a request or a recovery, lets one start on a worker, or reopens the service |
| Sidecar.ClosedIsMonotone | community/sidecar.py:227-231 | closing is permanent with a single closing task, over whole runs |
| Sidecar.NobodyUsesWorkersAfterClose | community/sidecar.py:211-221 | after the closing task is over no step touches a worker |
| Sidecar.CleanCloseIsFinal | community/sidecar.py:219-225 | when `_close` returns without error every worker is closed and without a process, in every later state |
| Rewarming.FailureIsHandled | community/sidecar.py:99-110 | a failed translation in an open service schedules one recovery of that worker, or closes the service if the worker has closed itself; the worker is not offered |
| Rewarming.FailedWorkerIsRewarmedFirst | community/sidecar.py:105-124 | over every run: a worker whose translation failed in an open service is queued or running again only after a recovery of that worker has finished in between |
| Rewarming.FirstComeFirstServed | community/sidecar.py:54-98 | workers join the queue at its end and a request gets the one in front |
| Rewarming.RecoveryIsHandled | community/sidecar.py:116-130 | one recovery reloads at a time; its success puts its own worker in the queue, its failure closes the service |
| ServiceWorkers.ChangeIsSeen | community/worker_transport.py:184-196 | until `close` is called, a slot changes only as the service takes workers to change: never reopened, no process gained once closed, and none at all unless in use |
| ServiceWorkers.SeenIsEnabled | community/sidecar.py:99-130 | whatever a slot does under the service, what the service sees of it is a step its own model allows |
| ServiceWorkers.EveryRunKeepsInv | community/sidecar.py:73-225 | in every joint run the summaries are those of the slots, and a worker nobody uses has no operation under way |
| ServiceWorkers.ServiceRunsAsSidecar | community/sidecar.py:73-231 | every service state of a joint run is reachable in `Sidecar`, so all its properties hold with real slots |
| ServiceWorkers.SlotsRunAsWorkerProcess | community/worker_transport.py:249-283 | every slot state of a joint run is reachable in `WorkerProcess` |
| ServiceWorkers.CleanCloseLeavesNoProcess | community/sidecar.py:219-225 | when `_close` returns without error no worker has a live process or an operation under way, in every later state |
| ServiceWorkers.QueuedWorkersAreReady | community/sidecar.py:73-124 | in every joint run of an open service each queued worker is one whose last operation succeeded, open, with a child and nothing under way |
| CommunityModelSidecar.CommunityModelSidecar.constructor | community/sidecar.py:50-62 | a new service is open with an empty queue and nothing started |
| CommunityModelSidecar.CommunityModelSidecar.BeginClosing | community/sidecar.py:227-231 | marks the service closed and creates the closing task once |
| CommunityModelSidecar.CommunityModelSidecar.StartLoading | community/sidecar.py:64-89 | starts only once and never after closing |
| CommunityModelSidecar.CommunityModelSidecar.LoadingAdvances | community/sidecar.py:73-86 | workers join the queue one after the other, then the socket opens |
| CommunityModelSidecar.CommunityModelSidecar.Accept | community/sidecar.py:132-147 | a request is accepted if and only if the service is open and the socket was offered |
| CommunityModelSidecar.CommunityModelSidecar.Take | community/sidecar.py:95-98 | the oldest available worker goes to the request, unless the service has closed |
| CommunityModelSidecar.CommunityModelSidecar.FinishTranslation | community/sidecar.py:99-114 | success returns the worker, a closed worker closes the service, any other failure schedules one recovery |
| CommunityModelSidecar.CommunityModelSidecar.EnterRecovery | community/sidecar.py:116-121 | a recovery warms under the lock, or ends at once in a closed service |
| CommunityModelSidecar.CommunityModelSidecar.LeaveRecovery | community/sidecar.py:122-130 | the worker rejoins the queue, or failure closes the service |
| CommunityModelSidecar.CommunityModelSidecar.CloseAdvances | community/sidecar.py:199-218 | the stages of `_close` in order |
| CommunityModelSidecar.CommunityModelSidecar.WorkerReaped | community/sidecar.py:219-221 | one worker's close, reaped or not |
| CommunityModelSidecar.CommunityModelSidecar.CloseReturns | community/sidecar.py:222-225 | returns without error only with every worker closed and reaped |
| ClipTime.RoundsToNearest | docker/mediapipe-holistic/worker.amd64.py:416-421 | the microsecond rounding is the one integer within half a microsecond, the lower one on a tie |
| ClipTime.RoundingIsMonotone | src/bitsign_motion/amd64_holistic_container.py:913-918 | and it is monotone |
| ClipTime.CeilingsAgree | src/bitsign_motion/amd64_holistic_container.py:921-925 | the worker's negated floor and the host's quotient plus remainder are the same ceiling |
| ClipTime.FrameCountsAgree | src/bitsign_motion/amd64_holistic_container.py:1377 | the worker's rational frame count equals the host's integer one |
| ClipTime.FrameCountIsBounded | docker/mediapipe-holistic/worker.amd64.py:796-798 | every 2 to 15 second clip has 16 to 120 frames |
| ClipTime.CandidateLimitsAgree | src/bitsign_motion/amd64_holistic_container.py:921-925 | the two candidate limits agree and lie between 122 and 902 for every bounded clip |
| ClipTime.CenterIsInside | docker/mediapipe-holistic/worker.amd64.py:805-806 | every bin center lies strictly inside the clip |
| ClipTime.CentersAreFarApart | docker/mediapipe-holistic/worker.amd64.py:805-806 | neighbouring centers are more than a tenth of a second apart |
| ClipTime.EdgesCutTheClip | docker/mediapipe-holistic/worker.amd64.py:805-806 | the edges of the bins cut the clip into equal parts from its start to its end |
| ClipTime.CenterIsMidway | docker/mediapipe-holistic/worker.amd64.py:805-806 | a bin's center is as far from its left edge as from its right edge |
| ClipTime.MillisecondsIncrease | docker/mediapipe-holistic/worker.amd64.py:820-823 | so their millisecond timestamps strictly increase |
| FrameSelector.NearestIsUnique | docker/mediapipe-holistic/worker.amd64.py:807-814 | the preference order decides every tie |
| FrameSelector.Nearest | docker/mediapipe-holistic/worker.amd64.py:807-814 | the minimum over all candidates is the nearest one, the earlier on a tie |
| FrameSelector.NearestIsMonotone | docker/mediapipe-holistic/worker.amd64.py:807-819 | a later center never selects an earlier candidate |
| FrameSelector.SelectFrames | docker/mediapipe-holistic/worker.amd64.py:795-828 | 16 to 120 requested times, eight a second rounded up, each midway between the edges of its bin, and one nearest candidate for each, in order; each error only for its cause |
| FrameSelector.SelectionIsOrdered | docker/mediapipe-holistic/worker.amd64.py:818-823 | for every bounded clip and strictly increasing candidates whatever is selected is in order with increasing timestamps |
| FrameSelector.SelectBoundedClip | docker/mediapipe-holistic/worker.amd64.py:795-828 | so the selector never fails on them: its guards do not fire |
| FrameSelector.LeavesAreBounded | docker/mediapipe-holistic/worker.amd64.py:837-841 | no expression over that many points is lower than the balanced one |
| FrameSelector.SelectFilter | docker/mediapipe-holistic/worker.amd64.py:831-842 | the pairing loop keeps the points once and in order and reaches the least possible height, refusing exactly bad point sets |
| FrameSelector.FilterIsMembership | docker/mediapipe-holistic/worker.amd64.py:831-842 | the filter passes a frame exactly when its timestamp was selected; 120 points need at most seven levels |
| FrameSelector.UniqueIsSorted | docker/mediapipe-holistic/worker.amd64.py:1056 | the distinct points, strictly increasing |
| FrameSelector.OrderedPointsAreVisitedInOrder | docker/mediapipe-holistic/worker.amd64.py:1056-1089 | for points in order the grouped loop visits each output exactly once and in order |
| FrameSelector.VisitedInOrderExactlyWhenOrdered | docker/mediapipe-holistic/worker.amd64.py:1056-1089 | and it does so only for points in order |
| FrameSelector.Group | docker/mediapipe-holistic/worker.amd64.py:1057-1059 | the grouping loop collects for each point the outputs that use it |
| FrameSelector.ExtractFrames | docker/mediapipe-holistic/worker.amd64.py:1056-1090 | each distinct frame is read once and recorded under every output that selected it; too few or too many frames are errors |
| DerivedView.EvenRounding | docker/mediapipe-holistic/worker.amd64.py:517-522 | the rounding is even, bounded and within one of the exact value |
| DerivedView.DerivedIsBounded | docker/mediapipe-holistic/worker.amd64.py:504-526 | the derived view fits 1280 by 720 either way round and is the source itself or even and within one pixel |
| DerivedView.ScaleIsTheLargest | docker/mediapipe-holistic/worker.amd64.py:510-512 | the scale is the largest of at most one under which the view fits |
| DerivedView.FittingSizeIsKept | docker/mediapipe-holistic/worker.amd64.py:513-515 | a whole size that fits is kept |
| DerivedView.DerivedTurnsWithTheSource | src/bitsign_motion/amd64_holistic_container.py:966-989 | turning the source by a quarter turns the derived view by a quarter |
| MediaProbe.Probe | docker/mediapipe-holistic/worker.amd64.py:658-754 | the probe's checks in their order, with the loop that collects candidates |
| MediaProbe.CandidatesAreInTheClip | docker/mediapipe-holistic/worker.amd64.py:746-753 | candidates are exactly the probed frames inside the half-open clip |
| MediaProbe.WholeVideoClipFits | docker/mediapipe-holistic/worker.amd64.py:683-710 | the clip of an accepted whole video is bounded and cannot escape its source |
| MediaProbe.ProbeCoversTheClip | docker/mediapipe-holistic/worker.amd64.py:442-447 | the probe interval is, to half a microsecond, one frame period before the clip to one more period than the reorder depth after it |
| MediaProbe.ProbeIsNotEmpty | docker/mediapipe-holistic/worker.amd64.py:431-450 | the probe interval of a bounded clip is never empty on a stream that starts at or after zero |
| ReceiptCheck.SourceIsConfirmed | src/bitsign_motion/amd64_holistic_container.py:1246-1322 | the host reproduces the worker's dimensions, durations and overshoot |
| ReceiptCheck.CandidatesAreConfirmed | src/bitsign_motion/amd64_holistic_container.py:1238-1249 | the host reproduces the worker's candidate limit, probe interval and candidate times |
| ReceiptCheck.SelectionIsConfirmed | src/bitsign_motion/amd64_holistic_container.py:1377-1449 | the host reproduces the worker's frame count, requested times, indices, timestamps and shared digests |
| ReceiptCheck.Extract | docker/mediapipe-holistic/worker.amd64.py:795-828 | the whole extraction: it fails only for a bad source, clip, probe or decoder output, and the host accepts the numbers of every receipt it writes |
| ReceiptCheck.AcceptedReceiptIsTheWorkers | src/bitsign_motion/amd64_holistic_container.py:1377-1449 | an accepted receipt is field by field the one the worker writes for its source, clip and candidates |
| ReceiptMeaning.AcceptedReceiptIsTrue | src/bitsign_motion/amd64_holistic_container.py:1246-1449 | whatever the host accepts is true of the source in plain arithmetic: sides, durations, overshoot, the largest fitting view, the probe interval, candidates inside the clip, and for each frame the middle of its bin and its nearest candidate |
| ReceiptMeaning.CandidatesAreFiltered | docker/mediapipe-holistic/worker.amd64.py:746-753 | the candidates are the probed frames inside the clip, each as often and in the order in which they were probed |
| ReceiptMeaning.ProbeAcceptsExactly | docker/mediapipe-holistic/worker.amd64.py:658-754 | a probe is accepted if and only if the source, the clip or whole-video profile and the candidates meet the limits written out as numbers |
| BundleTree.CheckRecords | community/bundle_verification.py:200-231 | the record loops accept if and only if sizes are bounded, folded paths distinct and no file stands where a directory is needed |
| BundleTree.NoConflicts | community/bundle_verification.py:218-230 | no conflict without regard to case means none with regard to it |
| BundleTree.Walker.Walk | community/bundle_verification.py:239-253 | the recursive walk accepts exactly what is declared, in any listing order, and has seen exactly the files below |
| BundleTree.VerifyTree | community/bundle_verification.py:234-257 | a tree is accepted if and only if it is exactly the manifest's: its files, the directories above them, nothing else |
| BundleTree.AcceptedTreesAgree | community/bundle_verification.py:234-257 | two accepted trees hold the same files and directories |
| BundleTree.PlacingAddsOneFile | community/bundle_verification.py:234-257 | placing a file at a vacant path adds that file and the directories above it |
| BundleTree.AcceptableRecordsHaveATree | community/bundle_verification.py:215-230 | acceptable records always denote a tree |
| BundleTree.NoTreeWithAFileAboveAnother | community/bundle_verification.py:227-230 | records with a file above another file never do |
| BundleMeaning.ListingsAreWhatStands | community/bundle_verification.py:239-253 | the listed files and directories are exactly the nodes that stand in the tree, each at its path, and the tree is sound if and only if each of them is |
| BundleMeaning.ExactMeansDeclared | community/bundle_verification.py:234-257 | a tree is accepted if and only if everything that stands in it is sound and is a declared file with its size and digest or a directory on the way to one, and every declared file stands in it |
| BundleMeaning.AcceptableExactly | community/bundle_verification.py:198-230 | records are accepted if and only if they are 1 to 512 files of at most 4 GiB together and none is at or above another without regard to case |
| RuntimeInventory.CheckRoots | community/native_runtime.py:114-128 | roots are accepted if and only if they are the three labels, different directories, none inside another |
| RuntimeInventory.LinksMatchOneRootAtMost | community/native_runtime.py:146-154 | a link target lies in at most one accepted root, and in one exactly when it lies below some root |
| RuntimeInventory.ListingOrderIsIrrelevant | community/native_runtime.py:158 | the same children listed in another order hold the same records |
| RuntimeInventory.ListedNext | community/native_runtime.py:137-165 | one turn of the stack loop loses and doubles nothing |
| RuntimeInventory.ListOne | community/native_runtime.py:137-167 | one turn refuses exactly unlistable nodes and exceeded ceilings |
| RuntimeInventory.AllRecordsOnce | community/native_runtime.py:131-168 | no place is listed twice over the three roots |
| RuntimeInventory.PosixIsInjective | community/native_runtime.py:144 | different paths have different text forms |
| RuntimeInventory.OrderedIsUnique | community/native_runtime.py:168 | there is one ordered list of given records |
| RuntimeInventory.Inventory | community/native_runtime.py:131-168 | the traversal terminates, succeeds if and only if everything is listable within the ceilings, and lists every node once in (root, path) order |
| InventoryMeaning.RecordsTell | community/native_runtime.py:141-165 | the record of a node gives its mode and kind: a file's digest and size, a directory, or the root and path a link leads to; it can be listed if and only if the node is sound and, for a link, leads into a root |
| InventoryMeaning.BelowIsWhatStands | community/native_runtime.py:157-158 | the records below a directory are exactly those of the nodes that stand below it, each at its path |
| InventoryMeaning.RecordsTellOfNodes | community/native_runtime.py:131-168 | a record is in the inventory if and only if it tells of a node that stands at its path in its root |
| InventoryMeaning.ListableExactly | community/native_runtime.py:159-167 | an inventory can be made if and only if every node of the three trees can be listed, there are at most 40000 records and the sizes in them add up to at most 4 GiB |
| InventoryMeaning.InventoriesCompareNodes | community/native_runtime.py:212-213 | two inventories are equal if and only if at every path of every root both trees hold the same kind of node with the same mode, files with the same digest and size, links to the same path of the same root |
| InventoryMeaning.PrecedesIsLexicographic | community/native_runtime.py:168 | text is ordered by the first character that differs, a front part first |
| InventoryMeaning.PathsAreWrittenWithSlashes | community/native_runtime.py:144 | a path is written with one slash between its names, the root as a dot |
| InventoryMeaning.OrderIsByRootAndPath | community/native_runtime.py:168 | of two records the earlier has the lower root or, in one root, the lower written path |

## Left out

- Floating point: scores, log-probabilities, rational times and dimensions are exact reals; rounding of float32 or float16 sums is not modelled.
- The neural network, torch and numpy: one function from memory row, decoder row, column and token to a log-probability.
- SHA-256 and canonical JSON: a digest is an abstract value or function. Quarantine names are injective in boot identity and source and never equal a configured name; reviewed configurations are determined by their digest.
- Recovery journal: the schema versions, legacy device identities, field validation, the size limit and the temporary file that is renamed over the journal; the journal is one value replaced atomically.
- Recovery disk: owners, modes and link counts are one flag; what lies inside a directory is part of that directory's object; objects are not changed by others while `prepare` runs; the canonical form of scratch parents is not checked. Unsynced operations survive a crash independently of each other.
- Configured paths: it is assumed (`RecoveryChecks.Placed`) that no scratch directory lies below the socket or the capacity file, which the file system guarantees because neither is a directory.
- RecoveryCrash.EveryCrashHistoryIsRecoverable: its histories consist of runs cut off by machine crashes, from a durable journal; `RecoveryHistory.EveryHistoryKeepsTheArtifacts` covers runs that are merely stopped as well, from every disk these lead to.
- Service: configuration parsing and the lock file. `ServiceRuns` covers recovery mode only; without it the service refuses to start where a journal exists.
- Sidecar: the socket server is something that opens after startup and can be closed; deadlines and cancellations are steps that may happen at any time; the `task` field of a request is not validated; a worker is summarised by whether it has a process and is closed; in `ServiceWorkers` it is a slot of `WorkerProcess`, all slots with the same model.
- Worker process: killing a process group with its retries is one step that succeeds or fails; pipes deliver bytes in order; the child's clock is a function of the number of its readings; one `close` call is under way at a time.
- WorkerProcess.ReturnedTextIsTheAnswer: says nothing about the text of a child that is not honest beyond the echoed nonce.
- ReceiptCheck.Extract: states acceptance of the numbers only; the host also refuses rational text of more than 64 characters, a bound the worker puts on what it reads and not on what it computes.
- Frames: the 64-character ceiling on rational text, the equality checks on fixed strings, codecs and digests in the receipt, and the arrays of landmarks; the text of the selection expression is a tree.
- `docker/mediapipe-holistic/worker.py` and `src/bitsign_motion/holistic_container.py`: near-duplicates of the AMD64 pair.
- BundleTree.CheckRecords: does not check the sorted order, the roles and the form of names of records, which do not bear on which tree is accepted.
- Bundle: reading a file in chunks; ownership, permissions and changes during reading are one flag per node.
- Inventory: chunked hashing and the manifest file; ownership, permissions and link counts are one flag per node; directory listings hold proper names, each once.
- Release tools, repository guard, local rebinding, sandbox probes and motion-mapping fits: easy once hashes are abstract, or numerical.
