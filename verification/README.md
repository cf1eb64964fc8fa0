# Coppice Names replay: model and proofs

This project models how Coppice Names turns canonical blocks into name ownership, and proves what a
wallet or resolver relies on. The modules follow the repository's components.

- `Collections`, `Protocol`, `Bytes`: maps, listings, ordered iteration, field-wide numbers, names.
- `Schedule`: epochs, windows, COMMIT age and lease arithmetic on 32-bit heights.
- `Replay`: replay in its simple form. Every step scans all records, and a chain of (block, evidence)
  pairs means the state reached by replaying it. It is the reference everything else is proved against.
- `Journal`: the undo journal, rollback, finalization and emitted deltas over that state, and runs of them.
- `IndexedReducer`: the reducer as a class whose methods update two record maps, four acceleration
  indexes, the tip and the journal in loops. Each method is proved against `Replay` or `Journal`.
- `Admission`: which blocks are applied and why the others are refused, told by block, evidence and tip alone.
- `Lifecycles`, `Runs`, `History`, `Acceptance`: what holds of every reachable state and along every chain.
- `Resolutions`, `Decisions`: what resolution answers and what the reducer reports, told by the chain.
- `Resolver`, `Parity`: exact replay of one name, and its agreement with full replay along chains and over runs.
- `Snapshots`, `SnapshotRoundTrip`: what is stored, every check made on loading, and why reachable
  states pass them.
- `Loading`: exactly which snapshots load, as what, and why the others are refused.
- `Store`, `StoreMirror`, `WalletRuns`: the persistent tables as a class, their agreement with the reducer, and
  wallets that also rewind.
- `StoreRules`, `MirrorRows`: what the tables accept, write and refuse whatever they hold, and what the rows of a
  store that follows a reducer say, field by field.
- `Codec`: the wire encoder, the cursor-driven decoder, and exactly which bytes decode.
- `Layout`, `Refusals`: the wire form byte by byte, and which error is reported for which bytes.
- `Transport`: global positions of Ironwood actions in a block.
- `Examples`: concrete inputs on which natural but false statements fail.

The loops by which the modelled operations change state are loops of methods here, each with its contract. A
method that may fail states its result in both cases, including which error the source reports first.

What the cryptography computes is a set of function fields of `Rules` (the two proof verifiers, the
identifier of a name, the schedule hash, address validity). Nothing is assumed about them; in particular
the identifier is not assumed injective, and heads are keyed by it. The clock, the network and the
operating system do not occur: a block, its evidence and a requested height are arguments.

Some natural statements are false of the code. Each is proved with its exact condition, and with an input that
fails:

- The resolver does not accept every evidence list that full replay accepts. It refuses an item that belongs
  to another name's REVEAL, because that REVEAL is filtered out first: `Resolver.FullEvidenceAdmittedIff`,
  `Examples.ForeignEvidenceRefused`.
- Encoding a decoded operation need not give the same bytes, because decoding strips one `.zec` from the name:
  `Codec.ReencodesIff`, `Codec.SuffixNotReproduced`.
- The store refuses a delta between two tips of equal hash, which the reducer does not:
  `StoreMirror.StoreAcceptsIff`, `Examples.EqualHashesRefused`.
- The two action-position functions differ when an unbalanced transaction follows the one asked for:
  `Transport.CountsAgree`, `Examples.CountsDiffer`.
- A snapshot is restored only on a network on which every retained address is valid:
  `SnapshotRoundTrip.RoundTrip`, `Examples.OtherNetworkRefused`. For runs over one network's blocks,
  `SnapshotRoundTrip.NetworkRunRestores` needs no condition.

Where documentation and code differ, the model follows the code:

- `docs/SPECIFICATION.md` section 7 says compaction proceeds in ascending NameId order; the code visits
  terminal heights first. The two orders coincide on reachable states (`Lifecycles.OneBucketPerBlock`).
- Historical COMMIT evidence is checked for activation, age below the time to live, and being older than
  its block, but not for maturity; a REVEAL that refers to an immature COMMIT is rejected later, alone.
- The Python form in `scripts/verify-semantic-histories.py` computes with unbounded integers; the model has
  the 32-bit overflow results of the Rust code.
- Loading a snapshot does not compare a terminal height with the expiry height.

## Model

| member | source | states |
|---|---|---|
| Journal.PathIndependence | crates/coppice-names/src/reducer.rs:384-563 | After any interleaving of applies, rollbacks and finalizations, accepted or refused, the records, tip and linkage equal a plain full-scan replay of the surviving chain, and the journal is one entry per retained block |
| Journal.StepRefines | crates/coppice-names/src/reducer.rs:384-563 | Each call succeeds, or fails with the same error, exactly as on the machine that only lengthens and shortens a chain |
| Journal.SameChainSameWorld | scripts/verify-semantic-histories.py:143-197 | Two histories that leave the same surviving chain agree on records and tip however they got there |
| Journal.RollbackUndoesApply | crates/coppice-names/src/reducer.rs:493-548 | Rolling back an accepted block restores records, journal, tip and chain linkage exactly |
| Journal.InverseDelta | crates/coppice-names/src/reducer.rs:769-797 | The delta of a rollback is the delta of the block with tips exchanged and previous and current swapped entry by entry |
| Journal.RollbackDelta | crates/coppice-names/src/reducer.rs:493-548 | The delta a rollback emits, in key order, is exactly the block's delta swapped entry by entry |
| Journal.BlockConfined | crates/coppice-names/src/reducer.rs:745-767 | A block changes no head and no COMMIT outside the keys it journals |
| Journal.FinalizedPrefixStays | crates/coppice-names/src/reducer.rs:551-563 | Blocks no longer covered by the journal never leave the surviving chain |
| Journal.FinalizedHeightIsFloor | crates/coppice-names/src/reducer.rs:551-563 | Once a height at or above activation is finalized, no later run takes the tip below it |
| Journal.JournalShape | crates/coppice-names/src/reducer.rs:1415-1442 | Journaled heights are contiguous, linked by hash, and end at the tip |
| Journal.RollbackAcceptedIff | crates/coppice-names/src/reducer.rs:493-548 | After any run a rollback succeeds exactly when a block is retained and the hash is the tip's, and each refusal has its own error |
| Journal.FinalizeAcceptedIff | crates/coppice-names/src/reducer.rs:551-563 | After any run a height is finalized exactly when it is at or below the tip, dropping the entries up to it and no other |
| Admission.BlockAppliedIff | crates/coppice-names/src/reducer.rs:384-445 | A block is applied exactly when it has the next height and the tip's hash as parent, its transaction indexes strictly increase, every action carries its position, and every evidence item belongs to a REVEAL of the block, has a usable age and contradicts neither a pending COMMIT nor another item |
| Admission.FirstBlockIff | crates/coppice-names/src/reducer.rs:338-445 | The first block is applied exactly when it is the one at activation, linked to the activation parent and in order |
| Admission.NextBlockExtends | crates/coppice-names/src/reducer.rs:384-473 | After an applied block the next must be one higher and name its hash |
| Admission.MisfitRefused | crates/coppice-names/src/reducer.rs:384-394 | A block that does not extend the tip is refused for its height, or else for its link |
| Admission.DisorderRefused | crates/coppice-names/src/reducer.rs:395-406 | A block that does is refused for its first transaction out of order: its index before its actions |
| Admission.EvidenceRefused | crates/coppice-names/src/reducer.rs:408-436 | A block in order is refused for its first bad evidence item: its place and age before its value |
| IndexedReducer.Reducer.New | crates/coppice-names/src/reducer.rs:338-360 | Starts at genesis with current indexes, or refuses exactly the invalid parameters |
| IndexedReducer.Reducer.ApplyBlockDetailed | crates/coppice-names/src/reducer.rs:384-473 | The indexed block application reaches the full-scan successor with current indexes and one new journal entry, and reports its decisions, terminations, compactions and delta; on the first structural or evidence error nothing changes |
| IndexedReducer.OutcomeUnique | crates/coppice-names/src/reducer.rs:183-215 | The contract of a block's outcome, with the orders of its compactions, terminations and delta, admits one outcome |
| IndexedReducer.Reducer.CheckOrder | crates/coppice-names/src/reducer.rs:384-445 | Reports the first transaction-index or action-index error met in block order, or none |
| IndexedReducer.Reducer.CheckEvidence | crates/coppice-names/src/reducer.rs:384-445 | Reports the first invalid or conflicting evidence item, or none |
| IndexedReducer.Reducer.ApplyTransactionDetailed | crates/coppice-names/src/reducer.rs:958-1038 | Spent heads are taken before the operation and ended after it unless replaced; records, journal, decision and ordered terminations equal the full scan's |
| IndexedReducer.Reducer.ApplyReveal | crates/coppice-names/src/reducer.rs:1041-1120 | Installs the head or names the first failing clause, as the specification of the effect says |
| IndexedReducer.Reducer.ApplyRefresh | crates/coppice-names/src/reducer.rs:1122-1209 | Replaces the head or names the first failing clause, as the specification of the effect says |
| IndexedReducer.Reducer.SpentNames | crates/coppice-names/src/reducer.rs:965-974 | The nullifier index yields exactly the names a scan of all heads would find spent |
| IndexedReducer.Reducer.TerminateSpent | crates/coppice-names/src/reducer.rs:1020-1037 | Ends exactly the spent heads whose producer is still the one seen before the operation, in name order |
| IndexedReducer.Reducer.ReplaceHead | crates/coppice-names/src/reducer.rs:817-856 | One head changes and all three head indexes follow, leaving no empty bucket |
| IndexedReducer.Reducer.ReplaceCommit | crates/coppice-names/src/reducer.rs:799-815 | One COMMIT changes and its height index follows, leaving no empty bucket |
| IndexedReducer.Reducer.RebuildDerivedIndexes | crates/coppice-names/src/reducer.rs:858-889 | Rebuilding from the records gives the indexes every operation maintains |
| IndexedReducer.Reducer.MarkExpired | crates/coppice-names/src/reducer.rs:907-920 | The range walk over expiry heights marks exactly the heads a full scan would |
| IndexedReducer.Reducer.CompactClaimable | crates/coppice-names/src/reducer.rs:922-945 | The range walk over terminal heights deletes exactly the claimable heads and reports them |
| IndexedReducer.Reducer.PruneCommits | crates/coppice-names/src/reducer.rs:891-905 | The range walk over COMMIT heights deletes exactly the COMMITs past their time to live |
| IndexedReducer.Reducer.RollbackTipDetailed | crates/coppice-names/src/reducer.rs:493-548 | Writes the newest entry back, with indexes, and returns the inverse delta; otherwise the right error and no change |
| IndexedReducer.Reducer.FinalizeThrough | crates/coppice-names/src/reducer.rs:551-563 | Drops exactly the journal entries at or below the height and nothing else |
| IndexedReducer.Reducer.DeltaFromUndo | crates/coppice-names/src/reducer.rs:769-797 | Lists every journaled key once, in key order, with its previous and its current value |
| IndexedReducer.Reducer.ResolveAuthenticated | crates/coppice-names/src/reducer.rs:720-743 | Answers only at the tip, or at the parent of activation before any block |
| IndexedReducer.Reducer.SaveSnapshot | crates/coppice-names/src/reducer.rs:568-593 | Writes records, tip and journal faithfully, every map in key order |
| IndexedReducer.Reducer.LoadSnapshot | crates/coppice-names/src/reducer.rs:595-662 | Restores the stored state with rebuilt indexes, or reports the first failing check |
| Lifecycles.ReachableOk | crates/coppice-names/src/reducer.rs:89-109 | In every reachable state each head has producer height <= terminal <= expiry, is not past its cooldown, and is unended only before its expiry |
| Lifecycles.InstalledHeadSurvives | crates/coppice-names/src/reducer.rs:1020-1037 | A head its own transaction installed is never ended by that transaction's spends |
| Lifecycles.MissingIffNoHead | crates/coppice-names/src/reducer.rs:685-713 | At the tip a name is Missing exactly when no head is retained, and has an address exactly when Active |
| Resolutions.AnsweredIff | crates/coppice-names/src/reducer.rs:720-743 | A height is answered exactly when it is the tip, or the parent of activation before any block; earlier heights are historical, later ones incomplete |
| Resolutions.NothingBeforeActivation | crates/coppice-names/src/reducer.rs:720-743 | Before any block every name resolves to Missing |
| Resolutions.ResolutionTraced | crates/coppice-names/src/reducer.rs:685-743 | At the tip a name is Active with the address and head of its last accepted operation while nothing has ended it, Cooldown with that head and no address until a cooldown has passed, and Missing otherwise |
| Lifecycles.OneBucketPerBlock | crates/coppice-names/src/reducer.rs:922-945 | On reachable states a block marks, compacts and prunes one bucket each, so compactions are in ascending name order |
| Lifecycles.TerminalIsFirstEnd | crates/coppice-names/src/reducer.rs:907-1037 | A retained head's terminal height is the least height, up to the tip, at which its lease ended or a transaction after its producer carried its nullifier, whatever that transaction's operation did |
| Runs.RefreshedOrQuarantined | crates/coppice-names/src/reducer.rs:922-945 | Between two Active tips, either accepted REFRESHes alone lead from one producer to the other, or a whole cooldown of consecutive tips in between returned no address |
| Runs.Quarantine | crates/coppice-names/src/reducer.rs:1060-1062 | An accepted REVEAL after an Active tip is preceded by a whole cooldown of tips without an address |
| Runs.EpochsIncrease | crates/coppice-names/src/reducer.rs:1041-1209 | Accepted REVEALs and REFRESHes of one name have strictly increasing epochs, across compaction and registration anew |
| Runs.HeadOrigin | crates/coppice-names/src/reducer.rs:1041-1209 | Every head comes from an accepted operation of its block or was there when the block began |
| History.HeadTraced | crates/coppice-names/src/reducer.rs:907-945 | At any place of a chain a name holds a head exactly when its last accepted operation described one and less than a cooldown has passed since any expiry or spend ended it |
| History.ActiveHeadTraced | crates/coppice-names/src/reducer.rs:89-109 | The head is Active exactly when nothing has ended it, and is then the very head that operation described |
| History.TraceHead | crates/coppice-names/src/reducer.rs:1041-1209 | Every retained head is, but for its terminal height, the one described by the name's last accepted operation |
| Acceptance.PendingCommitsExact | crates/coppice-names/src/reducer.rs:891-905 | A COMMIT is pending exactly when some block of the chain carried it or its evidence and its time to live is not over |
| Acceptance.RevealAcceptedIff | docs/SPECIFICATION.md:376-396 | A REVEAL is accepted exactly when the unordered list of conditions holds, with the name's freedom traced to its last accepted operation and the COMMIT to the chain or the block's evidence |
| Acceptance.RefreshAcceptedIff | docs/SPECIFICATION.md:398-421 | A REFRESH is accepted exactly when the unordered list of conditions holds for the head of the name's last accepted operation, which it names and which no expiry and no spend has ended |
| Acceptance.OneRevealPerCommit | docs/SPECIFICATION.md:376-396 | No two accepted REVEALs of a name refer to the same COMMIT |
| History.AcceptedInstalls | docs/SPECIFICATION.md:393-421 | An accepted operation leaves its head, with exact producer, epoch and full lease, for the next transaction |
| Decisions.ReportedDecision | crates/coppice-names/src/reducer.rs:447-473 | A block reports one decision per transaction, each taken against the records before that transaction |
| Decisions.AcceptedInOrder | crates/coppice-names/src/reducer.rs:447-473 | The accepted list holds exactly the kinds of the accepted decisions in transaction order |
| Decisions.AcceptedExactly | crates/coppice-names/src/reducer.rs:958-1038 | A transaction is reported accepted as a kind exactly when its operation installs a head of that kind, or is a COMMIT |
| Decisions.RevealClauseExact | crates/coppice-names/src/reducer.rs:1041-1120 | The clause reported for a REVEAL names the first condition it fails, the name's freedom and the COMMIT traced to the chain and the block's evidence |
| Decisions.RefreshClauseExact | crates/coppice-names/src/reducer.rs:1122-1209 | The clause reported for a REFRESH names the first condition it fails against the unended head of the name's last accepted operation, or the current-head clause if there is none |
| Decisions.TerminatedExactly | crates/coppice-names/src/reducer.rs:1020-1037 | A transaction's termination report names, in name order, exactly the heads that were unended before it and are the same but for this end after it |
| Decisions.BlockTerminatedExactly | crates/coppice-names/src/reducer.rs:455-466 | A block's termination report names exactly the heads that one of its transactions ended |
| Decisions.CompactedExactly | crates/coppice-names/src/reducer.rs:922-945 | A block's compaction report names exactly the heads its start removed, with their producers |
| Resolver.ExactResolver.New | crates/coppice-names/src/resolver.rs:44-56 | Starts at genesis, or refuses a name without identifier and invalid parameters |
| Resolver.ExactResolver.ApplyBlockDetailed | crates/coppice-names/src/resolver.rs:90-110 | Applies the block with foreign operations removed and every action kept |
| Resolver.ExactResolver.SaveSnapshot | crates/coppice-names/src/resolver.rs:148-158 | Wraps a faithful reducer snapshot with the name |
| Resolver.ExactResolver.LoadSnapshot | crates/coppice-names/src/resolver.rs:163-196 | Restores only a state exact for the name, or reports the first failing check |
| Resolver.FilterKeepsSeen | crates/coppice-names/src/resolver.rs:66-87 | Filtering yields a view of the block in which every operation is a COMMIT or the name's |
| Parity.FilterKeepsCommits | crates/coppice-names/src/resolver.rs:96-103 | Filtering keeps every transaction and every COMMIT |
| Resolver.BlockParity | crates/coppice-names/src/resolver.rs:66-110 | Given evidence that serves the name's REVEALs, the resolver accepts the filtered block, agrees afterwards and decides every shown operation alike |
| Resolver.ExactParity | docs/SPECIFICATION.md:490-505 | Along whole chains, with COMMITs possibly hidden, the name's head equals full replay's at every tip and pending COMMITs are among the full ones |
| Resolver.ResolutionParity | docs/SPECIFICATION.md:502-505 | Agreeing states resolve every spelling of the name alike, errors included |
| Parity.RunParity | docs/SPECIFICATION.md:502-505 | Over any run of applies, rollbacks and finalizations fed to both, the resolver agrees with full replay on the name after every call and can roll back as many blocks |
| Parity.RunFailsAlike | crates/coppice-names/src/resolver.rs:135-143 | The next call fails for the resolver exactly when it fails for the full reducer, with the same error |
| Parity.FilteredParity | docs/SPECIFICATION.md:490-505 | A chain without evidence, filtered for a name, is accepted, agrees with full replay on the name at its tip and holds exactly the full pending COMMITs |
| Parity.FilteredRunParity | crates/coppice-names/src/resolver.rs:66-143 | The same after every run of events, with equally long journals |
| Parity.FilteredRunFailsAlike | crates/coppice-names/src/resolver.rs:66-143 | And the next event fails for the resolver exactly as for the full reducer |
| Resolver.FullEvidenceAdmittedIff | crates/coppice-names/src/resolver.rs:71-86 | Given the evidence full replay accepted, the resolver accepts exactly when every item belongs to a REVEAL left after filtering |
| SnapshotRoundTrip.RoundTrip | crates/coppice-names/src/reducer.rs:568-670 | Saving and loading any reachable state gives it back exactly when every retained address is valid on the network named at load |
| SnapshotRoundTrip.NetworkRunRestores | crates/coppice-names/src/reducer.rs:1280-1435 | A run over blocks of one network is always restored on that network |
| SnapshotRoundTrip.RunIsExact | crates/coppice-names/src/reducer.rs:664-670 | A run of filtered blocks never retains or journals a head of another name |
| SnapshotRoundTrip.ExactRoundTrip | crates/coppice-names/src/resolver.rs:148-196 | A resolver's own snapshot passes the exactness check and restores its state |
| Snapshots.OrderedSnapshotUnique | crates/coppice-names/src/reducer.rs:568-593 | A state has one snapshot in key order |
| Snapshots.CollectChecked | crates/coppice-names/src/reducer.rs:595-662 | Restores a listing entry by entry, refusing a bad entry or a repeated key |
| Snapshots.RecordIsExact | crates/coppice-names/src/reducer.rs:1243-1256 | A stored head is exactly the record whose fields are the head's, each in its place |
| Snapshots.SnapshotHolds | crates/coppice-names/src/reducer.rs:568-593 | A snapshot lists every pending COMMIT, every head and every journal entry once, field by field, with the tip, the parameters and the range of the journal |
| Loading.HeadLoadsIff | crates/coppice-names/src/reducer.rs:1309-1353 | A stored head loads as a head exactly when the fields agree, the name parses and the address, epoch, expiry and end are in bounds for the tip |
| Loading.LoadsIff | crates/coppice-names/src/reducer.rs:595-662 | Any snapshot loads as a state exactly when it was stored for these parameters, ruleset and format, its tip fits, its heads and COMMITs are the state's field by field and within bounds, its journal is the state's, within bounds and linked up to the tip, and its range is the journal's |
| Loading.LoadRefused | crates/coppice-names/src/reducer.rs:595-662 | Any other is refused for its rules, its format, its state or its journal, in that order |
| Loading.ExactLoadsIff | crates/coppice-names/src/resolver.rs:163-196 | A snapshot of one name loads exactly when it was stored for that name and these rules, its state loads, and no other name is retained or journaled |
| Loading.ExactLoadRefused | crates/coppice-names/src/resolver.rs:163-196 | Any other is refused for the first of these reasons |
| Store.NamesTables.ApplyDelta | crates/coppice-names-sqlite/src/lib.rs:426-519 | Writes head, COMMIT and rollback rows of a delta and the tip, or fails as the first check that fails says |
| Store.NamesTables.RollbackTip | crates/coppice-names-sqlite/src/lib.rs:524-609 | Batch rollback writes the tip's rollback rows back and removes them |
| Store.NamesTables.RollbackTipByRows | crates/coppice-names-sqlite/src/lib.rs:926-1032 | Row-by-row rollback reaches the same tables as the batch one |
| Store.NamesTables.FinalizeThrough | crates/coppice-names-sqlite/src/lib.rs:613-639 | Prunes rows only below the safe minimum and never lowers the finalized height |
| Store.NamesTables.ResetForReplay | crates/coppice-names-sqlite/src/lib.rs:721-740 | Clears the replayable view and keeps wallet COMMITs |
| Store.NamesTables.RecordWalletCommit | crates/coppice-names-sqlite/src/lib.rs:839-885 | Records a wallet COMMIT once and refuses a different reference for it |
| Store.NamesTables.RollbackToHeight | crates/coppice-names-sqlite/src/lib.rs:889-904 | Unwinds tip by tip to the height and drops the core snapshot if anything moved |
| Store.NamesTables.RollbackToHeightOrReset | crates/coppice-names-sqlite/src/lib.rs:907-924 | Rewinds while rows suffice and otherwise resets; wallet COMMITs above the height go in both cases |
| StoreRules.DeltaAcceptedIff | crates/coppice-names-sqlite/src/lib.rs:426-519 | On any tables a delta is accepted exactly when it starts at the tip, leads one block on to another hash, is covered and not yet journaled, and each change has good heads and a previous value equal to the row; it then changes those rows alone and journals their previous values |
| StoreRules.MisfitDelta | crates/coppice-names-sqlite/src/lib.rs:426-452 | A delta that does not continue the tip, is not covered or is already journaled is refused as such |
| StoreRules.HeadChangeRefused | crates/coppice-names-sqlite/src/lib.rs:453-494 | A delta that continues the tip is refused for its first head change that does not fit: a bad head before a row that says otherwise |
| StoreRules.CommitChangeRefused | crates/coppice-names-sqlite/src/lib.rs:496-518 | And otherwise for its first COMMIT change whose previous value is not the row's |
| StoreRules.RollbackAcceptedIff | crates/coppice-names-sqlite/src/lib.rs:524-609 | On any tables a rollback needs the tip's hash, its journal row and good saved heads; it then writes exactly those rows back and returns to the tip before |
| StoreRules.FinalizationAcceptedIff | crates/coppice-names-sqlite/src/lib.rs:613-639 | A height is finalized exactly when the safe minimum lies between it and the tip; rows at or below it go, all else stays, and the finalized height never falls |
| StoreRules.ResetKeepsWallet | crates/coppice-names-sqlite/src/lib.rs:721-740 | A reset leaves the wallet's COMMITs and nothing else |
| MirrorRows.MirroredRows | crates/coppice-names-sqlite/src/lib.rs:115-128 | The rows of a mirroring store are the replayed heads and COMMITs field by field, and each rollback row holds the records from before its block |
| MirrorRows.AppliedRows | crates/coppice-names-sqlite/src/lib.rs:426-519 | After an accepted delta the rows say what replay of the longer chain says, and the new rollback rows what it said before |
| MirrorRows.DeltaSays | crates/coppice-names/src/reducer.rs:769-797 | A block's delta lists once each record the block changed, with its values before and after |
| MirrorRows.FinalizedIsGreatest | crates/coppice-names-sqlite/src/lib.rs:613-639 | Over any run of a reducer and its store, the finalized height is the greatest that both accepted |
| StoreMirror.StoreAcceptsIff | crates/coppice-names-sqlite/src/lib.rs:426-519 | A mirroring store accepts a block's delta, listed in any order, exactly when hashes differ, the names are covered and the addresses are the network's, and then mirrors the longer chain |
| StoreMirror.StoreRollbackMirrors | crates/coppice-names-sqlite/src/lib.rs:524-609 | Rolling a mirror back gives the mirror of the shorter chain, or the missing-journal error |
| StoreMirror.StoreFinalizeMirrors | crates/coppice-names-sqlite/src/lib.rs:613-639 | Finalizing keeps the mirror and exactly the rows above the height |
| StoreMirror.StoreMirrorsReducer | crates/coppice-names-sqlite/src/lib.rs:426-609 | Over any run of a reducer and its store, no delta and no rollback is ever refused, the store mirrors the surviving chain and can roll back at least as far |
| WalletRuns.WalletStaysMirrored | docs/decisions/0005-transactional-state-and-coverage.md:36-44 | With rewinds to any height mixed in at any time, the store still refuses nothing and mirrors the wallet's blocks and reducer |
| WalletRuns.RewindMirrored | crates/coppice-names-sqlite/src/lib.rs:889-924 | A rewind leaves a mirror whose tip, if any, is at or below the height |
| WalletRuns.UnwindMeaning | crates/coppice-names/src/reducer.rs:493-548 | Rolling the reducer back tip by tip reaches the chain up to the height exactly when its journal does |
| StoreMirror.UnwindMirrors | crates/coppice-names-sqlite/src/lib.rs:889-904 | Unwinding to a height gives the mirror at that height, exactly when enough rows are kept |
| StoreMirror.RewindOrReset | crates/coppice-names-sqlite/src/lib.rs:907-924 | A wallet rewind always succeeds, ends at or below the height, holds the replay at its tip or nothing, and keeps exactly the wallet COMMITs up to the height |
| StoreMirror.BlocksThroughExact | crates/coppice-names-sqlite/src/lib.rs:889-904 | The blocks a rewind keeps are exactly those of the chain at or below the height |
| Schedule.Parameters.OperationWindowsDescending | crates/coppice-names/src/schedule.rs:99-127 | The windows returned are nonempty, disjoint and descending and contain exactly the accepted heights of the range; it fails only by overflow of the newest window |
| Schedule.Parameters.Offset | crates/coppice-names/src/schedule.rs:149-160 | A name's window always fits in its epoch |
| Schedule.OffsetIsRemainder | crates/coppice-names/src/schedule.rs:149-160 | The offset is congruent to the schedule hash of the deployment and the name, modulo the number of places a window has in an epoch |
| Schedule.EveryOffsetTaken | crates/coppice-names/src/schedule.rs:149-160 | Every offset at which a window fits in the epoch occurs |
| Schedule.WindowInsideEpoch | crates/coppice-names/src/schedule.rs:67-84 | A window lies inside its own epoch at the name's offset |
| Schedule.AcceptedInSomeWindow | crates/coppice-names/src/schedule.rs:86-97 | An operation is accepted at a height exactly when some window of the name contains it |
| Schedule.AcceptedHeights | crates/coppice-names/src/schedule.rs:67-97 | In unlimited arithmetic, the accepted heights are those of each epoch's window whose end is a 32-bit height |
| Schedule.WindowExists | crates/coppice-names/src/schedule.rs:67-84 | A window is refused exactly when its end is past 32 bits |
| Schedule.EpochSpan | crates/coppice-names/src/schedule.rs:60-65 | The epoch of a height is the one whose span contains it |
| Schedule.CommitNotRevealedInItsWindow | crates/coppice-names/src/schedule.rs:129-135 | A COMMIT included in a window cannot be revealed in that window |
| Schedule.CommitMeetsOneWindow | crates/coppice-names/src/schedule.rs:129-135 | The heights at which one COMMIT is usable meet at most one window of a name |
| Codec.Encode | crates/coppice-names/src/codec.rs:68-124 | Appends the wire form part by part, or reports the first size error |
| Codec.Decode | crates/coppice-names/src/codec.rs:126-187 | The cursor-driven decoder reads what the specification of the wire form reads, with the same first error |
| Codec.RoundTrip | crates/coppice-names/src/codec.rs:68-187 | Decoding an encoding gives the operation back |
| Codec.DecodesExactly | crates/coppice-names/src/codec.rs:126-258 | The bytes that decode to an operation are exactly its wire form and, for REVEAL and REFRESH, the one with an extra `.zec` |
| Codec.PrefixFree | crates/coppice-names/src/codec.rs:126-187 | No byte string that decodes is a proper prefix of another |
| Codec.ReencodesIff | crates/coppice-names/src/codec.rs:239-244 | Re-encoding gives the same bytes exactly when they fit the payload bound and the name was written bare |
| Codec.SuffixNotReproduced | crates/coppice-names/src/codec.rs:239-244 | Every suffixed form decodes and is not reproduced |
| Layout.EncodedLayout | crates/coppice-names/src/codec.rs:68-124 | An encoding holds tag, name, reference (height, index, identifier, most significant byte first), address, action, nullifier (least significant byte first) and proof at fixed offsets, and ends there |
| Layout.EncodedIff | crates/coppice-names/src/codec.rs:68-124 | An operation has an encoding exactly when its proof has the deployment's length and its size fits, with the first error otherwise |
| Layout.DecodedLayoutIff | crates/coppice-names/src/codec.rs:126-258 | Bytes decode to an operation exactly when they have its layout, with the name bare or suffixed, an address of the network and a proof of the deployment's length |
| Layout.DecodedName | crates/coppice-names/src/codec.rs:239-244 | The length byte after the tag delimits the written name, on which every later offset depends |
| Layout.LayoutDetermines | crates/coppice-names/src/codec.rs:68-258 | The layout leaves no byte open |
| Refusals.DecodedIff | crates/coppice-names/src/codec.rs:126-258 | Bytes decode exactly when, read by offset, they have no fault; otherwise the first fault is reported, each kind with its own error |
| Refusals.PrefixRefused | crates/coppice-names/src/codec.rs:126-258 | Every proper prefix of decodable bytes is refused: for its proof length if only proof bytes are missing, as truncated otherwise |
| Refusals.ExtensionRefused | crates/coppice-names/src/codec.rs:126-187 | Bytes after an operation are refused as trailing |
| Protocol.NameSpellings | crates/coppice-names/src/protocol.rs:58-73 | A name is read from its bare spelling and its `.zec` spelling and from nothing else |
| Transport.ActionPosition | crates/coppice-names/src/transport.rs:130-157 | The forward count gives the action's place, with errors only for flaws reached before it |
| Transport.AuthenticatedActionPosition | crates/coppice-names/src/transport.rs:71-113 | The count back from the size after the block gives the action's place, with errors for flaws anywhere |
| Transport.PositionIff | crates/coppice-names/src/transport.rs:130-157 | The forward count answers exactly with the start, the actions before the first transaction of that index, and the action's place in it, when all up to it are balanced and no bound is passed |
| Transport.EffectsIff | crates/coppice-names/src/transport.rs:130-157 | It reports bad effects exactly for an unbalanced transaction reached before the one asked for |
| Transport.AuthenticatedIff | crates/coppice-names/src/transport.rs:71-113 | The count back reports bad effects exactly for an unbalanced transaction anywhere, and on a balanced block counts forward from the size before it |
| Transport.CountsAgree | crates/coppice-names/src/transport.rs:71-157 | The two counts agree exactly when no transaction is unbalanced or the first such comes no later than the one asked for |
| Examples.ForeignEvidenceRefused | crates/coppice-names/src/resolver.rs:71-86 | A block with evidence of a foreign REVEAL that full replay admits and the resolver refuses |
| Examples.EqualHashesRefused | crates/coppice-names-sqlite/src/lib.rs:431-435 | An accepted block with its parent's hash whose delta the store refuses |
| Examples.CountsDiffer | crates/coppice-names/src/transport.rs:71-157 | A block on which the two position counts differ |
| Examples.OtherNetworkRefused | crates/coppice-names/src/reducer.rs:1309-1353 | A run whose snapshots load on one network and not on another |
| Transport.AnswersAreTheBlock | crates/coppice-names/src/transport.rs:130-157 | In a well-formed block the actions map one-to-one onto the positions the block added to the tree |

## Left out

- Cryptography: BLAKE2b, Poseidon, Pallas, Orchard and Halo2 are function fields of `Rules` about which nothing is assumed.
- Serialized bytes of snapshots: JSON encoding and decoding are taken as the identity on stored records, so the `Encoding` error does not occur.
- The SQL engine: tables are maps, a block's rollback rows live in its journal row, and transactions, savepoints, schema setup, identity checks and native indexes are not modelled.
- Store.NamesTables.ApplyDelta: on an error the tables are left unspecified, because the enclosing database transaction discards the partial writes; the same holds for both rollbacks and the rewinds.
- The wallet's own `apply_delta` (`crates/coppice-names-sqlite/src/lib.rs:742-836`): the same checks and writes as the modelled one, on the wallet's connection.
- Codec.Encode: the carrier's payload bound is a parameter, because the constant belongs to the Coppice Core crate, which is not part of this model.
- Codec.Decode: the UTF-8 check on names and addresses is merged with the check of their contents, which reports the same error.
- CPCF and CAPP routing, rendezvous derivation and full-transaction authentication: they depend on Coppice Core, which is not part of this model.
- Construction of PCZTs, transactions, bonds and replacements: it builds what a wallet sends; replay reads only what was included in a block, so no modelled result depends on it.
- Deployment and ruleset identity, checkpoint envelope and publication framing: they hash and concatenate fixed-width fields into identifiers that replay only compares; the deployment identifier and the ruleset fingerprint are constants of `Rules`.
- Unified Address validity: a predicate on bytes and network.
- Wallet recovery, acquisition and the command-line tools: they call what is modelled here and add input and output.
