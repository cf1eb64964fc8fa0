/**
 Small concrete inputs on which the exact conditions proved elsewhere fail: foreign evidence, a block with
 its parent's hash, an unbalanced transaction, and an address of one network only.
 */
module Examples {
  import opened Collections
  import opened Protocol
  import opened Schedule
  import opened Replay
  import opened Journal
  import opened Lifecycles
  import opened Resolver
  import opened Snapshots
  import opened SnapshotRoundTrip
  import opened Store
  import opened StoreMirror
  import Transport

  const PARAMETERS := Parameters(0, 1, 3, 1, 1, 2, 4, 3)

  /** A name's identifier is its length, every proof is good, and addresses belong to the main network. */
  const RULES := Rules(
    PARAMETERS, 0, (deployment: Bytes32, nameId: NameId) => 1, (name: Name) => Some(|name| as NameId),
    (network: Network, ua: Ua) => network.Main?,
    (statement: RevealStatement, proof: Proof) => true, (statement: RefreshStatement, proof: Proof) => true)

  const A: Name := [97]
  const AA: Name := [97, 97]
  const ADDRESS: Ua := [117]
  const COMMITMENT: Commitment := 5

  /** A COMMIT at height 1 and, at height 2, a REVEAL that refers to it. */
  const COMMIT_TX := Transaction(0, 0, [], Some(Operation.Commit(COMMITMENT)))

  function RevealTx(name: Name): Transaction {
    Transaction(0, 0, [Action(0, 6, 7)], Some(Reveal(name, CommitRef(1, 0, 0), ADDRESS, 0, 8, [])))
  }

  const EMPTY_LINK := Link(Block(1, 11, 10, []), [])
  const COMMIT_LINK := Link(Block(1, 11, 10, [COMMIT_TX]), [])

  function RevealLink(name: Name, evidence: seq<ReferencedCommit>): Link {
    Link(Block(2, 12, 11, [RevealTx(name)]), evidence)
  }

  const EVIDENCE := [ReferencedCommit(CommitRef(1, 0, 0), COMMITMENT)]

  lemma Settings()
    ensures PARAMETERS.Validated() && RULES.parameters == PARAMETERS
    ensures PARAMETERS.AcceptsOperation(RULES.scheduleHash, 1, 2)
  {
    assert PARAMETERS.Epoch(2) == Ok(0);
    assert PARAMETERS.Offset(RULES.scheduleHash, 1) == 1;
    assert PARAMETERS.NameWindow(RULES.scheduleHash, 1, 0) == Ok(Window(2, 3));
  }

  lemma OneTx(tx: Transaction)
    requires CanonicalActions(tx.actions)
    ensures IndexError([tx]).None?
    ensures forall rec: Records :: RecordsAfter(RULES, rec, 1, [tx]) == TxRecords(RULES, rec, 1, tx)
    ensures forall rec: Records :: RecordsAfter(RULES, rec, 2, [tx]) == TxRecords(RULES, rec, 2, tx)
  {
    assert [tx][..0] == [];
  }

  lemma OneMore(chain: seq<Link>, link: Link)
    requires ValidChain(RULES, 10, chain) && CheckLink(RULES, ReplayChain(RULES, 10, chain), link).None?
    ensures ValidChain(RULES, 10, chain + [link])
    ensures ReplayChain(RULES, 10, chain + [link]) == Advance(RULES, ReplayChain(RULES, 10, chain), link)
  {
    hide CheckLink, Advance;
    assert (chain + [link])[..|chain|] == chain;
  }

  lemma AfterEmpty()
    ensures ValidChain(RULES, 10, [EMPTY_LINK])
    ensures ReplayChain(RULES, 10, [EMPTY_LINK]) == World(Some(2), Some(1), 11, Records(map[], map[]))
  {
    OneMore([], EMPTY_LINK);
    assert [] + [EMPTY_LINK] == [EMPTY_LINK];
    assert StartRecords(RULES, Records(map[], map[]), EMPTY_LINK) == Records(map[], map[]);
  }

  lemma CommitRecords()
    ensures BlockRecords(RULES, Records(map[], map[]), COMMIT_LINK)
            == Records(map[CommitRef(1, 0, 0) := COMMITMENT], map[])
  {
    var none := Records(map[], map[]);
    OneTx(COMMIT_TX);
    assert StartRecords(RULES, none, COMMIT_LINK) == none;
    CommitsAfterTx(RULES, none, 1, COMMIT_TX);
    assert OperationEffect(RULES, none, 1, COMMIT_TX) == PutCommit(CommitRef(1, 0, 0), COMMITMENT);
    assert SpendPass(map[], map[], COMMIT_TX, 1) == map[];
  }

  lemma AfterCommit()
    ensures ValidChain(RULES, 10, [COMMIT_LINK])
    ensures ReplayChain(RULES, 10, [COMMIT_LINK])
            == World(Some(2), Some(1), 11, Records(map[CommitRef(1, 0, 0) := COMMITMENT], map[]))
  {
    hide BlockRecords, IndexError, EvidenceError;
    OneTx(COMMIT_TX);
    assert EvidenceError(PARAMETERS, map[], COMMIT_LINK.block, []).None? by {
      NoEvidence(COMMIT_LINK.block);
    }
    OneMore([], COMMIT_LINK);
    CommitRecords();
    assert [] + [COMMIT_LINK] == [COMMIT_LINK];
  }

  lemma NoEvidence(block: Block)
    ensures forall commits :: EvidenceError(PARAMETERS, commits, block, []).None?
  {
  }

  lemma EvidenceAdmitted()
    ensures EvidenceError(PARAMETERS, map[], RevealLink(AA, EVIDENCE).block, EVIDENCE).None?
  {
    var block := RevealLink(AA, EVIDENCE).block;
    assert block.transactions[0].operation.value.commit == CommitRef(1, 0, 0);
    assert CommitRef(1, 0, 0) in RevealReferences(block.transactions);
    assert EVIDENCE[..0] == [];
  }

  /**
   Full replay accepts the evidence of a REVEAL of "aa"; handed the same, the resolver of "a" refuses the block.
   */
  lemma ForeignEvidenceRefused()
    ensures ValidChain(RULES, 10, [EMPTY_LINK]) && ViewOf(RULES, 10, 1, [EMPTY_LINK], [EMPTY_LINK])
    ensures CheckLink(RULES, ReplayChain(RULES, 10, [EMPTY_LINK]), RevealLink(AA, EVIDENCE)).None?
    ensures CheckLink(RULES, ReplayChain(RULES, 10, [EMPTY_LINK]),
                      Link(FilterBlock(RULES, 1, RevealLink(AA, EVIDENCE).block), EVIDENCE))
            == Some(InvalidReferencedCommit)
  {
    var link := RevealLink(AA, EVIDENCE);
    var w := ReplayChain(RULES, 10, [EMPTY_LINK]);
    AfterEmpty();
    OneTx(RevealTx(AA));
    EvidenceAdmitted();
    EmptyView();
    FullEvidenceAdmittedIff(RULES, 1, w, w, link);
    var seen := FilterBlock(RULES, 1, link.block);
    assert seen.transactions[0].operation.None?;
    assert EVIDENCE[0].reference !in RevealReferences(seen.transactions);
  }

  lemma EmptyView()
    ensures ViewOf(RULES, 10, 1, [EMPTY_LINK], [EMPTY_LINK])
  {
    hide ReplayChain, StartRecords, Serves;
    assert [EMPTY_LINK][..0] == [];
    assert ViewOf(RULES, 10, 1, [], []);
    NothingToServe(StartRecords(RULES, ReplayChain(RULES, 10, []).records, EMPTY_LINK).commits,
                   ReplayChain(RULES, 10, []).records.commits);
  }

  lemma NothingToServe(known: map<CommitRef, Commitment>, held: map<CommitRef, Commitment>)
    ensures Serves(known, held, PARAMETERS, EMPTY_LINK.block, [])
  {
  }

  const SAME_HASH_LINK := Link(Block(2, 11, 11, []), [])
  const SAME_HASH_DELTA := StateDelta(Some(Tip(1, 11)), Some(Tip(2, 11)), [], [])
  const EMPTY_ROWS := JournalRow(11, None, map[], map[])
  const ONE_BLOCK_TABLES := Tables(map[], map[], map[], map[1 := EMPTY_ROWS], Some(Tip(1, 11)), None, None)

  lemma EmptyBlockMirrored()
    ensures Mirrors(RULES, 10, [EMPTY_LINK], 1, ONE_BLOCK_TABLES)
  {
    AfterEmpty();
    assert [EMPTY_LINK][..0] == [];
    assert RowAt(RULES, 10, [EMPTY_LINK], 0) == EMPTY_ROWS by {
      var none := Records(map[], map[]);
      NothingJournaledBy(EMPTY_LINK);
      assert UndoFor(RULES, Genesis(RULES, 10), EMPTY_LINK).heads == map[];
      assert UndoFor(RULES, Genesis(RULES, 10), EMPTY_LINK).commits == map[];
    }
  }

  lemma NothingJournaledBy(link: Link)
    requires link.block.transactions == [] && link.evidence == []
    ensures BlockHeads(RULES, Records(map[], map[]), link) == {}
    ensures BlockCommits(RULES, Records(map[], map[]), link) == {}
    ensures BlockRecords(RULES, Records(map[], map[]), link) == Records(map[], map[])
  {
    assert StartRecords(RULES, Records(map[], map[]), link) == Records(map[], map[]);
  }

  /** The reducer accepts an empty block with its parent's hash; the store refuses its delta. */
  lemma EqualHashesRefused(identity: StoreIdentity)
    ensures
      var w := ReplayChain(RULES, 10, [EMPTY_LINK]);
      && ValidChain(RULES, 10, [EMPTY_LINK]) && CheckLink(RULES, w, SAME_HASH_LINK).None?
      && Mirrors(RULES, 10, [EMPTY_LINK], 1, ONE_BLOCK_TABLES)
      && DeltaOf(RULES, w, SAME_HASH_LINK, SAME_HASH_DELTA)
      && StoreApply(RULES, identity, ONE_BLOCK_TABLES, SAME_HASH_DELTA) == Err(NonSequentialDelta)
  {
    hide Mirrors, BlockHeads, BlockCommits, BlockRecords, ReplayChain, ValidChain;
    AfterEmpty();
    EmptyBlockMirrored();
    NothingJournaledBy(SAME_HASH_LINK);
    assert StoreApply(RULES, identity, ONE_BLOCK_TABLES, SAME_HASH_DELTA) == Err(NonSequentialDelta);
    assert Changes<NameId, Head>(map[], map[], {}) == map[];
    assert Changes<CommitRef, Commitment>(map[], map[], {}) == map[];
  }

  const BALANCED := Transport.CoreTransaction(0, [1], [2])
  const UNBALANCED := Transport.CoreTransaction(1, [], [3])

  lemma Counts()
    ensures Transport.Match([BALANCED, UNBALANCED], 0) == 0 && Transport.Flaw([BALANCED, UNBALANCED]) == 1
    ensures Transport.Total([]) == 0 && Transport.Total([BALANCED]) == 1
    ensures Transport.Total([BALANCED, UNBALANCED]) == 2
  {
    var txs := [BALANCED, UNBALANCED];
    assert txs[0].txIndex == 0 && txs[0].Balanced() && !txs[1].Balanced();
    assert txs[..1] == [BALANCED] && [BALANCED][..0] == [];
  }

  /** The forward count never reads the unbalanced second transaction; the count back refuses the block for it. */
  lemma CountsDiffer()
    ensures Transport.Position([BALANCED, UNBALANCED], 0, 0, 0) == Ok(0)
    ensures Transport.AuthenticatedPosition([BALANCED, UNBALANCED], 2, 0, 0) == Err(Transport.InvalidActionEffects)
  {
    hide Transport.Match, Transport.Flaw, Transport.Total;
    var txs := [BALANCED, UNBALANCED];
    Counts();
    assert txs[..0] == [] && txs[..1] == [BALANCED];
  }

  lemma RevealRecords()
    ensures
      var rec := Records(map[CommitRef(1, 0, 0) := COMMITMENT], map[]);
      var after := BlockRecords(RULES, rec, RevealLink(A, []));
      1 in after.heads && after.heads[1].ua == ADDRESS
  {
    var rec, tx := Records(map[CommitRef(1, 0, 0) := COMMITMENT], map[]), RevealTx(A);
    OneTx(tx);
    Settings();
    assert StartRecords(RULES, rec, RevealLink(A, [])) == rec;
    var effect := OperationEffect(RULES, rec, 2, tx);
    assert effect.PutHead? && effect.nameId == 1 && effect.head.ua == ADDRESS;
    InstalledHeadSurvives(RULES, rec, 2, tx);
  }

  /** The REVEAL of "a" that follows its COMMIT is accepted. */
  lemma AfterReveal()
    ensures
      var chain := [COMMIT_LINK, RevealLink(A, [])];
      && ValidChain(RULES, 10, chain) && 1 in ReplayChain(RULES, 10, chain).records.heads
      && ReplayChain(RULES, 10, chain).records.heads[1].ua == ADDRESS
  {
    hide BlockRecords, IndexError, EvidenceError, ReplayChain, ValidChain;
    var link := RevealLink(A, []);
    AfterCommit();
    OneTx(RevealTx(A));
    NoEvidence(link.block);
    OneMore([COMMIT_LINK], link);
    RevealRecords();
    assert [COMMIT_LINK] + [link] == [COMMIT_LINK, link];
  }

  /** After a REVEAL with a main-network address, snapshots load on the main network and not on the test network. */
  lemma OtherNetworkRefused(stored: StoredReducer)
    requires IsSnapshot(RULES, CoreRun(RULES, 10, [ApplyEvent(COMMIT_LINK), ApplyEvent(RevealLink(A, []))]), stored)
    ensures LoadCore(RULES, Main, stored).Ok? && LoadCore(RULES, Test, stored).Err?
  {
    hide LoadCore, IsSnapshot, ReplayChain, ValidChain, CheckLink, JournalOf;
    var first, both := [ApplyEvent(COMMIT_LINK)], [ApplyEvent(COMMIT_LINK), ApplyEvent(RevealLink(A, []))];
    RoundTrip(RULES, 10, both, Main, stored);
    RoundTrip(RULES, 10, both, Test, stored);
    PathIndependence(RULES, 10, both);
    RunChain();
    AfterReveal();
  }

  lemma RunChain()
    ensures BranchRun(RULES, 10, [ApplyEvent(COMMIT_LINK), ApplyEvent(RevealLink(A, []))]).chain
            == [COMMIT_LINK, RevealLink(A, [])]
  {
    var link := RevealLink(A, []);
    var both := [ApplyEvent(COMMIT_LINK), ApplyEvent(link)];
    AfterCommit();
    AfterReveal();
    assert both[..1] == [ApplyEvent(COMMIT_LINK)] && both[..1][..0] == [];
    assert [COMMIT_LINK, link][..1] == [COMMIT_LINK] && [COMMIT_LINK][..0] == [];
    assert CheckLink(RULES, ReplayChain(RULES, 10, []), COMMIT_LINK).None?;
    assert BranchRun(RULES, 10, both[..1]).chain == [] + [COMMIT_LINK];
    assert [COMMIT_LINK] + [link] == [COMMIT_LINK, link];
  }
}
