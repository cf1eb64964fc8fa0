/**
 Which operations replay accepts, told by the history of the chain: the order of the reducer's checks
 disappears, and a COMMIT counts because it was published or authenticated, not because a map holds it.
 */
module Acceptance {
  import opened Collections
  import opened Protocol
  import opened Schedule
  import opened Replay
  import opened Journal
  import opened Lifecycles
  import opened Runs
  import opened History

  // ---- pending COMMITs ----

  /** One of these transactions of a block at this height is the COMMIT. */
  ghost predicate Publishes(height: u32, txs: seq<Transaction>, r: CommitRef, c: Commitment) {
    exists j :: 0 <= j < |txs| && txs[j].operation == Some(Operation.Commit(c))
                && r == CommitRef(height, txs[j].txIndex, txs[j].txid)
  }

  ghost predicate Supplies(evidence: seq<ReferencedCommit>, r: CommitRef, c: Commitment) {
    exists i :: 0 <= i < |evidence| && evidence[i] == ReferencedCommit(r, c)
  }

  /** Some block of the chain carried the COMMIT or was applied with evidence of it. */
  ghost predicate Published(chain: seq<Link>, r: CommitRef, c: Commitment) {
    exists i :: 0 <= i < |chain| && PublishedBy(chain[i], r, c)
  }

  ghost predicate PublishedBy(link: Link, r: CommitRef, c: Commitment) {
    Publishes(link.block.height, link.block.transactions, r, c) || Supplies(link.evidence, r, c)
  }

  lemma {:induction false} EvidenceExact(p: Parameters, commits: map<CommitRef, Commitment>, block: Block,
                                         evidence: seq<ReferencedCommit>, r: CommitRef, c: Commitment)
    requires EvidenceError(p, commits, block, evidence).None?
    ensures Lookup(EvidenceMap(evidence), r) == Some(c) <==> Supplies(evidence, r, c)
  {
    if evidence != [] {
      var front, last := evidence[..|evidence| - 1], evidence[|evidence| - 1];
      EvidenceExact(p, commits, block, front, r, c);
      if Supplies(front, r, c) {
        var i :| 0 <= i < |front| && front[i] == ReferencedCommit(r, c);
        assert evidence[i] == front[i];
      }
      if Supplies(evidence, r, c) && last != ReferencedCommit(r, c) {
        var i :| 0 <= i < |evidence| && evidence[i] == ReferencedCommit(r, c);
        assert front[i] == evidence[i];
      }
    }
  }

  lemma StartCommits(rules: Rules, w: World, link: Link, r: CommitRef, c: Commitment)
    requires CheckLink(rules, w, link).None?
    ensures Lookup(StartRecords(rules, w.records, link).commits, r) == Some(c)
            <==> link.block.height < r.height + rules.parameters.commitTtlBlocks
                 && (Lookup(w.records.commits, r) == Some(c) || Supplies(link.evidence, r, c))
  {
    EvidenceExact(rules.parameters, w.records.commits, link.block, link.evidence, r, c);
    EvidenceOk(rules.parameters, w.records.commits, link.block, link.evidence);
  }

  lemma PublishesMore(height: u32, txs: seq<Transaction>, r: CommitRef, c: Commitment)
    requires txs != []
    ensures Publishes(height, txs, r, c)
            <==> Publishes(height, txs[..|txs| - 1], r, c)
                 || (txs[|txs| - 1].operation == Some(Operation.Commit(c))
                     && r == CommitRef(height, txs[|txs| - 1].txIndex, txs[|txs| - 1].txid))
  {
    var front := txs[..|txs| - 1];
    if Publishes(height, front, r, c) {
      var j :| 0 <= j < |front| && front[j].operation == Some(Operation.Commit(c))
               && r == CommitRef(height, front[j].txIndex, front[j].txid);
      assert txs[j] == front[j];
    }
    if Publishes(height, txs, r, c) {
      var j :| 0 <= j < |txs| && txs[j].operation == Some(Operation.Commit(c))
               && r == CommitRef(height, txs[j].txIndex, txs[j].txid);
      assert j < |front| ==> front[j] == txs[j];
    }
  }

  lemma {:induction false} TxsCommits(rules: Rules, rec: Records, height: u32, txs: seq<Transaction>,
                                      r: CommitRef, c: Commitment)
    requires rules.parameters.epochBlocks > 0
    requires IndexError(txs).None? && CommitsBefore(rec.commits, height, 0)
    ensures CommitsBefore(RecordsAfter(rules, rec, height, txs).commits, height, NextPosition(txs))
    ensures Lookup(RecordsAfter(rules, rec, height, txs).commits, r) == Some(c)
            <==> Lookup(rec.commits, r) == Some(c) || Publishes(height, txs, r, c)
  {
    if txs != [] {
      hide TxRecords, Publishes;
      var front, last := txs[..|txs| - 1], txs[|txs| - 1];
      TxsCommits(rules, rec, height, front, r, c);
      CommitsAfterTx(rules, RecordsAfter(rules, rec, height, front), height, last);
      PublishesMore(height, txs, r, c);
      assert NextPosition(front) <= last.txIndex;
    } else {
      assert !Publishes(height, txs, r, c);
    }
  }

  lemma PublishedMore(chain: seq<Link>, k: nat, r: CommitRef, c: Commitment)
    requires k < |chain|
    ensures Published(chain[..k + 1], r, c) <==> Published(chain[..k], r, c) || PublishedBy(chain[k], r, c)
  {
    hide PublishedBy;
    if Published(chain[..k], r, c) {
      var i :| 0 <= i < k && PublishedBy(chain[..k][i], r, c);
      assert PublishedBy(chain[..k + 1][i], r, c);
    }
    if PublishedBy(chain[k], r, c) {
      assert PublishedBy(chain[..k + 1][k], r, c);
    }
    if Published(chain[..k + 1], r, c) {
      var i :| 0 <= i < k + 1 && PublishedBy(chain[..k + 1][i], r, c);
      assert i < k ==> PublishedBy(chain[..k][i], r, c);
    }
  }

  /** The COMMITs a transaction may refer to, by the blocks before its own and what came earlier in it. */
  lemma CommitsAt(rules: Rules, parent: Bytes32, chain: seq<Link>, k: nat, j: nat, r: CommitRef, c: Commitment)
    requires rules.parameters.Validated() && ValidChain(rules, parent, chain)
    requires k < |chain| && j <= |chain[k].block.transactions|
    ensures Lookup(RecordsBefore(rules, parent, chain, k, j).commits, r) == Some(c)
            <==> && chain[k].block.height < r.height + rules.parameters.commitTtlBlocks
                 && (|| Published(chain[..k], r, c) || Supplies(chain[k].evidence, r, c)
                     || Publishes(chain[k].block.height, chain[k].block.transactions[..j], r, c))
    decreases k, 1
  {
    hide StartRecords, RecordsOk, Publishes, Supplies, PublishedBy, CheckLink, RecordsAfter;
    var w, height := ReplayChain(rules, parent, chain[..k]), chain[k].block.height;
    var start := StartRecords(rules, w.records, chain[k]);
    ChainHeights(rules, parent, chain);
    PrefixValid(rules, parent, chain, k);
    BeforeOk(rules, parent, chain, k, j);
    ChainOk(rules, parent, chain[..k]);
    StartCommits(rules, w, chain[k], r, c);
    StartedBefore(rules, w, chain[k]);
    TxsCommits(rules, start, height, chain[k].block.transactions[..j], r, c);
    if k > 0 {
      PendingCommitsExact(rules, parent, chain[..k], r, c);
    }
    PublishedNow(height, chain[k].block.transactions[..j], r, c);
  }

  lemma PublishedNow(height: u32, txs: seq<Transaction>, r: CommitRef, c: Commitment)
    ensures Publishes(height, txs, r, c) ==> r.height == height
  {
  }

  /** No COMMIT known at the start of a block is from the block itself. */
  lemma StartedBefore(rules: Rules, w: World, link: Link)
    requires rules.parameters.Validated() && WorldOk(rules, w) && CheckLink(rules, w, link).None?
    ensures CommitsBefore(StartRecords(rules, w.records, link).commits, link.block.height, 0)
  {
    EvidenceOk(rules.parameters, w.records.commits, link.block, link.evidence);
  }

  /** A COMMIT is pending exactly when the chain has shown it and its time to live is not over. */
  lemma PendingCommitsExact(rules: Rules, parent: Bytes32, chain: seq<Link>, r: CommitRef, c: Commitment)
    requires rules.parameters.Validated() && ValidChain(rules, parent, chain) && chain != []
    ensures Lookup(ReplayChain(rules, parent, chain).records.commits, r) == Some(c)
            <==> Published(chain, r, c) && chain[|chain| - 1].block.height < r.height + rules.parameters.commitTtlBlocks
    decreases |chain|, 0
  {
    hide Publishes, Supplies, ReplayChain, RecordsBefore;
    var k := |chain| - 1;
    var txs := chain[k].block.transactions;
    assert chain[..k + 1] == chain && txs[..|txs|] == txs;
    CommitsAt(rules, parent, chain, k, |txs|, r, c);
    PublishedMore(chain, k, r, c);
    NextHead(rules, parent, chain, k, rules.parameters.deploymentId);
  }

  // ---- accepted operations ----

  function RevealFacts(p: Parameters, nameId: NameId, height: u32, tx: Transaction, op: Operation, c: Commitment)
    : RevealStatement
    requires p.epochBlocks > 0 && op.Reveal? && op.actionIndex < |tx.actions| && p.activationHeight <= height
  {
    var action := tx.actions[op.actionIndex];
    RevealStatement(p.deploymentId, nameId, p.Epoch(height).value, c, op.commit, op.ua, op.actionIndex,
                    action.nullifier, action.commitment, op.successorFutureNf)
  }

  function RefreshFacts(p: Parameters, nameId: NameId, height: u32, tx: Transaction, op: Operation, current: Head)
    : RefreshStatement
    requires p.epochBlocks > 0 && op.Refresh? && op.actionIndex < |tx.actions| && p.activationHeight <= height
  {
    var action := tx.actions[op.actionIndex];
    RefreshStatement(p.deploymentId, nameId, op.predecessor, current.commitment, current.futureNf,
                     current.producerEpoch, p.Epoch(height).value, op.ua, op.actionIndex,
                     action.nullifier, action.commitment, op.successorFutureNf)
  }

  /** What a REVEAL of the name must meet, apart from its name being free, its COMMIT known and its proof good. */
  predicate RevealRules(rules: Rules, height: u32, tx: Transaction, id: NameId)
    requires rules.parameters.Validated()
  {
    var p := rules.parameters;
    && tx.operation.Some? && tx.operation.value.Reveal?
    && var op := tx.operation.value;
       && rules.nameId(op.name) == Some(id)
       && p.AcceptsOperation(rules.scheduleHash, id, height)
       && p.activationHeight <= op.commit.height
       && op.commit.height + p.commitMaturityBlocks <= height < op.commit.height + p.commitTtlBlocks
       && InstalledHead(p, height, tx, op).Some?
  }

  /** What a REFRESH of the name must meet, given the head it would succeed. */
  predicate RefreshRules(rules: Rules, current: Head, height: u32, tx: Transaction, id: NameId)
    requires rules.parameters.Validated()
  {
    var p := rules.parameters;
    && tx.operation.Some? && tx.operation.value.Refresh?
    && var op := tx.operation.value;
       && rules.nameId(op.name) == Some(id) && current.producer == op.predecessor
       && p.AcceptsOperation(rules.scheduleHash, id, height)
       && InstalledHead(p, height, tx, op).Some?
       && current.producerEpoch < p.Epoch(height).value
       && tx.actions[op.actionIndex].nullifier == current.futureNf
       && rules.verifyRefresh(RefreshFacts(p, id, height, tx, op, current), op.proof)
  }

  /** Actions of an accepted block are numbered from zero, so an index in range names its action. */
  lemma {:induction false} ActionsCanonical(txs: seq<Transaction>, j: nat)
    requires IndexError(txs).None? && j < |txs|
    ensures CanonicalActions(txs[j].actions)
  {
    if j < |txs| - 1 {
      ActionsCanonical(txs[..|txs| - 1], j);
    }
  }

  lemma RevealDecided(rules: Rules, rec: Records, height: u32, tx: Transaction, id: NameId)
    requires rules.parameters.Validated() && rules.parameters.activationHeight <= height && CanonicalActions(tx.actions)
    ensures
      var effect := OperationEffect(rules, rec, height, tx);
      effect.PutHead? && effect.nameId == id && effect.kind.AcceptedReveal?
      <==> id !in rec.heads && RevealRules(rules, height, tx, id)
           && var op := tx.operation.value;
              op.commit in rec.commits
              && rules.verifyReveal(RevealFacts(rules.parameters, id, height, tx, op, rec.commits[op.commit]), op.proof)
  {
  }

  lemma RefreshDecided(rules: Rules, rec: Records, height: u32, tx: Transaction, id: NameId)
    requires rules.parameters.Validated() && rules.parameters.activationHeight <= height && CanonicalActions(tx.actions)
    requires id in rec.heads ==> HeadOk(rules, height, id, rec.heads[id])
    ensures
      var effect := OperationEffect(rules, rec, height, tx);
      effect.PutHead? && effect.nameId == id && effect.kind.AcceptedRefresh?
      <==> id in rec.heads && rec.heads[id].terminalHeight.None? && RefreshRules(rules, rec.heads[id], height, tx, id)
  {
  }

  /** The COMMIT was shown before its block, or authenticated for it, and the proof holds for its value. */
  ghost predicate Proved(rules: Rules, chain: seq<Link>, k: nat, tx: Transaction, id: NameId)
    requires rules.parameters.Validated() && k < |chain|
    requires RevealRules(rules, chain[k].block.height, tx, id)
  {
    var op := tx.operation.value;
    exists c: Commitment ::
      (Published(chain[..k], op.commit, c) || Supplies(chain[k].evidence, op.commit, c))
      && rules.verifyReveal(RevealFacts(rules.parameters, id, chain[k].block.height, tx, op, c), op.proof)
  }

  /** No accepted operation of the name, or its head ended at least a cooldown ago. */
  ghost predicate Free(rules: Rules, parent: Bytes32, chain: seq<Link>, k: nat, j: nat, id: NameId)
    requires rules.parameters.epochBlocks > 0 && k < |chain| && j <= |chain[k].block.transactions|
  {
    !exists a, b :: HeldFrom(rules, parent, chain, k, j, id, a, b, rules.parameters.cooldownBlocks)
  }

  /**
   A REVEAL is accepted exactly when the name is free, the height is in its window, the lease fits,
   the action exists, and a COMMIT of the right age was shown by the chain and opens under the proof.
   */
  lemma RevealAcceptedIff(rules: Rules, parent: Bytes32, chain: seq<Link>, k: nat, j: nat, id: NameId)
    requires rules.parameters.Validated() && ValidChain(rules, parent, chain)
    requires k < |chain| && j < |chain[k].block.transactions|
    ensures
      var tx := chain[k].block.transactions[j];
      Installs(rules, parent, chain, k, j, id, AcceptedReveal)
      <==> && Free(rules, parent, chain, k, j, id)
           && RevealRules(rules, chain[k].block.height, tx, id) && Proved(rules, chain, k, tx, id)
  {
    hide RecordsBefore, Published, Supplies, Publishes, RecordsOk, ValidChain;
    hide OperationEffect, InstalledHead, RevealFacts, HeldFrom;
    var rec := RecordsBefore(rules, parent, chain, k, j);
    var height, txs := chain[k].block.height, chain[k].block.transactions;
    BeforeOk(rules, parent, chain, k, j);
    HeadTraced(rules, parent, chain, k, j, id);
    ActionsCanonical(txs, j);
    RevealDecided(rules, rec, height, txs[j], id);
    if RevealRules(rules, height, txs[j], id) {
      var r := txs[j].operation.value.commit;
      forall c: Commitment
        ensures Lookup(rec.commits, r) == Some(c) <==> Published(chain[..k], r, c) || Supplies(chain[k].evidence, r, c)
      {
        CommitsAt(rules, parent, chain, k, j, r, c);
        PublishedNow(height, txs[..j], r, c);
      }
    }
  }

  /** No COMMIT serves two accepted REVEALs of one name, however the name fares in between. */
  lemma OneRevealPerCommit(rules: Rules, parent: Bytes32, chain: seq<Link>, k: nat, j: nat, k': nat, j': nat,
                           id: NameId)
    requires rules.parameters.Validated() && ValidChain(rules, parent, chain)
    requires Installs(rules, parent, chain, k, j, id, AcceptedReveal)
    requires Installs(rules, parent, chain, k', j', id, AcceptedReveal)
    requires (k, j) != (k', j')
    ensures
      var op, op' := chain[k].block.transactions[j].operation, chain[k'].block.transactions[j'].operation;
      op.Some? && op.value.Reveal? && op'.Some? && op'.value.Reveal? && op.value.commit != op'.value.commit
    decreases if k > k' || (k == k' && j > j') then 1 else 0
  {
    if k > k' || (k == k' && j > j') {
      OneRevealPerCommit(rules, parent, chain, k', j', k, j, id);
    } else {
      RevealAcceptedIff(rules, parent, chain, k, j, id);
      RevealAcceptedIff(rules, parent, chain, k', j', id);
      EpochsIncrease(rules, parent, chain, k, j, k', j', id, AcceptedReveal, AcceptedReveal);
      hide Installs, ValidChain, RecordsBefore, Proved;
      var p, a, b := rules.parameters, chain[k].block.height, chain[k'].block.height;
      var op, op' := chain[k].block.transactions[j].operation.value, chain[k'].block.transactions[j'].operation.value;
      if op.commit == op'.commit {
        CommitMeetsOneWindow(p, rules.scheduleHash, id, op.commit.height, a, b);
        assert false;
      }
    }
  }

  /** The name's last accepted operation described a head that nothing has ended, and the REFRESH succeeds it. */
  ghost predicate Succeeds(rules: Rules, parent: Bytes32, chain: seq<Link>, k: nat, j: nat, id: NameId, a: int, b: int)
    requires rules.parameters.Validated() && k < |chain| && j < |chain[k].block.transactions|
  {
    && HeldFrom(rules, parent, chain, k, j, id, a, b, 0)
    && RefreshRules(rules, HeadFrom(rules, chain, a, b).value, chain[k].block.height,
                    chain[k].block.transactions[j], id)
  }

  /**
   A REFRESH is accepted exactly when it names the transaction of the name's last accepted operation, no
   expiry and no spend has ended the head that operation described, the epoch is later and the height in
   its window, and an existing action spends that head's note under a good proof.
   */
  lemma RefreshAcceptedIff(rules: Rules, parent: Bytes32, chain: seq<Link>, k: nat, j: nat, id: NameId)
    requires rules.parameters.Validated() && ValidChain(rules, parent, chain)
    requires k < |chain| && j < |chain[k].block.transactions|
    ensures Installs(rules, parent, chain, k, j, id, AcceptedRefresh)
            <==> exists a, b :: Succeeds(rules, parent, chain, k, j, id, a, b)
  {
    hide RecordsBefore, ValidChain, OperationEffect, RefreshRules, HeadOk, HeldFrom, HeadFrom, ProducedBefore;
    var rec := RecordsBefore(rules, parent, chain, k, j);
    var height, txs := chain[k].block.height, chain[k].block.transactions;
    BeforeOk(rules, parent, chain, k, j);
    ActionsCanonical(txs, j);
    RefreshDecided(rules, rec, height, txs[j], id);
    if id in rec.heads {
      ActiveHeadTraced(rules, parent, chain, k, j, id, rec.heads[id]);
    }
    if Installs(rules, parent, chain, k, j, id, AcceptedRefresh) {
      var a, b :| HeldFrom(rules, parent, chain, k, j, id, a, b, 0)
                  && HeadFrom(rules, chain, a, b) == Some(rec.heads[id]);
      assert Succeeds(rules, parent, chain, k, j, id, a, b);
    }
    if a, b :| Succeeds(rules, parent, chain, k, j, id, a, b) {
      HeldHasHead(rules, parent, chain, k, j, id, a, b, 0);
      ActiveHeadTraced(rules, parent, chain, k, j, id, HeadFrom(rules, chain, a, b).value);
    }
  }

  lemma HeldHasHead(rules: Rules, parent: Bytes32, chain: seq<Link>, k: nat, j: nat, id: NameId,
                    a: int, b: int, blocks: int)
    requires rules.parameters.epochBlocks > 0 && k < |chain| && j <= |chain[k].block.transactions|
    requires HeldFrom(rules, parent, chain, k, j, id, a, b, blocks)
    ensures HeadFrom(rules, chain, a, b).Some?
  {
    hide HeadFrom, Lasts, LastBefore;
  }
}
