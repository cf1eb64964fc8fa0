/** What the reducer reports of each transaction: its kind if accepted, and the rule that decided it. */
module Decisions {
  import opened Collections
  import opened Protocol
  import opened Schedule
  import opened Replay
  import opened Journal
  import opened IndexedReducer
  import opened Lifecycles
  import opened Runs
  import opened History
  import opened Acceptance

  /** The decision reported for transaction `j` of block `k`. */
  function DecisionAt(rules: Rules, parent: Bytes32, chain: seq<Link>, k: nat, j: nat): Decision
    requires rules.parameters.epochBlocks > 0 && k < |chain| && j < |chain[k].block.transactions|
  {
    TxDecision(rules, RecordsBefore(rules, parent, chain, k, j), chain[k].block.height, chain[k].block.transactions[j])
  }

  lemma {:induction false} DecisionsByIndex(rules: Rules, rec: Records, height: u32, txs: seq<Transaction>, j: nat)
    requires rules.parameters.epochBlocks > 0 && j < |txs|
    ensures |DecisionsAfter(rules, rec, height, txs)| == |txs|
    ensures DecisionsAfter(rules, rec, height, txs)[j]
            == TxDecision(rules, RecordsAfter(rules, rec, height, txs[..j]), height, txs[j])
  {
    hide TxDecision, TxRecords;
    var n := |txs| - 1;
    DecisionsLength(rules, rec, height, txs[..n]);
    if j < n {
      DecisionsByIndex(rules, rec, height, txs[..n], j);
      assert txs[..n][..j] == txs[..j];
    }
  }

  lemma {:induction false} DecisionsLength(rules: Rules, rec: Records, height: u32, txs: seq<Transaction>)
    requires rules.parameters.epochBlocks > 0
    ensures |DecisionsAfter(rules, rec, height, txs)| == |txs|
  {
    hide TxDecision, TxRecords;
    if txs != [] {
      DecisionsLength(rules, rec, height, txs[..|txs| - 1]);
    }
  }

  /** Decision `j` of a block's report is that of transaction `j`, against the records before it. */
  lemma ReportedDecision(rules: Rules, parent: Bytes32, chain: seq<Link>, k: nat, j: nat)
    requires rules.parameters.epochBlocks > 0 && k < |chain| && j < |chain[k].block.transactions|
    ensures
      var decisions := BlockDecisions(rules, ReplayChain(rules, parent, chain[..k]).records, chain[k]);
      |decisions| == |chain[k].block.transactions| && decisions[j] == DecisionAt(rules, parent, chain, k, j)
  {
    hide TxDecision, RecordsAfter, StartRecords, ReplayChain;
    DecisionsByIndex(rules, StartRecords(rules, ReplayChain(rules, parent, chain[..k]).records, chain[k]),
                     chain[k].block.height, chain[k].block.transactions, j);
  }

  function CountAccepted(decisions: seq<Decision>): nat {
    if decisions == [] then 0
    else CountAccepted(decisions[..|decisions| - 1]) + if decisions[|decisions| - 1].accepted.Some? then 1 else 0
  }

  /** The accepted list holds exactly the kinds of the accepted decisions, in their order. */
  lemma {:induction false} AcceptedInOrder(decisions: seq<Decision>, j: nat)
    requires j < |decisions|
    ensures |AcceptedOf(decisions)| == CountAccepted(decisions)
    ensures decisions[j].accepted.Some? ==>
      var i := CountAccepted(decisions[..j]);
      i < |AcceptedOf(decisions)| && AcceptedOf(decisions)[i] == decisions[j].accepted.value
  {
    var n := |decisions| - 1;
    AcceptedLength(decisions);
    AcceptedLength(decisions[..n]);
    if j < n {
      AcceptedInOrder(decisions[..n], j);
      assert decisions[..n][..j] == decisions[..j];
    }
  }

  lemma {:induction false} AcceptedLength(decisions: seq<Decision>)
    ensures |AcceptedOf(decisions)| == CountAccepted(decisions)
  {
    if decisions != [] {
      AcceptedLength(decisions[..|decisions| - 1]);
    }
  }

  /** What is reported as accepted is exactly what replay accepts. */
  lemma AcceptedExactly(rules: Rules, parent: Bytes32, chain: seq<Link>, k: nat, j: nat)
    requires rules.parameters.epochBlocks > 0 && k < |chain| && j < |chain[k].block.transactions|
    ensures
      var accepted, op := DecisionAt(rules, parent, chain, k, j).accepted, chain[k].block.transactions[j].operation;
      && (accepted == Some(AcceptedCommit) <==> op.Some? && op.value.Commit?)
      && (accepted == Some(AcceptedReveal) <==> exists id :: Installs(rules, parent, chain, k, j, id, AcceptedReveal))
      && (accepted == Some(AcceptedRefresh) <==> exists id :: Installs(rules, parent, chain, k, j, id, AcceptedRefresh))
      && (op.None? ==> accepted == None)
  {
    hide RecordsBefore, RevealEffect, RefreshEffect;
    var rec, height := RecordsBefore(rules, parent, chain, k, j), chain[k].block.height;
    var effect := OperationEffect(rules, rec, height, chain[k].block.transactions[j]);
    if effect.PutHead? {
      assert Installs(rules, parent, chain, k, j, effect.nameId, effect.kind);
    }
  }

  // ---- terminations and compactions ----

  /** The transaction ended the name's head: unended before it, and the same head with this height after it. */
  predicate EndedBy(rules: Rules, parent: Bytes32, chain: seq<Link>, k: nat, j: nat, id: NameId)
    requires rules.parameters.epochBlocks > 0 && k < |chain| && j < |chain[k].block.transactions|
  {
    var was := Lookup(RecordsBefore(rules, parent, chain, k, j).heads, id);
    was.Some? && was.value.terminalHeight.None?
    && Lookup(RecordsBefore(rules, parent, chain, k, j + 1).heads, id)
       == Some(was.value.(terminalHeight := Some(chain[k].block.height)))
  }

  /** A transaction's termination report names exactly the heads it ended, with their producers, by name. */
  lemma TerminatedExactly(rules: Rules, parent: Bytes32, chain: seq<Link>, k: nat, j: nat, ts: seq<Termination>)
    requires rules.parameters.Validated() && ValidChain(rules, parent, chain)
    requires k < |chain| && j < |chain[k].block.transactions|
    requires ReportsTerminations(rules, RecordsBefore(rules, parent, chain, k, j), chain[k].block.height,
                                 chain[k].block.transactions[j], ts)
    ensures forall id :: id in TerminatedNames(ts) <==> EndedBy(rules, parent, chain, k, j, id)
    ensures forall i :: 0 <= i < |ts| ==>
      var was := Lookup(RecordsBefore(rules, parent, chain, k, j).heads, ts[i].nameId);
      was.Some? && ts[i] == Termination(ts[i].nameId, was.value.producer, chain[k].block.height)
    ensures forall i, i' :: 0 <= i < i' < |ts| ==> ts[i].nameId < ts[i'].nameId
  {
    var rec := RecordsBefore(rules, parent, chain, k, j);
    var height, tx := chain[k].block.height, chain[k].block.transactions[j];
    BeforeOk(rules, parent, chain, k, j);
    AfterOneTx(rules, parent, chain, k, j);
    hide RecordsBefore, ValidChain, RecordsOk, OperationEffect, TxRecords, ProducedBefore;
    assert forall i :: 0 <= i < |ts| ==> TerminatedNames(ts)[i] == ts[i].nameId;
    forall id ensures id in TerminatedNames(ts) <==> EndedBy(rules, parent, chain, k, j, id) {
      EndsExactly(rules, rec, height, tx, id);
      assert id in TerminatedNames(ts) <==> id in TxTerminated(rules, rec, height, tx);
    }
  }

  /** The block's report joins those of its transactions: it names exactly the heads that some transaction ended. */
  lemma {:induction false} BlockTerminatedExactly(rules: Rules, parent: Bytes32, chain: seq<Link>, k: nat, j: nat,
                                                  ts: seq<Termination>)
    requires rules.parameters.Validated() && ValidChain(rules, parent, chain)
    requires k < |chain| && j <= |chain[k].block.transactions|
    requires ReportsAllTerminations(rules, RecordsBefore(rules, parent, chain, k, 0), chain[k].block.height,
                                    chain[k].block.transactions[..j], ts)
    ensures forall id ::
      id in TerminatedNames(ts) <==> exists b :: 0 <= b < j && EndedBy(rules, parent, chain, k, b, id)
    decreases j
  {
    hide ValidChain, EndedBy, ReportsTerminations, TerminatedNames, ReportsAllTerminations, RecordsBefore;
    if j == 0 {
      NoneReported(rules, parent, chain, k, ts);
    } else {
      var c := ReportSplits(rules, parent, chain, k, j, ts);
      BlockTerminatedExactly(rules, parent, chain, k, j - 1, ts[..c]);
      TerminatedExactly(rules, parent, chain, k, j - 1, ts[c..]);
    }
  }

  lemma NoneReported(rules: Rules, parent: Bytes32, chain: seq<Link>, k: nat, ts: seq<Termination>)
    requires rules.parameters.epochBlocks > 0 && k < |chain|
    requires ReportsAllTerminations(rules, RecordsBefore(rules, parent, chain, k, 0), chain[k].block.height,
                                    chain[k].block.transactions[..0], ts)
    ensures TerminatedNames(ts) == []
  {
    hide RecordsBefore;
  }

  lemma ReportSplits(rules: Rules, parent: Bytes32, chain: seq<Link>, k: nat, j: nat, ts: seq<Termination>)
    returns (c: nat)
    requires rules.parameters.epochBlocks > 0 && k < |chain| && 0 < j <= |chain[k].block.transactions|
    requires ReportsAllTerminations(rules, RecordsBefore(rules, parent, chain, k, 0), chain[k].block.height,
                                    chain[k].block.transactions[..j], ts)
    ensures c <= |ts| && TerminatedNames(ts) == TerminatedNames(ts[..c]) + TerminatedNames(ts[c..])
    ensures ReportsAllTerminations(rules, RecordsBefore(rules, parent, chain, k, 0), chain[k].block.height,
                                   chain[k].block.transactions[..j - 1], ts[..c])
    ensures ReportsTerminations(rules, RecordsBefore(rules, parent, chain, k, j - 1), chain[k].block.height,
                                chain[k].block.transactions[j - 1], ts[c..])
  {
    hide RecordsBefore, RecordsAfter, ReportsTerminations;
    var txs, height := chain[k].block.transactions, chain[k].block.height;
    var start := RecordsBefore(rules, parent, chain, k, 0);
    assert txs[..j][..j - 1] == txs[..j - 1] && txs[..j][j - 1] == txs[j - 1];
    BeforeFromStart(rules, parent, chain, k, j - 1);
    c :| 0 <= c <= |ts| && ReportsAllTerminations(rules, start, height, txs[..j - 1], ts[..c])
         && ReportsTerminations(rules, RecordsAfter(rules, start, height, txs[..j - 1]), height, txs[j - 1], ts[c..]);
  }

  lemma BeforeFromStart(rules: Rules, parent: Bytes32, chain: seq<Link>, k: nat, j: nat)
    requires rules.parameters.epochBlocks > 0 && k < |chain| && j <= |chain[k].block.transactions|
    ensures RecordsAfter(rules, RecordsBefore(rules, parent, chain, k, 0), chain[k].block.height,
                         chain[k].block.transactions[..j])
            == RecordsBefore(rules, parent, chain, k, j)
  {
    hide StartRecords, ReplayChain;
    assert chain[k].block.transactions[..0] == [];
  }

  lemma AfterOneTx(rules: Rules, parent: Bytes32, chain: seq<Link>, k: nat, j: nat)
    requires rules.parameters.epochBlocks > 0 && k < |chain| && j < |chain[k].block.transactions|
    ensures RecordsBefore(rules, parent, chain, k, j + 1)
            == TxRecords(rules, RecordsBefore(rules, parent, chain, k, j), chain[k].block.height,
                         chain[k].block.transactions[j])
  {
    hide TxRecords, StartRecords, ReplayChain;
    assert chain[k].block.transactions[..j + 1][..j] == chain[k].block.transactions[..j];
  }

  lemma EndsExactly(rules: Rules, rec: Records, height: u32, tx: Transaction, id: NameId)
    requires rules.parameters.Validated() && rules.parameters.activationHeight <= height
    requires ProducedBefore(rec.heads, height, tx.txIndex)
    ensures
      var was, now := Lookup(rec.heads, id), Lookup(TxRecords(rules, rec, height, tx).heads, id);
      id in TxTerminated(rules, rec, height, tx)
      <==> was.Some? && was.value.terminalHeight.None?
           && now == Some(was.value.(terminalHeight := Some(height)))
  {
    var effect := OperationEffect(rules, rec, height, tx);
    if effect.PutHead? {
      InstalledOk(rules, rec, height, tx);
      InstalledHeadSurvives(rules, rec, height, tx);
      assert id in rec.heads ==> Earlier(rec.heads[id].producer, height, tx.txIndex);
    }
    hide OperationEffect, ProducedBefore, Carries;
  }

  lemma RemovedAtStart(rules: Rules, rec: Records, link: Link, id: NameId)
    ensures
      var marked := MarkExpired(rec.heads, link.block.height);
      && (id in marked && Compactable(rules.parameters, marked[id], link.block.height)
          <==> id in rec.heads && id !in StartRecords(rules, rec, link).heads)
      && (id in marked ==> id in rec.heads && marked[id].producer == rec.heads[id].producer)
  {
  }

  /** A block's compaction report names exactly the heads its start removed, with their producers. */
  lemma CompactedExactly(rules: Rules, rec: Records, link: Link, cs: seq<Compaction>)
    requires ReportsCompactions(rules.parameters, MarkExpired(rec.heads, link.block.height), link.block.height, cs)
    ensures forall id :: (exists i :: 0 <= i < |cs| && cs[i].nameId == id)
                         <==> id in rec.heads && id !in StartRecords(rules, rec, link).heads
    ensures forall i :: 0 <= i < |cs| ==>
      cs[i].nameId in rec.heads
      && cs[i] == Compaction(cs[i].nameId, rec.heads[cs[i].nameId].producer, link.block.height)
  {
    hide MarkExpired, Compactable, StartRecords;
    forall id ensures (exists i :: 0 <= i < |cs| && cs[i].nameId == id)
                      <==> id in rec.heads && id !in StartRecords(rules, rec, link).heads
    {
      RemovedAtStart(rules, rec, link, id);
    }
    forall i | 0 <= i < |cs|
      ensures cs[i].nameId in rec.heads
              && cs[i] == Compaction(cs[i].nameId, rec.heads[cs[i].nameId].producer, link.block.height)
    {
      RemovedAtStart(rules, rec, link, cs[i].nameId);
    }
  }

  // ---- the rule that decided ----

  /** A REVEAL's COMMIT was shown before its block or authenticated for it. */
  ghost predicate Known(chain: seq<Link>, k: nat, reference: CommitRef)
    requires k < |chain|
  {
    exists c: Commitment :: KnownAs(chain, k, reference, c)
  }

  ghost predicate KnownAs(chain: seq<Link>, k: nat, reference: CommitRef, c: Commitment)
    requires k < |chain|
  {
    Published(chain[..k], reference, c) || Supplies(chain[k].evidence, reference, c)
  }

  /** Its proof is good for the value it was shown with. */
  ghost predicate Opens(rules: Rules, chain: seq<Link>, k: nat, tx: Transaction, id: NameId)
    requires rules.parameters.Validated() && k < |chain| && rules.parameters.activationHeight <= chain[k].block.height
    requires tx.operation.Some? && tx.operation.value.Reveal? && tx.operation.value.actionIndex < |tx.actions|
  {
    exists c: Commitment ::
      KnownAs(chain, k, tx.operation.value.commit, c)
      && rules.verifyReveal(RevealFacts(rules.parameters, id, chain[k].block.height, tx, tx.operation.value, c),
                            tx.operation.value.proof)
  }

  predicate CommitAged(p: Parameters, reference: CommitRef, height: u32) {
    && p.activationHeight <= reference.height
    && reference.height + p.commitMaturityBlocks <= height < reference.height + p.commitTtlBlocks
  }

  /** The first condition a REVEAL fails, in the order they are checked. */
  ghost function RevealRule(rules: Rules, parent: Bytes32, chain: seq<Link>, k: nat, j: nat): Clause
    requires rules.parameters.Validated() && k < |chain| && j < |chain[k].block.transactions|
    requires rules.parameters.activationHeight <= chain[k].block.height
    requires
      var op := chain[k].block.transactions[j].operation;
      op.Some? && op.value.Reveal?
  {
    var p, height, tx := rules.parameters, chain[k].block.height, chain[k].block.transactions[j];
    var op := tx.operation.value;
    match rules.nameId(op.name)
    case None => RevealMissing
    case Some(id) =>
      if !Free(rules, parent, chain, k, j, id) then RevealMissing
      else if !p.AcceptsOperation(rules.scheduleHash, id, height) then RevealSchedule
      else if !CommitAged(p, op.commit, height) || !Known(chain, k, op.commit) then RevealCommit
      else if op.actionIndex >= |tx.actions| then RevealAction
      else if !Opens(rules, chain, k, tx, id) then RevealProof
      else if height + p.leaseBlocks >= U32_LIMIT then RevealSchedule
      else RevealAccept
  }

  lemma KnownIsHeld(rules: Rules, parent: Bytes32, chain: seq<Link>, k: nat, j: nat, reference: CommitRef)
    requires rules.parameters.Validated() && ValidChain(rules, parent, chain)
    requires k < |chain| && j < |chain[k].block.transactions|
    requires CommitAged(rules.parameters, reference, chain[k].block.height)
    ensures
      var commits := RecordsBefore(rules, parent, chain, k, j).commits;
      && (reference in commits <==> Known(chain, k, reference))
      && (reference in commits ==> forall c: Commitment :: KnownAs(chain, k, reference, c) <==> c == commits[reference])
  {
    hide RecordsBefore, ValidChain, Published, Supplies, Publishes;
    var rec, txs := RecordsBefore(rules, parent, chain, k, j), chain[k].block.transactions;
    forall c: Commitment ensures Lookup(rec.commits, reference) == Some(c) <==> KnownAs(chain, k, reference, c) {
      CommitsAt(rules, parent, chain, k, j, reference, c);
      PublishedNow(chain[k].block.height, txs[..j], reference, c);
    }
    if reference in rec.commits {
      assert KnownAs(chain, k, reference, rec.commits[reference]);
    }
  }

  lemma RevealRuleFor(rules: Rules, rec: Records, height: u32, tx: Transaction)
    requires rules.parameters.Validated() && rules.parameters.activationHeight <= height && CanonicalActions(tx.actions)
    requires tx.operation.Some? && tx.operation.value.Reveal?
    ensures
      var p, op := rules.parameters, tx.operation.value;
      TxDecision(rules, rec, height, tx).clause
      == match rules.nameId(op.name)
         case None => RevealMissing
         case Some(id) =>
           if id in rec.heads then RevealMissing
           else if !p.AcceptsOperation(rules.scheduleHash, id, height) then RevealSchedule
           else if !CommitAged(p, op.commit, height) || op.commit !in rec.commits then RevealCommit
           else if op.actionIndex >= |tx.actions| then RevealAction
           else if !rules.verifyReveal(RevealFacts(p, id, height, tx, op, rec.commits[op.commit]), op.proof)
           then RevealProof
           else if height + p.leaseBlocks >= U32_LIMIT then RevealSchedule
           else RevealAccept
  {
  }

  /** The clause reported for a REVEAL names the first condition it fails, or its acceptance. */
  lemma RevealClauseExact(rules: Rules, parent: Bytes32, chain: seq<Link>, k: nat, j: nat)
    requires rules.parameters.Validated() && ValidChain(rules, parent, chain)
    requires k < |chain| && j < |chain[k].block.transactions|
    requires
      var op := chain[k].block.transactions[j].operation;
      op.Some? && op.value.Reveal?
    ensures rules.parameters.activationHeight <= chain[k].block.height
    ensures DecisionAt(rules, parent, chain, k, j).clause == RevealRule(rules, parent, chain, k, j)
  {
    hide RecordsBefore, ValidChain, Published, Supplies, HeldFrom, RecordsOk, ProducedBefore, TxDecision;
    hide RevealFacts, CommitAged, KnownAs;
    var rec := RecordsBefore(rules, parent, chain, k, j);
    var height, tx := chain[k].block.height, chain[k].block.transactions[j];
    var op := tx.operation.value;
    BeforeOk(rules, parent, chain, k, j);
    ActionsCanonical(chain[k].block.transactions, j);
    RevealRuleFor(rules, rec, height, tx);
    if rules.nameId(op.name).Some? {
      HeadTraced(rules, parent, chain, k, j, rules.nameId(op.name).value);
    }
    if CommitAged(rules.parameters, op.commit, height) {
      KnownIsHeld(rules, parent, chain, k, j, op.commit);
    }
  }

  /** Of a REFRESH, given the head it would succeed. */
  function RefreshRule(rules: Rules, current: Head, id: NameId, height: u32, tx: Transaction): Clause
    requires rules.parameters.Validated() && rules.parameters.activationHeight <= height
    requires tx.operation.Some? && tx.operation.value.Refresh?
  {
    var p, op := rules.parameters, tx.operation.value;
    if current.producer != op.predecessor then RefreshCurrent
    else if current.producerEpoch >= p.Epoch(height).value then RefreshEpoch
    else if !p.AcceptsOperation(rules.scheduleHash, id, height) then RefreshSchedule
    else if op.actionIndex >= |tx.actions| then RefreshAction
    else if tx.actions[op.actionIndex].nullifier != current.futureNf then RefreshAction
    else if !rules.verifyRefresh(RefreshFacts(p, id, height, tx, op, current), op.proof) then RefreshProof
    else if height + p.leaseBlocks >= U32_LIMIT then RefreshSchedule
    else RefreshAccept
  }

  lemma RefreshRuleFor(rules: Rules, rec: Records, height: u32, tx: Transaction)
    requires rules.parameters.Validated() && rules.parameters.activationHeight <= height && CanonicalActions(tx.actions)
    requires tx.operation.Some? && tx.operation.value.Refresh?
    requires RecordsOk(rules, height, rec)
    ensures
      var op := tx.operation.value;
      TxDecision(rules, rec, height, tx).clause
      == match rules.nameId(op.name)
         case None => RefreshCurrent
         case Some(id) =>
           if id !in rec.heads || rec.heads[id].terminalHeight.Some? then RefreshCurrent
           else RefreshRule(rules, rec.heads[id], id, height, tx)
  {
    var id := rules.nameId(tx.operation.value.name);
    assert id.Some? && id.value in rec.heads ==> HeadOk(rules, height, id.value, rec.heads[id.value]);
    hide RecordsOk;
  }

  /**
   The clause reported for a REFRESH: without a last accepted operation of the name whose head nothing has
   ended it is the one for the current head; otherwise it names the first condition it fails against that head.
   */
  lemma RefreshClauseExact(rules: Rules, parent: Bytes32, chain: seq<Link>, k: nat, j: nat)
    requires rules.parameters.Validated() && ValidChain(rules, parent, chain)
    requires k < |chain| && j < |chain[k].block.transactions|
    requires
      var op := chain[k].block.transactions[j].operation;
      op.Some? && op.value.Refresh?
    ensures rules.parameters.activationHeight <= chain[k].block.height
    ensures
      var height, tx := chain[k].block.height, chain[k].block.transactions[j];
      var clause := DecisionAt(rules, parent, chain, k, j).clause;
      match rules.nameId(tx.operation.value.name)
      case None => clause == RefreshCurrent
      case Some(id) =>
        && ((forall a, b :: !HeldFrom(rules, parent, chain, k, j, id, a, b, 0)) ==> clause == RefreshCurrent)
        && (forall a, b :: HeldFrom(rules, parent, chain, k, j, id, a, b, 0) ==>
              clause == RefreshRule(rules, HeadFrom(rules, chain, a, b).value, id, height, tx))
  {
    hide RecordsBefore, ValidChain, RecordsOk, ProducedBefore, TxDecision, RefreshRule, HeldFrom, HeadFrom;
    var rec := RecordsBefore(rules, parent, chain, k, j);
    var height, tx := chain[k].block.height, chain[k].block.transactions[j];
    BeforeOk(rules, parent, chain, k, j);
    ActionsCanonical(chain[k].block.transactions, j);
    RefreshRuleFor(rules, rec, height, tx);
    if rules.nameId(tx.operation.value.name).Some? {
      var id := rules.nameId(tx.operation.value.name).value;
      if id in rec.heads {
        ActiveHeadTraced(rules, parent, chain, k, j, id, rec.heads[id]);
      }
      forall a, b | HeldFrom(rules, parent, chain, k, j, id, a, b, 0)
        ensures HeadFrom(rules, chain, a, b).Some?
        ensures id in rec.heads && rec.heads[id].terminalHeight.None?
        ensures HeadFrom(rules, chain, a, b) == Some(rec.heads[id])
      {
        HeldHasHead(rules, parent, chain, k, j, id, a, b, 0);
        ActiveHeadTraced(rules, parent, chain, k, j, id, HeadFrom(rules, chain, a, b).value);
      }
    }
  }
}
