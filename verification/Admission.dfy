/**
 Which blocks the reducer applies, and why it refuses the others, told by the block, its evidence and the
 tip alone.
 */
module Admission {
  import opened Collections
  import opened Protocol
  import opened Schedule
  import opened Replay
  import opened Journal

  // ---- order ----

  predicate IndexAscends(txs: seq<Transaction>, i: nat)
    requires i < |txs|
  {
    i > 0 ==> txs[i - 1].txIndex < txs[i].txIndex
  }

  /** Every action carries its own position as its index; positions past 32 bits are written as the greatest number. */
  predicate ActionsNumbered(tx: Transaction) {
    forall k :: 0 <= k < |tx.actions| ==>
      tx.actions[k].actionIndex == k || (k >= U32_LIMIT && tx.actions[k].actionIndex == U32_LIMIT - 1)
  }

  predicate InOrder(txs: seq<Transaction>) {
    && (forall i, j :: 0 <= i < j < |txs| ==> txs[i].txIndex < txs[j].txIndex)
    && forall i :: 0 <= i < |txs| ==> ActionsNumbered(txs[i])
  }

  lemma NumberedIsCanonical(tx: Transaction)
    ensures ActionsNumbered(tx) <==> CanonicalActions(tx.actions)
  {
  }

  lemma {:induction false} InOrderIff(txs: seq<Transaction>)
    ensures IndexError(txs).None? <==> InOrder(txs)
  {
    if txs != [] {
      var front, last := txs[..|txs| - 1], txs[|txs| - 1];
      InOrderIff(front);
      NumberedIsCanonical(last);
      hide ActionsNumbered, CanonicalActions;
      assert forall i :: 0 <= i < |front| ==> front[i] == txs[i];
      assert txs == front + [last];
    }
  }

  /** The first transaction out of order decides the error, its index before its actions. */
  lemma {:induction false} FirstOutOfOrder(txs: seq<Transaction>, i: nat)
    requires i < |txs| && InOrder(txs[..i])
    ensures !IndexAscends(txs, i) ==> IndexError(txs) == Some(NonCanonicalTransactionIndex)
    ensures IndexAscends(txs, i) && !ActionsNumbered(txs[i]) ==> IndexError(txs) == Some(NonCanonicalActionIndex)
  {
    var n := |txs| - 1;
    hide InOrder;
    if i == n {
      InOrderIff(txs[..n]);
      NumberedIsCanonical(txs[n]);
      hide ActionsNumbered, CanonicalActions;
    } else {
      assert txs[..n][..i] == txs[..i];
      FirstOutOfOrder(txs[..n], i);
      hide ActionsNumbered, CanonicalActions;
    }
  }

  // ---- evidence ----

  /** The item is for a COMMIT that a REVEAL of the block refers to, old enough and not too old. */
  predicate Placed(p: Parameters, block: Block, item: ReferencedCommit) {
    && (exists i :: 0 <= i < |block.transactions| && RevealsFrom(block.transactions[i], item.reference))
    && p.activationHeight <= item.reference.height < block.height
    && block.height < item.reference.height + p.commitTtlBlocks
  }

  predicate RevealsFrom(tx: Transaction, reference: CommitRef) {
    match tx.operation
    case Some(Reveal(_, commit, _, _, _, _)) => commit == reference
    case _ => false
  }

  /** No pending COMMIT and no earlier item gives the reference another value. */
  predicate Consistent(commits: map<CommitRef, Commitment>, evidence: seq<ReferencedCommit>, i: nat)
    requires i < |evidence|
  {
    && (evidence[i].reference in commits ==> commits[evidence[i].reference] == evidence[i].commitment)
    && forall k :: 0 <= k < i && evidence[k].reference == evidence[i].reference ==>
         evidence[k].commitment == evidence[i].commitment
  }

  predicate Admissible(p: Parameters, commits: map<CommitRef, Commitment>, block: Block,
                       evidence: seq<ReferencedCommit>)
  {
    forall i :: 0 <= i < |evidence| ==> Placed(p, block, evidence[i]) && Consistent(commits, evidence, i)
  }

  lemma RevealedReferences(block: Block, reference: CommitRef)
    ensures reference in RevealReferences(block.transactions)
            <==> exists i :: 0 <= i < |block.transactions| && RevealsFrom(block.transactions[i], reference)
  {
    if reference in RevealReferences(block.transactions) {
      var i :| 0 <= i < |block.transactions| && block.transactions[i].operation.Some?
               && block.transactions[i].operation.value.Reveal?
               && block.transactions[i].operation.value.commit == reference;
      assert RevealsFrom(block.transactions[i], reference);
    }
  }

  /** The last item of a list that agrees up to it is in error exactly when it is misplaced or inconsistent. */
  lemma LastItem(p: Parameters, commits: map<CommitRef, Commitment>, block: Block, evidence: seq<ReferencedCommit>)
    requires evidence != [] && Admissible(p, commits, block, evidence[..|evidence| - 1])
    ensures
      var n := |evidence| - 1;
      ItemError(p, commits, block, EvidenceMap(evidence[..n]), evidence[n])
      == if !Placed(p, block, evidence[n]) then Some(InvalidReferencedCommit)
         else if !Consistent(commits, evidence, n) then Some(ConflictingReferencedCommit)
         else None
  {
    var n := |evidence| - 1;
    var front := evidence[..n];
    RevealedReferences(block, evidence[n].reference);
    SuppliedValues(p, commits, block, front, evidence[n].reference);
    hide RevealReferences, RevealsFrom;
    assert forall k :: 0 <= k < n ==> front[k] == evidence[k];
  }

  /** The value collected for a reference is the one every item for it gives. */
  lemma {:induction false} SuppliedValues(p: Parameters, commits: map<CommitRef, Commitment>, block: Block,
                                          evidence: seq<ReferencedCommit>, reference: CommitRef)
    requires Admissible(p, commits, block, evidence)
    ensures reference in EvidenceMap(evidence)
            <==> exists k :: 0 <= k < |evidence| && evidence[k].reference == reference
    ensures forall k :: 0 <= k < |evidence| && evidence[k].reference == reference ==>
      reference in EvidenceMap(evidence) && EvidenceMap(evidence)[reference] == evidence[k].commitment
  {
    if evidence != [] {
      var n := |evidence| - 1;
      var front := evidence[..n];
      AdmissibleFront(p, commits, block, evidence, n);
      SuppliedValues(p, commits, block, front, reference);
      assert forall k :: 0 <= k < n ==> front[k] == evidence[k];
      assert Consistent(commits, evidence, n);
      hide Placed, Admissible;
    }
  }

  lemma AdmissibleFront(p: Parameters, commits: map<CommitRef, Commitment>, block: Block,
                        evidence: seq<ReferencedCommit>, n: nat)
    requires n <= |evidence| && Admissible(p, commits, block, evidence)
    ensures Admissible(p, commits, block, evidence[..n])
  {
    hide Placed;
    forall i | 0 <= i < n
      ensures Placed(p, block, evidence[..n][i]) && Consistent(commits, evidence[..n], i)
    {
      assert Placed(p, block, evidence[i]) && Consistent(commits, evidence, i);
    }
  }

  lemma AdmissibleMore(p: Parameters, commits: map<CommitRef, Commitment>, block: Block,
                       evidence: seq<ReferencedCommit>)
    requires evidence != []
    ensures
      var n := |evidence| - 1;
      Admissible(p, commits, block, evidence)
      <==> Admissible(p, commits, block, evidence[..n])
           && Placed(p, block, evidence[n]) && Consistent(commits, evidence, n)
  {
    hide Placed;
    var n := |evidence| - 1;
    if Admissible(p, commits, block, evidence) {
      AdmissibleFront(p, commits, block, evidence, n);
    } else if Admissible(p, commits, block, evidence[..n]) {
      forall i | 0 <= i < n ensures Placed(p, block, evidence[i]) && Consistent(commits, evidence, i) {
        assert Placed(p, block, evidence[..n][i]) && Consistent(commits, evidence[..n], i);
        assert forall k :: 0 <= k < i ==> evidence[..n][k] == evidence[k];
      }
    }
  }

  lemma {:induction false} AdmissibleIff(p: Parameters, commits: map<CommitRef, Commitment>, block: Block,
                                         evidence: seq<ReferencedCommit>)
    ensures EvidenceError(p, commits, block, evidence).None? <==> Admissible(p, commits, block, evidence)
  {
    if evidence != [] {
      hide Placed, Consistent, ItemError;
      AdmissibleIff(p, commits, block, evidence[..|evidence| - 1]);
      AdmissibleMore(p, commits, block, evidence);
      hide Admissible;
      if EvidenceError(p, commits, block, evidence[..|evidence| - 1]).None? {
        LastItem(p, commits, block, evidence);
      }
    }
  }

  /** The first bad item decides the error, its place before its value. */
  lemma {:induction false} FirstBadItem(p: Parameters, commits: map<CommitRef, Commitment>, block: Block,
                                        evidence: seq<ReferencedCommit>, i: nat)
    requires i < |evidence| && Admissible(p, commits, block, evidence[..i])
    ensures !Placed(p, block, evidence[i]) ==>
      EvidenceError(p, commits, block, evidence) == Some(InvalidReferencedCommit)
    ensures Placed(p, block, evidence[i]) && !Consistent(commits, evidence, i) ==>
      EvidenceError(p, commits, block, evidence) == Some(ConflictingReferencedCommit)
  {
    hide Placed, Admissible, ItemError;
    var n := |evidence| - 1;
    if i == n {
      AdmissibleIff(p, commits, block, evidence[..n]);
      LastItem(p, commits, block, evidence);
    } else {
      var front := evidence[..n];
      assert front[..i] == evidence[..i] && forall k :: 0 <= k < n ==> front[k] == evidence[k];
      FirstBadItem(p, commits, block, front, i);
    }
  }

  // ---- blocks ----

  /** A block is applied exactly when it extends the tip, is in order and its evidence is admissible. */
  lemma BlockAppliedIff(rules: Rules, core: Core, link: Link)
    requires rules.parameters.epochBlocks > 0
    ensures
      CoreApply(rules, core, link).Ok?
      <==> && core.world.nextHeight == Some(link.block.height) && link.block.prevHash == core.world.previousHash
           && InOrder(link.block.transactions)
           && Admissible(rules.parameters, core.world.records.commits, link.block, link.evidence)
  {
    hide InOrder, Admissible, IndexError, EvidenceError, Advance, UndoFor;
    InOrderIff(link.block.transactions);
    AdmissibleIff(rules.parameters, core.world.records.commits, link.block, link.evidence);
  }

  /** The block is the next one and links to the tip. */
  predicate Extends(w: World, block: Block) {
    w.nextHeight == Some(block.height) && block.prevHash == w.previousHash
  }

  /** A block that does not extend the tip is refused for its height first and its link second. */
  lemma MisfitRefused(rules: Rules, core: Core, link: Link)
    requires rules.parameters.epochBlocks > 0 && !Extends(core.world, link.block)
    ensures CoreApply(rules, core, link)
            == Err(if core.world.nextHeight != Some(link.block.height) then WrongHeight else WrongPreviousHash)
  {
    hide IndexError, EvidenceError, Advance, UndoFor;
  }

  /** A block that does is refused for its first transaction out of order, its index before its actions. */
  lemma DisorderRefused(rules: Rules, core: Core, link: Link, i: nat)
    requires rules.parameters.epochBlocks > 0 && Extends(core.world, link.block)
    requires i < |link.block.transactions| && InOrder(link.block.transactions[..i])
    requires !IndexAscends(link.block.transactions, i) || !ActionsNumbered(link.block.transactions[i])
    ensures CoreApply(rules, core, link)
            == Err(if !IndexAscends(link.block.transactions, i) then NonCanonicalTransactionIndex
                   else NonCanonicalActionIndex)
  {
    hide InOrder, IndexError, EvidenceError, Advance, UndoFor, ActionsNumbered, IndexAscends;
    FirstOutOfOrder(link.block.transactions, i);
  }

  /** A block in order is refused for its first bad evidence item, its place before its value. */
  lemma EvidenceRefused(rules: Rules, core: Core, link: Link, i: nat)
    requires rules.parameters.epochBlocks > 0 && Extends(core.world, link.block) && InOrder(link.block.transactions)
    requires i < |link.evidence|
    requires Admissible(rules.parameters, core.world.records.commits, link.block, link.evidence[..i])
    requires !Placed(rules.parameters, link.block, link.evidence[i])
             || !Consistent(core.world.records.commits, link.evidence, i)
    ensures CoreApply(rules, core, link)
            == Err(if !Placed(rules.parameters, link.block, link.evidence[i]) then InvalidReferencedCommit
                   else ConflictingReferencedCommit)
  {
    hide InOrder, Admissible, IndexError, EvidenceError, Advance, UndoFor, Placed, Consistent;
    InOrderIff(link.block.transactions);
    FirstBadItem(rules.parameters, core.world.records.commits, link.block, link.evidence, i);
  }

  /** The first block is the one at activation, linked to the activation parent. */
  lemma FirstBlockIff(rules: Rules, parent: Bytes32, link: Link)
    requires rules.parameters.epochBlocks > 0
    ensures
      CoreApply(rules, Core(Genesis(rules, parent), []), link).Ok?
      <==> && link.block.height == rules.parameters.activationHeight && link.block.prevHash == parent
           && InOrder(link.block.transactions)
           && Admissible(rules.parameters, map[], link.block, link.evidence)
  {
    hide InOrder, Admissible, CoreApply;
    BlockAppliedIff(rules, Core(Genesis(rules, parent), []), link);
  }

  /** After an applied block the next one is one higher and linked to it. */
  lemma NextBlockExtends(rules: Rules, core: Core, link: Link, next: Block)
    requires rules.parameters.epochBlocks > 0 && CoreApply(rules, core, link).Ok?
    ensures Extends(CoreApply(rules, core, link).value.world, next)
            <==> next.height == link.block.height + 1 && next.prevHash == link.block.hash
  {
    hide CheckLink, BlockRecords, UndoFor;
  }
}
