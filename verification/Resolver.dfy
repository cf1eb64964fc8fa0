/**
 Exact replay of one name: operations of other names are discarded before they are verified,
 COMMITs may be fetched on demand, and the outcome for the name is that of full replay.
 */
module Resolver {
  import opened Collections
  import opened Protocol
  import opened Schedule
  import opened Replay
  import opened Journal
  import opened Snapshots
  import opened IndexedReducer
  import opened Lifecycles

  // ---- filtering ----

  predicate NamesTarget(rules: Rules, target: NameId, op: Operation) {
    !op.Commit? && rules.nameId(op.name) == Some(target)
  }

  function FilterTx(rules: Rules, target: NameId, tx: Transaction): Transaction {
    if tx.operation.Some? && (tx.operation.value.Commit? || NamesTarget(rules, target, tx.operation.value))
    then tx
    else tx.(operation := None)
  }

  function FilterBlock(rules: Rules, target: NameId, block: Block): Block {
    block.(transactions := seq(|block.transactions|, i requires 0 <= i < |block.transactions| =>
      FilterTx(rules, target, block.transactions[i])))
  }

  class ExactResolver {
    const name: Name
    const nameId: NameId
    const reducer: Reducer

    ghost predicate Valid()
      reads this, reducer
    {
      reducer.Valid() && reducer.rules.nameId(name) == Some(nameId)
    }

    constructor Over(name: Name, nameId: NameId, reducer: Reducer)
      requires reducer.Valid() && reducer.rules.nameId(name) == Some(nameId)
      ensures Valid() && this.name == name && this.nameId == nameId && this.reducer == reducer
    {
      this.name, this.nameId, this.reducer := name, nameId, reducer;
    }

    static method New(rules: Rules, activationParentHash: Bytes32, name: Name)
      returns (r: Result<ExactResolver, ApplyError>)
      ensures r.Err? <==> rules.nameId(name).None? || !rules.parameters.Validated()
      ensures r.Err? ==> r.error == BadParameters
      ensures r.Ok? ==> fresh(r.value) && fresh(r.value.reducer) && r.value.Valid() && r.value.name == name
      ensures r.Ok? ==> r.value.reducer.State() == Core(Genesis(rules, activationParentHash), [])
    {
      var id := rules.nameId(name);
      if id.None? {
        return Err(BadParameters);
      }
      var inner := Reducer.New(rules, activationParentHash);
      if inner.Err? {
        return Err(inner.error);
      }
      var resolver := new ExactResolver.Over(name, id.value, inner.value);
      return Ok(resolver);
    }

    /** Replays the filtered block: actions stay visible, unrelated operations do not. */
    method ApplyBlockDetailed(block: Block, evidence: seq<ReferencedCommit>)
      returns (r: Result<BlockOutcome, ApplyError>)
      requires Valid()
      modifies reducer
      ensures Valid()
      ensures
        var rules, was := reducer.rules, old(reducer.State());
        var link := Link(FilterBlock(rules, nameId, block), evidence);
        match CoreApply(rules, was, link) {
          case Err(e) => r == Err(e) && reducer.State() == was
          case Ok(next) => reducer.State() == next && r.Ok? && OutcomeOf(rules, was.world, link, r.value)
        }
    {
      hide CoreApply, OutcomeOf;
      var rules := reducer.rules;
      var transactions := block.transactions;
      for i := 0 to |block.transactions|
        invariant |transactions| == |block.transactions|
        invariant forall k :: 0 <= k < |transactions| ==>
          transactions[k] == if k < i then FilterTx(rules, nameId, block.transactions[k]) else block.transactions[k]
      {
        var tx := transactions[i];
        var relevant := match tx.operation
          case Some(Commit(_)) => true
          case Some(Reveal(named, _, _, _, _, _)) => rules.nameId(named) == Some(nameId)
          case Some(Refresh(named, _, _, _, _, _)) => rules.nameId(named) == Some(nameId)
          case None => false;
        if !relevant {
          transactions := transactions[i := tx.(operation := None)];
        }
      }
      var filtered := block.(transactions := transactions);
      assert filtered == FilterBlock(rules, nameId, block);
      r := reducer.ApplyBlockDetailed(filtered, evidence);
    }

    method Resolve(height: u32) returns (r: Result<Resolution, ResolutionError>)
      ensures r == Replay.ResolveAuthenticated(reducer.rules, reducer.State().world, name, height)
    {
      r := reducer.ResolveAuthenticated(name, height);
    }

    method RollbackTip(expectedHash: Bytes32) returns (r: Result<(), RollbackError>)
      requires Valid()
      modifies reducer
      ensures Valid()
      ensures match CoreRollback(old(reducer.State()), expectedHash) {
        case Err(e) => r == Err(e) && reducer.State() == old(reducer.State())
        case Ok(next) => r.Ok? && reducer.State() == next
      }
    {
      hide CoreRollback;
      var undone := reducer.RollbackTipDetailed(expectedHash);
      r := if undone.Ok? then Ok(()) else Err(undone.error);
    }

    method FinalizeThrough(height: u32) returns (r: Result<(), FinalizationError>)
      requires Valid()
      modifies reducer
      ensures Valid()
      ensures match CoreFinalize(old(reducer.State()), height) {
        case Err(e) => r == Err(e) && reducer.State() == old(reducer.State())
        case Ok(next) => r.Ok? && reducer.State() == next
      }
    {
      hide CoreFinalize;
      r := reducer.FinalizeThrough(height);
    }

    method SaveSnapshot() returns (stored: StoredExactResolver)
      requires Valid()
      ensures IsExactSnapshot(reducer.rules, name, reducer.State(), stored) && OrderedSnapshot(stored.reducer)
    {
      hide IsSnapshot, OrderedSnapshot;
      var inner := reducer.SaveSnapshot();
      stored := StoredExactResolver(
        EXACT_RESOLVER_SNAPSHOT_FORMAT_VERSION, reducer.rules.parameters.deploymentId, reducer.rules.fingerprint,
        RangeOf(reducer.history), name, inner);
    }

    /** Restores only a state in which every retained or journaled head belongs to the name. */
    static method LoadSnapshot(rules: Rules, network: Network, name: Name, stored: StoredExactResolver)
      returns (r: Result<ExactResolver, SnapshotError>)
      ensures
        match LoadExact(rules, network, name, stored) {
          case Err(e) => r == Err(e)
          case Ok(core) =>
            && r.Ok? && fresh(r.value) && fresh(r.value.reducer) && r.value.Valid() && r.value.name == name
            && r.value.reducer.rules == rules && r.value.reducer.State() == core
        }
    {
      hide LoadCore, IsExactFor;
      if stored.formatVersion != EXACT_RESOLVER_SNAPSHOT_FORMAT_VERSION {
        return Err(UnsupportedFormat);
      }
      if stored.name != name {
        return Err(NameMismatch);
      }
      if stored.deploymentId != rules.parameters.deploymentId || stored.rulesetFingerprint != rules.fingerprint {
        return Err(ParametersMismatch);
      }
      var id := rules.nameId(name);
      if id.None? {
        return Err(NameMismatch);
      }
      var inner := Reducer.LoadSnapshot(rules, network, stored.reducer);
      if inner.Err? {
        return Err(inner.error);
      }
      if !IsExactFor(inner.value.State(), id.value) {
        return Err(NameMismatch);
      }
      if RangeOf(inner.value.history) != stored.rollbackRange {
        return Err(InvalidHistory);
      }
      var resolver := new ExactResolver.Over(name, id.value, inner.value);
      return Ok(resolver);
    }
  }

  // ---- what the resolver may be shown ----

  /** One transaction as seen by the resolver: same effects, and at most a COMMIT or a foreign operation missing. */
  predicate SeenTx(rules: Rules, target: NameId, full: Transaction, seen: Transaction) {
    && seen.txIndex == full.txIndex && seen.txid == full.txid && seen.actions == full.actions
    && (seen.operation == full.operation
        || (seen.operation.None? && full.operation.Some? && !NamesTarget(rules, target, full.operation.value)))
  }

  ghost predicate SeenBlock(rules: Rules, target: NameId, full: Block, seen: Block) {
    && seen.height == full.height && seen.hash == full.hash && seen.prevHash == full.prevHash
    && |seen.transactions| == |full.transactions|
    && forall i :: 0 <= i < |full.transactions| ==>
         SeenTx(rules, target, full.transactions[i], seen.transactions[i])
  }

  /** Every operation left is a COMMIT or names the target. */
  predicate OnlyTarget(rules: Rules, target: NameId, txs: seq<Transaction>) {
    forall i :: 0 <= i < |txs| && txs[i].operation.Some? && !txs[i].operation.value.Commit? ==>
      NamesTarget(rules, target, txs[i].operation.value)
  }

  lemma FilterKeepsSeen(rules: Rules, target: NameId, full: Block, seen: Block)
    requires SeenBlock(rules, target, full, seen)
    ensures SeenBlock(rules, target, full, FilterBlock(rules, target, seen))
    ensures OnlyTarget(rules, target, FilterBlock(rules, target, seen).transactions)
  {
  }

  /**
   The evidence is true of full replay, belongs to REVEALs of the block, and leaves none of them
   without a COMMIT that full replay still holds.
   */
  ghost predicate Serves(known: map<CommitRef, Commitment>, held: map<CommitRef, Commitment>, p: Parameters,
                         block: Block, evidence: seq<ReferencedCommit>) {
    && (forall i :: 0 <= i < |evidence| ==>
          && evidence[i].reference in known && known[evidence[i].reference] == evidence[i].commitment
          && evidence[i].reference in RevealReferences(block.transactions))
    && (forall r :: r in RevealReferences(block.transactions) && r in known ==>
          (r in held && !Prunable(p, r, block.height)) || r in EvidenceMap(evidence))
  }

  // ---- agreement ----

  ghost predicate SameForTarget(target: NameId, full: Records, exact: Records) {
    && (forall id :: Lookup(exact.heads, id) == if id == target then Lookup(full.heads, id) else None)
    && (forall r :: r in exact.commits ==> r in full.commits && full.commits[r] == exact.commits[r])
  }

  ghost predicate Agrees(target: NameId, full: World, exact: World) {
    && exact.nextHeight == full.nextHeight && exact.tipHeight == full.tipHeight
    && exact.previousHash == full.previousHash
    && SameForTarget(target, full.records, exact.records)
  }

  /** The references still to be revealed in the block are known to both sides or to neither. */
  ghost predicate Covered(height: u32, refs: set<CommitRef>, full: Records, exact: Records) {
    forall r :: r in refs && r.height < height && r in full.commits ==> r in exact.commits
  }

  lemma {:induction false} SameIndexErrors(full: seq<Transaction>, seen: seq<Transaction>)
    requires |seen| == |full|
    requires forall i :: 0 <= i < |full| ==>
      seen[i].txIndex == full[i].txIndex && seen[i].actions == full[i].actions
    ensures IndexError(seen) == IndexError(full)
  {
    if full != [] {
      SameIndexErrors(full[..|full| - 1], seen[..|seen| - 1]);
    }
  }

  /** Commits known at the start of a block are older than the block, and agree with those before it. */
  lemma KnownCommits(rules: Rules, w: World, link: Link)
    requires rules.parameters.Validated() && WorldOk(rules, w) && CheckLink(rules, w, link).None?
    ensures
      var known := StartRecords(rules, w.records, link).commits;
      && (forall r :: r in known ==>
            && rules.parameters.activationHeight <= r.height < link.block.height
            && link.block.height < r.height + rules.parameters.commitTtlBlocks)
      && (forall r :: r in known && r in w.records.commits ==> known[r] == w.records.commits[r])
      && (forall r :: r in w.records.commits && !Prunable(rules.parameters, r, link.block.height) ==> r in known)
  {
    EvidenceOk(rules.parameters, w.records.commits, link.block, link.evidence);
  }

  lemma {:induction false} TrueEvidence(known: map<CommitRef, Commitment>, evidence: seq<ReferencedCommit>)
    requires forall i :: 0 <= i < |evidence| ==>
      evidence[i].reference in known && known[evidence[i].reference] == evidence[i].commitment
    ensures forall r :: r in EvidenceMap(evidence) ==> r in known && known[r] == EvidenceMap(evidence)[r]
  {
    if evidence != [] {
      TrueEvidence(known, evidence[..|evidence| - 1]);
    }
  }

  lemma {:induction false} TrueEvidenceAdmitted(
    p: Parameters, known: map<CommitRef, Commitment>, held: map<CommitRef, Commitment>, block: Block,
    evidence: seq<ReferencedCommit>)
    requires forall i :: 0 <= i < |evidence| ==>
      && evidence[i].reference in known && known[evidence[i].reference] == evidence[i].commitment
      && evidence[i].reference in RevealReferences(block.transactions)
    requires forall r :: r in known ==>
      p.activationHeight <= r.height < block.height < r.height + p.commitTtlBlocks
    requires forall r :: r in held && r in known ==> held[r] == known[r]
    ensures EvidenceError(p, held, block, evidence).None?
  {
    if evidence != [] {
      var front := evidence[..|evidence| - 1];
      TrueEvidenceAdmitted(p, known, held, block, front);
      TrueEvidence(known, front);
    }
  }

  lemma LinkAdmitted(rules: Rules, target: NameId, full: World, exact: World, link: Link, seen: Link)
    requires rules.parameters.Validated() && WorldOk(rules, full) && CheckLink(rules, full, link).None?
    requires Agrees(target, full, exact) && SeenBlock(rules, target, link.block, seen.block)
    requires Serves(StartRecords(rules, full.records, link).commits, exact.records.commits, rules.parameters,
                    seen.block, seen.evidence)
    ensures CheckLink(rules, exact, seen).None?
  {
    KnownCommits(rules, full, link);
    var known := StartRecords(rules, full.records, link).commits;
    SameIndexErrors(link.block.transactions, seen.block.transactions);
    hide StartRecords, IndexError, EvidenceError, WorldOk;
    TrueEvidenceAdmitted(rules.parameters, known, exact.records.commits, seen.block, seen.evidence);
  }

  lemma StartAgrees(rules: Rules, target: NameId, full: World, exact: World, link: Link, seen: Link)
    requires rules.parameters.Validated() && WorldOk(rules, full) && CheckLink(rules, full, link).None?
    requires Agrees(target, full, exact) && seen.block.height == link.block.height
    requires Serves(StartRecords(rules, full.records, link).commits, exact.records.commits, rules.parameters,
                    seen.block, seen.evidence)
    ensures
      var f, e := StartRecords(rules, full.records, link), StartRecords(rules, exact.records, seen);
      && SameForTarget(target, f, e)
      && Covered(seen.block.height, RevealReferences(seen.block.transactions), f, e)
      && CommitsBefore(e.commits, seen.block.height, 0)
  {
    KnownCommits(rules, full, link);
    TrueEvidence(StartRecords(rules, full.records, link).commits, seen.evidence);
    var f, e := StartRecords(rules, full.records, link), StartRecords(rules, exact.records, seen);
    forall id ensures Lookup(e.heads, id) == if id == target then Lookup(f.heads, id) else None {
      StartLookup(rules, full.records, link, id);
      StartLookup(rules, exact.records, seen, id);
      assert Lookup(exact.records.heads, id) == if id == target then Lookup(full.records.heads, id) else None;
    }
  }

  /** An operation of the target has the same effect on both sides; any other leaves the target alone. */
  lemma EffectsAgree(rules: Rules, target: NameId, full: Records, exact: Records, height: u32,
                     tx: Transaction, seen: Transaction)
    requires rules.parameters.Validated()
    requires SameForTarget(target, full, exact) && SeenTx(rules, target, tx, seen)
    requires seen.operation.Some? && seen.operation.value.Reveal? ==>
      Covered(height, {seen.operation.value.commit}, full, exact)
    ensures
      var f, e := OperationEffect(rules, full, height, tx), OperationEffect(rules, exact, height, seen);
      && (seen.operation.Some? && NamesTarget(rules, target, seen.operation.value) ==> f == e)
      && (seen.operation.Some? && seen.operation.value.Commit? ==> f == e)
      && (seen.operation.None? ==> e.Inert?)
      && (!(tx.operation.Some? && NamesTarget(rules, target, tx.operation.value)) ==>
            !f.PutHead? || f.nameId != target)
      && (!tx.operation.Some? || !tx.operation.value.Commit? ==> !f.PutCommit?)
  {
    assert Lookup(exact.heads, target) == Lookup(full.heads, target);
  }

  lemma TxAgrees(rules: Rules, target: NameId, full: Records, exact: Records, height: u32,
                 tx: Transaction, seen: Transaction, refs: set<CommitRef>)
    requires rules.parameters.Validated() && rules.parameters.activationHeight <= height
    requires SameForTarget(target, full, exact) && SeenTx(rules, target, tx, seen)
    requires OnlyTarget(rules, target, [seen])
    requires Covered(height, refs, full, exact) && CommitsBefore(exact.commits, height, tx.txIndex)
    requires seen.operation.Some? && seen.operation.value.Reveal? ==> seen.operation.value.commit in refs
    requires ProducedBefore(full.heads, height, tx.txIndex)
    ensures
      var f, e := TxRecords(rules, full, height, tx), TxRecords(rules, exact, height, seen);
      && SameForTarget(target, f, e) && Covered(height, refs, f, e)
      && CommitsBefore(e.commits, height, tx.txIndex + 1)
    ensures seen.operation.Some? ==> TxDecision(rules, exact, height, seen) == TxDecision(rules, full, height, tx)
  {
    EffectsAgree(rules, target, full, exact, height, tx, seen);
    assert seen.operation.Some? && !seen.operation.value.Commit? ==>
      NamesTarget(rules, target, seen.operation.value) by { assert [seen][0] == seen; }
    CommitsAgree(rules, target, full, exact, height, tx, seen, refs);
    hide OperationEffect, TxRecords;
    var f, e := TxRecords(rules, full, height, tx), TxRecords(rules, exact, height, seen);
    var fullEffect := OperationEffect(rules, full, height, tx);
    var exactEffect := OperationEffect(rules, exact, height, seen);
    forall id ensures Lookup(exact.heads, id) == if id == target then Lookup(full.heads, id) else None {
    }
    assert ProducedBefore(exact.heads, height, tx.txIndex) by {
      forall id | id in exact.heads ensures Earlier(exact.heads[id].producer, height, tx.txIndex) {
        assert Lookup(exact.heads, id) == Lookup(full.heads, id);
      }
    }
    forall id ensures Lookup(e.heads, id) == if id == target then Lookup(f.heads, id) else None {
      if exactEffect.PutHead? && exactEffect.nameId == id {
        assert fullEffect == exactEffect;
        InstalledHeadSurvives(rules, full, height, tx);
        InstalledHeadSurvives(rules, exact, height, seen);
        InstallsItsName(rules, exact, height, seen);
      } else {
        OtherHeadAfterTx(rules, exact, height, seen, id);
        assert Lookup(exact.heads, id) == if id == target then Lookup(full.heads, id) else None;
        if id == target {
          InstallsItsName(rules, full, height, tx);
          OtherHeadAfterTx(rules, full, height, tx, id);
        }
      }
    }
  }

  lemma InstallsItsName(rules: Rules, rec: Records, height: u32, tx: Transaction)
    requires rules.parameters.epochBlocks > 0
    ensures
      var effect := OperationEffect(rules, rec, height, tx);
      effect.PutHead? ==>
        && tx.operation.Some? && !tx.operation.value.Commit?
        && rules.nameId(tx.operation.value.name) == Some(effect.nameId)
  {
  }

  lemma CommitsAgree(rules: Rules, target: NameId, full: Records, exact: Records, height: u32,
                     tx: Transaction, seen: Transaction, refs: set<CommitRef>)
    requires rules.parameters.Validated()
    requires SameForTarget(target, full, exact) && SeenTx(rules, target, tx, seen)
    requires Covered(height, refs, full, exact) && CommitsBefore(exact.commits, height, tx.txIndex)
    ensures
      var f, e := TxRecords(rules, full, height, tx), TxRecords(rules, exact, height, seen);
      && (forall r :: r in e.commits ==> r in f.commits && f.commits[r] == e.commits[r])
      && Covered(height, refs, f, e) && CommitsBefore(e.commits, height, tx.txIndex + 1)
  {
    CommitsAfterTx(rules, full, height, tx);
    CommitsAfterTx(rules, exact, height, seen);
  }

  /** Decisions agree on every operation the resolver was shown. */
  ghost predicate DecisionsAgree(seen: seq<Transaction>, full: seq<Decision>, exact: seq<Decision>) {
    && |full| == |seen| && |exact| == |seen|
    && forall i :: 0 <= i < |seen| && seen[i].operation.Some? ==> exact[i] == full[i]
  }

  lemma {:induction false} TxsAgree(rules: Rules, target: NameId, full: Records, exact: Records, height: u32,
                                    txs: seq<Transaction>, seen: seq<Transaction>, refs: set<CommitRef>)
    requires rules.parameters.Validated() && rules.parameters.activationHeight <= height
    requires |seen| == |txs| && forall i :: 0 <= i < |txs| ==> SeenTx(rules, target, txs[i], seen[i])
    requires OnlyTarget(rules, target, seen) && RevealReferences(seen) <= refs
    requires SameForTarget(target, full, exact) && Covered(height, refs, full, exact)
    requires CommitsBefore(exact.commits, height, 0)
    requires IndexError(txs).None? && RecordsOk(rules, height, full) && ProducedBefore(full.heads, height, 0)
    ensures
      var f, e := RecordsAfter(rules, full, height, txs), RecordsAfter(rules, exact, height, seen);
      && SameForTarget(target, f, e) && Covered(height, refs, f, e)
      && CommitsBefore(e.commits, height, NextPosition(txs))
    ensures DecisionsAgree(seen, DecisionsAfter(rules, full, height, txs), DecisionsAfter(rules, exact, height, seen))
  {
    if txs != [] {
      hide TxRecords, TxDecision, RecordsOk, SameForTarget, Covered, OnlyTarget, RevealReferences;
      hide CommitsBefore, ProducedBefore, SeenTx, DecisionsAgree;
      var n := |txs| - 1;
      var txFront, seenFront := txs[..n], seen[..n];
      LastSeen(rules, target, seen);
      TxsAgree(rules, target, full, exact, height, txFront, seenFront, refs);
      TxsOk(rules, full, height, txFront);
      var f, e := RecordsAfter(rules, full, height, txFront), RecordsAfter(rules, exact, height, seenFront);
      PositionsGrow(f.heads, e.commits, height, NextPosition(txFront), txs[n].txIndex);
      TxAgrees(rules, target, f, e, height, txs[n], seen[n], refs);
      DecisionsExtend(seen, DecisionsAfter(rules, full, height, txFront),
                      DecisionsAfter(rules, exact, height, seenFront),
                      TxDecision(rules, f, height, txs[n]), TxDecision(rules, e, height, seen[n]));
    } else {
      assert DecisionsAgree(seen, [], []);
    }
  }

  lemma DecisionsExtend(seen: seq<Transaction>, full: seq<Decision>, exact: seq<Decision>, f: Decision, e: Decision)
    requires seen != [] && DecisionsAgree(seen[..|seen| - 1], full, exact)
    requires seen[|seen| - 1].operation.Some? ==> e == f
    ensures DecisionsAgree(seen, full + [f], exact + [e])
  {
    var front := seen[..|seen| - 1];
    assert forall i :: 0 <= i < |front| ==> seen[i] == front[i];
  }

  lemma LastSeen(rules: Rules, target: NameId, seen: seq<Transaction>)
    requires seen != [] && OnlyTarget(rules, target, seen)
    ensures
      var n := |seen| - 1;
      && OnlyTarget(rules, target, seen[..n]) && OnlyTarget(rules, target, [seen[n]])
      && RevealReferences(seen[..n]) <= RevealReferences(seen)
      && (seen[n].operation.Some? && seen[n].operation.value.Reveal? ==>
            seen[n].operation.value.commit in RevealReferences(seen))
  {
    var front := seen[..|seen| - 1];
    forall r | r in RevealReferences(front) ensures r in RevealReferences(seen) {
      var i :| 0 <= i < |front| && front[i].operation.Some? && front[i].operation.value.Reveal?
               && front[i].operation.value.commit == r;
      assert seen[i] == front[i];
    }
  }

  lemma PositionsGrow(heads: map<NameId, Head>, commits: map<CommitRef, Commitment>, height: u32, a: int, b: int)
    requires a <= b && ProducedBefore(heads, height, a) && CommitsBefore(commits, height, a)
    ensures ProducedBefore(heads, height, b) && CommitsBefore(commits, height, b)
  {
  }

  /** One block: the resolver accepts what it is shown, agrees afterwards, and decides alike. */
  lemma BlockParity(rules: Rules, target: NameId, full: World, exact: World, link: Link, seen: Link)
    requires rules.parameters.Validated() && WorldOk(rules, full) && CheckLink(rules, full, link).None?
    requires Agrees(target, full, exact) && SeenBlock(rules, target, link.block, seen.block)
    requires OnlyTarget(rules, target, seen.block.transactions)
    requires Serves(StartRecords(rules, full.records, link).commits, exact.records.commits, rules.parameters,
                    seen.block, seen.evidence)
    ensures CheckLink(rules, exact, seen).None?
    ensures Agrees(target, Advance(rules, full, link), Advance(rules, exact, seen))
    ensures DecisionsAgree(seen.block.transactions, BlockDecisions(rules, full.records, link),
                           BlockDecisions(rules, exact.records, seen))
  {
    hide StartRecords, RecordsAfter, DecisionsAfter, RecordsOk, Serves, EvidenceError;
    LinkAdmitted(rules, target, full, exact, link, seen);
    StartAgrees(rules, target, full, exact, link, seen);
    StartOk(rules, full, link);
    CheckedOrder(rules, full, link);
    TxsAgree(rules, target, StartRecords(rules, full.records, link), StartRecords(rules, exact.records, seen),
             link.block.height, link.block.transactions, seen.block.transactions,
             RevealReferences(seen.block.transactions));
  }

  /** Block by block, what the resolver replays is a filtered view of the full chain, with evidence that serves. */
  ghost predicate ViewOf(rules: Rules, parent: Bytes32, target: NameId, full: seq<Link>, exact: seq<Link>)
    requires rules.parameters.epochBlocks > 0
  {
    && |exact| == |full|
    && (full == []
        || (var f, e := full[..|full| - 1], exact[..|exact| - 1];
            var link, seen := full[|full| - 1], exact[|exact| - 1];
            && ViewOf(rules, parent, target, f, e)
            && SeenBlock(rules, target, link.block, seen.block)
            && OnlyTarget(rules, target, seen.block.transactions)
            && Serves(StartRecords(rules, ReplayChain(rules, parent, f).records, link).commits,
                      ReplayChain(rules, parent, e).records.commits, rules.parameters, seen.block, seen.evidence)))
  }

  /**
   Exact replay of a view accepts every block and reaches, for the target, the head, lifecycle and
   address of full replay; its pending COMMITs are among the full ones.
   */
  lemma {:induction false} ExactParity(rules: Rules, parent: Bytes32, target: NameId, full: seq<Link>, exact: seq<Link>)
    requires rules.parameters.Validated() && ValidChain(rules, parent, full)
    requires ViewOf(rules, parent, target, full, exact)
    ensures ValidChain(rules, parent, exact)
    ensures Agrees(target, ReplayChain(rules, parent, full), ReplayChain(rules, parent, exact))
  {
    hide StartRecords, Advance, CheckLink, SeenBlock, OnlyTarget, Serves;
    if full != [] {
      var f, e := full[..|full| - 1], exact[..|exact| - 1];
      ExactParity(rules, parent, target, f, e);
      ChainOk(rules, parent, f);
      BlockParity(rules, target, ReplayChain(rules, parent, f), ReplayChain(rules, parent, e),
                  full[|full| - 1], exact[|exact| - 1]);
    }
  }

  /** Agreeing states resolve every spelling of the target alike. */
  lemma ResolutionParity(rules: Rules, target: NameId, full: World, exact: World, name: Name, height: u32)
    requires Agrees(target, full, exact) && rules.nameId(name) == Some(target)
    ensures ResolveAuthenticated(rules, exact, name, height) == ResolveAuthenticated(rules, full, name, height)
  {
    assert Lookup(exact.records.heads, target) == Lookup(full.records.heads, target);
  }

  // ---- why the evidence must be the name's own ----

  lemma {:induction false} SameEvidenceAdmitted(
    p: Parameters, full: map<CommitRef, Commitment>, exact: map<CommitRef, Commitment>, block: Block, seen: Block,
    evidence: seq<ReferencedCommit>)
    requires EvidenceError(p, full, block, evidence).None? && seen.height == block.height
    requires forall r :: r in exact ==> r in full && full[r] == exact[r]
    ensures EvidenceError(p, exact, seen, evidence).None?
            <==> forall i :: 0 <= i < |evidence| ==> evidence[i].reference in RevealReferences(seen.transactions)
    ensures EvidenceError(p, exact, seen, evidence) in {None, Some(InvalidReferencedCommit)}
  {
    hide RevealReferences;
    if evidence != [] {
      var front, last := evidence[..|evidence| - 1], evidence[|evidence| - 1];
      SameEvidenceAdmitted(p, full, exact, block, seen, front);
      assert forall i :: 0 <= i < |front| ==> front[i] == evidence[i];
      assert evidence[|front|] == last;
    }
  }

  /**
   Handed the very evidence full replay accepted, the resolver accepts the block exactly when every
   item belongs to a REVEAL left after filtering; an item for another name's REVEAL makes it refuse.
   */
  lemma FullEvidenceAdmittedIff(rules: Rules, target: NameId, full: World, exact: World, link: Link)
    requires CheckLink(rules, full, link).None? && Agrees(target, full, exact)
    ensures
      var seen := Link(FilterBlock(rules, target, link.block), link.evidence);
      var own := forall i :: 0 <= i < |link.evidence| ==>
        link.evidence[i].reference in RevealReferences(seen.block.transactions);
      CheckLink(rules, exact, seen) == if own then None else Some(InvalidReferencedCommit)
  {
    var seen := FilterBlock(rules, target, link.block);
    SameIndexErrors(link.block.transactions, seen.transactions);
    hide EvidenceError, IndexError;
    SameEvidenceAdmitted(rules.parameters, full.records.commits, exact.records.commits, link.block,
                         seen, link.evidence);
  }

  // ---- exactness ----

  /** Only the target is ever journaled by a block whose operations name only the target. */
  lemma {:induction false} TxsExactFor(rules: Rules, target: NameId, rec: Records, height: u32, txs: seq<Transaction>)
    requires rules.parameters.epochBlocks > 0
    requires OnlyTarget(rules, target, txs) && rec.heads.Keys <= {target}
    ensures RecordsAfter(rules, rec, height, txs).heads.Keys <= {target}
    ensures HeadsAfter(rules, rec, height, txs) <= {target}
  {
    if txs != [] {
      var front, last := txs[..|txs| - 1], txs[|txs| - 1];
      TxsExactFor(rules, target, rec, height, front);
      var middle := RecordsAfter(rules, rec, height, front);
      InstallsItsName(rules, middle, height, last);
      assert last.operation.Some? && !last.operation.value.Commit? ==>
        NamesTarget(rules, target, txs[|txs| - 1].operation.value);
      hide OperationEffect;
    }
  }

  lemma BlockExactFor(rules: Rules, target: NameId, w: World, link: Link)
    requires rules.parameters.epochBlocks > 0
    requires OnlyTarget(rules, target, link.block.transactions) && w.records.heads.Keys <= {target}
    ensures Advance(rules, w, link).records.heads.Keys <= {target}
    ensures BlockHeads(rules, w.records, link) <= {target}
  {
    hide RecordsAfter, HeadsAfter;
    TxsExactFor(rules, target, StartRecords(rules, w.records, link), link.block.height, link.block.transactions);
  }

  /** A chain of filtered blocks retains no head but the target's. */
  lemma {:induction false} ChainExactFor(rules: Rules, parent: Bytes32, target: NameId, chain: seq<Link>)
    requires rules.parameters.epochBlocks > 0
    requires forall i :: 0 <= i < |chain| ==> OnlyTarget(rules, target, chain[i].block.transactions)
    ensures ReplayChain(rules, parent, chain).records.heads.Keys <= {target}
  {
    hide Advance, OnlyTarget;
    if chain != [] {
      var front := chain[..|chain| - 1];
      ChainExactFor(rules, parent, target, front);
      BlockExactFor(rules, target, ReplayChain(rules, parent, front), chain[|chain| - 1]);
    }
  }
}
