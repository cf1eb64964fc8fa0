/**
 What holds in every state a chain of blocks can reach: bounds on heads and pending COMMITs, the
 single bucket a block start touches, and the exact meaning of a terminal height.
 */
module Lifecycles {
  import opened Collections
  import opened Protocol
  import opened Schedule
  import opened Replay
  import opened Journal
  import opened IndexedReducer

  // ---- bounds ----

  /** The bounds of a retained head once every event up to and including `height` is accounted for. */
  ghost predicate HeadOk(rules: Rules, height: u32, id: NameId, head: Head)
    requires rules.parameters.epochBlocks > 0
  {
    var p := rules.parameters;
    && rules.nameId(head.name) == Some(id)
    && p.activationHeight <= head.producer.height <= height
    && p.Epoch(head.producer.height) == Ok(head.producerEpoch)
    && p.Expiry(head.producer.height) == Ok(head.expiryHeight)
    && match head.terminalHeight
       case None => height < head.expiryHeight
       case Some(t) =>
         head.producer.height <= t <= height && t <= head.expiryHeight && height < t + p.cooldownBlocks
  }

  ghost predicate CommitOk(rules: Rules, height: u32, r: CommitRef) {
    rules.parameters.activationHeight <= r.height <= height
    && height < r.height + rules.parameters.commitTtlBlocks
  }

  ghost predicate RecordsOk(rules: Rules, height: u32, rec: Records)
    requires rules.parameters.epochBlocks > 0
  {
    && (forall id :: id in rec.heads ==> HeadOk(rules, height, id, rec.heads[id]))
    && (forall r :: r in rec.commits ==> CommitOk(rules, height, r))
  }

  ghost predicate WorldOk(rules: Rules, w: World)
    requires rules.parameters.epochBlocks > 0
  {
    match w.tipHeight
    case None =>
      w.records == Records(map[], map[]) && w.nextHeight == Some(rules.parameters.activationHeight)
    case Some(tip) =>
      && rules.parameters.activationHeight <= tip
      && w.nextHeight == CheckedAdd(tip, 1)
      && RecordsOk(rules, tip, w.records)
  }

  /** The reference points strictly before a transaction position. */
  predicate Earlier(ref: StateRef, height: u32, txIndex: int) {
    ref.height < height || (ref.height == height && ref.txIndex < txIndex)
  }

  ghost predicate ProducedBefore(heads: map<NameId, Head>, height: u32, txIndex: int) {
    forall id :: id in heads ==> Earlier(heads[id].producer, height, txIndex)
  }

  ghost predicate CommitsBefore(commits: map<CommitRef, Commitment>, height: u32, txIndex: int) {
    forall r :: r in commits ==> r.height < height || (r.height == height && r.txIndex < txIndex)
  }

  /** The position after the last of these transactions. */
  function NextPosition(txs: seq<Transaction>): int {
    if txs == [] then 0 else txs[|txs| - 1].txIndex + 1
  }

  /** A name's head after the start of a block: marked if its lease ends, gone if its cooldown is over. */
  function Opened(p: Parameters, height: u32, head: Head): Option<Head> {
    var marked := Marked(head, height);
    if Compactable(p, marked, height) then None else Some(marked)
  }

  lemma StartLookup(rules: Rules, rec: Records, link: Link, id: NameId)
    ensures Lookup(StartRecords(rules, rec, link).heads, id)
            == if id in rec.heads then Opened(rules.parameters, link.block.height, rec.heads[id]) else None
  {
  }

  lemma OpenedOk(rules: Rules, tip: u32, id: NameId, head: Head)
    requires rules.parameters.Validated() && HeadOk(rules, tip, id, head) && tip + 1 < U32_LIMIT
    ensures
      var begun := Opened(rules.parameters, tip + 1, head);
      && (begun.Some? ==> HeadOk(rules, tip + 1, id, begun.value))
      && (begun.Some? ==> begun.value.(terminalHeight := head.terminalHeight) == head)
      && (head.terminalHeight.Some? && begun.Some? ==> begun.value == head)
      && (head.terminalHeight.None? ==>
            begun.Some? && begun.value.terminalHeight
              == if head.expiryHeight == tip + 1 then Some((tip + 1) as u32) else None)
      && (begun.None? ==> head.terminalHeight.Some?)
      && (begun.None? ==> head.terminalHeight.value + rules.parameters.cooldownBlocks == tip + 1)
  {
  }

  lemma EvidenceOk(p: Parameters, commits: map<CommitRef, Commitment>, block: Block, evidence: seq<ReferencedCommit>)
    requires EvidenceError(p, commits, block, evidence).None?
    ensures forall r :: r in EvidenceMap(evidence) ==>
      && r in RevealReferences(block.transactions)
      && p.activationHeight <= r.height < block.height < r.height + p.commitTtlBlocks
      && (r in commits ==> commits[r] == EvidenceMap(evidence)[r])
  {
  }

  /** The start of an accepted block keeps the bounds, now at the height of the block. */
  lemma StartOk(rules: Rules, w: World, link: Link)
    requires rules.parameters.Validated() && WorldOk(rules, w) && CheckLink(rules, w, link).None?
    ensures rules.parameters.activationHeight <= link.block.height
    ensures RecordsOk(rules, link.block.height, StartRecords(rules, w.records, link))
    ensures ProducedBefore(StartRecords(rules, w.records, link).heads, link.block.height, 0)
  {
    var start, height := StartRecords(rules, w.records, link), link.block.height;
    forall id | id in start.heads
      ensures HeadOk(rules, height, id, start.heads[id]) && Earlier(start.heads[id].producer, height, 0)
    {
      StartLookup(rules, w.records, link, id);
      OpenedOk(rules, w.tipHeight.value, id, w.records.heads[id]);
    }
    EvidenceOk(rules.parameters, w.records.commits, link.block, link.evidence);
  }

  /** An operation that installs a head does so within bounds, at its own transaction's position. */
  lemma InstalledOk(rules: Rules, rec: Records, height: u32, tx: Transaction)
    requires rules.parameters.Validated() && rules.parameters.activationHeight <= height
    requires OperationEffect(rules, rec, height, tx).PutHead?
    ensures
      var effect := OperationEffect(rules, rec, height, tx);
      && HeadOk(rules, height, effect.nameId, effect.head)
      && effect.head.terminalHeight.None?
      && effect.head.producer.height == height && effect.head.producer.txIndex == tx.txIndex
      && effect.head.producer.txid == tx.txid
      && effect.head.producer.actionIndex < |tx.actions|
      && (effect.kind.AcceptedReveal? ==> effect.nameId !in rec.heads)
      && (effect.kind.AcceptedRefresh? ==>
            && effect.nameId in rec.heads && rec.heads[effect.nameId].terminalHeight.None?
            && rec.heads[effect.nameId].producerEpoch < effect.head.producerEpoch)
      && !effect.kind.AcceptedCommit?
  {
  }

  /**
   The spend pass never touches the head its own transaction installed: an accepted REFRESH is not
   terminated by spending its predecessor, nor an accepted REVEAL by anything before it.
   */
  lemma InstalledHeadSurvives(rules: Rules, rec: Records, height: u32, tx: Transaction)
    requires rules.parameters.Validated() && rules.parameters.activationHeight <= height
    requires ProducedBefore(rec.heads, height, tx.txIndex)
    requires OperationEffect(rules, rec, height, tx).PutHead?
    ensures
      var effect := OperationEffect(rules, rec, height, tx);
      Lookup(TxRecords(rules, rec, height, tx).heads, effect.nameId) == Some(effect.head)
  {
    InstalledOk(rules, rec, height, tx);
    hide OperationEffect;
    var effect := OperationEffect(rules, rec, height, tx);
    var middle := AfterEffect(rec, effect);
    if effect.nameId in rec.heads {
      assert Earlier(rec.heads[effect.nameId].producer, height, tx.txIndex);
      assert !StillSpent(rec.heads, middle.heads, tx, effect.nameId);
    }
  }

  /** What one transaction does to the head of a name it does not install. */
  lemma OtherHeadAfterTx(rules: Rules, rec: Records, height: u32, tx: Transaction, id: NameId)
    requires rules.parameters.epochBlocks > 0
    requires
      var effect := OperationEffect(rules, rec, height, tx);
      !effect.PutHead? || effect.nameId != id
    ensures
      Lookup(TxRecords(rules, rec, height, tx).heads, id)
      == if id !in rec.heads then None
         else if rec.heads[id].terminalHeight.None? && Carries(tx, rec.heads[id].futureNf)
         then Some(rec.heads[id].(terminalHeight := Some(height)))
         else Some(rec.heads[id])
  {
    hide OperationEffect;
    var middle := AfterEffect(rec, OperationEffect(rules, rec, height, tx));
    assert Lookup(middle.heads, id) == Lookup(rec.heads, id);
  }

  lemma CommitsAfterTx(rules: Rules, rec: Records, height: u32, tx: Transaction)
    requires rules.parameters.epochBlocks > 0
    ensures TxRecords(rules, rec, height, tx).commits
            == if tx.operation.Some? && tx.operation.value.Commit?
               then rec.commits[CommitRef(height, tx.txIndex, tx.txid) := tx.operation.value.commitment]
               else rec.commits
  {
  }

  lemma PrefixOrdered(txs: seq<Transaction>, n: nat)
    requires IndexError(txs).None? && n <= |txs|
    ensures IndexError(txs[..n]).None?
    ensures n < |txs| ==> NextPosition(txs[..n]) <= txs[n].txIndex
    decreases |txs|
  {
    if n == |txs| {
      assert txs[..n] == txs;
    } else {
      var front := txs[..|txs| - 1];
      assert front[..n] == txs[..n];
      PrefixOrdered(front, n);
    }
  }

  lemma ProducedEarlier(heads: map<NameId, Head>, height: u32, a: int, b: int)
    requires ProducedBefore(heads, height, a) && a <= b
    ensures ProducedBefore(heads, height, b)
  {
  }

  lemma TxOk(rules: Rules, rec: Records, height: u32, tx: Transaction)
    requires rules.parameters.Validated() && rules.parameters.activationHeight <= height
    requires RecordsOk(rules, height, rec) && ProducedBefore(rec.heads, height, tx.txIndex)
    ensures RecordsOk(rules, height, TxRecords(rules, rec, height, tx))
    ensures ProducedBefore(TxRecords(rules, rec, height, tx).heads, height, tx.txIndex + 1)
  {
    var effect, after := OperationEffect(rules, rec, height, tx), TxRecords(rules, rec, height, tx);
    assert after.commits == AfterEffect(rec, effect).commits;
    assert forall r :: r in after.commits ==> r in rec.commits || r.height == height;
    forall id | id in after.heads
      ensures HeadOk(rules, height, id, after.heads[id])
      ensures Earlier(after.heads[id].producer, height, tx.txIndex + 1)
    {
      hide TxRecords, OperationEffect;
      if effect.PutHead? && effect.nameId == id {
        InstalledHeadSurvives(rules, rec, height, tx);
        InstalledOk(rules, rec, height, tx);
      } else {
        OtherHeadAfterTx(rules, rec, height, tx, id);
        assert Earlier(rec.heads[id].producer, height, tx.txIndex);
        assert HeadOk(rules, height, id, rec.heads[id]);
      }
    }
  }

  lemma {:induction false} TxsOk(rules: Rules, rec: Records, height: u32, txs: seq<Transaction>)
    requires rules.parameters.Validated() && rules.parameters.activationHeight <= height
    requires IndexError(txs).None?
    requires RecordsOk(rules, height, rec) && ProducedBefore(rec.heads, height, 0)
    ensures RecordsOk(rules, height, RecordsAfter(rules, rec, height, txs))
    ensures ProducedBefore(RecordsAfter(rules, rec, height, txs).heads, height, NextPosition(txs))
  {
    hide TxRecords, RecordsOk;
    if txs != [] {
      var front, last := txs[..|txs| - 1], txs[|txs| - 1];
      TxsOk(rules, rec, height, front);
      var middle := RecordsAfter(rules, rec, height, front);
      assert NextPosition(front) <= last.txIndex;
      assert ProducedBefore(middle.heads, height, last.txIndex);
      TxOk(rules, middle, height, last);
    }
  }

  lemma AdvanceOk(rules: Rules, w: World, link: Link)
    requires rules.parameters.Validated() && WorldOk(rules, w) && CheckLink(rules, w, link).None?
    ensures WorldOk(rules, Advance(rules, w, link))
  {
    hide RecordsOk, RecordsAfter, StartRecords;
    StartOk(rules, w, link);
    TxsOk(rules, StartRecords(rules, w.records, link), link.block.height, link.block.transactions);
  }

  /** Every state a valid chain reaches is within bounds. */
  lemma {:induction false} ChainOk(rules: Rules, parent: Bytes32, chain: seq<Link>)
    requires rules.parameters.Validated() && ValidChain(rules, parent, chain)
    ensures WorldOk(rules, ReplayChain(rules, parent, chain))
  {
    if chain != [] {
      var front := chain[..|chain| - 1];
      ChainOk(rules, parent, front);
      AdvanceOk(rules, ReplayChain(rules, parent, front), chain[|chain| - 1]);
    }
  }

  /** So is every state reached by applying, rolling back and finalizing in any order. */
  lemma ReachableOk(rules: Rules, parent: Bytes32, events: seq<Event>)
    requires rules.parameters.Validated()
    ensures WorldOk(rules, CoreRun(rules, parent, events).world)
  {
    PathIndependence(rules, parent, events);
    ChainOk(rules, parent, BranchRun(rules, parent, events).chain);
  }

  /** At the tip, a name resolves as Missing exactly when no head is retained for it. */
  lemma MissingIffNoHead(rules: Rules, w: World, name: Name, tip: u32)
    requires rules.parameters.Validated() && WorldOk(rules, w) && w.tipHeight == Some(tip)
    ensures
      var r := ResolveAuthenticated(rules, w, name, tip);
      && r.Ok?
      && (r.value.lifecycle.Missing? <==> rules.nameId(name).None? || rules.nameId(name).value !in w.records.heads)
      && (r.value.ua.Some? <==> r.value.lifecycle.Active?)
  {
    if rules.nameId(name).Some? && rules.nameId(name).value in w.records.heads {
      assert HeadOk(rules, tip, rules.nameId(name).value, w.records.heads[rules.nameId(name).value]);
    }
  }

  /**
   In every reachable state the next block marks, compacts and prunes from a single bucket each,
   so the compaction report is in ascending name order although the code visits heights first.
   */
  lemma OneBucketPerBlock(rules: Rules, w: World, link: Link, cs: seq<Compaction>)
    requires rules.parameters.Validated() && WorldOk(rules, w) && CheckLink(rules, w, link).None?
    requires ReportsCompactions(rules.parameters, MarkExpired(w.records.heads, link.block.height),
                                link.block.height, cs)
    ensures
      var p, height, marked := rules.parameters, link.block.height, MarkExpired(w.records.heads, link.block.height);
      && (forall id :: id in w.records.heads && Expires(w.records.heads[id], height) ==>
            w.records.heads[id].expiryHeight == height)
      && (forall id :: id in marked && Compactable(p, marked[id], height) ==>
            marked[id].terminalHeight.value + p.cooldownBlocks == height)
      && (forall r :: r in w.records.commits && Prunable(p, r, height) ==> r.height + p.commitTtlBlocks == height)
      && (forall i, j :: 0 <= i < j < |cs| ==> cs[i].nameId < cs[j].nameId)
  {
    var p, height, marked := rules.parameters, link.block.height, MarkExpired(w.records.heads, link.block.height);
    forall id | id in marked && Compactable(p, marked[id], height)
      ensures marked[id].terminalHeight.value + p.cooldownBlocks == height
    {
      assert HeadOk(rules, w.tipHeight.value, id, w.records.heads[id]);
    }
    forall id | id in w.records.heads && Expires(w.records.heads[id], height)
      ensures w.records.heads[id].expiryHeight == height
    {
      assert HeadOk(rules, w.tipHeight.value, id, w.records.heads[id]);
    }
    assert forall i :: 0 <= i < |cs| ==> cs[i].nameId in marked && Compactable(p, marked[cs[i].nameId], height);
  }

  // ---- the meaning of a terminal height ----

  /** Some transaction of the list, after the head's own, carries its future nullifier. */
  ghost predicate SpendsIn(height: u32, txs: seq<Transaction>, head: Head) {
    exists i :: 0 <= i < |txs| && Earlier(head.producer, height, txs[i].txIndex) && Carries(txs[i], head.futureNf)
  }

  ghost predicate Spends(block: Block, head: Head) {
    SpendsIn(block.height, block.transactions, head)
  }

  /** The head's lease ends, or some block of the chain spends it, at this height. */
  ghost predicate EndsAt(chain: seq<Link>, head: Head, height: u32) {
    height == head.expiryHeight
    || exists i :: 0 <= i < |chain| && chain[i].block.height == height && Spends(chain[i].block, head)
  }

  /** `EndsAt` within a chain and the transactions of a next block processed so far. */
  ghost predicate EndsBy(chain: seq<Link>, height: u32, txs: seq<Transaction>, head: Head, end: u32) {
    EndsAt(chain, head, end) || (end == height && SpendsIn(height, txs, head))
  }

  /** The terminal height is the least end up to now; without one, nothing has ended the head. */
  ghost predicate TerminalExact(chain: seq<Link>, height: u32, txs: seq<Transaction>, head: Head) {
    match head.terminalHeight
    case None => forall end: u32 :: end <= height ==> !EndsBy(chain, height, txs, head, end)
    case Some(t) =>
      t <= height && EndsBy(chain, height, txs, head, t)
      && forall end: u32 :: EndsBy(chain, height, txs, head, end) ==> t <= end
  }

  ghost predicate AllExact(chain: seq<Link>, height: u32, txs: seq<Transaction>, heads: map<NameId, Head>) {
    forall id :: id in heads ==> TerminalExact(chain, height, txs, heads[id])
  }

  lemma SpendsMore(height: u32, txs: seq<Transaction>, tx: Transaction, head: Head)
    ensures SpendsIn(height, txs + [tx], head)
            <==> SpendsIn(height, txs, head)
                 || (Earlier(head.producer, height, tx.txIndex) && Carries(tx, head.futureNf))
  {
    var more := txs + [tx];
    if SpendsIn(height, txs, head) {
      var i :| 0 <= i < |txs| && Earlier(head.producer, height, txs[i].txIndex) && Carries(txs[i], head.futureNf);
      assert more[i] == txs[i];
    }
    if Earlier(head.producer, height, tx.txIndex) && Carries(tx, head.futureNf) {
      assert more[|txs|] == tx;
    }
  }

  /** A head that only gained a terminal height is spent by the same transactions. */
  lemma SpendsIgnoresTerminal(chain: seq<Link>, height: u32, txs: seq<Transaction>, head: Head,
                              t: Option<u32>, end: u32)
    ensures EndsBy(chain, height, txs, head.(terminalHeight := t), end) == EndsBy(chain, height, txs, head, end)
  {
    var other := head.(terminalHeight := t);
    assert forall b: Block :: Spends(b, other) == Spends(b, head) by {
      forall b: Block ensures Spends(b, other) == Spends(b, head) {
        SameSpends(b.height, b.transactions, head, t);
      }
    }
    SameSpends(height, txs, head, t);
  }

  lemma SameSpends(height: u32, txs: seq<Transaction>, head: Head, t: Option<u32>)
    ensures SpendsIn(height, txs, head.(terminalHeight := t)) == SpendsIn(height, txs, head)
  {
  }

  /** Nothing in the chain ends a head produced by the last transaction processed, except its lease. */
  lemma FreshHeadExact(rules: Rules, parent: Bytes32, chain: seq<Link>, height: u32, txs: seq<Transaction>, head: Head)
    requires rules.parameters.epochBlocks > 0 && ValidChain(rules, parent, chain)
    requires height == rules.parameters.activationHeight + |chain|
    requires txs != [] && IndexError(txs).None?
    requires head.producer.height == height && head.producer.txIndex == txs[|txs| - 1].txIndex
    requires head.terminalHeight.None? && height < head.expiryHeight
    ensures TerminalExact(chain, height, txs, head)
  {
    ChainHeights(rules, parent, chain);
    IndexesAscend(txs);
    forall i | 0 <= i < |chain| ensures !Spends(chain[i].block, head) {
    }
  }

  lemma {:induction false} IndexesAscend(txs: seq<Transaction>)
    requires IndexError(txs).None?
    ensures forall i :: 0 <= i < |txs| ==> txs[i].txIndex <= txs[|txs| - 1].txIndex
    ensures forall i :: 0 <= i < |txs| - 1 ==> txs[i].txIndex < txs[|txs| - 1].txIndex
  {
    if txs != [] {
      var front := txs[..|txs| - 1];
      IndexesAscend(front);
      forall i | 0 <= i < |txs| - 1 ensures txs[i].txIndex < txs[|txs| - 1].txIndex {
        assert txs[i] == front[i];
      }
    }
  }

  lemma TxExact(rules: Rules, parent: Bytes32, chain: seq<Link>, rec: Records, height: u32,
                front: seq<Transaction>, tx: Transaction)
    requires rules.parameters.Validated() && ValidChain(rules, parent, chain)
    requires height == rules.parameters.activationHeight + |chain|
    requires IndexError(front + [tx]).None?
    requires RecordsOk(rules, height, rec) && ProducedBefore(rec.heads, height, tx.txIndex)
    requires AllExact(chain, height, front, rec.heads)
    ensures AllExact(chain, height, front + [tx], TxRecords(rules, rec, height, tx).heads)
  {
    hide OperationEffect, TxRecords, EndsAt, ValidChain, ReplayChain;
    var effect, after := OperationEffect(rules, rec, height, tx), TxRecords(rules, rec, height, tx);
    var txs := front + [tx];
    forall id | id in after.heads ensures TerminalExact(chain, height, txs, after.heads[id]) {
      if effect.PutHead? && effect.nameId == id {
        InstalledHeadSurvives(rules, rec, height, tx);
        InstalledOk(rules, rec, height, tx);
        FreshHeadExact(rules, parent, chain, height, txs, effect.head);
      } else {
        OtherHeadAfterTx(rules, rec, height, tx, id);
        assert Earlier(rec.heads[id].producer, height, tx.txIndex);
        assert HeadOk(rules, height, id, rec.heads[id]);
        OtherHeadExact(rules, chain, height, front, tx, id, rec.heads[id], after.heads[id]);
      }
    }
  }

  lemma OtherHeadExact(rules: Rules, chain: seq<Link>, height: u32, front: seq<Transaction>, tx: Transaction,
                       id: NameId, was: Head, now: Head)
    requires rules.parameters.epochBlocks > 0 && HeadOk(rules, height, id, was)
    requires Earlier(was.producer, height, tx.txIndex)
    requires TerminalExact(chain, height, front, was)
    requires now == if was.terminalHeight.None? && Carries(tx, was.futureNf)
                    then was.(terminalHeight := Some(height)) else was
    ensures TerminalExact(chain, height, front + [tx], now)
  {
    hide EndsAt, SpendsIn, Carries;
    var txs := front + [tx];
    SpendsMore(height, front, tx, was);
    forall end: u32
      ensures EndsBy(chain, height, txs, now, end)
              == (EndsBy(chain, height, front, was, end) || (end == height && Carries(tx, was.futureNf)))
    {
      SpendsIgnoresTerminal(chain, height, txs, was, now.terminalHeight, end);
    }
    assert EndsBy(chain, height, txs, now, height)
        == (EndsBy(chain, height, front, was, height) || Carries(tx, was.futureNf));
  }

  lemma {:induction false} TxsExact(rules: Rules, parent: Bytes32, chain: seq<Link>, rec: Records, height: u32,
                                    txs: seq<Transaction>)
    requires rules.parameters.Validated() && ValidChain(rules, parent, chain)
    requires height == rules.parameters.activationHeight + |chain|
    requires IndexError(txs).None?
    requires RecordsOk(rules, height, rec) && ProducedBefore(rec.heads, height, 0)
    requires AllExact(chain, height, [], rec.heads)
    ensures AllExact(chain, height, txs, RecordsAfter(rules, rec, height, txs).heads)
  {
    hide TxRecords, RecordsOk, AllExact, ValidChain, ReplayChain, ProducedBefore, IndexError;
    if txs != [] {
      var front, last := txs[..|txs| - 1], txs[|txs| - 1];
      PrefixOrdered(txs, |txs| - 1);
      TxsExact(rules, parent, chain, rec, height, front);
      TxsOk(rules, rec, height, front);
      ProducedEarlier(RecordsAfter(rules, rec, height, front).heads, height, NextPosition(front), last.txIndex);
      assert txs == front + [last];
      TxExact(rules, parent, chain, RecordsAfter(rules, rec, height, front), height, front, last);
    }
  }

  lemma EndsWithoutTxs(chain: seq<Link>, height: u32, head: Head, t: Option<u32>, end: u32)
    ensures EndsBy(chain, height, [], head.(terminalHeight := t), end) == EndsAt(chain, head, end)
    ensures EndsAt(chain, head, head.expiryHeight)
  {
    hide EndsAt;
    SpendsIgnoresTerminal(chain, height, [], head, t, end);
    LeaseEnds(chain, head);
  }

  lemma LeaseEnds(chain: seq<Link>, head: Head)
    ensures EndsAt(chain, head, head.expiryHeight)
  {
  }

  /** A head that survives the start of a block keeps an exact terminal height. */
  lemma BegunExact(rules: Rules, chain: seq<Link>, tip: u32, id: NameId, head: Head)
    requires rules.parameters.Validated() && HeadOk(rules, tip, id, head) && tip + 1 < U32_LIMIT
    requires forall i :: 0 <= i < |chain| ==> chain[i].block.height <= tip
    requires TerminalExact(chain, tip, [], head)
    requires Opened(rules.parameters, tip + 1, head).Some?
    ensures TerminalExact(chain, tip + 1, [], Opened(rules.parameters, tip + 1, head).value)
  {
    var next: u32 := tip + 1;
    var begun := Opened(rules.parameters, next, head).value;
    OpenedOk(rules, tip, id, head);
    assert EndsAt(chain, head, tip + 1) ==> head.expiryHeight == tip + 1;
    hide EndsAt, EndsBy, Opened;
    forall end: u32
      ensures EndsBy(chain, next, [], begun, end) == EndsBy(chain, tip, [], head, end) == EndsAt(chain, head, end)
    {
      EndsWithoutTxs(chain, tip + 1, head, begun.terminalHeight, end);
      EndsWithoutTxs(chain, tip, head, head.terminalHeight, end);
    }
    EndsWithoutTxs(chain, tip + 1, head, begun.terminalHeight, head.expiryHeight);
    if head.terminalHeight.Some? {
      assert begun == head;
      assert EndsBy(chain, next, [], begun, head.terminalHeight.value);
    } else {
      forall end: u32 | end <= tip ensures !EndsBy(chain, next, [], begun, end) {
        assert !EndsBy(chain, tip, [], head, end);
      }
    }
  }

  lemma ChainGrows(chain: seq<Link>, link: Link, head: Head, end: u32)
    ensures EndsAt(chain + [link], head, end) == EndsBy(chain, link.block.height, link.block.transactions, head, end)
  {
    var longer := chain + [link];
    if i :| 0 <= i < |chain| && chain[i].block.height == end && Spends(chain[i].block, head) {
      assert longer[i] == chain[i];
    }
    if end == link.block.height && Spends(link.block, head) {
      assert longer[|chain|] == link;
    }
  }

  lemma {:induction false} ChainExact(rules: Rules, parent: Bytes32, chain: seq<Link>)
    requires rules.parameters.Validated() && ValidChain(rules, parent, chain) && chain != []
    ensures AllExact(chain, chain[|chain| - 1].block.height, [], ReplayChain(rules, parent, chain).records.heads)
    decreases |chain|, 0
  {
    hide RecordsOk, EndsAt, SpendsIn, RecordsAfter, StartRecords, CheckLink;
    var front, link := chain[..|chain| - 1], chain[|chain| - 1];
    var w, height := ReplayChain(rules, parent, front), link.block.height;
    ChainHeights(rules, parent, chain);
    ChainHeights(rules, parent, front);
    ChainOk(rules, parent, front);
    StartOk(rules, w, link);
    var start := StartRecords(rules, w.records, link);
    assert AllExact(front, height, [], start.heads) by {
      StartExact(rules, parent, front, link);
    }
    CheckedOrder(rules, w, link);
    TxsExact(rules, parent, front, start, height, link.block.transactions);
    var heads := ReplayChain(rules, parent, chain).records.heads;
    forall id | id in heads ensures TerminalExact(chain, height, [], heads[id]) {
      assert TerminalExact(front, height, link.block.transactions, heads[id]);
      assert chain == front + [link];
      forall end: u32
        ensures EndsBy(chain, height, [], heads[id], end)
                == EndsBy(front, height, link.block.transactions, heads[id], end)
      {
        ChainGrows(front, link, heads[id], end);
        NothingSpends(height, heads[id]);
      }
    }
  }

  lemma NothingSpends(height: u32, head: Head)
    ensures !SpendsIn(height, [], head)
  {
  }

  lemma CheckedOrder(rules: Rules, w: World, link: Link)
    requires CheckLink(rules, w, link).None?
    ensures IndexError(link.block.transactions).None?
  {
  }

  lemma StartExact(rules: Rules, parent: Bytes32, front: seq<Link>, link: Link)
    requires rules.parameters.Validated() && ValidChain(rules, parent, front)
    requires CheckLink(rules, ReplayChain(rules, parent, front), link).None?
    ensures AllExact(front, link.block.height, [],
                     StartRecords(rules, ReplayChain(rules, parent, front).records, link).heads)
    decreases |front|, 1
  {
    hide TerminalExact, RecordsAfter, StartRecords, Advance;
    var w, height := ReplayChain(rules, parent, front), link.block.height;
    var start := StartRecords(rules, w.records, link);
    ChainHeights(rules, parent, front);
    ChainOk(rules, parent, front);
    if front != [] {
      ChainExact(rules, parent, front);
    }
    forall id | id in start.heads ensures TerminalExact(front, height, [], start.heads[id]) {
      StartLookup(rules, w.records, link, id);
      assert HeadOk(rules, w.tipHeight.value, id, w.records.heads[id]);
      hide HeadOk, Opened, RecordsOk, ReplayChain, ValidChain;
      BegunExact(rules, front, w.tipHeight.value, id, w.records.heads[id]);
    }
  }

  /**
   The terminal height of a retained head is the least height, up to the tip, at which its lease
   ended or a transaction after its producer spent it, whatever operation that transaction carried.
   */
  lemma TerminalIsFirstEnd(rules: Rules, parent: Bytes32, chain: seq<Link>, id: NameId, t: u32)
    requires rules.parameters.Validated() && ValidChain(rules, parent, chain)
    requires id in ReplayChain(rules, parent, chain).records.heads
    ensures
      var w := ReplayChain(rules, parent, chain);
      var head := w.records.heads[id];
      head.terminalHeight == Some(t)
      <==> w.tipHeight.Some? && t <= w.tipHeight.value && EndsAt(chain, head, t)
           && forall end: u32 :: EndsAt(chain, head, end) ==> t <= end
  {
    hide EndsAt, CheckLink, Advance;
    var w := ReplayChain(rules, parent, chain);
    ChainHeights(rules, parent, chain);
    assert chain != [];
    ChainExact(rules, parent, chain);
    var head := w.records.heads[id];
    assert TerminalExact(chain, w.tipHeight.value, [], head);
    forall end: u32 ensures EndsBy(chain, w.tipHeight.value, [], head, end) == EndsAt(chain, head, end) {
      NothingSpends(w.tipHeight.value, head);
    }
  }
}
