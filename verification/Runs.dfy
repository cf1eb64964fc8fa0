/** Safety of names over whole forward runs: the quarantine between registrations, and epochs. */
module Runs {
  import opened Collections
  import opened Protocol
  import opened Schedule
  import opened Replay
  import opened Journal
  import opened Lifecycles

  // ---- one name through one block ----

  /** The records just before one transaction of one block of the chain. */
  function RecordsBefore(rules: Rules, parent: Bytes32, chain: seq<Link>, k: nat, j: nat): Records
    requires rules.parameters.epochBlocks > 0 && k < |chain| && j <= |chain[k].block.transactions|
  {
    RecordsAfter(rules, StartRecords(rules, ReplayChain(rules, parent, chain[..k]).records, chain[k]),
                 chain[k].block.height, chain[k].block.transactions[..j])
  }

  /** Transaction `j` of block `k` carries an accepted REVEAL or REFRESH of the name. */
  predicate Installs(rules: Rules, parent: Bytes32, chain: seq<Link>, k: int, j: int, id: NameId, kind: Accepted)
    requires rules.parameters.epochBlocks > 0
  {
    && 0 <= k < |chain| && 0 <= j < |chain[k].block.transactions|
    && var effect := OperationEffect(rules, RecordsBefore(rules, parent, chain, k, j),
                                     chain[k].block.height, chain[k].block.transactions[j]);
       effect.PutHead? && effect.nameId == id && effect.kind == kind
  }

  /** What one transaction can do to a retained head: keep it, replace it by a refresh, or end it now. */
  lemma RetainedThroughTx(rules: Rules, rec: Records, height: u32, tx: Transaction, id: NameId)
    requires rules.parameters.Validated() && rules.parameters.activationHeight <= height
    requires ProducedBefore(rec.heads, height, tx.txIndex) && id in rec.heads
    ensures
      var effect, after := OperationEffect(rules, rec, height, tx), TxRecords(rules, rec, height, tx).heads;
      && !(effect.PutHead? && effect.nameId == id && effect.kind.AcceptedReveal?)
      && id in after
      && (rec.heads[id].terminalHeight.Some? ==> after[id] == rec.heads[id])
      && (after[id].terminalHeight.Some? ==>
            after[id] == rec.heads[id] || after[id].terminalHeight == Some(height))
  {
    hide OperationEffect, TxRecords;
    var effect := OperationEffect(rules, rec, height, tx);
    if effect.PutHead? && effect.nameId == id {
      InstalledOk(rules, rec, height, tx);
      InstalledHeadSurvives(rules, rec, height, tx);
    } else {
      OtherHeadAfterTx(rules, rec, height, tx, id);
    }
  }

  lemma {:induction false} RetainedThroughTxs(rules: Rules, rec: Records, height: u32, txs: seq<Transaction>,
                                              id: NameId)
    requires rules.parameters.Validated() && rules.parameters.activationHeight <= height
    requires IndexError(txs).None? && RecordsOk(rules, height, rec) && ProducedBefore(rec.heads, height, 0)
    requires id in rec.heads
    ensures
      var after := RecordsAfter(rules, rec, height, txs).heads;
      && id in after
      && (rec.heads[id].terminalHeight.Some? ==> after[id] == rec.heads[id])
      && (after[id].terminalHeight.Some? ==>
            after[id] == rec.heads[id] || after[id].terminalHeight == Some(height))
  {
    hide TxRecords, RecordsOk, OperationEffect;
    if txs != [] {
      var front, last := txs[..|txs| - 1], txs[|txs| - 1];
      RetainedThroughTxs(rules, rec, height, front, id);
      TxsOk(rules, rec, height, front);
      assert NextPosition(front) <= last.txIndex;
      RetainedThroughTx(rules, RecordsAfter(rules, rec, height, front), height, last, id);
    }
  }

  /** The records before any transaction of an accepted block are within bounds. */
  lemma BeforeOk(rules: Rules, parent: Bytes32, chain: seq<Link>, k: nat, j: nat)
    requires rules.parameters.Validated() && ValidChain(rules, parent, chain)
    requires k < |chain| && j <= |chain[k].block.transactions|
    ensures
      var height, txs := chain[k].block.height, chain[k].block.transactions;
      var start := StartRecords(rules, ReplayChain(rules, parent, chain[..k]).records, chain[k]);
      && height == rules.parameters.activationHeight + k
      && IndexError(txs).None? && IndexError(txs[..j]).None?
      && RecordsOk(rules, height, start) && ProducedBefore(start.heads, height, 0)
      && RecordsOk(rules, height, RecordsBefore(rules, parent, chain, k, j))
      && (j < |txs| ==> ProducedBefore(RecordsBefore(rules, parent, chain, k, j).heads, height, txs[j].txIndex))
  {
    hide RecordsOk, StartRecords, Advance;
    var w := ReplayChain(rules, parent, chain[..k]);
    PrefixValid(rules, parent, chain, k);
    ChainHeights(rules, parent, chain);
    ChainOk(rules, parent, chain[..k]);
    StartOk(rules, w, chain[k]);
    CheckedOrder(rules, w, chain[k]);
    PrefixOrdered(chain[k].block.transactions, j);
    TxsOk(rules, StartRecords(rules, w.records, chain[k]), chain[k].block.height, chain[k].block.transactions[..j]);
  }

  // ---- quarantine ----

  /** The head retained for a name once `n` blocks of the chain have been applied. */
  function HeadAt(rules: Rules, parent: Bytes32, chain: seq<Link>, n: nat, id: NameId): Option<Head>
    requires rules.parameters.epochBlocks > 0 && n <= |chain|
  {
    Lookup(ReplayChain(rules, parent, chain[..n]).records.heads, id)
  }

  /** Resolution of the name at the `n`-th tip, which has the height of its last block. */
  function ResolvedAt(rules: Rules, parent: Bytes32, chain: seq<Link>, n: nat, id: NameId): Resolution
    requires rules.parameters.epochBlocks > 0 && 0 < n <= |chain|
  {
    ResolveHead(rules.parameters, HeadAt(rules, parent, chain, n, id), chain[n - 1].block.height)
  }

  predicate ActiveAt(rules: Rules, parent: Bytes32, chain: seq<Link>, n: nat, id: NameId)
    requires rules.parameters.epochBlocks > 0 && 0 < n <= |chain|
  {
    ResolvedAt(rules, parent, chain, n, id).lifecycle.Active?
  }

  /** From tip `s` on, a whole cooldown of consecutive tips resolves to no address. */
  ghost predicate Silent(rules: Rules, parent: Bytes32, chain: seq<Link>, s: nat, e: nat, id: NameId)
    requires rules.parameters.epochBlocks > 0 && 0 < s && e <= |chain| + 1
  {
    forall n :: s <= n < e ==>
      !ActiveAt(rules, parent, chain, n, id) && ResolvedAt(rules, parent, chain, n, id).ua.None?
  }

  ghost predicate SilentCooldown(rules: Rules, parent: Bytes32, chain: seq<Link>, s: int, id: NameId)
    requires rules.parameters.epochBlocks > 0
  {
    0 < s && s + rules.parameters.cooldownBlocks <= |chain| + 1
    && Silent(rules, parent, chain, s, s + rules.parameters.cooldownBlocks, id)
  }

  /** A silent cooldown lies entirely after tip `after` and before tip `before`. */
  ghost predicate Quarantined(rules: Rules, parent: Bytes32, chain: seq<Link>, after: nat, before: nat, id: NameId)
    requires rules.parameters.epochBlocks > 0
  {
    exists s :: SilentCooldown(rules, parent, chain, s, id)
                && after < s && s + rules.parameters.cooldownBlocks <= before
  }

  /** The head is still there, and if it has ended, no tip since its end was Active. */
  ghost predicate Holds(rules: Rules, parent: Bytes32, chain: seq<Link>, after: nat, n: nat, id: NameId)
    requires rules.parameters.epochBlocks > 0 && 0 < n <= |chain|
  {
    var head := HeadAt(rules, parent, chain, n, id);
    && head.Some?
    && (head.value.terminalHeight.Some? ==>
          var s := head.value.terminalHeight.value - rules.parameters.activationHeight + 1;
          after < s <= n && Silent(rules, parent, chain, s, n + 1, id))
  }

  lemma TipFacts(rules: Rules, parent: Bytes32, chain: seq<Link>, n: nat, id: NameId)
    requires rules.parameters.Validated() && ValidChain(rules, parent, chain) && 0 < n <= |chain|
    ensures
      var head, tip := HeadAt(rules, parent, chain, n, id), chain[n - 1].block.height;
      && tip == rules.parameters.activationHeight + n - 1
      && (head.Some? ==> HeadOk(rules, tip, id, head.value))
      && (ActiveAt(rules, parent, chain, n, id) <==> head.Some? && head.value.terminalHeight.None?)
      && (ResolvedAt(rules, parent, chain, n, id).ua.Some? <==> ActiveAt(rules, parent, chain, n, id))
  {
    hide Advance, CheckLink;
    PrefixValid(rules, parent, chain, n);
    ChainHeights(rules, parent, chain);
    ChainHeights(rules, parent, chain[..n]);
    ChainOk(rules, parent, chain[..n]);
  }

  lemma NextHead(rules: Rules, parent: Bytes32, chain: seq<Link>, n: nat, id: NameId)
    requires rules.parameters.epochBlocks > 0 && n < |chain|
    ensures
      var txs := chain[n].block.transactions;
      && ReplayChain(rules, parent, chain[..n + 1]).records == RecordsBefore(rules, parent, chain, n, |txs|)
      && HeadAt(rules, parent, chain, n + 1, id) == Lookup(RecordsBefore(rules, parent, chain, n, |txs|).heads, id)
  {
    hide RecordsAfter, StartRecords;
    assert chain[..n + 1][..n] == chain[..n];
    assert chain[n].block.transactions[..|chain[n].block.transactions|] == chain[n].block.transactions;
  }

  /** One more block either keeps the head or completes its quarantine. */
  lemma HoldsOrQuarantined(rules: Rules, parent: Bytes32, chain: seq<Link>, after: nat, n: nat, id: NameId)
    requires rules.parameters.Validated() && ValidChain(rules, parent, chain) && 0 < after <= n < |chain|
    requires Holds(rules, parent, chain, after, n, id)
    ensures
      var begun := Opened(rules.parameters, chain[n].block.height, HeadAt(rules, parent, chain, n, id).value);
      && (begun.Some? ==> Holds(rules, parent, chain, after, n + 1, id))
      && (begun.None? ==> Quarantined(rules, parent, chain, after, n + 1, id))
  {
    hide RecordsOk, RecordsBefore, HeadAt, ResolvedAt, ActiveAt, StartRecords, ReplayChain, Opened, RecordsAfter;
    var p, height := rules.parameters, chain[n].block.height;
    var head := HeadAt(rules, parent, chain, n, id).value;
    TipFacts(rules, parent, chain, n, id);
    TipFacts(rules, parent, chain, n + 1, id);
    OpenedOk(rules, chain[n - 1].block.height, id, head);
    if Opened(p, height, head).None? {
      var s := head.terminalHeight.value - p.activationHeight + 1;
      assert s + p.cooldownBlocks == n + 1;
      assert SilentCooldown(rules, parent, chain, s, id);
    } else {
      BeginsWith(rules, parent, chain, n, id);
      ThroughBlock(rules, parent, chain, n, id);
    }
  }

  lemma BeginsWith(rules: Rules, parent: Bytes32, chain: seq<Link>, n: nat, id: NameId)
    requires rules.parameters.epochBlocks > 0 && n < |chain|
    ensures
      var head := HeadAt(rules, parent, chain, n, id);
      Lookup(RecordsBefore(rules, parent, chain, n, 0).heads, id)
      == if head.Some? then Opened(rules.parameters, chain[n].block.height, head.value) else None
  {
    hide StartRecords, ReplayChain, Opened;
    StartLookup(rules, ReplayChain(rules, parent, chain[..n]).records, chain[n], id);
    assert chain[n].block.transactions[..0] == [];
  }

  lemma ThroughBlock(rules: Rules, parent: Bytes32, chain: seq<Link>, n: nat, id: NameId)
    requires rules.parameters.Validated() && ValidChain(rules, parent, chain) && n < |chain|
    requires id in RecordsBefore(rules, parent, chain, n, 0).heads
    ensures
      var was, now := RecordsBefore(rules, parent, chain, n, 0).heads[id], HeadAt(rules, parent, chain, n + 1, id);
      && now.Some?
      && (was.terminalHeight.Some? ==> now.value == was)
      && (now.value.terminalHeight.Some? ==>
            now.value == was || now.value.terminalHeight == Some(chain[n].block.height))
  {
    hide RecordsOk, HeadAt, StartRecords, ReplayChain, ValidChain;
    var txs := chain[n].block.transactions;
    BeforeOk(rules, parent, chain, n, |txs|);
    NextHead(rules, parent, chain, n, id);
    assert txs[..0] == [];
    RetainedThroughTxs(rules, RecordsBefore(rules, parent, chain, n, 0), chain[n].block.height, txs[..|txs|], id);
  }

  lemma ActiveHolds(rules: Rules, parent: Bytes32, chain: seq<Link>, n: nat, id: NameId)
    requires rules.parameters.Validated() && ValidChain(rules, parent, chain) && 0 < n <= |chain|
    requires ActiveAt(rules, parent, chain, n, id)
    ensures Holds(rules, parent, chain, n, n, id)
  {
    hide ValidChain, HeadAt, ActiveAt, ResolvedAt;
    TipFacts(rules, parent, chain, n, id);
  }

  /** While a name holds a head at the start of a block, the block installs it only by REFRESH. */
  lemma NoRevealWhileHeld(rules: Rules, parent: Bytes32, chain: seq<Link>, k: nat, j: nat, id: NameId)
    requires rules.parameters.Validated() && ValidChain(rules, parent, chain)
    requires k < |chain| && id in RecordsBefore(rules, parent, chain, k, 0).heads
    ensures !Installs(rules, parent, chain, k, j, id, AcceptedReveal)
  {
    hide RecordsOk, StartRecords, ReplayChain, ValidChain, OperationEffect;
    if j < |chain[k].block.transactions| {
      var txs := chain[k].block.transactions;
      BeforeOk(rules, parent, chain, k, j);
      assert txs[..0] == [];
      RetainedThroughTxs(rules, RecordsBefore(rules, parent, chain, k, 0), chain[k].block.height, txs[..j], id);
      RetainedThroughTx(rules, RecordsBefore(rules, parent, chain, k, j), chain[k].block.height, txs[j], id);
    }
  }

  // ---- every head comes from an accepted operation ----

  /** The producer is the place of an accepted REVEAL or REFRESH of the name. */
  ghost predicate ProducedAt(rules: Rules, parent: Bytes32, chain: seq<Link>, k: nat, j: nat, id: NameId, p: StateRef)
    requires rules.parameters.epochBlocks > 0 && k < |chain| && j < |chain[k].block.transactions|
  {
    && (exists kind :: Installs(rules, parent, chain, k, j, id, kind))
    && p.height == chain[k].block.height && p.txIndex == chain[k].block.transactions[j].txIndex
  }

  /** What one transaction does to a name: installs a head of its own, or leaves the producer there was. */
  lemma ProducerAfterTx(rules: Rules, parent: Bytes32, chain: seq<Link>, k: nat, j: nat, id: NameId)
    requires rules.parameters.Validated() && ValidChain(rules, parent, chain)
    requires k < |chain| && j < |chain[k].block.transactions|
    requires id in RecordsBefore(rules, parent, chain, k, j + 1).heads
    ensures
      var was := RecordsBefore(rules, parent, chain, k, j).heads;
      var now := RecordsBefore(rules, parent, chain, k, j + 1).heads;
      || ProducedAt(rules, parent, chain, k, j, id, now[id].producer)
      || (id in was && now[id].producer == was[id].producer)
  {
    hide OperationEffect, TxRecords, StartRecords, RecordsOk, ReplayChain, ValidChain;
    var rec := RecordsBefore(rules, parent, chain, k, j);
    var height, txs := chain[k].block.height, chain[k].block.transactions;
    BeforeOk(rules, parent, chain, k, j);
    assert txs[..j + 1][..j] == txs[..j];
    var effect := OperationEffect(rules, rec, height, txs[j]);
    if effect.PutHead? && effect.nameId == id {
      InstalledHeadSurvives(rules, rec, height, txs[j]);
      InstalledOk(rules, rec, height, txs[j]);
      assert Installs(rules, parent, chain, k, j, id, effect.kind);
    } else {
      OtherHeadAfterTx(rules, rec, height, txs[j], id);
    }
  }

  lemma {:induction false} HeadOrigin(rules: Rules, parent: Bytes32, chain: seq<Link>, k: nat, n: nat, id: NameId)
    returns (j: int)
    requires rules.parameters.Validated() && ValidChain(rules, parent, chain)
    requires k < |chain| && n <= |chain[k].block.transactions|
    requires id in RecordsBefore(rules, parent, chain, k, n).heads
    ensures
      var now := RecordsBefore(rules, parent, chain, k, n).heads[id];
      if j < 0
      then id in RecordsBefore(rules, parent, chain, k, 0).heads
           && now.producer == RecordsBefore(rules, parent, chain, k, 0).heads[id].producer
      else j < n && ProducedAt(rules, parent, chain, k, j, id, now.producer)
    decreases n
  {
    hide RecordsBefore, ProducedAt, ValidChain;
    if n == 0 {
      j := -1;
    } else {
      ProducerAfterTx(rules, parent, chain, k, n - 1, id);
      if ProducedAt(rules, parent, chain, k, n - 1, id, RecordsBefore(rules, parent, chain, k, n).heads[id].producer) {
        j := n - 1;
      } else {
        j := HeadOrigin(rules, parent, chain, k, n - 1, id);
      }
    }
  }

  // ---- lineages ----

  /** An accepted REFRESH in one of the blocks `a` up to `b` names producer `p` and puts `q` in its place. */
  ghost predicate RefreshStep(rules: Rules, parent: Bytes32, chain: seq<Link>, a: nat, b: nat, id: NameId,
                              p: StateRef, q: StateRef)
    requires rules.parameters.epochBlocks > 0
  {
    exists k, j :: a <= k < b && RefreshAt(rules, parent, chain, k, j, id, p, q)
  }

  ghost predicate RefreshAt(rules: Rules, parent: Bytes32, chain: seq<Link>, k: int, j: int, id: NameId,
                            p: StateRef, q: StateRef)
    requires rules.parameters.epochBlocks > 0
  {
    && Installs(rules, parent, chain, k, j, id, AcceptedRefresh)
    && var tx := chain[k].block.transactions[j];
       && tx.operation.Some? && tx.operation.value.Refresh?
       && tx.operation.value.predecessor == p
       && q == StateRef(chain[k].block.height, tx.txIndex, tx.txid, tx.operation.value.actionIndex)
  }

  /** The producers on the path succeed each other by accepted REFRESHes alone. */
  ghost predicate Lineage(rules: Rules, parent: Bytes32, chain: seq<Link>, a: nat, b: nat, id: NameId,
                          path: seq<StateRef>)
    requires rules.parameters.epochBlocks > 0
  {
    path != [] && forall i :: 0 <= i < |path| - 1 ==> RefreshStep(rules, parent, chain, a, b, id, path[i], path[i + 1])
  }

  /** The producer `q` is reached from `p` by accepted REFRESHes in the blocks `a` up to `b`. */
  ghost predicate Reached(rules: Rules, parent: Bytes32, chain: seq<Link>, a: nat, b: nat, id: NameId,
                          p: StateRef, q: StateRef)
    requires rules.parameters.epochBlocks > 0
  {
    exists path :: Lineage(rules, parent, chain, a, b, id, path) && path[0] == p && path[|path| - 1] == q
  }

  lemma ReachedItself(rules: Rules, parent: Bytes32, chain: seq<Link>, a: nat, b: nat, id: NameId, p: StateRef)
    requires rules.parameters.epochBlocks > 0
    ensures Reached(rules, parent, chain, a, b, id, p, p)
  {
    assert Lineage(rules, parent, chain, a, b, id, [p]);
  }

  lemma ReachedLater(rules: Rules, parent: Bytes32, chain: seq<Link>, a: nat, b: nat, c: nat, id: NameId,
                     p: StateRef, q: StateRef)
    requires rules.parameters.epochBlocks > 0 && b <= c && Reached(rules, parent, chain, a, b, id, p, q)
    ensures Reached(rules, parent, chain, a, c, id, p, q)
  {
    hide RefreshAt;
    var path :| Lineage(rules, parent, chain, a, b, id, path) && path[0] == p && path[|path| - 1] == q;
    forall i | 0 <= i < |path| - 1 ensures RefreshStep(rules, parent, chain, a, c, id, path[i], path[i + 1]) {
      assert RefreshStep(rules, parent, chain, a, b, id, path[i], path[i + 1]);
    }
    assert Lineage(rules, parent, chain, a, c, id, path);
  }

  lemma ReachedFurther(rules: Rules, parent: Bytes32, chain: seq<Link>, a: nat, b: nat, id: NameId,
                       p: StateRef, q: StateRef, r: StateRef)
    requires rules.parameters.epochBlocks > 0 && Reached(rules, parent, chain, a, b, id, p, q)
    requires RefreshStep(rules, parent, chain, a, b, id, q, r)
    ensures Reached(rules, parent, chain, a, b, id, p, r)
  {
    hide RefreshStep;
    var path :| Lineage(rules, parent, chain, a, b, id, path) && path[0] == p && path[|path| - 1] == q;
    var longer := path + [r];
    forall i | 0 <= i < |longer| - 1 ensures RefreshStep(rules, parent, chain, a, b, id, longer[i], longer[i + 1]) {
      assert i < |path| - 1 ==> RefreshStep(rules, parent, chain, a, b, id, path[i], path[i + 1]);
    }
    assert Lineage(rules, parent, chain, a, b, id, longer);
  }

  /** A transaction that does not REVEAL the name keeps its producer or refreshes it. */
  lemma ProducerThroughTx(rules: Rules, parent: Bytes32, chain: seq<Link>, k: nat, j: nat, id: NameId)
    requires rules.parameters.Validated() && ValidChain(rules, parent, chain)
    requires k < |chain| && j < |chain[k].block.transactions|
    requires id in RecordsBefore(rules, parent, chain, k, j).heads
    ensures id in RecordsBefore(rules, parent, chain, k, j + 1).heads
    ensures
      var p := RecordsBefore(rules, parent, chain, k, j).heads[id].producer;
      var q := RecordsBefore(rules, parent, chain, k, j + 1).heads[id].producer;
      p == q || RefreshAt(rules, parent, chain, k, j, id, p, q)
  {
    hide TxRecords, StartRecords, RecordsOk, ReplayChain, ValidChain;
    var rec := RecordsBefore(rules, parent, chain, k, j);
    var height, txs := chain[k].block.height, chain[k].block.transactions;
    BeforeOk(rules, parent, chain, k, j);
    assert txs[..j + 1][..j] == txs[..j];
    var effect := OperationEffect(rules, rec, height, txs[j]);
    if effect.PutHead? && effect.nameId == id {
      InstalledOk(rules, rec, height, txs[j]);
      InstalledHeadSurvives(rules, rec, height, txs[j]);
    } else {
      OtherHeadAfterTx(rules, rec, height, txs[j], id);
    }
  }

  lemma {:induction false} ReachedInBlock(rules: Rules, parent: Bytes32, chain: seq<Link>, a: nat, k: nat, j: nat,
                                          id: NameId, p: StateRef)
    requires rules.parameters.Validated() && ValidChain(rules, parent, chain)
    requires a <= k < |chain| && j <= |chain[k].block.transactions|
    requires id in RecordsBefore(rules, parent, chain, k, 0).heads
    requires Reached(rules, parent, chain, a, k + 1, id, p,
                     RecordsBefore(rules, parent, chain, k, 0).heads[id].producer)
    ensures id in RecordsBefore(rules, parent, chain, k, j).heads
    ensures Reached(rules, parent, chain, a, k + 1, id, p, RecordsBefore(rules, parent, chain, k, j).heads[id].producer)
    decreases j
  {
    hide RecordsBefore, Reached, RefreshAt, ValidChain;
    if j > 0 {
      ReachedInBlock(rules, parent, chain, a, k, j - 1, id, p);
      ProducerThroughTx(rules, parent, chain, k, j - 1, id);
      var q := RecordsBefore(rules, parent, chain, k, j - 1).heads[id].producer;
      var r := RecordsBefore(rules, parent, chain, k, j).heads[id].producer;
      if q != r {
        assert RefreshAt(rules, parent, chain, k, j - 1, id, q, r);
        ReachedFurther(rules, parent, chain, a, k + 1, id, p, q, r);
      }
    }
  }

  lemma {:induction false} ReachedOrQuarantined(rules: Rules, parent: Bytes32, chain: seq<Link>, a: nat, n: nat,
                                                id: NameId)
    requires rules.parameters.Validated() && ValidChain(rules, parent, chain) && 0 < a <= n <= |chain|
    requires ActiveAt(rules, parent, chain, a, id) && HeadAt(rules, parent, chain, a, id).Some?
    ensures
      || Quarantined(rules, parent, chain, a, n, id)
      || (&& Holds(rules, parent, chain, a, n, id) && HeadAt(rules, parent, chain, n, id).Some?
          && Reached(rules, parent, chain, a, n, id, HeadAt(rules, parent, chain, a, id).value.producer,
                     HeadAt(rules, parent, chain, n, id).value.producer))
    decreases n
  {
    hide HeadAt, ResolvedAt, ActiveAt, Opened, SilentCooldown, Silent, ValidChain;
    hide Holds, HeadOk, Reached, RecordsBefore;
    var p := HeadAt(rules, parent, chain, a, id).value.producer;
    if n == a {
      ActiveHolds(rules, parent, chain, n, id);
      ReachedItself(rules, parent, chain, a, n, id, p);
    } else {
      ReachedOrQuarantined(rules, parent, chain, a, n - 1, id);
      if !Quarantined(rules, parent, chain, a, n - 1, id) {
        var k, head := n - 1, HeadAt(rules, parent, chain, n - 1, id).value;
        HoldsOrQuarantined(rules, parent, chain, a, k, id);
        BeginsWith(rules, parent, chain, k, id);
        NextHead(rules, parent, chain, k, id);
        TipFacts(rules, parent, chain, k, id);
        ChainHeights(rules, parent, chain);
        OpenedOk(rules, chain[k - 1].block.height, id, head);
        ReachedLater(rules, parent, chain, a, k, n, id, p, head.producer);
        if Opened(rules.parameters, chain[k].block.height, head).Some? {
          ReachedInBlock(rules, parent, chain, a, k, |chain[k].block.transactions|, id, p);
        }
      }
    }
  }

  /**
   If a name is Active at two tips, either the later producer comes from the earlier one by accepted
   REFRESHes alone, or a whole cooldown of consecutive tips in between resolved the name to no address.
   */
  lemma RefreshedOrQuarantined(rules: Rules, parent: Bytes32, chain: seq<Link>, a: nat, b: nat, id: NameId)
    requires rules.parameters.Validated() && ValidChain(rules, parent, chain) && 0 < a <= b <= |chain|
    requires ActiveAt(rules, parent, chain, a, id) && ActiveAt(rules, parent, chain, b, id)
    ensures HeadAt(rules, parent, chain, a, id).Some? && HeadAt(rules, parent, chain, b, id).Some?
    ensures
      || Quarantined(rules, parent, chain, a, b, id)
      || Reached(rules, parent, chain, a, b, id, HeadAt(rules, parent, chain, a, id).value.producer,
                 HeadAt(rules, parent, chain, b, id).value.producer)
  {
    hide HeadAt, ActiveAt, Quarantined, Reached, ValidChain, Holds, HeadOk;
    TipFacts(rules, parent, chain, a, id);
    TipFacts(rules, parent, chain, b, id);
    ReachedOrQuarantined(rules, parent, chain, a, b, id);
  }

  /**
   Between a tip at which a name is Active and a later REVEAL of it, at least one whole cooldown
   of consecutive tips resolves the name to no address.
   */
  lemma Quarantine(rules: Rules, parent: Bytes32, chain: seq<Link>, after: nat, k: nat, j: nat, id: NameId)
    requires rules.parameters.Validated() && ValidChain(rules, parent, chain)
    requires 0 < after <= k && k < |chain|
    requires ActiveAt(rules, parent, chain, after, id)
    requires Installs(rules, parent, chain, k, j, id, AcceptedReveal)
    ensures Quarantined(rules, parent, chain, after, k + 1, id)
  {
    hide HeadAt, ResolvedAt, ActiveAt, RecordsBefore, Installs, ValidChain, Opened, Holds, Reached, HeadOk;
    TipFacts(rules, parent, chain, after, id);
    ReachedOrQuarantined(rules, parent, chain, after, k, id);
    if !Quarantined(rules, parent, chain, after, k, id) {
      HoldsOrQuarantined(rules, parent, chain, after, k, id);
      BeginsWith(rules, parent, chain, k, id);
      if id in RecordsBefore(rules, parent, chain, k, 0).heads {
        NoRevealWhileHeld(rules, parent, chain, k, j, id);
      }
    }
  }

  // ---- epochs ----

  /** The name's head is at least as recent as `since`, or a whole cooldown has passed since then. */
  ghost predicate Later(rules: Rules, heads: map<NameId, Head>, height: int, id: NameId, since: u32) {
    if id in heads then since <= heads[id].producer.height
    else since + rules.parameters.cooldownBlocks <= height
  }

  lemma LaterThroughTx(rules: Rules, rec: Records, height: u32, tx: Transaction, id: NameId, since: u32)
    requires rules.parameters.Validated() && rules.parameters.activationHeight <= since <= height
    requires ProducedBefore(rec.heads, height, tx.txIndex)
    requires RecordsOk(rules, height, rec)
    requires Later(rules, rec.heads, height, id, since)
    ensures Later(rules, TxRecords(rules, rec, height, tx).heads, height, id, since)
    ensures
      var effect := OperationEffect(rules, rec, height, tx);
      effect.PutHead? && effect.nameId == id ==>
        rules.parameters.Epoch(since).value < rules.parameters.Epoch(height).value
  {
    hide OperationEffect, TxRecords;
    var effect := OperationEffect(rules, rec, height, tx);
    if effect.PutHead? && effect.nameId == id {
      InstalledOk(rules, rec, height, tx);
      InstalledHeadSurvives(rules, rec, height, tx);
      if id in rec.heads {
        assert HeadOk(rules, height, id, rec.heads[id]);
        EpochMonotone(rules.parameters, since, rec.heads[id].producer.height);
      } else {
        EpochAdvances(rules.parameters, since, height);
      }
    } else {
      OtherHeadAfterTx(rules, rec, height, tx, id);
    }
  }

  lemma LaterOneMore(
    rules: Rules, rec: Records, height: u32, txs: seq<Transaction>, n: nat, id: NameId, since: u32)
    requires rules.parameters.Validated() && rules.parameters.activationHeight <= since <= height
    requires IndexError(txs).None? && RecordsOk(rules, height, rec) && ProducedBefore(rec.heads, height, 0)
    requires n < |txs|
    requires Later(rules, RecordsAfter(rules, rec, height, txs[..n]).heads, height, id, since)
    ensures Later(rules, RecordsAfter(rules, rec, height, txs[..n + 1]).heads, height, id, since)
  {
    hide TxRecords, RecordsOk, ProducedBefore, Later, OperationEffect, IndexError;
    PrefixOrdered(txs, n);
    TxsOk(rules, rec, height, txs[..n]);
    assert txs[..n + 1][..n] == txs[..n];
    var middle := RecordsAfter(rules, rec, height, txs[..n]);
    ProducedEarlier(middle.heads, height, NextPosition(txs[..n]), txs[n].txIndex);
    LaterThroughTx(rules, middle, height, txs[n], id, since);
  }

  lemma {:induction false} LaterThroughTxs(
    rules: Rules, rec: Records, height: u32, txs: seq<Transaction>, from: nat, n: nat, id: NameId, since: u32)
    requires rules.parameters.Validated() && rules.parameters.activationHeight <= since <= height
    requires IndexError(txs).None? && RecordsOk(rules, height, rec) && ProducedBefore(rec.heads, height, 0)
    requires from <= n <= |txs|
    requires Later(rules, RecordsAfter(rules, rec, height, txs[..from]).heads, height, id, since)
    ensures Later(rules, RecordsAfter(rules, rec, height, txs[..n]).heads, height, id, since)
    decreases n
  {
    hide RecordsAfter, RecordsOk, ProducedBefore, Later, IndexError;
    if from < n {
      LaterThroughTxs(rules, rec, height, txs, from, n - 1, id, since);
      LaterOneMore(rules, rec, height, txs, n - 1, id, since);
    }
  }

  lemma LaterThroughBlock(
    rules: Rules, parent: Bytes32, chain: seq<Link>, k: nat, from: nat, n: nat, id: NameId, since: u32)
    requires rules.parameters.Validated() && ValidChain(rules, parent, chain) && k < |chain|
    requires from <= n <= |chain[k].block.transactions|
    requires rules.parameters.activationHeight <= since <= chain[k].block.height
    requires Later(rules, RecordsBefore(rules, parent, chain, k, from).heads, chain[k].block.height, id, since)
    ensures Later(rules, RecordsBefore(rules, parent, chain, k, n).heads, chain[k].block.height, id, since)
  {
    hide RecordsOk, StartRecords, ReplayChain, ValidChain, RecordsAfter, Later, ProducedBefore, IndexError;
    BeforeOk(rules, parent, chain, k, n);
    LaterThroughTxs(rules, StartRecords(rules, ReplayChain(rules, parent, chain[..k]).records, chain[k]),
                    chain[k].block.height, chain[k].block.transactions, from, n, id, since);
  }

  /** From just after an accepted operation to the start of any later block. */
  lemma {:induction false} LaterAtStart(
    rules: Rules, parent: Bytes32, chain: seq<Link>, k: nat, j: nat, n: nat, id: NameId, kind: Accepted)
    requires rules.parameters.Validated() && ValidChain(rules, parent, chain) && k < n < |chain|
    requires Installs(rules, parent, chain, k, j, id, kind)
    ensures Later(rules, RecordsBefore(rules, parent, chain, n, 0).heads, chain[n].block.height, id,
                  chain[k].block.height)
    decreases n
  {
    hide RecordsBefore, ReplayChain, ValidChain, Installs, Opened, Later, HeadOk, HeadAt, ActiveAt, ResolvedAt;
    var since, last := chain[k].block.height, |chain[n - 1].block.transactions|;
    ChainHeights(rules, parent, chain);
    if k == n - 1 {
      LaterAfterInstall(rules, parent, chain, k, j, id, kind);
      LaterThroughBlock(rules, parent, chain, k, j + 1, last, id, since);
    } else {
      LaterAtStart(rules, parent, chain, k, j, n - 1, id, kind);
      LaterThroughBlock(rules, parent, chain, n - 1, 0, last, id, since);
    }
    NextHead(rules, parent, chain, n - 1, id);
    BeginsWith(rules, parent, chain, n, id);
    TipFacts(rules, parent, chain, n, id);
    LaterOpens(rules, RecordsBefore(rules, parent, chain, n - 1, last).heads,
               RecordsBefore(rules, parent, chain, n, 0).heads, chain[n - 1].block.height, id, since);
  }

  lemma LaterOpens(rules: Rules, was: map<NameId, Head>, now: map<NameId, Head>, tip: u32, id: NameId, since: u32)
    requires rules.parameters.Validated() && tip + 1 < U32_LIMIT
    requires Later(rules, was, tip, id, since)
    requires id in was ==> HeadOk(rules, tip, id, was[id])
    requires Lookup(now, id) == if id in was then Opened(rules.parameters, tip + 1, was[id]) else None
    ensures Later(rules, now, tip + 1, id, since)
  {
    hide Opened;
    if id in was {
      OpenedOk(rules, tip, id, was[id]);
    }
  }

  lemma LaterAfterInstall(rules: Rules, parent: Bytes32, chain: seq<Link>, k: nat, j: nat, id: NameId, kind: Accepted)
    requires rules.parameters.Validated() && ValidChain(rules, parent, chain)
    requires Installs(rules, parent, chain, k, j, id, kind)
    ensures k < |chain| && j < |chain[k].block.transactions|
    ensures Later(rules, RecordsBefore(rules, parent, chain, k, j + 1).heads, chain[k].block.height, id,
                  chain[k].block.height)
  {
    hide RecordsOk, StartRecords, ReplayChain, OperationEffect, TxRecords;
    var txs := chain[k].block.transactions;
    BeforeOk(rules, parent, chain, k, j);
    assert txs[..j + 1][..j] == txs[..j];
    InstalledOk(rules, RecordsBefore(rules, parent, chain, k, j), chain[k].block.height, txs[j]);
    InstalledHeadSurvives(rules, RecordsBefore(rules, parent, chain, k, j), chain[k].block.height, txs[j]);
  }

  /**
   Accepted REVEALs and REFRESHes of one name have strictly increasing epochs along a chain, across
   compaction and registration anew, so at most one is accepted per epoch.
   */
  lemma EpochsIncrease(rules: Rules, parent: Bytes32, chain: seq<Link>,
                       k: nat, j: nat, k': nat, j': nat, id: NameId, kind: Accepted, kind': Accepted)
    requires rules.parameters.Validated() && ValidChain(rules, parent, chain)
    requires Installs(rules, parent, chain, k, j, id, kind) && Installs(rules, parent, chain, k', j', id, kind')
    requires k < k' || (k == k' && j < j')
    ensures rules.parameters.activationHeight <= chain[k].block.height <= chain[k'].block.height
    ensures rules.parameters.Epoch(chain[k].block.height).value < rules.parameters.Epoch(chain[k'].block.height).value
  {
    hide RecordsOk, RecordsBefore, OperationEffect, ValidChain, ProducedBefore, Later, IndexError;
    var since, height := chain[k].block.height, chain[k'].block.height;
    ChainHeights(rules, parent, chain);
    BeforeOk(rules, parent, chain, k', j');
    if k < k' {
      LaterAtStart(rules, parent, chain, k, j, k', id, kind);
      LaterThroughBlock(rules, parent, chain, k', 0, j', id, since);
    } else {
      LaterAfterInstall(rules, parent, chain, k, j, id, kind);
      LaterThroughBlock(rules, parent, chain, k', j + 1, j', id, since);
    }
    LaterThroughTx(rules, RecordsBefore(rules, parent, chain, k', j'), height,
                   chain[k'].block.transactions[j'], id, since);
  }
}
