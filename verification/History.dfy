/**
 The head of a name told by the chain alone: the last accepted operation of the name installed it, and
 it is retained until a whole cooldown has passed since the first event that ended it.
 */
module History {
  import opened Collections
  import opened Protocol
  import opened Schedule
  import opened Replay
  import opened Journal
  import opened Lifecycles
  import opened Runs

  /** The head a REVEAL or REFRESH installs. */
  function InstalledHead(p: Parameters, height: u32, tx: Transaction, op: Operation): Option<Head>
    requires p.epochBlocks > 0 && !op.Commit?
  {
    if op.actionIndex < |tx.actions| && p.activationHeight <= height && height + p.leaseBlocks < U32_LIMIT then
      Some(Head(op.name, op.ua, StateRef(height, tx.txIndex, tx.txid, op.actionIndex),
                tx.actions[op.actionIndex].commitment, op.successorFutureNf,
                p.Epoch(height).value, height + p.leaseBlocks, None))
    else None
  }

  lemma EpochDefined(p: Parameters, height: u32)
    requires p.Validated() && p.activationHeight <= height
    ensures p.Epoch(height).Ok?
  {
  }

  /** An accepted operation leaves exactly the head it describes, active, for the next transaction. */
  lemma AcceptedInstalls(rules: Rules, parent: Bytes32, chain: seq<Link>, k: nat, j: nat, id: NameId, kind: Accepted)
    requires rules.parameters.Validated() && ValidChain(rules, parent, chain)
    requires Installs(rules, parent, chain, k, j, id, kind)
    ensures
      var tx := chain[k].block.transactions[j];
      && tx.operation.Some? && !tx.operation.value.Commit?
      && InstalledHead(rules.parameters, chain[k].block.height, tx, tx.operation.value).Some?
      && Lookup(RecordsBefore(rules, parent, chain, k, j + 1).heads, id)
         == InstalledHead(rules.parameters, chain[k].block.height, tx, tx.operation.value)
  {
    hide StartRecords, ReplayChain, TxRecords, ValidChain, RecordsOk;
    var rec := RecordsBefore(rules, parent, chain, k, j);
    var height, txs := chain[k].block.height, chain[k].block.transactions;
    BeforeOk(rules, parent, chain, k, j);
    EpochDefined(rules.parameters, height);
    assert txs[..j + 1][..j] == txs[..j];
    InstalledHeadSurvives(rules, rec, height, txs[j]);
  }

  // ---- the last accepted operation ----

  predicate PlaceBefore(a: int, b: int, k: int, j: int) {
    a < k || (a == k && b < j)
  }

  /** Transaction `b` of block `a` carries an accepted REVEAL or REFRESH of the name. */
  ghost predicate Accepts(rules: Rules, parent: Bytes32, chain: seq<Link>, a: int, b: int, id: NameId)
    requires rules.parameters.epochBlocks > 0
  {
    exists kind :: Installs(rules, parent, chain, a, b, id, kind)
  }

  /** It is the last one before transaction `j` of block `k`. */
  ghost predicate LastBefore(rules: Rules, parent: Bytes32, chain: seq<Link>, k: int, j: int, id: NameId,
                             a: int, b: int)
    requires rules.parameters.epochBlocks > 0
  {
    && PlaceBefore(a, b, k, j) && Accepts(rules, parent, chain, a, b, id)
    && forall c, d :: PlaceBefore(a, b, c, d) && PlaceBefore(c, d, k, j) ==> !Accepts(rules, parent, chain, c, d, id)
  }

  /** The head that the operation of transaction `b` of block `a` describes. */
  function HeadFrom(rules: Rules, chain: seq<Link>, a: int, b: int): Option<Head>
    requires rules.parameters.epochBlocks > 0
  {
    if 0 <= a < |chain| && 0 <= b < |chain[a].block.transactions| then
      var tx := chain[a].block.transactions[b];
      if tx.operation.Some? && !tx.operation.value.Commit?
      then InstalledHead(rules.parameters, chain[a].block.height, tx, tx.operation.value)
      else None
    else None
  }

  lemma LastUnique(rules: Rules, parent: Bytes32, chain: seq<Link>, k: int, j: int, id: NameId,
                   a: int, b: int, a': int, b': int)
    requires rules.parameters.epochBlocks > 0
    requires LastBefore(rules, parent, chain, k, j, id, a, b) && LastBefore(rules, parent, chain, k, j, id, a', b')
    ensures a == a' && b == b'
  {
    hide Accepts;
  }

  lemma AcceptedHead(rules: Rules, parent: Bytes32, chain: seq<Link>, a: int, b: int, id: NameId)
    requires rules.parameters.Validated() && ValidChain(rules, parent, chain)
    requires Accepts(rules, parent, chain, a, b, id)
    ensures 0 <= a < |chain| && 0 <= b < |chain[a].block.transactions| && HeadFrom(rules, chain, a, b).Some?
    ensures Lookup(RecordsBefore(rules, parent, chain, a, b + 1).heads, id) == HeadFrom(rules, chain, a, b)
  {
    hide RecordsBefore, ValidChain, InstalledHead;
    var kind :| Installs(rules, parent, chain, a, b, id, kind);
    AcceptedInstalls(rules, parent, chain, a, b, id, kind);
  }

  /** A transaction that is not an accepted operation of the name keeps its head, or ends it. */
  lemma HeadKept(rules: Rules, parent: Bytes32, chain: seq<Link>, k: nat, j: nat, id: NameId)
    requires rules.parameters.Validated() && k < |chain| && j < |chain[k].block.transactions|
    requires !Accepts(rules, parent, chain, k, j, id)
    ensures
      var was := Lookup(RecordsBefore(rules, parent, chain, k, j).heads, id);
      var now := Lookup(RecordsBefore(rules, parent, chain, k, j + 1).heads, id);
      SameButEnd(was, now)
  {
    hide OperationEffect, TxRecords, StartRecords, ReplayChain;
    var rec := RecordsBefore(rules, parent, chain, k, j);
    var height, txs := chain[k].block.height, chain[k].block.transactions;
    assert txs[..j + 1][..j] == txs[..j];
    var effect := OperationEffect(rules, rec, height, txs[j]);
    assert effect.PutHead? && effect.nameId == id ==> Installs(rules, parent, chain, k, j, id, effect.kind);
    OtherHeadAfterTx(rules, rec, height, txs[j], id);
  }

  /** Both or neither are there, and they differ at most in their terminal height. */
  predicate SameButEnd(was: Option<Head>, now: Option<Head>) {
    && was.Some? == now.Some?
    && (now.Some? ==> now.value.(terminalHeight := None) == was.value.(terminalHeight := None))
  }

  lemma LastOneMore(rules: Rules, parent: Bytes32, chain: seq<Link>, k: nat, j: nat, id: NameId, a: int, b: int)
    requires rules.parameters.epochBlocks > 0 && !Accepts(rules, parent, chain, k, j, id)
    ensures LastBefore(rules, parent, chain, k, j, id, a, b) <==> LastBefore(rules, parent, chain, k, j + 1, id, a, b)
  {
    hide Accepts;
    forall c, d ensures PlaceBefore(c, d, k, j + 1) <==> PlaceBefore(c, d, k, j) || (c == k && d == j) {
    }
  }

  lemma LastNextBlock(rules: Rules, parent: Bytes32, chain: seq<Link>, k: nat, id: NameId, a: int, b: int)
    requires rules.parameters.epochBlocks > 0 && 0 < k < |chain|
    ensures
      var n := |chain[k - 1].block.transactions|;
      LastBefore(rules, parent, chain, k - 1, n, id, a, b) <==> LastBefore(rules, parent, chain, k, 0, id, a, b)
  {
    var n := |chain[k - 1].block.transactions|;
    forall c, d | Accepts(rules, parent, chain, c, d, id)
      ensures PlaceBefore(c, d, k, 0) <==> PlaceBefore(c, d, k - 1, n)
    {
      AcceptsInChain(rules, parent, chain, c, d, id);
    }
    hide Accepts;
  }

  lemma AcceptsInChain(rules: Rules, parent: Bytes32, chain: seq<Link>, a: int, b: int, id: NameId)
    requires rules.parameters.epochBlocks > 0 && Accepts(rules, parent, chain, a, b, id)
    ensures 0 <= a < |chain| && 0 <= b < |chain[a].block.transactions|
  {
  }

  /** A retained head is the one its name's last accepted operation described, but for its end. */
  lemma {:induction false} TraceHead(rules: Rules, parent: Bytes32, chain: seq<Link>, k: nat, j: nat, id: NameId)
    returns (a: int, b: int)
    requires rules.parameters.Validated() && ValidChain(rules, parent, chain)
    requires k < |chain| && j <= |chain[k].block.transactions|
    requires id in RecordsBefore(rules, parent, chain, k, j).heads
    ensures LastBefore(rules, parent, chain, k, j, id, a, b)
    ensures SameButEnd(HeadFrom(rules, chain, a, b), Some(RecordsBefore(rules, parent, chain, k, j).heads[id]))
    decreases k, j
  {
    hide RecordsBefore, ValidChain, HeadFrom, Accepts, HeadAt, Opened;
    if j > 0 {
      if Accepts(rules, parent, chain, k, j - 1, id) {
        a, b := k, j - 1;
        AcceptedHead(rules, parent, chain, k, j - 1, id);
      } else {
        HeadKept(rules, parent, chain, k, j - 1, id);
        a, b := TraceHead(rules, parent, chain, k, j - 1, id);
        LastOneMore(rules, parent, chain, k, j - 1, id, a, b);
      }
    } else {
      HeadCarried(rules, parent, chain, k, id);
      a, b := TraceHead(rules, parent, chain, k - 1, |chain[k - 1].block.transactions|, id);
      LastNextBlock(rules, parent, chain, k, id, a, b);
    }
  }

  /** A head there at the start of a block was there at the end of the block before. */
  lemma HeadCarried(rules: Rules, parent: Bytes32, chain: seq<Link>, k: nat, id: NameId)
    requires rules.parameters.Validated() && k < |chain|
    requires id in RecordsBefore(rules, parent, chain, k, 0).heads
    ensures k > 0
    ensures
      var was := RecordsBefore(rules, parent, chain, k - 1, |chain[k - 1].block.transactions|).heads;
      SameButEnd(Lookup(was, id), Lookup(RecordsBefore(rules, parent, chain, k, 0).heads, id))
  {
    hide RecordsBefore;
    BeginsWith(rules, parent, chain, k, id);
    if k > 0 {
      NextHead(rules, parent, chain, k - 1, id);
    }
  }

  // ---- ends ----

  /** Some event before transaction `j` of block `k` ends the head at this height. */
  ghost predicate EndedBy(chain: seq<Link>, k: nat, j: nat, head: Head, end: u32)
    requires k < |chain| && j <= |chain[k].block.transactions|
  {
    EndsBy(chain[..k], chain[k].block.height, chain[k].block.transactions[..j], head, end)
  }

  /** Fewer than `blocks` blocks have passed since any end of the head; with 0, nothing has ended it. */
  ghost predicate Lasts(chain: seq<Link>, k: nat, j: nat, head: Head, blocks: int)
    requires k < |chain| && j <= |chain[k].block.transactions|
  {
    forall end: u32 :: EndedBy(chain, k, j, head, end) ==> chain[k].block.height < end + blocks
  }

  lemma EndedIgnoresTerminal(chain: seq<Link>, k: nat, j: nat, head: Head, other: Head, end: u32)
    requires k < |chain| && j <= |chain[k].block.transactions|
    requires head.(terminalHeight := None) == other.(terminalHeight := None)
    ensures EndedBy(chain, k, j, head, end) == EndedBy(chain, k, j, other, end)
  {
    hide EndsBy;
    SpendsIgnoresTerminal(chain[..k], chain[k].block.height, chain[k].block.transactions[..j], head,
                          other.terminalHeight, end);
    assert head.(terminalHeight := other.terminalHeight) == other;
  }

  lemma EndedOneMore(chain: seq<Link>, k: nat, j: nat, head: Head, end: u32)
    requires k < |chain| && j < |chain[k].block.transactions| && EndedBy(chain, k, j, head, end)
    ensures EndedBy(chain, k, j + 1, head, end)
  {
    hide EndsAt, Carries;
    var txs := chain[k].block.transactions;
    assert txs[..j + 1] == txs[..j] + [txs[j]];
    SpendsMore(chain[k].block.height, txs[..j], txs[j], head);
  }

  lemma EndedNextBlock(chain: seq<Link>, k: nat, head: Head, end: u32)
    requires 0 < k < |chain|
    ensures EndedBy(chain, k, 0, head, end) == EndedBy(chain, k - 1, |chain[k - 1].block.transactions|, head, end)
  {
    hide EndsBy, EndsAt;
    var txs := chain[k - 1].block.transactions;
    assert txs[..|txs|] == txs && chain[k].block.transactions[..0] == [];
    assert chain[..k] == chain[..k - 1] + [chain[k - 1]];
    ChainGrows(chain[..k - 1], chain[k - 1], head, end);
    EndsWithoutTxs(chain[..k], chain[k].block.height, head, head.terminalHeight, end);
    assert head.(terminalHeight := head.terminalHeight) == head;
  }

  /** Terminal heights are exact at every place of the chain. */
  lemma ExactAt(rules: Rules, parent: Bytes32, chain: seq<Link>, k: nat, j: nat)
    requires rules.parameters.Validated() && ValidChain(rules, parent, chain)
    requires k < |chain| && j <= |chain[k].block.transactions|
    ensures AllExact(chain[..k], chain[k].block.height, chain[k].block.transactions[..j],
                     RecordsBefore(rules, parent, chain, k, j).heads)
  {
    hide AllExact, RecordsOk, StartRecords, ProducedBefore, IndexError, ReplayChain, CheckLink;
    PrefixValid(rules, parent, chain, k);
    BeforeOk(rules, parent, chain, k, j);
    StartExact(rules, parent, chain[..k], chain[k]);
    TxsExact(rules, parent, chain[..k], StartRecords(rules, ReplayChain(rules, parent, chain[..k]).records, chain[k]),
             chain[k].block.height, chain[k].block.transactions[..j]);
  }

  /** A retained head lasts less than a cooldown beyond its end, and has no terminal height while nothing ended it. */
  lemma HeldLasts(rules: Rules, parent: Bytes32, chain: seq<Link>, k: nat, j: nat, id: NameId, head: Head)
    requires rules.parameters.Validated() && ValidChain(rules, parent, chain)
    requires k < |chain| && j <= |chain[k].block.transactions|
    requires SameButEnd(Some(head), Lookup(RecordsBefore(rules, parent, chain, k, j).heads, id))
    ensures Lasts(chain, k, j, head, rules.parameters.cooldownBlocks)
    ensures RecordsBefore(rules, parent, chain, k, j).heads[id].terminalHeight.None? <==> Lasts(chain, k, j, head, 0)
  {
    hide RecordsBefore, ValidChain, EndsBy, ProducedBefore;
    var height, held := chain[k].block.height, RecordsBefore(rules, parent, chain, k, j).heads[id];
    BeforeOk(rules, parent, chain, k, j);
    ExactAt(rules, parent, chain, k, j);
    assert HeadOk(rules, height, id, held);
    assert TerminalExact(chain[..k], height, chain[k].block.transactions[..j], held);
    forall end: u32 ensures EndedBy(chain, k, j, head, end) == EndedBy(chain, k, j, held, end) {
      EndedIgnoresTerminal(chain, k, j, head, held, end);
    }
    if held.terminalHeight.Some? {
      assert EndedBy(chain, k, j, held, held.terminalHeight.value);
    }
  }

  /** If the head of the last accepted operation is gone, some end of it is a whole cooldown old. */
  lemma {:induction false} GoneEnded(rules: Rules, parent: Bytes32, chain: seq<Link>, k: nat, j: nat, id: NameId,
                                     a: int, b: int)
    returns (end: u32)
    requires rules.parameters.Validated() && ValidChain(rules, parent, chain)
    requires k < |chain| && j <= |chain[k].block.transactions|
    requires LastBefore(rules, parent, chain, k, j, id, a, b)
    requires id !in RecordsBefore(rules, parent, chain, k, j).heads
    ensures HeadFrom(rules, chain, a, b).Some?
    ensures EndedBy(chain, k, j, HeadFrom(rules, chain, a, b).value, end)
    ensures end + rules.parameters.cooldownBlocks <= chain[k].block.height
    decreases k, j
  {
    hide RecordsBefore, ValidChain, HeadFrom, Accepts, EndedBy, LastBefore;
    LastAccepts(rules, parent, chain, k, j, id, a, b);
    AcceptedHead(rules, parent, chain, a, b, id);
    var head := HeadFrom(rules, chain, a, b).value;
    ChainHeights(rules, parent, chain);
    if j > 0 {
      NotJustInstalled(rules, parent, chain, k, j - 1, id);
      HeadKept(rules, parent, chain, k, j - 1, id);
      LastOneMore(rules, parent, chain, k, j - 1, id, a, b);
      end := GoneEnded(rules, parent, chain, k, j - 1, id, a, b);
      EndedOneMore(chain, k, j - 1, head, end);
    } else {
      var n := |chain[k - 1].block.transactions|;
      LastNextBlock(rules, parent, chain, k, id, a, b);
      if id in RecordsBefore(rules, parent, chain, k - 1, n).heads {
        end := JustCompacted(rules, parent, chain, k, id, a, b);
      } else {
        end := GoneEnded(rules, parent, chain, k - 1, n, id, a, b);
      }
      EndedNextBlock(chain, k, head, end);
    }
  }

  lemma LastAccepts(rules: Rules, parent: Bytes32, chain: seq<Link>, k: nat, j: nat, id: NameId, a: int, b: int)
    requires rules.parameters.epochBlocks > 0 && LastBefore(rules, parent, chain, k, j, id, a, b)
    ensures Accepts(rules, parent, chain, a, b, id) && PlaceBefore(a, b, k, j)
    ensures 0 <= a < |chain| && 0 <= b < |chain[a].block.transactions|
  {
    AcceptsInChain(rules, parent, chain, a, b, id);
  }

  lemma NotJustInstalled(rules: Rules, parent: Bytes32, chain: seq<Link>, k: nat, j: nat, id: NameId)
    requires rules.parameters.Validated() && ValidChain(rules, parent, chain)
    requires k < |chain| && j < |chain[k].block.transactions|
    requires id !in RecordsBefore(rules, parent, chain, k, j + 1).heads
    ensures !Accepts(rules, parent, chain, k, j, id)
  {
    hide RecordsBefore, ValidChain, HeadFrom, Accepts;
    if Accepts(rules, parent, chain, k, j, id) {
      AcceptedHead(rules, parent, chain, k, j, id);
      assert false;
    }
  }

  /** A head deleted at the start of a block ended exactly a cooldown before. */
  lemma JustCompacted(rules: Rules, parent: Bytes32, chain: seq<Link>, k: nat, id: NameId, a: int, b: int)
    returns (end: u32)
    requires rules.parameters.Validated() && ValidChain(rules, parent, chain) && 0 < k < |chain|
    requires id in RecordsBefore(rules, parent, chain, k - 1, |chain[k - 1].block.transactions|).heads
    requires id !in RecordsBefore(rules, parent, chain, k, 0).heads
    requires LastBefore(rules, parent, chain, k - 1, |chain[k - 1].block.transactions|, id, a, b)
    ensures HeadFrom(rules, chain, a, b).Some?
    ensures EndedBy(chain, k - 1, |chain[k - 1].block.transactions|, HeadFrom(rules, chain, a, b).value, end)
    ensures end + rules.parameters.cooldownBlocks <= chain[k].block.height
  {
    hide RecordsBefore, ValidChain, HeadFrom, LastBefore, EndedBy, EndsBy, AllExact;
    var n := |chain[k - 1].block.transactions|;
    var held := RecordsBefore(rules, parent, chain, k - 1, n).heads[id];
    var a', b' := TraceHead(rules, parent, chain, k - 1, n, id);
    LastUnique(rules, parent, chain, k - 1, n, id, a, b, a', b');
    DeletedEnded(rules, parent, chain, k, id);
    end := held.terminalHeight.value;
    ExactAt(rules, parent, chain, k - 1, n);
    EndIsAnEnd(chain, k - 1, n, RecordsBefore(rules, parent, chain, k - 1, n).heads, id);
    EndedIgnoresTerminal(chain, k - 1, n, HeadFrom(rules, chain, a, b).value, held, end);
  }

  lemma DeletedEnded(rules: Rules, parent: Bytes32, chain: seq<Link>, k: nat, id: NameId)
    requires rules.parameters.Validated() && ValidChain(rules, parent, chain) && 0 < k < |chain|
    requires id in RecordsBefore(rules, parent, chain, k - 1, |chain[k - 1].block.transactions|).heads
    requires id !in RecordsBefore(rules, parent, chain, k, 0).heads
    ensures
      var held := RecordsBefore(rules, parent, chain, k - 1, |chain[k - 1].block.transactions|).heads[id];
      held.terminalHeight.Some?
      && held.terminalHeight.value + rules.parameters.cooldownBlocks == chain[k].block.height
  {
    hide RecordsBefore, ValidChain, Opened, ProducedBefore, HeadOk, HeadAt, StartRecords, IndexError, ReplayChain;
    var n := |chain[k - 1].block.transactions|;
    var held := RecordsBefore(rules, parent, chain, k - 1, n).heads[id];
    ChainHeights(rules, parent, chain);
    NextHead(rules, parent, chain, k - 1, id);
    BeginsWith(rules, parent, chain, k, id);
    BeforeOk(rules, parent, chain, k - 1, n);
    OpenedOk(rules, chain[k - 1].block.height, id, held);
  }

  lemma EndIsAnEnd(chain: seq<Link>, k: nat, j: nat, heads: map<NameId, Head>, id: NameId)
    requires k < |chain| && j <= |chain[k].block.transactions|
    requires AllExact(chain[..k], chain[k].block.height, chain[k].block.transactions[..j], heads)
    requires id in heads && heads[id].terminalHeight.Some?
    ensures EndedBy(chain, k, j, heads[id], heads[id].terminalHeight.value)
  {
    hide EndsBy;
    assert TerminalExact(chain[..k], chain[k].block.height, chain[k].block.transactions[..j], heads[id]);
  }

  // ---- the head at any place ----

  /** A name holds a head exactly when its last accepted operation's head lasts within the cooldown. */
  lemma HeadTraced(rules: Rules, parent: Bytes32, chain: seq<Link>, k: nat, j: nat, id: NameId)
    requires rules.parameters.Validated() && ValidChain(rules, parent, chain)
    requires k < |chain| && j <= |chain[k].block.transactions|
    ensures
      id in RecordsBefore(rules, parent, chain, k, j).heads
      <==> exists a, b :: HeldFrom(rules, parent, chain, k, j, id, a, b, rules.parameters.cooldownBlocks)
  {
    hide RecordsBefore, ValidChain, HeadFrom, LastBefore, Lasts, EndedBy;
    if id in RecordsBefore(rules, parent, chain, k, j).heads {
      var a, b := TraceHead(rules, parent, chain, k, j, id);
      HeldLasts(rules, parent, chain, k, j, id, HeadFrom(rules, chain, a, b).value);
      assert HeldFrom(rules, parent, chain, k, j, id, a, b, rules.parameters.cooldownBlocks);
    } else if a, b :| HeldFrom(rules, parent, chain, k, j, id, a, b, rules.parameters.cooldownBlocks) {
      var end := GoneEnded(rules, parent, chain, k, j, id, a, b);
      NotLasting(chain, k, j, HeadFrom(rules, chain, a, b).value, rules.parameters.cooldownBlocks, end);
      assert false;
    }
  }

  lemma NotLasting(chain: seq<Link>, k: nat, j: nat, head: Head, blocks: int, end: u32)
    requires k < |chain| && j <= |chain[k].block.transactions|
    requires EndedBy(chain, k, j, head, end) && end + blocks <= chain[k].block.height
    ensures !Lasts(chain, k, j, head, blocks)
  {
    hide EndedBy;
  }

  /** The name's last accepted operation before the place, whose head still lasts. */
  ghost predicate HeldFrom(rules: Rules, parent: Bytes32, chain: seq<Link>, k: nat, j: nat, id: NameId,
                           a: int, b: int, blocks: int)
    requires rules.parameters.epochBlocks > 0 && k < |chain| && j <= |chain[k].block.transactions|
  {
    && LastBefore(rules, parent, chain, k, j, id, a, b) && HeadFrom(rules, chain, a, b).Some?
    && Lasts(chain, k, j, HeadFrom(rules, chain, a, b).value, blocks)
  }

  /** It is unended exactly when nothing at all has ended that operation's head, and is then that very head. */
  lemma ActiveHeadTraced(rules: Rules, parent: Bytes32, chain: seq<Link>, k: nat, j: nat, id: NameId, head: Head)
    requires rules.parameters.Validated() && ValidChain(rules, parent, chain)
    requires k < |chain| && j <= |chain[k].block.transactions|
    ensures
      Lookup(RecordsBefore(rules, parent, chain, k, j).heads, id) == Some(head) && head.terminalHeight.None?
      <==> exists a, b :: HeldFrom(rules, parent, chain, k, j, id, a, b, 0)
                          && HeadFrom(rules, chain, a, b) == Some(head)
  {
    hide RecordsBefore, ValidChain, LastBefore, Lasts, EndedBy, InstalledHead;
    var heads := RecordsBefore(rules, parent, chain, k, j).heads;
    if Lookup(heads, id) == Some(head) && head.terminalHeight.None? {
      var a, b := TraceHead(rules, parent, chain, k, j, id);
      HeadFromUnended(rules, chain, a, b);
      HeldLasts(rules, parent, chain, k, j, id, HeadFrom(rules, chain, a, b).value);
      assert HeldFrom(rules, parent, chain, k, j, id, a, b, 0);
    }
    if a, b :| HeldFrom(rules, parent, chain, k, j, id, a, b, 0) && HeadFrom(rules, chain, a, b) == Some(head) {
      HeadFromUnended(rules, chain, a, b);
      LastsLonger(chain, k, j, head, rules.parameters.cooldownBlocks);
      HeadTraced(rules, parent, chain, k, j, id);
      assert HeldFrom(rules, parent, chain, k, j, id, a, b, rules.parameters.cooldownBlocks);
      var a', b' := TraceHead(rules, parent, chain, k, j, id);
      LastUnique(rules, parent, chain, k, j, id, a, b, a', b');
      HeldLasts(rules, parent, chain, k, j, id, head);
    }
  }

  lemma HeadFromUnended(rules: Rules, chain: seq<Link>, a: int, b: int)
    requires rules.parameters.epochBlocks > 0
    ensures HeadFrom(rules, chain, a, b).Some? ==> HeadFrom(rules, chain, a, b).value.terminalHeight.None?
  {
  }

  lemma LastsLonger(chain: seq<Link>, k: nat, j: nat, head: Head, blocks: nat)
    requires k < |chain| && j <= |chain[k].block.transactions| && Lasts(chain, k, j, head, 0)
    ensures Lasts(chain, k, j, head, blocks)
  {
    hide EndedBy;
  }
}
