/**
 Canonical replay in its simple form: every step scans all records, and a chain of blocks
 means the state reached by replaying it from the activation parent. The indexed, journaled
 reducer is proved against these functions.
 */
module Replay {
  import opened Collections
  import opened Protocol
  import opened Schedule

  // ---- inputs ----

  datatype Action = Action(actionIndex: u32, nullifier: FieldElement, commitment: FieldElement)

  /** A transaction without a Names operation still carries its authenticated actions. */
  datatype Transaction = Transaction(
    txIndex: u32, txid: Bytes32, actions: seq<Action>, operation: Option<Operation>)

  datatype Block = Block(height: u32, hash: Bytes32, prevHash: Bytes32, transactions: seq<Transaction>)

  datatype ReferencedCommit = ReferencedCommit(reference: CommitRef, commitment: Commitment)

  /** One block together with the historical COMMIT evidence admitted with it. */
  datatype Link = Link(block: Block, evidence: seq<ReferencedCommit>)

  datatype RevealStatement = RevealStatement(
    deploymentId: Bytes32, nameId: NameId, inclusionEpoch: u32, commitment: Commitment,
    commitRef: CommitRef, ua: Ua, actionIndex: u32, actionNullifier: FieldElement,
    actionCommitment: FieldElement, successorFutureNf: FieldElement)

  datatype RefreshStatement = RefreshStatement(
    deploymentId: Bytes32, nameId: NameId, predecessorRef: StateRef,
    predecessorCommitment: FieldElement, predecessorFutureNf: FieldElement,
    predecessorEpoch: u32, inclusionEpoch: u32, ua: Ua, actionIndex: u32,
    actionNullifier: FieldElement, actionCommitment: FieldElement, successorFutureNf: FieldElement)

  /** The deployment's timing and its cryptography, of which nothing is assumed. */
  datatype Rules = Rules(
    parameters: Parameters,
    fingerprint: Bytes32,
    scheduleHash: ScheduleHash,
    nameId: Name -> Option<NameId>,
    uaOn: (Network, Ua) -> bool,
    verifyReveal: (RevealStatement, Proof) -> bool,
    verifyRefresh: (RefreshStatement, Proof) -> bool)

  // ---- records ----

  datatype Lifecycle = Active | Cooldown | Missing

  datatype Head = Head(
    name: Name, ua: Ua, producer: StateRef, commitment: FieldElement, futureNf: FieldElement,
    producerEpoch: u32, expiryHeight: u32, terminalHeight: Option<u32>)
  {
    function TerminalAt(height: u32): Option<u32> {
      if terminalHeight.Some? then terminalHeight
      else if height >= expiryHeight then Some(expiryHeight)
      else None
    }

    predicate IsClaimable(height: u32, p: Parameters) {
      TerminalAt(height).Some? && height >= TerminalAt(height).value + p.cooldownBlocks
    }

    function LifecycleAt(height: u32, p: Parameters): Lifecycle {
      if TerminalAt(height).None? then Active
      else if IsClaimable(height, p) then Missing
      else Cooldown
    }
  }

  datatype Records = Records(commits: map<CommitRef, Commitment>, heads: map<NameId, Head>)

  datatype Tip = Tip(height: u32, hash: Bytes32)

  datatype World = World(
    nextHeight: Option<u32>, tipHeight: Option<u32>, previousHash: Bytes32, records: Records)
  {
    function TipOf(): Option<Tip> {
      if tipHeight.Some? then Some(Tip(tipHeight.value, previousHash)) else None
    }
  }

  datatype Accepted = AcceptedCommit | AcceptedReveal | AcceptedRefresh

  /** The rule that decided an operation. */
  datatype Clause =
    | BlockOrder | CommitAccept
    | RevealAccept | RevealMissing | RevealSchedule | RevealCommit | RevealAction | RevealProof
    | RefreshAccept | RefreshCurrent | RefreshEpoch | RefreshSchedule | RefreshAction | RefreshProof

  datatype Decision = Decision(accepted: Option<Accepted>, clause: Clause)

  datatype Termination = Termination(nameId: NameId, previousHead: StateRef, height: u32)

  // ---- structural checks ----

  datatype ApplyError =
    | BadParameters | WrongHeight | WrongPreviousHash | NonCanonicalTransactionIndex
    | NonCanonicalActionIndex | InvalidReferencedCommit | ConflictingReferencedCommit

  predicate CanonicalActions(actions: seq<Action>) {
    forall i :: 0 <= i < |actions| ==>
      actions[i].actionIndex == (if i < U32_LIMIT then i else U32_LIMIT - 1)
  }

  /** The first ordering error met when the transactions are read in order. */
  function IndexError(txs: seq<Transaction>): Option<ApplyError> {
    if txs == [] then None
    else
      var front, last := txs[..|txs| - 1], txs[|txs| - 1];
      if IndexError(front).Some? then IndexError(front)
      else if front != [] && last.txIndex <= front[|front| - 1].txIndex then Some(NonCanonicalTransactionIndex)
      else if !CanonicalActions(last.actions) then Some(NonCanonicalActionIndex)
      else None
  }

  function RevealReferences(txs: seq<Transaction>): set<CommitRef> {
    set i | 0 <= i < |txs| && txs[i].operation.Some? && txs[i].operation.value.Reveal?
      :: txs[i].operation.value.commit
  }

  function EvidenceMap(evidence: seq<ReferencedCommit>): map<CommitRef, Commitment> {
    if evidence == [] then map[]
    else
      var last := evidence[|evidence| - 1];
      EvidenceMap(evidence[..|evidence| - 1])[last.reference := last.commitment]
  }

  /** The error of one evidence item, after the items before it. */
  function ItemError(p: Parameters, commits: map<CommitRef, Commitment>, block: Block,
                     supplied: map<CommitRef, Commitment>, item: ReferencedCommit): Option<ApplyError> {
    if || item.reference !in RevealReferences(block.transactions)
       || item.reference.height < p.activationHeight
       || item.reference.height >= block.height
       || block.height - item.reference.height >= p.commitTtlBlocks
    then Some(InvalidReferencedCommit)
    else if || (item.reference in supplied && supplied[item.reference] != item.commitment)
            || (item.reference in commits && commits[item.reference] != item.commitment)
    then Some(ConflictingReferencedCommit)
    else None
  }

  function EvidenceError(p: Parameters, commits: map<CommitRef, Commitment>, block: Block,
                         evidence: seq<ReferencedCommit>): Option<ApplyError> {
    if evidence == [] then None
    else
      var front, last := evidence[..|evidence| - 1], evidence[|evidence| - 1];
      if EvidenceError(p, commits, block, front).Some? then EvidenceError(p, commits, block, front)
      else ItemError(p, commits, block, EvidenceMap(front), last)
  }

  function CheckLink(rules: Rules, w: World, link: Link): Option<ApplyError> {
    if Some(link.block.height) != w.nextHeight then Some(WrongHeight)
    else if link.block.prevHash != w.previousHash then Some(WrongPreviousHash)
    else if IndexError(link.block.transactions).Some? then IndexError(link.block.transactions)
    else EvidenceError(rules.parameters, w.records.commits, link.block, link.evidence)
  }

  // ---- block start ----

  predicate Expires(head: Head, height: u32) {
    head.terminalHeight.None? && head.expiryHeight <= height
  }

  function Marked(head: Head, height: u32): Head {
    if Expires(head, height) then head.(terminalHeight := Some(head.expiryHeight)) else head
  }

  function MarkExpired(heads: map<NameId, Head>, height: u32): map<NameId, Head> {
    map id | id in heads :: Marked(heads[id], height)
  }

  predicate Compactable(p: Parameters, head: Head, height: u32) {
    head.terminalHeight.Some? && head.terminalHeight.value + p.cooldownBlocks <= height
  }

  function CompactClaimable(p: Parameters, heads: map<NameId, Head>, height: u32): map<NameId, Head> {
    map id | id in heads && !Compactable(p, heads[id], height) :: heads[id]
  }

  predicate Prunable(p: Parameters, reference: CommitRef, height: u32) {
    reference.height + p.commitTtlBlocks <= height
  }

  function PruneCommits(p: Parameters, commits: map<CommitRef, Commitment>, height: u32)
    : map<CommitRef, Commitment>
  {
    map r | r in commits && !Prunable(p, r, height) :: commits[r]
  }

  function StartRecords(rules: Rules, rec: Records, link: Link): Records {
    var p, height := rules.parameters, link.block.height;
    Records(PruneCommits(p, rec.commits, height) + EvidenceMap(link.evidence),
            CompactClaimable(p, MarkExpired(rec.heads, height), height))
  }

  // ---- one transaction ----

  predicate Carries(tx: Transaction, nullifier: FieldElement) {
    exists i :: 0 <= i < |tx.actions| && tx.actions[i].nullifier == nullifier
  }

  /** What the operation of a transaction does, decided against the records before it. */
  datatype Effect =
    | Inert(clause: Clause)
    | PutCommit(reference: CommitRef, commitment: Commitment)
    | PutHead(nameId: NameId, head: Head, kind: Accepted)

  function RevealEffect(rules: Rules, rec: Records, height: u32, tx: Transaction, op: Operation): (e: Effect)
    requires op.Reveal? && rules.parameters.epochBlocks > 0
    ensures e.Inert? || (e.PutHead? && e.kind.AcceptedReveal?)
  {
    var p := rules.parameters;
    if rules.nameId(op.name).None? then Inert(RevealMissing)
    else
      var nameId := rules.nameId(op.name).value;
      if nameId in rec.heads then Inert(RevealMissing)
      else if !p.AcceptsOperation(rules.scheduleHash, nameId, height) then Inert(RevealSchedule)
      else if !p.AcceptsCommit(op.commit.height, height) then Inert(RevealCommit)
      else if op.commit !in rec.commits then Inert(RevealCommit)
      else if op.actionIndex >= |tx.actions| then Inert(RevealAction)
      else
        var action := tx.actions[op.actionIndex];
        if action.actionIndex != op.actionIndex then Inert(RevealAction)
        else if p.Epoch(height).Err? then Inert(RevealSchedule)
        else
          var statement := RevealStatement(
            p.deploymentId, nameId, p.Epoch(height).value, rec.commits[op.commit], op.commit, op.ua,
            op.actionIndex, action.nullifier, action.commitment, op.successorFutureNf);
          if !rules.verifyReveal(statement, op.proof) then Inert(RevealProof)
          else if p.Expiry(height).Err? then Inert(RevealSchedule)
          else PutHead(nameId, NewHead(p, height, tx, action, op), AcceptedReveal)
  }

  function NewHead(p: Parameters, height: u32, tx: Transaction, action: Action, op: Operation): Head
    requires !op.Commit? && p.epochBlocks > 0
    requires p.Epoch(height).Ok? && p.Expiry(height).Ok?
  {
    Head(op.name, op.ua, StateRef(height, tx.txIndex, tx.txid, op.actionIndex), action.commitment,
         op.successorFutureNf, p.Epoch(height).value, p.Expiry(height).value, None)
  }

  function RefreshEffect(rules: Rules, rec: Records, height: u32, tx: Transaction, op: Operation): (e: Effect)
    requires op.Refresh? && rules.parameters.epochBlocks > 0
    ensures e.Inert? || (e.PutHead? && e.kind.AcceptedRefresh?)
  {
    var p := rules.parameters;
    if rules.nameId(op.name).None? then Inert(RefreshCurrent)
    else
      var nameId := rules.nameId(op.name).value;
      if nameId !in rec.heads then Inert(RefreshCurrent)
      else
        var current := rec.heads[nameId];
        if p.Epoch(height).Err? then Inert(RefreshSchedule)
        else if !current.LifecycleAt(height, p).Active? || current.producer != op.predecessor then Inert(RefreshCurrent)
        else if current.producerEpoch >= p.Epoch(height).value then Inert(RefreshEpoch)
        else if !p.AcceptsOperation(rules.scheduleHash, nameId, height) then Inert(RefreshSchedule)
        else if op.actionIndex >= |tx.actions| then Inert(RefreshAction)
        else
          var action := tx.actions[op.actionIndex];
          if action.actionIndex != op.actionIndex || action.nullifier != current.futureNf then Inert(RefreshAction)
          else
            var statement := RefreshStatement(
              p.deploymentId, nameId, op.predecessor, current.commitment, current.futureNf, current.producerEpoch,
              p.Epoch(height).value, op.ua, op.actionIndex, action.nullifier, action.commitment,
              op.successorFutureNf);
            if !rules.verifyRefresh(statement, op.proof) then Inert(RefreshProof)
            else if p.Expiry(height).Err? then Inert(RefreshSchedule)
            else PutHead(nameId, NewHead(p, height, tx, action, op), AcceptedRefresh)
  }

  function OperationEffect(rules: Rules, rec: Records, height: u32, tx: Transaction): Effect
    requires rules.parameters.epochBlocks > 0
  {
    match tx.operation
    case None => Inert(BlockOrder)
    case Some(Commit(commitment)) => PutCommit(CommitRef(height, tx.txIndex, tx.txid), commitment)
    case Some(Reveal(_, _, _, _, _, _)) => RevealEffect(rules, rec, height, tx, tx.operation.value)
    case Some(Refresh(_, _, _, _, _, _)) => RefreshEffect(rules, rec, height, tx, tx.operation.value)
  }

  function EffectDecision(effect: Effect): Decision {
    match effect
    case Inert(clause) => Decision(None, clause)
    case PutCommit(_, _) => Decision(Some(AcceptedCommit), CommitAccept)
    case PutHead(_, _, kind) => Decision(Some(kind), if kind.AcceptedReveal? then RevealAccept else RefreshAccept)
  }

  function EffectHeads(effect: Effect): set<NameId> {
    if effect.PutHead? then {effect.nameId} else {}
  }

  function AfterEffect(rec: Records, effect: Effect): Records {
    match effect
    case Inert(_) => rec
    case PutCommit(reference, commitment) => rec.(commits := rec.commits[reference := commitment])
    case PutHead(nameId, head, _) => rec.(heads := rec.heads[nameId := head])
  }

  /** A head the transaction spends that its own operation did not replace. */
  predicate StillSpent(before: map<NameId, Head>, middle: map<NameId, Head>, tx: Transaction, id: NameId) {
    && id in before && Carries(tx, before[id].futureNf)
    && id in middle && middle[id].producer == before[id].producer
  }

  /** A head the transaction makes terminal. */
  predicate Ends(before: map<NameId, Head>, middle: map<NameId, Head>, tx: Transaction, id: NameId) {
    StillSpent(before, middle, tx, id) && middle[id].terminalHeight.None?
  }

  function SpendPass(before: map<NameId, Head>, middle: map<NameId, Head>, tx: Transaction, height: u32)
    : map<NameId, Head>
  {
    map id | id in middle ::
      if Ends(before, middle, tx, id)
      then middle[id].(terminalHeight := Some(height))
      else middle[id]
  }

  function TxRecords(rules: Rules, rec: Records, height: u32, tx: Transaction): Records
    requires rules.parameters.epochBlocks > 0
  {
    var middle := AfterEffect(rec, OperationEffect(rules, rec, height, tx));
    Records(middle.commits, SpendPass(rec.heads, middle.heads, tx, height))
  }

  /** Heads the transaction journals: the one its operation replaced and every spent one. */
  function TxHeads(rules: Rules, rec: Records, height: u32, tx: Transaction): set<NameId>
    requires rules.parameters.epochBlocks > 0
  {
    var effect := OperationEffect(rules, rec, height, tx);
    var middle := AfterEffect(rec, effect);
    EffectHeads(effect)
    + set id | id in rec.heads && StillSpent(rec.heads, middle.heads, tx, id)
  }

  function TxCommits(height: u32, tx: Transaction): set<CommitRef> {
    if tx.operation.Some? && tx.operation.value.Commit?
    then {CommitRef(height, tx.txIndex, tx.txid)}
    else {}
  }

  function TxDecision(rules: Rules, rec: Records, height: u32, tx: Transaction): Decision
    requires rules.parameters.epochBlocks > 0
  {
    EffectDecision(OperationEffect(rules, rec, height, tx))
  }

  /** The heads one transaction makes terminal. */
  function TxTerminated(rules: Rules, rec: Records, height: u32, tx: Transaction): set<NameId>
    requires rules.parameters.epochBlocks > 0
  {
    var middle := AfterEffect(rec, OperationEffect(rules, rec, height, tx));
    set id | id in rec.heads && Ends(rec.heads, middle.heads, tx, id)
  }

  function TerminatedNames(ts: seq<Termination>): seq<NameId> {
    seq(|ts|, i requires 0 <= i < |ts| => ts[i].nameId)
  }

  /** `ts` reports the heads one transaction makes terminal, in ascending name order. */
  ghost predicate ReportsTerminations(rules: Rules, rec: Records, height: u32, tx: Transaction, ts: seq<Termination>)
    requires rules.parameters.epochBlocks > 0
  {
    && Enumerates(TerminatedNames(ts), TxTerminated(rules, rec, height, tx))
    && forall i :: 0 <= i < |ts| ==>
         ts[i].height == height && ts[i].nameId in rec.heads
         && ts[i].previousHead == rec.heads[ts[i].nameId].producer
  }

  // ---- the transactions of a block, by prefix ----

  function RecordsAfter(rules: Rules, rec: Records, height: u32, txs: seq<Transaction>): Records
    requires rules.parameters.epochBlocks > 0
  {
    if txs == [] then rec
    else TxRecords(rules, RecordsAfter(rules, rec, height, txs[..|txs| - 1]), height, txs[|txs| - 1])
  }

  function HeadsAfter(rules: Rules, rec: Records, height: u32, txs: seq<Transaction>): set<NameId>
    requires rules.parameters.epochBlocks > 0
  {
    if txs == [] then {}
    else
      var front := txs[..|txs| - 1];
      HeadsAfter(rules, rec, height, front)
      + TxHeads(rules, RecordsAfter(rules, rec, height, front), height, txs[|txs| - 1])
  }

  function CommitsAfter(height: u32, txs: seq<Transaction>): set<CommitRef> {
    if txs == [] then {}
    else CommitsAfter(height, txs[..|txs| - 1]) + TxCommits(height, txs[|txs| - 1])
  }

  function DecisionsAfter(rules: Rules, rec: Records, height: u32, txs: seq<Transaction>): seq<Decision>
    requires rules.parameters.epochBlocks > 0
  {
    if txs == [] then []
    else
      var front := txs[..|txs| - 1];
      DecisionsAfter(rules, rec, height, front)
      + [TxDecision(rules, RecordsAfter(rules, rec, height, front), height, txs[|txs| - 1])]
  }

  function AcceptedOf(decisions: seq<Decision>): seq<Accepted> {
    if decisions == [] then []
    else
      var last := decisions[|decisions| - 1].accepted;
      AcceptedOf(decisions[..|decisions| - 1]) + if last.Some? then [last.value] else []
  }

  /** `ts` is the concatenation of the termination reports of the transactions in order. */
  ghost predicate ReportsAllTerminations(
    rules: Rules, rec: Records, height: u32, txs: seq<Transaction>, ts: seq<Termination>)
    requires rules.parameters.epochBlocks > 0
  {
    if txs == [] then ts == []
    else
      exists k | 0 <= k <= |ts| ::
        && ReportsAllTerminations(rules, rec, height, txs[..|txs| - 1], ts[..k])
        && ReportsTerminations(rules, RecordsAfter(rules, rec, height, txs[..|txs| - 1]), height,
                               txs[|txs| - 1], ts[k..])
  }

  // ---- whole blocks and chains ----

  function BlockRecords(rules: Rules, rec: Records, link: Link): Records
    requires rules.parameters.epochBlocks > 0
  {
    RecordsAfter(rules, StartRecords(rules, rec, link), link.block.height, link.block.transactions)
  }

  /** Every head a block journals, changed or not. */
  function BlockHeads(rules: Rules, rec: Records, link: Link): set<NameId>
    requires rules.parameters.epochBlocks > 0
  {
    var p, height := rules.parameters, link.block.height;
    var marked := MarkExpired(rec.heads, height);
    (set id | id in rec.heads && Expires(rec.heads[id], height))
    + (set id | id in marked && Compactable(p, marked[id], height))
    + HeadsAfter(rules, StartRecords(rules, rec, link), height, link.block.transactions)
  }

  /** Every COMMIT reference a block journals, changed or not. */
  function BlockCommits(rules: Rules, rec: Records, link: Link): set<CommitRef> {
    (set r | r in rec.commits && Prunable(rules.parameters, r, link.block.height))
    + EvidenceMap(link.evidence).Keys
    + CommitsAfter(link.block.height, link.block.transactions)
  }

  function BlockDecisions(rules: Rules, rec: Records, link: Link): seq<Decision>
    requires rules.parameters.epochBlocks > 0
  {
    DecisionsAfter(rules, StartRecords(rules, rec, link), link.block.height, link.block.transactions)
  }

  function Advance(rules: Rules, w: World, link: Link): World
    requires rules.parameters.epochBlocks > 0
  {
    World(CheckedAdd(link.block.height, 1), Some(link.block.height), link.block.hash,
          BlockRecords(rules, w.records, link))
  }

  function Genesis(rules: Rules, parent: Bytes32): World {
    World(Some(rules.parameters.activationHeight), None, parent, Records(map[], map[]))
  }

  function ReplayChain(rules: Rules, parent: Bytes32, chain: seq<Link>): World
    requires rules.parameters.epochBlocks > 0
  {
    if chain == [] then Genesis(rules, parent)
    else Advance(rules, ReplayChain(rules, parent, chain[..|chain| - 1]), chain[|chain| - 1])
  }

  /** Every block of the chain passes its checks on the state its prefix reaches. */
  predicate ValidChain(rules: Rules, parent: Bytes32, chain: seq<Link>)
    requires rules.parameters.epochBlocks > 0
  {
    chain == []
    || (var front := chain[..|chain| - 1];
        && ValidChain(rules, parent, front)
        && CheckLink(rules, ReplayChain(rules, parent, front), chain[|chain| - 1]).None?)
  }

  // ---- resolution ----

  datatype Resolution = Resolution(lifecycle: Lifecycle, ua: Option<Ua>, head: Option<Head>)

  datatype ResolutionError =
    | IncompleteHistory(requestedHeight: u32, tipHeight: Option<u32>)
    | HistoricalResolutionUnavailable(requestedHeight: u32, tip: u32)

  function ResolveHead(p: Parameters, head: Option<Head>, height: u32): Resolution {
    if head.None? || head.value.LifecycleAt(height, p).Missing? then Resolution(Missing, None, None)
    else
      var lifecycle := head.value.LifecycleAt(height, p);
      Resolution(lifecycle, if lifecycle.Active? then Some(head.value.ua) else None, head)
  }

  function Resolve(rules: Rules, heads: map<NameId, Head>, name: Name, height: u32): Resolution {
    match rules.nameId(name)
    case None => Resolution(Missing, None, None)
    case Some(nameId) => ResolveHead(rules.parameters, Lookup(heads, nameId), height)
  }

  function ResolveAuthenticated(rules: Rules, w: World, name: Name, height: u32)
    : Result<Resolution, ResolutionError>
  {
    if w.tipHeight.None? && rules.parameters.activationHeight == height + 1
    then Ok(Resolve(rules, w.records.heads, name, height))
    else if w.tipHeight.None? || height > w.tipHeight.value then Err(IncompleteHistory(height, w.tipHeight))
    else if w.tipHeight != Some(height) then Err(HistoricalResolutionUnavailable(height, w.tipHeight.value))
    else Ok(Resolve(rules, w.records.heads, name, height))
  }
}
