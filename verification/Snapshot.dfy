/** Stored replay state: what is written, and everything that is checked before it is restored. */
module Snapshots {
  import opened Collections
  import opened Protocol
  import opened Schedule
  import opened Replay
  import opened Journal

  const REDUCER_SNAPSHOT_FORMAT_VERSION: u32 := 3
  const EXACT_RESOLVER_SNAPSHOT_FORMAT_VERSION: u32 := 3

  datatype SnapshotError =
    | UnsupportedFormat | ParametersMismatch | NameMismatch | InvalidState | InvalidHistory

  /** A head with its name and address as text. */
  datatype StoredHead = StoredHead(
    name: seq<byte>, ua: seq<byte>, producer: StateRef, commitment: FieldElement, futureNf: FieldElement,
    producerEpoch: u32, expiryHeight: u32, terminalHeight: Option<u32>)

  datatype StoredUndo = StoredUndo(
    height: u32, hash: Bytes32, previousHash: Bytes32, previousNextHeight: Option<u32>,
    previousTipHeight: Option<u32>, commits: seq<(CommitRef, Option<Commitment>)>,
    heads: seq<(NameId, Option<StoredHead>)>)

  datatype RollbackRange = RollbackRange(firstHeight: u32, lastHeight: u32)

  datatype StoredReducer = StoredReducer(
    formatVersion: u32, deploymentId: Bytes32, rulesetFingerprint: Bytes32,
    rollbackRange: Option<RollbackRange>, parameters: Parameters, nextHeight: Option<u32>,
    tipHeight: Option<u32>, previousHash: Bytes32, commits: seq<(CommitRef, Commitment)>,
    heads: seq<(NameId, StoredHead)>, history: seq<StoredUndo>)

  datatype StoredExactResolver = StoredExactResolver(
    formatVersion: u32, deploymentId: Bytes32, rulesetFingerprint: Bytes32,
    rollbackRange: Option<RollbackRange>, name: seq<byte>, reducer: StoredReducer)

  // ---- lists of checked entries ----

  /** What a check makes of every entry, or None if it refuses one or a key occurs twice. */
  ghost function Checked<K, V, W>(s: seq<(K, V)>, check: (K, V) -> Option<W>): Option<map<K, W>> {
    if DistinctKeys(s) && forall i :: 0 <= i < |s| ==> check(s[i].0, s[i].1).Some?
    then Some(Collect(seq(|s|, i requires 0 <= i < |s| && check(s[i].0, s[i].1).Some? =>
                                 (s[i].0, check(s[i].0, s[i].1).value))))
    else None
  }

  method CollectChecked<K(==), V, W>(s: seq<(K, V)>, check: (K, V) -> Option<W>) returns (r: Option<map<K, W>>)
    ensures r == Checked(s, check)
  {
    var m: map<K, W> := map[];
    ghost var done: seq<(K, W)> := [];
    for i := 0 to |s|
      invariant |done| == i && m == Collect(done)
      invariant forall k :: 0 <= k < i ==>
        check(s[k].0, s[k].1).Some? && done[k] == (s[k].0, check(s[k].0, s[k].1).value)
      invariant forall j, k :: 0 <= j < k < i ==> s[j].0 != s[k].0
    {
      var value := check(s[i].0, s[i].1);
      CollectKeys(done);
      if value.None? {
        return None;
      }
      if s[i].0 in m {
        ghost var k :| 0 <= k < |done| && done[k].0 == s[i].0;
        assert s[k].0 == s[i].0;
        return None;
      }
      forall k | 0 <= k < i ensures s[k].0 != s[i].0 {
        assert done[k].0 == s[k].0;
      }
      ghost var was := done;
      done := done + [(s[i].0, value.value)];
      assert done[..|done| - 1] == was;
      m := m[s[i].0 := value.value];
    }
    assert done == seq(|s|, i requires 0 <= i < |s| && check(s[i].0, s[i].1).Some? =>
                              (s[i].0, check(s[i].0, s[i].1).value));
    return Some(m);
  }

  /** Checking any listing of a map succeeds exactly when every entry passes, and then maps entry by entry. */
  lemma CheckedListing<K, V, W>(s: seq<(K, V)>, stored: map<K, V>, restored: map<K, W>, check: (K, V) -> Option<W>)
    requires Lists(s, stored) && restored.Keys == stored.Keys
    requires forall k :: k in stored ==> check(k, stored[k]).None? || check(k, stored[k]) == Some(restored[k])
    ensures Checked(s, check).Some? <==> forall k :: k in stored ==> check(k, stored[k]).Some?
    ensures Checked(s, check).Some? ==> Checked(s, check).value == restored
  {
    if Checked(s, check).Some? {
      var t := seq(|s|, i requires 0 <= i < |s| && check(s[i].0, s[i].1).Some? =>
                           (s[i].0, check(s[i].0, s[i].1).value));
      forall k | k in stored ensures check(k, stored[k]).Some? && exists i :: 0 <= i < |t| && t[i].0 == k {
        var i :| 0 <= i < |s| && s[i].0 == k;
        assert t[i].0 == k;
      }
      CollectListing(t, restored);
    }
  }

  // ---- heads and commits ----

  function StoreHead(head: Head): StoredHead {
    StoredHead(head.name, head.ua, head.producer, head.commitment, head.futureNf, head.producerEpoch,
               head.expiryHeight, head.terminalHeight)
  }

  predicate StorableCommit(p: Parameters, tipHeight: Option<u32>, r: CommitRef) {
    tipHeight.Some? && p.activationHeight <= r.height <= tipHeight.value
    && tipHeight.value - r.height < p.commitTtlBlocks
  }

  /** The checks on a stored head at a tip. */
  predicate StorableHead(p: Parameters, tip: u32, head: Head)
    requires p.epochBlocks > 0
  {
    && p.Epoch(head.producer.height) == Ok(head.producerEpoch)
    && p.Expiry(head.producer.height) == Ok(head.expiryHeight)
    && head.producer.height <= tip
    && (head.terminalHeight.Some? ==> head.producer.height <= head.terminalHeight.value <= tip)
    && !(head.terminalHeight.None? && tip >= head.expiryHeight)
    && !head.IsClaimable(tip, p)
  }

  function RestoreHead(rules: Rules, network: Network, tipHeight: Option<u32>, stored: StoredHead): Option<Head>
    requires rules.parameters.epochBlocks > 0
  {
    if tipHeight.None? || ParseName(stored.name).None? then None
    else if !(0 < |stored.ua| <= MAX_UA_BYTES) then None
    else
      var ua: Ua := stored.ua;
      if !rules.uaOn(network, ua) then None
      else
        var head := Head(ParseName(stored.name).value, ua, stored.producer, stored.commitment, stored.futureNf,
                         stored.producerEpoch, stored.expiryHeight, stored.terminalHeight);
        if StorableHead(rules.parameters, tipHeight.value, head) then Some(head) else None
  }

  function RestoreNamedHead(rules: Rules, network: Network, tipHeight: Option<u32>, id: NameId, stored: StoredHead)
    : Option<Head>
    requires rules.parameters.epochBlocks > 0
  {
    var head := RestoreHead(rules, network, tipHeight, stored);
    if head.Some? && rules.nameId(head.value.name) == Some(id) then head else None
  }

  function RestoreCommit(p: Parameters, tipHeight: Option<u32>, r: CommitRef, c: Commitment): Option<Commitment> {
    if StorableCommit(p, tipHeight, r) then Some(c) else None
  }

  // ---- undo entries ----

  function CheckedSub(a: u32, b: u32): Option<u32> {
    if a >= b then Some(a - b) else None
  }

  predicate StorableUndo(p: Parameters, tipHeight: Option<u32>, stored: StoredUndo) {
    && tipHeight.Some? && stored.height <= tipHeight.value
    && stored.previousNextHeight == Some(stored.height)
    && stored.previousTipHeight
       == if stored.height == p.activationHeight then None else CheckedSub(stored.height, 1)
  }

  function RestoreUndoCommit(p: Parameters, height: u32, previousTip: Option<u32>,
                             r: CommitRef, previous: Option<Commitment>): Option<Option<Commitment>> {
    if r.height > height || (previous.Some? && !StorableCommit(p, previousTip, r)) then None else Some(previous)
  }

  function RestoreUndoHead(rules: Rules, network: Network, previousTip: Option<u32>,
                           id: NameId, previous: Option<StoredHead>): Option<Option<Head>>
    requires rules.parameters.epochBlocks > 0
  {
    if previous.None? then Some(None)
    else
      var head := RestoreNamedHead(rules, network, previousTip, id, previous.value);
      if head.None? then None else Some(head)
  }

  ghost function RestoreUndo(rules: Rules, network: Network, tipHeight: Option<u32>, stored: StoredUndo): Option<Undo>
    requires rules.parameters.epochBlocks > 0
  {
    if !StorableUndo(rules.parameters, tipHeight, stored) then None
    else
      var commits := Checked(stored.commits, (r, c) =>
        RestoreUndoCommit(rules.parameters, stored.height, stored.previousTipHeight, r, c));
      var heads := Checked(stored.heads, (id, h) =>
        RestoreUndoHead(rules, network, stored.previousTipHeight, id, h));
      if commits.None? || heads.None? then None
      else Some(Undo(stored.height, stored.hash, stored.previousHash, stored.previousNextHeight,
                     stored.previousTipHeight, commits.value, heads.value))
  }

  // ---- whole snapshots ----

  predicate StorableTip(p: Parameters, nextHeight: Option<u32>, tipHeight: Option<u32>) {
    match tipHeight
    case None => nextHeight == Some(p.activationHeight)
    case Some(tip) => tip >= p.activationHeight && nextHeight == CheckedAdd(tip, 1)
  }

  predicate StorableHistory(tipHeight: Option<u32>, previousHash: Bytes32, history: seq<Undo>) {
    history == []
    || (var last := history[|history| - 1];
        && Some(last.height) == tipHeight && last.hash == previousHash
        && forall i :: 0 <= i < |history| - 1 ==>
             CheckedAdd(history[i].height, 1) == Some(history[i + 1].height)
             && history[i + 1].previousHash == history[i].hash)
  }

  function RangeOf(history: seq<Undo>): Option<RollbackRange> {
    if history == [] then None
    else Some(RollbackRange(history[0].height, history[|history| - 1].height))
  }

  /** The state restored under independently supplied rules and network, or the first failing check. */
  ghost function LoadCore(rules: Rules, network: Network, stored: StoredReducer): Result<Core, SnapshotError> {
    if !rules.parameters.Validated() then Err(ParametersMismatch)
    else if stored.formatVersion != REDUCER_SNAPSHOT_FORMAT_VERSION then Err(UnsupportedFormat)
    else if || stored.deploymentId != rules.parameters.deploymentId
            || stored.rulesetFingerprint != rules.fingerprint
            || stored.parameters != rules.parameters
    then Err(ParametersMismatch)
    else if !StorableTip(rules.parameters, stored.nextHeight, stored.tipHeight) then Err(InvalidState)
    else
      var commits := Checked(stored.commits, (r, c) => RestoreCommit(rules.parameters, stored.tipHeight, r, c));
      var heads := Checked(stored.heads, (id, h) => RestoreNamedHead(rules, network, stored.tipHeight, id, h));
      if commits.None? || heads.None? then Err(InvalidState)
      else LoadHistory(rules, network, stored, Records(commits.value, heads.value))
  }

  ghost function LoadHistory(rules: Rules, network: Network, stored: StoredReducer, records: Records)
    : Result<Core, SnapshotError>
    requires rules.parameters.epochBlocks > 0
  {
    if exists i :: 0 <= i < |stored.history|
                   && RestoreUndo(rules, network, stored.tipHeight, stored.history[i]).None?
    then Err(InvalidHistory)
    else
      var history := RestoredHistory(rules, network, stored);
      if !StorableHistory(stored.tipHeight, stored.previousHash, history) then Err(InvalidHistory)
      else if stored.rollbackRange != RangeOf(history) then Err(InvalidHistory)
      else Ok(Core(World(stored.nextHeight, stored.tipHeight, stored.previousHash, records), history))
  }

  ghost function RestoredHistory(rules: Rules, network: Network, stored: StoredReducer): seq<Undo>
    requires rules.parameters.epochBlocks > 0
    requires forall i :: 0 <= i < |stored.history| ==>
      RestoreUndo(rules, network, stored.tipHeight, stored.history[i]).Some?
  {
    seq(|stored.history|, i requires 0 <= i < |stored.history| =>
      RestoreUndo(rules, network, stored.tipHeight, stored.history[i]).value)
  }

  function StoreHeads(heads: map<NameId, Head>): map<NameId, StoredHead> {
    map id | id in heads :: StoreHead(heads[id])
  }

  function StorePrevious(head: Option<Head>): Option<StoredHead> {
    if head.Some? then Some(StoreHead(head.value)) else None
  }

  function StoreUndoHeads(heads: map<NameId, Option<Head>>): map<NameId, Option<StoredHead>> {
    map id | id in heads :: StorePrevious(heads[id])
  }

  ghost predicate StoresUndo(stored: StoredUndo, undo: Undo) {
    && stored.height == undo.height && stored.hash == undo.hash && stored.previousHash == undo.previousHash
    && stored.previousNextHeight == undo.previousNextHeight && stored.previousTipHeight == undo.previousTipHeight
    && Lists(stored.commits, undo.commits) && Lists(stored.heads, StoreUndoHeads(undo.heads))
  }

  /** `stored` is a faithful snapshot of the state, with its maps listed in some order. */
  ghost predicate IsSnapshot(rules: Rules, core: Core, stored: StoredReducer) {
    && stored.formatVersion == REDUCER_SNAPSHOT_FORMAT_VERSION
    && stored.deploymentId == rules.parameters.deploymentId
    && stored.rulesetFingerprint == rules.fingerprint
    && stored.rollbackRange == RangeOf(core.history)
    && stored.parameters == rules.parameters
    && stored.nextHeight == core.world.nextHeight && stored.tipHeight == core.world.tipHeight
    && stored.previousHash == core.world.previousHash
    && Lists(stored.commits, core.world.records.commits)
    && Lists(stored.heads, StoreHeads(core.world.records.heads))
    && |stored.history| == |core.history|
    && forall i :: 0 <= i < |core.history| ==> StoresUndo(stored.history[i], core.history[i])
  }

  ghost predicate OrderedUndo(stored: StoredUndo) {
    Ascends(stored.commits, RefRank) && Ascends(stored.heads, NameRank)
  }

  /** The snapshot lists every map in key order. */
  ghost predicate OrderedSnapshot(stored: StoredReducer) {
    && Ascends(stored.commits, RefRank) && Ascends(stored.heads, NameRank)
    && forall i :: 0 <= i < |stored.history| ==> OrderedUndo(stored.history[i])
  }

  /** A state has one ordered snapshot. */
  lemma OrderedSnapshotUnique(rules: Rules, core: Core, a: StoredReducer, b: StoredReducer)
    requires IsSnapshot(rules, core, a) && OrderedSnapshot(a)
    requires IsSnapshot(rules, core, b) && OrderedSnapshot(b)
    ensures a == b
  {
    hide Lists, Ascends, Ranks, RefRank, NameRank, StoresUndo, OrderedUndo;
    RefsRanked(core.world.records.commits);
    NamesRanked(StoreHeads(core.world.records.heads));
    OrderedListingUnique(a.commits, b.commits, core.world.records.commits, RefRank);
    OrderedListingUnique(a.heads, b.heads, StoreHeads(core.world.records.heads), NameRank);
    forall i | 0 <= i < |core.history| ensures a.history[i] == b.history[i] {
      OrderedUndoUnique(core.history[i], a.history[i], b.history[i]);
    }
  }

  lemma OrderedUndoUnique(undo: Undo, a: StoredUndo, b: StoredUndo)
    requires StoresUndo(a, undo) && OrderedUndo(a) && StoresUndo(b, undo) && OrderedUndo(b)
    ensures a == b
  {
    hide Lists, Ascends, Ranks, RefRank, NameRank;
    RefsRanked(undo.commits);
    NamesRanked(StoreUndoHeads(undo.heads));
    OrderedListingUnique(a.commits, b.commits, undo.commits, RefRank);
    OrderedListingUnique(a.heads, b.heads, StoreUndoHeads(undo.heads), NameRank);
  }

  /** Every retained head, and every head the journal could bring back, belongs to the one name. */
  predicate IsExactFor(core: Core, target: NameId) {
    && core.world.records.heads.Keys <= {target}
    && forall i :: 0 <= i < |core.history| ==> core.history[i].heads.Keys <= {target}
  }

  ghost function LoadExact(rules: Rules, network: Network, name: Name, stored: StoredExactResolver)
    : Result<Core, SnapshotError>
  {
    if stored.formatVersion != EXACT_RESOLVER_SNAPSHOT_FORMAT_VERSION then Err(UnsupportedFormat)
    else if stored.name != name then Err(NameMismatch)
    else if stored.deploymentId != rules.parameters.deploymentId || stored.rulesetFingerprint != rules.fingerprint
    then Err(ParametersMismatch)
    else if rules.nameId(name).None? then Err(NameMismatch)
    else
      var core := LoadCore(rules, network, stored.reducer);
      if core.Err? then core
      else if !IsExactFor(core.value, rules.nameId(name).value) then Err(NameMismatch)
      else if RangeOf(core.value.history) != stored.rollbackRange then Err(InvalidHistory)
      else core
  }

  ghost predicate IsExactSnapshot(rules: Rules, name: Name, core: Core, stored: StoredExactResolver) {
    && stored.formatVersion == EXACT_RESOLVER_SNAPSHOT_FORMAT_VERSION
    && stored.deploymentId == rules.parameters.deploymentId
    && stored.rulesetFingerprint == rules.fingerprint
    && stored.rollbackRange == RangeOf(core.history)
    && stored.name == name
    && IsSnapshot(rules, core, stored.reducer)
  }

  // ---- field by field ----

  /** The stored record says of the head what the head says. */
  predicate SameFields(stored: StoredHead, head: Head) {
    && stored.name == head.name && stored.ua == head.ua && stored.producer == head.producer
    && stored.commitment == head.commitment && stored.futureNf == head.futureNf
    && stored.producerEpoch == head.producerEpoch && stored.expiryHeight == head.expiryHeight
    && stored.terminalHeight == head.terminalHeight
  }

  predicate SameOptional(stored: Option<StoredHead>, head: Option<Head>) {
    stored.Some? == head.Some? && (stored.Some? ==> SameFields(stored.value, head.value))
  }

  lemma RecordIsExact(stored: StoredHead, head: Head)
    ensures SameFields(stored, head) <==> stored == StoreHead(head)
  {
  }

  lemma OptionalRecordIsExact(stored: Option<StoredHead>, head: Option<Head>)
    ensures SameOptional(stored, head) <==> stored == StorePrevious(head)
  {
  }

  /** The restored head is the stored record, with its name parsed. */
  predicate Restores(stored: StoredHead, head: Head) {
    && ParseName(stored.name) == Some(head.name)
    && stored.ua == head.ua && stored.producer == head.producer
    && stored.commitment == head.commitment && stored.futureNf == head.futureNf
    && stored.producerEpoch == head.producerEpoch && stored.expiryHeight == head.expiryHeight
    && stored.terminalHeight == head.terminalHeight
  }

  /** Every listed entry is one of the map's, every one of the map's is listed, and each pair is related. */
  ghost predicate ListsRelated<K(!new), V, W(!new)>(s: seq<(K, V)>, m: map<K, W>, related: (V, W) -> bool) {
    && DistinctKeys(s)
    && (forall i :: 0 <= i < |s| ==> s[i].0 in m && related(s[i].1, m[s[i].0]))
    && (forall k :: k in m ==> exists i :: 0 <= i < |s| && s[i].0 == k)
  }

  /** What a snapshot holds of a journal entry. */
  ghost predicate HoldsUndo(stored: StoredUndo, undo: Undo) {
    && stored.height == undo.height && stored.hash == undo.hash && stored.previousHash == undo.previousHash
    && stored.previousNextHeight == undo.previousNextHeight && stored.previousTipHeight == undo.previousTipHeight
    && ListsRelated(stored.commits, undo.commits, (a: Option<Commitment>, b: Option<Commitment>) => a == b)
    && ListsRelated(stored.heads, undo.heads, SameOptional)
  }

  /** What a snapshot holds of a state: its rules, its tip, and every field of every record, current or journaled. */
  ghost predicate HoldsState(rules: Rules, core: Core, stored: StoredReducer) {
    && stored.formatVersion == 3
    && stored.parameters == rules.parameters && stored.deploymentId == rules.parameters.deploymentId
    && stored.rulesetFingerprint == rules.fingerprint
    && stored.nextHeight == core.world.nextHeight && stored.tipHeight == core.world.tipHeight
    && stored.previousHash == core.world.previousHash
    && ListsRelated(stored.commits, core.world.records.commits, (a: Commitment, b: Commitment) => a == b)
    && ListsRelated(stored.heads, core.world.records.heads, SameFields)
    && |stored.history| == |core.history|
    && (forall i :: 0 <= i < |core.history| ==> HoldsUndo(stored.history[i], core.history[i]))
    && (core.history == [] ==> stored.rollbackRange == None)
    && (core.history != [] ==>
          && stored.rollbackRange.Some?
          && stored.rollbackRange.value.firstHeight == core.history[0].height
          && stored.rollbackRange.value.lastHeight == core.history[|core.history| - 1].height)
  }

  lemma UndoHeld(stored: StoredUndo, undo: Undo)
    requires StoresUndo(stored, undo)
    ensures HoldsUndo(stored, undo)
  {
    forall i | 0 <= i < |stored.heads| ensures SameOptional(stored.heads[i].1, undo.heads[stored.heads[i].0]) {
      OptionalRecordIsExact(stored.heads[i].1, undo.heads[stored.heads[i].0]);
    }
    assert StoreUndoHeads(undo.heads).Keys == undo.heads.Keys;
  }

  /** A snapshot holds exactly the state it was taken of. */
  lemma SnapshotHolds(rules: Rules, core: Core, stored: StoredReducer)
    requires IsSnapshot(rules, core, stored)
    ensures HoldsState(rules, core, stored)
  {
    hide HoldsUndo, StoresUndo;
    var heads := core.world.records.heads;
    forall i | 0 <= i < |stored.heads| ensures SameFields(stored.heads[i].1, heads[stored.heads[i].0]) {
      RecordIsExact(stored.heads[i].1, heads[stored.heads[i].0]);
    }
    assert StoreHeads(heads).Keys == heads.Keys;
    forall i | 0 <= i < |core.history| ensures HoldsUndo(stored.history[i], core.history[i]) {
      UndoHeld(stored.history[i], core.history[i]);
    }
  }
}

/** Every reachable state survives being stored and restored. */
module SnapshotRoundTrip {
  import opened Collections
  import opened Protocol
  import opened Replay
  import opened Journal
  import opened Lifecycles
  import opened Resolver
  import opened Snapshots

  /** Each address that would have to be parsed again is valid on the network. */
  ghost predicate HeadsOn(rules: Rules, network: Network, heads: map<NameId, Head>) {
    forall id :: id in heads ==> rules.uaOn(network, heads[id].ua)
  }

  ghost predicate UndoOn(rules: Rules, network: Network, undo: Undo) {
    forall id :: id in undo.heads && undo.heads[id].Some? ==> rules.uaOn(network, undo.heads[id].value.ua)
  }

  ghost predicate CoreOn(rules: Rules, network: Network, core: Core) {
    HeadsOn(rules, network, core.world.records.heads)
    && forall i :: 0 <= i < |core.history| ==> UndoOn(rules, network, core.history[i])
  }

  // ---- addresses of one network ----

  /** The addresses in the operations of the block were decoded for this network. */
  predicate TxsOn(rules: Rules, network: Network, txs: seq<Transaction>) {
    forall i :: 0 <= i < |txs| && txs[i].operation.Some? && !txs[i].operation.value.Commit? ==>
      rules.uaOn(network, txs[i].operation.value.ua)
  }

  predicate ChainOn(rules: Rules, network: Network, chain: seq<Link>) {
    forall i :: 0 <= i < |chain| ==> TxsOn(rules, network, chain[i].block.transactions)
  }

  lemma InstallsItsUa(rules: Rules, rec: Records, height: u32, tx: Transaction)
    requires rules.parameters.epochBlocks > 0
    ensures
      var effect := OperationEffect(rules, rec, height, tx);
      effect.PutHead? ==>
        tx.operation.Some? && !tx.operation.value.Commit? && effect.head.ua == tx.operation.value.ua
  {
  }

  lemma TxStaysOn(rules: Rules, network: Network, rec: Records, height: u32, tx: Transaction)
    requires rules.parameters.epochBlocks > 0
    requires HeadsOn(rules, network, rec.heads)
    requires tx.operation.Some? && !tx.operation.value.Commit? ==> rules.uaOn(network, tx.operation.value.ua)
    ensures HeadsOn(rules, network, TxRecords(rules, rec, height, tx).heads)
  {
    InstallsItsUa(rules, rec, height, tx);
    hide OperationEffect;
  }

  lemma {:induction false} TxsStayOn(rules: Rules, network: Network, rec: Records, height: u32, txs: seq<Transaction>)
    requires rules.parameters.epochBlocks > 0
    requires TxsOn(rules, network, txs) && HeadsOn(rules, network, rec.heads)
    ensures HeadsOn(rules, network, RecordsAfter(rules, rec, height, txs).heads)
  {
    hide TxRecords, HeadsOn;
    if txs != [] {
      var front, last := txs[..|txs| - 1], txs[|txs| - 1];
      TxsStayOn(rules, network, rec, height, front);
      TxStaysOn(rules, network, RecordsAfter(rules, rec, height, front), height, last);
    }
  }

  lemma StartStaysOn(rules: Rules, network: Network, rec: Records, link: Link)
    requires HeadsOn(rules, network, rec.heads)
    ensures HeadsOn(rules, network, StartRecords(rules, rec, link).heads)
  {
  }

  /** Every head a chain reaches carries an address from one of its operations. */
  lemma {:induction false} ChainStaysOn(rules: Rules, parent: Bytes32, network: Network, chain: seq<Link>)
    requires rules.parameters.epochBlocks > 0 && ChainOn(rules, network, chain)
    ensures HeadsOn(rules, network, ReplayChain(rules, parent, chain).records.heads)
  {
    if chain != [] {
      hide RecordsAfter, StartRecords, TxsOn, HeadsOn;
      var front, link := chain[..|chain| - 1], chain[|chain| - 1];
      ChainStaysOn(rules, parent, network, front);
      var rec := ReplayChain(rules, parent, front).records;
      StartStaysOn(rules, network, rec, link);
      TxsStayOn(rules, network, StartRecords(rules, rec, link), link.block.height, link.block.transactions);
    } else {
      assert HeadsOn(rules, network, map[]);
    }
  }

  lemma StoredHeadRestores(rules: Rules, network: Network, tip: u32, id: NameId, head: Head)
    requires rules.parameters.Validated() && HeadOk(rules, tip, id, head)
    ensures RestoreNamedHead(rules, network, Some(tip), id, StoreHead(head))
            == if rules.uaOn(network, head.ua) then Some(head) else None
  {
    NameSpellings(head.name, head.name);
  }

  /** What a journal entry must satisfy for the checks on it to pass. */
  ghost predicate UndoOk(rules: Rules, undo: Undo)
    requires rules.parameters.epochBlocks > 0
  {
    && undo.previousNextHeight == Some(undo.height)
    && undo.previousTipHeight
       == (if undo.height == rules.parameters.activationHeight then None else CheckedSub(undo.height, 1))
    && (forall r :: r in undo.commits ==>
          r.height <= undo.height
          && (undo.commits[r].Some? ==>
                undo.previousTipHeight.Some? && CommitOk(rules, undo.previousTipHeight.value, r)))
    && (forall id :: id in undo.heads && undo.heads[id].Some? ==>
          undo.previousTipHeight.Some? && HeadOk(rules, undo.previousTipHeight.value, id, undo.heads[id].value))
  }

  lemma JournaledHeights(rules: Rules, w: World, link: Link)
    requires rules.parameters.Validated() && WorldOk(rules, w) && CheckLink(rules, w, link).None?
    ensures forall r :: r in BlockCommits(rules, w.records, link) ==> r.height <= link.block.height
  {
    EvidenceOk(rules.parameters, w.records.commits, link.block, link.evidence);
    TxCommitHeights(link.block.height, link.block.transactions);
  }

  lemma {:induction false} TxCommitHeights(height: u32, txs: seq<Transaction>)
    ensures forall r :: r in CommitsAfter(height, txs) ==> r.height == height
  {
    if txs != [] {
      TxCommitHeights(height, txs[..|txs| - 1]);
    }
  }

  lemma EntryOk(rules: Rules, parent: Bytes32, chain: seq<Link>, i: nat)
    requires rules.parameters.Validated() && ValidChain(rules, parent, chain) && i < |chain|
    ensures UndoOk(rules, EntryAt(rules, parent, chain, i))
    ensures EntryAt(rules, parent, chain, i).height == rules.parameters.activationHeight + i
  {
    hide BlockHeads, BlockCommits, Advance;
    var w := ReplayChain(rules, parent, chain[..i]);
    PrefixValid(rules, parent, chain, i);
    ChainHeights(rules, parent, chain);
    ChainHeights(rules, parent, chain[..i]);
    ChainOk(rules, parent, chain[..i]);
    JournaledHeights(rules, w, chain[i]);
  }

  lemma UndoRestores(rules: Rules, network: Network, tip: u32, undo: Undo, stored: StoredUndo)
    requires rules.parameters.Validated() && UndoOk(rules, undo) && undo.height <= tip
    requires StoresUndo(stored, undo)
    ensures RestoreUndo(rules, network, Some(tip), stored)
            == if UndoOn(rules, network, undo) then Some(undo) else None
  {
    hide Checked, RestoreNamedHead, HeadOk, Lists;
    CheckedListing(stored.commits, undo.commits, undo.commits, (r, c) =>
      RestoreUndoCommit(rules.parameters, stored.height, stored.previousTipHeight, r, c));
    forall id | id in undo.heads
      ensures RestoreUndoHead(rules, network, undo.previousTipHeight, id, StoreUndoHeads(undo.heads)[id])
              == if undo.heads[id].Some? && !rules.uaOn(network, undo.heads[id].value.ua) then None
                 else Some(undo.heads[id])
    {
      if undo.heads[id].Some? {
        StoredHeadRestores(rules, network, undo.previousTipHeight.value, id, undo.heads[id].value);
      }
    }
    CheckedListing(stored.heads, StoreUndoHeads(undo.heads), undo.heads, (id, h) =>
      RestoreUndoHead(rules, network, stored.previousTipHeight, id, h));
  }

  lemma RecordsRestore(rules: Rules, network: Network, w: World, stored: StoredReducer)
    requires rules.parameters.Validated() && WorldOk(rules, w)
    requires stored.tipHeight == w.tipHeight
    requires Lists(stored.commits, w.records.commits) && Lists(stored.heads, StoreHeads(w.records.heads))
    ensures Checked(stored.commits, (r, c) => RestoreCommit(rules.parameters, stored.tipHeight, r, c))
            == Some(w.records.commits)
    ensures Checked(stored.heads, (id, h) => RestoreNamedHead(rules, network, stored.tipHeight, id, h))
            == if HeadsOn(rules, network, w.records.heads) then Some(w.records.heads) else None
  {
    hide Checked, RestoreNamedHead, HeadOk, Lists;
    CheckedListing(stored.commits, w.records.commits, w.records.commits, (r, c) =>
      RestoreCommit(rules.parameters, stored.tipHeight, r, c));
    forall id | id in w.records.heads
      ensures RestoreNamedHead(rules, network, stored.tipHeight, id, StoreHeads(w.records.heads)[id])
              == if rules.uaOn(network, w.records.heads[id].ua) then Some(w.records.heads[id]) else None
    {
      StoredHeadRestores(rules, network, w.tipHeight.value, id, w.records.heads[id]);
    }
    CheckedListing(stored.heads, StoreHeads(w.records.heads), w.records.heads, (id, h) =>
      RestoreNamedHead(rules, network, stored.tipHeight, id, h));
  }

  /** The facts about a journal that the checks on it need. */
  ghost predicate JournalOk(rules: Rules, core: Core)
    requires rules.parameters.epochBlocks > 0
  {
    && (forall i :: 0 <= i < |core.history| ==>
          && UndoOk(rules, core.history[i])
          && core.world.tipHeight.Some? && core.history[i].height <= core.world.tipHeight.value)
    && StorableHistory(core.world.tipHeight, core.world.previousHash, core.history)
  }

  lemma MeaningOk(rules: Rules, parent: Bytes32, branch: Branch)
    requires rules.parameters.Validated() && GoodBranch(rules, parent, branch)
    ensures WorldOk(rules, Meaning(rules, parent, branch).world)
    ensures JournalOk(rules, Meaning(rules, parent, branch))
  {
    hide UndoOk, EntryAt, ReplayChain, WorldOk, CheckLink, HeadOk;
    var chain, retained := branch.chain, branch.retained;
    ChainOk(rules, parent, chain);
    ChainHeights(rules, parent, chain);
    BranchJournalShape(rules, parent, chain, retained);
    forall i | 0 <= i < retained
      ensures UndoOk(rules, JournalOf(rules, parent, chain, retained)[i])
      ensures JournalOf(rules, parent, chain, retained)[i].height
              == rules.parameters.activationHeight + |chain| - retained + i
    {
      EntryOk(rules, parent, chain, |chain| - retained + i);
    }
  }

  lemma HistoryRestores(rules: Rules, network: Network, core: Core, stored: StoredReducer)
    requires rules.parameters.Validated() && JournalOk(rules, core)
    requires IsSnapshot(rules, core, stored)
    ensures
      var on := forall i :: 0 <= i < |core.history| ==> UndoOn(rules, network, core.history[i]);
      LoadHistory(rules, network, stored, core.world.records) == if on then Ok(core) else Err(InvalidHistory)
  {
    hide RestoreUndo, UndoOn, UndoOk, StoresUndo, Lists;
    forall i | 0 <= i < |core.history|
      ensures RestoreUndo(rules, network, stored.tipHeight, stored.history[i])
              == if UndoOn(rules, network, core.history[i]) then Some(core.history[i]) else None
    {
      UndoRestores(rules, network, core.world.tipHeight.value, core.history[i], stored.history[i]);
    }
    if forall i :: 0 <= i < |core.history| ==> UndoOn(rules, network, core.history[i]) {
      assert RestoredHistory(rules, network, stored) == core.history;
    }
  }

  lemma SnapshotLoads(rules: Rules, network: Network, core: Core, stored: StoredReducer)
    requires rules.parameters.Validated() && WorldOk(rules, core.world) && JournalOk(rules, core)
    requires IsSnapshot(rules, core, stored)
    ensures LoadCore(rules, network, stored).Ok? <==> CoreOn(rules, network, core)
    ensures LoadCore(rules, network, stored).Ok? ==> LoadCore(rules, network, stored).value == core
  {
    hide Checked, LoadHistory, HeadOk, RestoreNamedHead, RestoreCommit, UndoOn, HeadsOn, JournalOk, RecordsOk;
    RecordsRestore(rules, network, core.world, stored);
    HistoryRestores(rules, network, core, stored);
  }

  /**
   Saving and then loading any reachable state, under the same rules, gives that state back,
   exactly when every address it retains is valid on the network named at load.
   */
  lemma RoundTrip(rules: Rules, parent: Bytes32, events: seq<Event>, network: Network, stored: StoredReducer)
    requires rules.parameters.Validated()
    requires IsSnapshot(rules, CoreRun(rules, parent, events), stored)
    ensures
      var core := CoreRun(rules, parent, events);
      && (LoadCore(rules, network, stored).Ok? <==> CoreOn(rules, network, core))
      && (LoadCore(rules, network, stored).Ok? ==> LoadCore(rules, network, stored).value == core)
  {
    hide IsSnapshot, LoadCore, CoreOn, Meaning;
    PathIndependence(rules, parent, events);
    MeaningOk(rules, parent, BranchRun(rules, parent, events));
    SnapshotLoads(rules, network, CoreRun(rules, parent, events), stored);
  }

  /** The addresses in every block applied during a run were decoded for this network. */
  predicate EventsOn(rules: Rules, network: Network, events: seq<Event>) {
    forall i :: 0 <= i < |events| && events[i].ApplyEvent? ==> TxsOn(rules, network, events[i].link.block.transactions)
  }

  lemma {:induction false} RunStaysOn(rules: Rules, parent: Bytes32, network: Network, events: seq<Event>)
    requires rules.parameters.epochBlocks > 0 && EventsOn(rules, network, events)
    ensures ChainOn(rules, network, BranchRun(rules, parent, events).chain)
  {
    hide TxsOn, CheckLink, ReplayChain;
    if events != [] {
      RunStaysOn(rules, parent, network, events[..|events| - 1]);
    }
  }

  lemma MeaningOn(rules: Rules, parent: Bytes32, network: Network, branch: Branch)
    requires rules.parameters.epochBlocks > 0 && branch.retained <= |branch.chain|
    requires ChainOn(rules, network, branch.chain)
    ensures CoreOn(rules, network, Meaning(rules, parent, branch))
  {
    hide TxsOn, ReplayChain, BlockHeads, BlockCommits;
    var chain, base := branch.chain, |branch.chain| - branch.retained;
    var journal := JournalOf(rules, parent, chain, branch.retained);
    ChainStaysOn(rules, parent, network, chain);
    forall i | 0 <= i < |journal| ensures UndoOn(rules, network, journal[i]) {
      assert journal[i] == EntryAt(rules, parent, chain, base + i);
      ChainStaysOn(rules, parent, network, chain[..base + i]);
    }
  }

  /** A run over blocks of one network is always restored from its snapshots on that network. */
  lemma NetworkRunRestores(rules: Rules, parent: Bytes32, events: seq<Event>, network: Network, stored: StoredReducer)
    requires rules.parameters.Validated() && EventsOn(rules, network, events)
    requires IsSnapshot(rules, CoreRun(rules, parent, events), stored)
    ensures LoadCore(rules, network, stored) == Ok(CoreRun(rules, parent, events))
  {
    hide IsSnapshot, LoadCore, CoreOn, Meaning, CoreRun, BranchRun, EventsOn;
    RoundTrip(rules, parent, events, network, stored);
    RunStaysOn(rules, parent, network, events);
    PathIndependence(rules, parent, events);
    MeaningOn(rules, parent, network, BranchRun(rules, parent, events));
  }

  // ---- exact resolvers ----

  ghost predicate OnlyTargetEvents(rules: Rules, target: NameId, events: seq<Event>) {
    forall i :: 0 <= i < |events| && events[i].ApplyEvent? ==>
      OnlyTarget(rules, target, events[i].link.block.transactions)
  }

  ghost predicate OnlyTargetChain(rules: Rules, target: NameId, chain: seq<Link>) {
    forall i :: 0 <= i < |chain| ==> OnlyTarget(rules, target, chain[i].block.transactions)
  }

  lemma {:induction false} RunStaysOnTarget(rules: Rules, parent: Bytes32, target: NameId, events: seq<Event>)
    requires rules.parameters.epochBlocks > 0 && OnlyTargetEvents(rules, target, events)
    ensures OnlyTargetChain(rules, target, BranchRun(rules, parent, events).chain)
  {
    hide OnlyTarget, CheckLink, ReplayChain;
    if events != [] {
      RunStaysOnTarget(rules, parent, target, events[..|events| - 1]);
    }
  }

  /** A run fed only filtered blocks never retains or journals a head of another name. */
  lemma RunIsExact(rules: Rules, parent: Bytes32, target: NameId, events: seq<Event>)
    requires rules.parameters.Validated() && OnlyTargetEvents(rules, target, events)
    ensures IsExactFor(CoreRun(rules, parent, events), target)
  {
    hide OnlyTarget, ReplayChain, BlockHeads, BlockCommits;
    var branch := BranchRun(rules, parent, events);
    var chain, base := branch.chain, |branch.chain| - branch.retained;
    PathIndependence(rules, parent, events);
    RunStaysOnTarget(rules, parent, target, events);
    ChainExactFor(rules, parent, target, chain);
    var journal := JournalOf(rules, parent, chain, branch.retained);
    forall i | 0 <= i < |journal| ensures journal[i].heads.Keys <= {target} {
      assert journal[i] == EntryAt(rules, parent, chain, base + i);
      ChainExactFor(rules, parent, target, chain[..base + i]);
      BlockExactFor(rules, target, ReplayChain(rules, parent, chain[..base + i]), chain[base + i]);
    }
  }

  /** An exact resolver's own snapshot always passes the exactness check when it is loaded again. */
  lemma ExactRoundTrip(rules: Rules, parent: Bytes32, name: Name, target: NameId, events: seq<Event>,
                       network: Network, stored: StoredExactResolver)
    requires rules.parameters.Validated() && rules.nameId(name) == Some(target)
    requires OnlyTargetEvents(rules, target, events)
    requires IsExactSnapshot(rules, name, CoreRun(rules, parent, events), stored)
    ensures
      var core := CoreRun(rules, parent, events);
      && (LoadExact(rules, network, name, stored).Ok? <==> CoreOn(rules, network, core))
      && (LoadExact(rules, network, name, stored).Ok? ==> LoadExact(rules, network, name, stored).value == core)
  {
    hide IsSnapshot, LoadCore, CoreOn, CoreRun, IsExactFor, OnlyTargetEvents;
    RoundTrip(rules, parent, events, network, stored.reducer);
    RunIsExact(rules, parent, target, events);
  }
}
