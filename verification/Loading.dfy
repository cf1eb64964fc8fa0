/** Exactly which snapshots load, and as what: field by field, and within the bounds that are checked. */
module Loading {
  import opened Collections
  import opened Protocol
  import opened Schedule
  import opened Replay
  import opened Journal
  import opened Lifecycles
  import opened Snapshots

  /** A listing that passes its checks has no key twice and becomes the map of what the checks made of it. */
  lemma CheckedEntries<K(!new), V, W(!new)>(s: seq<(K, V)>, check: (K, V) -> Option<W>, related: (V, W) -> bool)
    requires Checked(s, check).Some?
    requires forall i :: 0 <= i < |s| && check(s[i].0, s[i].1).Some? ==> related(s[i].1, check(s[i].0, s[i].1).value)
    ensures ListsRelated(s, Checked(s, check).value, related)
    ensures forall i :: 0 <= i < |s| ==> check(s[i].0, s[i].1) == Some(Checked(s, check).value[s[i].0])
  {
    var t := seq(|s|, i requires 0 <= i < |s| && check(s[i].0, s[i].1).Some? =>
                        (s[i].0, check(s[i].0, s[i].1).value));
    assert DistinctKeys(t);
    CollectKeys(t);
    CollectDistinct(t);
    forall i | 0 <= i < |s| ensures s[i].0 in Collect(t) && Collect(t)[s[i].0] == check(s[i].0, s[i].1).value {
      assert t[i].0 == s[i].0;
    }
    forall k | k in Collect(t) ensures exists i :: 0 <= i < |s| && s[i].0 == k {
      var i :| 0 <= i < |t| && t[i].0 == k;
      assert s[i].0 == k;
    }
  }

  /** And conversely: a map that holds what the checks make of each entry is what the listing becomes. */
  lemma EntriesChecked<K(!new), V, W(!new)>(s: seq<(K, V)>, m: map<K, W>, check: (K, V) -> Option<W>)
    requires DistinctKeys(s) && forall i :: 0 <= i < |s| ==> s[i].0 in m && check(s[i].0, s[i].1) == Some(m[s[i].0])
    requires forall k :: k in m ==> exists i :: 0 <= i < |s| && s[i].0 == k
    ensures Checked(s, check) == Some(m)
  {
    CheckedEntries(s, check, (a: V, b: W) => true);
    var r := Checked(s, check).value;
    forall k | k in m ensures k in r && r[k] == m[k] {
      var i :| 0 <= i < |s| && s[i].0 == k;
      assert check(s[i].0, s[i].1) == Some(r[k]);
    }
    forall k | k in r ensures k in m {
      var i :| 0 <= i < |s| && s[i].0 == k;
    }
    assert r == m;
  }

  /** The bounds every loaded head is within, at the tip it is loaded for. */
  ghost predicate LoadedHeadOk(rules: Rules, network: Network, tip: u32, id: NameId, head: Head)
    requires rules.parameters.epochBlocks > 0
  {
    var p := rules.parameters;
    && rules.nameId(head.name) == Some(id) && rules.uaOn(network, head.ua)
    && p.activationHeight <= head.producer.height <= tip
    && p.Epoch(head.producer.height) == Ok(head.producerEpoch)
    && p.Expiry(head.producer.height) == Ok(head.expiryHeight)
    && match head.terminalHeight
       case None => tip < head.expiryHeight
       case Some(t) => head.producer.height <= t <= tip < t + p.cooldownBlocks
  }

  /** A stored head loads exactly as the head it describes, and exactly within these bounds. */
  lemma HeadLoadsIff(rules: Rules, network: Network, tipHeight: Option<u32>, id: NameId, stored: StoredHead, head: Head)
    requires rules.parameters.Validated()
    ensures RestoreNamedHead(rules, network, tipHeight, id, stored) == Some(head)
            <==> Restores(stored, head) && tipHeight.Some? && LoadedHeadOk(rules, network, tipHeight.value, id, head)
  {
  }

  lemma LoadedHeadBounds(rules: Rules, network: Network, tipHeight: Option<u32>, id: NameId, stored: StoredHead)
    requires rules.parameters.Validated() && RestoreNamedHead(rules, network, tipHeight, id, stored).Some?
    ensures
      var head := RestoreNamedHead(rules, network, tipHeight, id, stored).value;
      && Restores(stored, head)
      && tipHeight.Some? && LoadedHeadOk(rules, network, tipHeight.value, id, head)
  {
    hide RestoreNamedHead, LoadedHeadOk, Restores;
    HeadLoadsIff(rules, network, tipHeight, id, stored, RestoreNamedHead(rules, network, tipHeight, id, stored).value);
  }

  ghost predicate LoadedRecords(rules: Rules, network: Network, tipHeight: Option<u32>, stored: StoredReducer,
                                rec: Records)
    requires rules.parameters.epochBlocks > 0
  {
    && ListsRelated(stored.commits, rec.commits, (a: Commitment, b: Commitment) => a == b)
    && ListsRelated(stored.heads, rec.heads, Restores)
    && (forall r :: r in rec.commits ==> tipHeight.Some? && CommitOk(rules, tipHeight.value, r))
    && (forall id :: id in rec.heads ==>
          tipHeight.Some? && LoadedHeadOk(rules, network, tipHeight.value, id, rec.heads[id]))
  }

  lemma RecordsLoaded(rules: Rules, network: Network, stored: StoredReducer, rec: Records)
    requires rules.parameters.Validated()
    requires Checked(stored.commits, (r, c) => RestoreCommit(rules.parameters, stored.tipHeight, r, c))
             == Some(rec.commits)
    requires Checked(stored.heads, (id, h) => RestoreNamedHead(rules, network, stored.tipHeight, id, h))
             == Some(rec.heads)
    ensures LoadedRecords(rules, network, stored.tipHeight, stored, rec)
  {
    hide Checked, RestoreNamedHead, LoadedHeadOk, Restores;
    forall id, h | RestoreNamedHead(rules, network, stored.tipHeight, id, h).Some?
      ensures Restores(h, RestoreNamedHead(rules, network, stored.tipHeight, id, h).value)
      ensures stored.tipHeight.Some?
              && LoadedHeadOk(rules, network, stored.tipHeight.value, id,
                              RestoreNamedHead(rules, network, stored.tipHeight, id, h).value)
    {
      LoadedHeadBounds(rules, network, stored.tipHeight, id, h);
    }
    CheckedEntries(stored.commits, (r, c) => RestoreCommit(rules.parameters, stored.tipHeight, r, c),
                   (a: Commitment, b: Commitment) => a == b);
    CheckedEntries(stored.heads, (id, h) => RestoreNamedHead(rules, network, stored.tipHeight, id, h), Restores);
  }

  /** A loaded journal entry is the stored one, fits below the tip, and is in bounds at the tip before it. */
  ghost predicate LoadedUndo(rules: Rules, network: Network, tipHeight: Option<u32>, stored: StoredUndo, undo: Undo)
    requires rules.parameters.epochBlocks > 0
  {
    && stored.height == undo.height && stored.hash == undo.hash && stored.previousHash == undo.previousHash
    && stored.previousNextHeight == undo.previousNextHeight && stored.previousTipHeight == undo.previousTipHeight
    && ListsRelated(stored.commits, undo.commits, (a: Option<Commitment>, b: Option<Commitment>) => a == b)
    && ListsRelated(stored.heads, undo.heads, RestoresOptional)
    && tipHeight.Some? && undo.height <= tipHeight.value
    && undo.previousNextHeight == Some(undo.height)
    && undo.previousTipHeight == (if undo.height == rules.parameters.activationHeight || undo.height == 0 then None
                                  else Some(undo.height - 1))
    && (forall r :: r in undo.commits ==>
          r.height <= undo.height
          && (undo.commits[r].Some? ==>
                undo.previousTipHeight.Some? && CommitOk(rules, undo.previousTipHeight.value, r)))
    && (forall id :: id in undo.heads && undo.heads[id].Some? ==>
          undo.previousTipHeight.Some?
          && LoadedHeadOk(rules, network, undo.previousTipHeight.value, id, undo.heads[id].value))
  }

  predicate RestoresOptional(stored: Option<StoredHead>, head: Option<Head>) {
    stored.Some? == head.Some? && (stored.Some? ==> Restores(stored.value, head.value))
  }

  lemma UndoHeadsLoaded(rules: Rules, network: Network, previous: Option<u32>,
                        s: seq<(NameId, Option<StoredHead>)>, heads: map<NameId, Option<Head>>)
    requires rules.parameters.Validated()
    requires Checked(s, (id, h) => RestoreUndoHead(rules, network, previous, id, h)) == Some(heads)
    ensures ListsRelated(s, heads, RestoresOptional)
    ensures forall id :: id in heads && heads[id].Some? ==>
      previous.Some? && LoadedHeadOk(rules, network, previous.value, id, heads[id].value)
  {
    hide Checked, RestoreNamedHead, LoadedHeadOk, Restores;
    forall id, h | RestoreNamedHead(rules, network, previous, id, h).Some?
      ensures Restores(h, RestoreNamedHead(rules, network, previous, id, h).value)
      ensures previous.Some? && LoadedHeadOk(rules, network, previous.value, id,
                                             RestoreNamedHead(rules, network, previous, id, h).value)
    {
      LoadedHeadBounds(rules, network, previous, id, h);
    }
    CheckedEntries(s, (id, h) => RestoreUndoHead(rules, network, previous, id, h), RestoresOptional);
  }

  lemma UndoCommitsLoaded(rules: Rules, height: u32, previous: Option<u32>,
                          s: seq<(CommitRef, Option<Commitment>)>, commits: map<CommitRef, Option<Commitment>>)
    requires Checked(s, (r, c) => RestoreUndoCommit(rules.parameters, height, previous, r, c)) == Some(commits)
    ensures ListsRelated(s, commits, (a: Option<Commitment>, b: Option<Commitment>) => a == b)
    ensures forall r :: r in commits ==>
      r.height <= height && (commits[r].Some? ==> previous.Some? && CommitOk(rules, previous.value, r))
  {
    hide Checked;
    CheckedEntries(s, (r, c) => RestoreUndoCommit(rules.parameters, height, previous, r, c),
                   (a: Option<Commitment>, b: Option<Commitment>) => a == b);
  }

  lemma UndoLoaded(rules: Rules, network: Network, tipHeight: Option<u32>, stored: StoredUndo)
    requires rules.parameters.Validated() && RestoreUndo(rules, network, tipHeight, stored).Some?
    ensures LoadedUndo(rules, network, tipHeight, stored, RestoreUndo(rules, network, tipHeight, stored).value)
  {
    hide Checked, LoadedHeadOk, RestoresOptional, ListsRelated;
    var undo := RestoreUndo(rules, network, tipHeight, stored).value;
    UndoHeadsLoaded(rules, network, stored.previousTipHeight, stored.heads, undo.heads);
    UndoCommitsLoaded(rules, stored.height, stored.previousTipHeight, stored.commits, undo.commits);
  }

  lemma RecordsLoad(rules: Rules, network: Network, stored: StoredReducer, rec: Records)
    requires rules.parameters.Validated() && LoadedRecords(rules, network, stored.tipHeight, stored, rec)
    ensures Checked(stored.commits, (r, c) => RestoreCommit(rules.parameters, stored.tipHeight, r, c))
            == Some(rec.commits)
    ensures Checked(stored.heads, (id, h) => RestoreNamedHead(rules, network, stored.tipHeight, id, h))
            == Some(rec.heads)
  {
    hide Checked, RestoreNamedHead, LoadedHeadOk, Restores;
    forall i | 0 <= i < |stored.heads|
      ensures RestoreNamedHead(rules, network, stored.tipHeight, stored.heads[i].0, stored.heads[i].1)
              == Some(rec.heads[stored.heads[i].0])
    {
      var (id, h) := stored.heads[i];
      HeadLoadsIff(rules, network, stored.tipHeight, id, h, rec.heads[id]);
    }
    EntriesChecked(stored.commits, rec.commits, (r, c) => RestoreCommit(rules.parameters, stored.tipHeight, r, c));
    EntriesChecked(stored.heads, rec.heads, (id, h) => RestoreNamedHead(rules, network, stored.tipHeight, id, h));
  }

  lemma UndoLoads(rules: Rules, network: Network, tipHeight: Option<u32>, stored: StoredUndo, undo: Undo)
    requires rules.parameters.Validated() && LoadedUndo(rules, network, tipHeight, stored, undo)
    ensures RestoreUndo(rules, network, tipHeight, stored) == Some(undo)
  {
    hide Checked, RestoreNamedHead, LoadedHeadOk, Restores;
    var previous := stored.previousTipHeight;
    forall i | 0 <= i < |stored.heads|
      ensures RestoreUndoHead(rules, network, previous, stored.heads[i].0, stored.heads[i].1)
              == Some(undo.heads[stored.heads[i].0])
    {
      var (id, h) := stored.heads[i];
      if h.Some? {
        HeadLoadsIff(rules, network, previous, id, h.value, undo.heads[id].value);
      }
    }
    EntriesChecked(stored.commits, undo.commits,
                   (r, c) => RestoreUndoCommit(rules.parameters, stored.height, previous, r, c));
    EntriesChecked(stored.heads, undo.heads, (id, h) => RestoreUndoHead(rules, network, previous, id, h));
  }

  /** Entries follow each other by height and hash and end at the tip. */
  ghost predicate Linked(history: seq<Undo>, tipHeight: Option<u32>, tipHash: Bytes32) {
    && (history != [] ==> var last := history[|history| - 1]; Some(last.height) == tipHeight && last.hash == tipHash)
    && forall i :: 0 < i < |history| ==>
         history[i].height == history[i - 1].height + 1 && history[i].previousHash == history[i - 1].hash
  }

  /** The next height is the one after the tip, or activation when there is none. */
  predicate TipFits(p: Parameters, nextHeight: Option<u32>, tipHeight: Option<u32>) {
    match tipHeight
    case None => nextHeight == Some(p.activationHeight)
    case Some(tip) =>
      p.activationHeight <= tip && nextHeight == (if tip + 1 < U32_LIMIT then Some(tip + 1) else None)
  }

  /** The stored journal is that of the state, entry by entry, and the stored range is its range. */
  ghost predicate LoadedHistory(rules: Rules, network: Network, stored: StoredReducer, history: seq<Undo>)
    requires rules.parameters.epochBlocks > 0
  {
    && |stored.history| == |history|
    && (forall i :: 0 <= i < |history| ==>
          LoadedUndo(rules, network, stored.tipHeight, stored.history[i], history[i]))
    && Linked(history, stored.tipHeight, stored.previousHash)
    && stored.rollbackRange == (if history == [] then None
                                else Some(RollbackRange(history[0].height, history[|history| - 1].height)))
  }

  /** The snapshot was stored for these very rules, in this format. */
  predicate StoredFor(rules: Rules, stored: StoredReducer) {
    && stored.formatVersion == 3 && stored.parameters == rules.parameters
    && stored.deploymentId == rules.parameters.deploymentId && stored.rulesetFingerprint == rules.fingerprint
  }

  /**
   A snapshot loads as a state exactly when it was stored for these rules, its tip fits, its records and
   journal are those of the state within their bounds, and its range is the journal's.
   */
  ghost predicate LoadsAs(rules: Rules, network: Network, stored: StoredReducer, core: Core) {
    && rules.parameters.Validated() && StoredFor(rules, stored)
    && TipFits(rules.parameters, stored.nextHeight, stored.tipHeight)
    && core.world.tipHeight == stored.tipHeight && core.world.nextHeight == stored.nextHeight
    && core.world.previousHash == stored.previousHash
    && LoadedRecords(rules, network, stored.tipHeight, stored, core.world.records)
    && LoadedHistory(rules, network, stored, core.history)
  }

  lemma LinkedIsStorable(tipHeight: Option<u32>, tipHash: Bytes32, history: seq<Undo>)
    ensures Linked(history, tipHeight, tipHash) <==> StorableHistory(tipHeight, tipHash, history)
  {
    if StorableHistory(tipHeight, tipHash, history) {
      forall i | 0 < i < |history|
        ensures history[i].height == history[i - 1].height + 1 && history[i].previousHash == history[i - 1].hash
      {
        assert CheckedAdd(history[i - 1].height, 1) == Some(history[i - 1 + 1].height);
      }
    }
  }

  lemma HistoryLoads(rules: Rules, network: Network, stored: StoredReducer, records: Records, core: Core)
    requires rules.parameters.Validated()
    requires core.world == World(stored.nextHeight, stored.tipHeight, stored.previousHash, records)
    ensures LoadHistory(rules, network, stored, records) == Ok(core)
            <==> LoadedHistory(rules, network, stored, core.history)
    ensures LoadHistory(rules, network, stored, records).Err? ==>
      LoadHistory(rules, network, stored, records) == Err(InvalidHistory)
  {
    hide LoadedUndo, RestoreUndo, Linked, StorableHistory;
    LinkedIsStorable(stored.tipHeight, stored.previousHash, core.history);
    forall i | 0 <= i < |stored.history| && i < |core.history|
      ensures RestoreUndo(rules, network, stored.tipHeight, stored.history[i]) == Some(core.history[i])
              <==> LoadedUndo(rules, network, stored.tipHeight, stored.history[i], core.history[i])
    {
      if LoadedUndo(rules, network, stored.tipHeight, stored.history[i], core.history[i]) {
        UndoLoads(rules, network, stored.tipHeight, stored.history[i], core.history[i]);
      } else if RestoreUndo(rules, network, stored.tipHeight, stored.history[i]).Some? {
        UndoLoaded(rules, network, stored.tipHeight, stored.history[i]);
      }
    }
    if LoadedHistory(rules, network, stored, core.history) {
      assert core.history == RestoredHistory(rules, network, stored);
    }
  }

  lemma LoadsIff(rules: Rules, network: Network, stored: StoredReducer, core: Core)
    ensures LoadCore(rules, network, stored) == Ok(core) <==> LoadsAs(rules, network, stored, core)
  {
    hide Checked, LoadedRecords, LoadedHistory, LoadHistory;
    if rules.parameters.Validated() {
      var records := core.world.records;
      if LoadedRecords(rules, network, stored.tipHeight, stored, records) {
        RecordsLoad(rules, network, stored, records);
      }
      if LoadCore(rules, network, stored) == Ok(core) {
        LoadedWorld(rules, network, stored);
        RecordsLoaded(rules, network, stored, records);
      }
      if core.world == World(stored.nextHeight, stored.tipHeight, stored.previousHash, records) {
        HistoryLoads(rules, network, stored, records, core);
      }
    }
  }

  lemma LoadedWorld(rules: Rules, network: Network, stored: StoredReducer)
    requires LoadCore(rules, network, stored).Ok?
    ensures
      var w := LoadCore(rules, network, stored).value.world;
      && w == World(stored.nextHeight, stored.tipHeight, stored.previousHash, w.records)
      && Checked(stored.commits, (r, c) => RestoreCommit(rules.parameters, stored.tipHeight, r, c))
         == Some(w.records.commits)
      && Checked(stored.heads, (id, h) => RestoreNamedHead(rules, network, stored.tipHeight, id, h))
         == Some(w.records.heads)
  {
    hide Checked, RestoreUndo, StorableHistory;
  }

  /** Every other snapshot is refused: for its rules, its format, its state or its journal, in that order. */
  lemma LoadRefused(rules: Rules, network: Network, stored: StoredReducer)
    ensures
      var r := LoadCore(rules, network, stored);
      if r.Ok? then LoadsAs(rules, network, stored, r.value)
      else r == Err(if !rules.parameters.Validated() then ParametersMismatch
                    else if stored.formatVersion != 3 then UnsupportedFormat
                    else if !StoredFor(rules, stored) then ParametersMismatch
                    else if !TipFits(rules.parameters, stored.nextHeight, stored.tipHeight) then InvalidState
                    else if forall rec :: !LoadedRecords(rules, network, stored.tipHeight, stored, rec)
                    then InvalidState
                    else InvalidHistory)
  {
    hide Checked, LoadedRecords, LoadedHistory, LoadHistory, LoadsAs;
    var r := LoadCore(rules, network, stored);
    if r.Ok? {
      LoadsIff(rules, network, stored, r.value);
    }
    if rules.parameters.Validated() {
      if rec :| LoadedRecords(rules, network, stored.tipHeight, stored, rec) {
        RecordsLoad(rules, network, stored, rec);
        HistoryLoads(rules, network, stored, rec,
                     Core(World(stored.nextHeight, stored.tipHeight, stored.previousHash, rec), []));
      } else if Checked(stored.commits, (r, c) => RestoreCommit(rules.parameters, stored.tipHeight, r, c)).Some?
                && Checked(stored.heads, (id, h) => RestoreNamedHead(rules, network, stored.tipHeight, id, h)).Some?
      {
        var rec := Records(
          Checked(stored.commits, (r, c) => RestoreCommit(rules.parameters, stored.tipHeight, r, c)).value,
          Checked(stored.heads, (id, h) => RestoreNamedHead(rules, network, stored.tipHeight, id, h)).value);
        RecordsLoaded(rules, network, stored, rec);
      }
    }
  }

  /** A snapshot of one name loads exactly when it was stored for it, its state loads, and no other name occurs. */
  lemma ExactLoadsIff(rules: Rules, network: Network, name: Name, stored: StoredExactResolver, core: Core)
    ensures LoadExact(rules, network, name, stored) == Ok(core)
            <==> && stored.formatVersion == 3 && stored.name == name && rules.nameId(name).Some?
                 && stored.deploymentId == rules.parameters.deploymentId
                 && stored.rulesetFingerprint == rules.fingerprint
                 && LoadsAs(rules, network, stored.reducer, core)
                 && NamesOnly(rules, name, core)
                 && stored.rollbackRange == stored.reducer.rollbackRange
  {
    hide LoadCore, LoadsAs, NamesOnly, IsExactFor;
    LoadsIff(rules, network, stored.reducer, core);
    if LoadsAs(rules, network, stored.reducer, core) {
      StoredRange(rules, network, stored.reducer, core);
    }
    if rules.nameId(name).Some? {
      OnlyNamed(rules, name, rules.nameId(name).value, core);
    }
  }

  /** No head of another name is retained or journaled. */
  ghost predicate NamesOnly(rules: Rules, name: Name, core: Core) {
    && (forall id :: id in core.world.records.heads ==> rules.nameId(name) == Some(id))
    && forall i, id :: 0 <= i < |core.history| && id in core.history[i].heads ==> rules.nameId(name) == Some(id)
  }

  lemma StoredRange(rules: Rules, network: Network, stored: StoredReducer, core: Core)
    requires LoadsAs(rules, network, stored, core)
    ensures stored.rollbackRange == RangeOf(core.history)
  {
    hide LoadedRecords, LoadedUndo;
  }

  /** Every other one is refused, for the first of these reasons. */
  lemma ExactLoadRefused(rules: Rules, network: Network, name: Name, stored: StoredExactResolver)
    ensures
      var r := LoadExact(rules, network, name, stored);
      if stored.formatVersion != 3 then r == Err(UnsupportedFormat)
      else if stored.name != name then r == Err(NameMismatch)
      else if stored.deploymentId != rules.parameters.deploymentId || stored.rulesetFingerprint != rules.fingerprint
      then r == Err(ParametersMismatch)
      else if rules.nameId(name).None? then r == Err(NameMismatch)
      else if forall core :: !LoadsAs(rules, network, stored.reducer, core)
      then LoadCore(rules, network, stored.reducer).Err? && r == LoadCore(rules, network, stored.reducer)
      else if forall core :: LoadsAs(rules, network, stored.reducer, core) ==> !NamesOnly(rules, name, core)
      then r == Err(NameMismatch)
      else if stored.rollbackRange != stored.reducer.rollbackRange then r == Err(InvalidHistory)
      else r.Ok?
  {
    hide LoadCore, LoadsAs, NamesOnly, IsExactFor;
    var inner := LoadCore(rules, network, stored.reducer);
    if inner.Ok? {
      LoadsIff(rules, network, stored.reducer, inner.value);
      StoredRange(rules, network, stored.reducer, inner.value);
      if rules.nameId(name).Some? {
        OnlyNamed(rules, name, rules.nameId(name).value, inner.value);
      }
    }
    forall core | LoadsAs(rules, network, stored.reducer, core) ensures inner == Ok(core) {
      LoadsIff(rules, network, stored.reducer, core);
    }
  }

  lemma OnlyNamed(rules: Rules, name: Name, target: NameId, core: Core)
    requires rules.nameId(name) == Some(target)
    ensures IsExactFor(core, target) <==> NamesOnly(rules, name, core)
  {
    if NamesOnly(rules, name, core) {
      forall i | 0 <= i < |core.history| ensures core.history[i].heads.Keys <= {target} {
        forall id | id in core.history[i].heads ensures rules.nameId(name) == Some(id) {
        }
      }
    }
    if IsExactFor(core, target) {
      assert forall id :: id in core.world.records.heads.Keys ==> id in {target};
      forall i, id | 0 <= i < |core.history| && id in core.history[i].heads ensures id == target {
        assert core.history[i].heads.Keys <= {target} && id in core.history[i].heads.Keys;
      }
    }
  }
}
