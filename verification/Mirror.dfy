/**
 The persistent tables driven by a reducer: after every step their rows are the reducer's records,
 their journal its undo entries, and a wallet rewind reaches the replay at the height it asked for.
 */
module StoreMirror {
  import opened Collections
  import opened Protocol
  import opened Schedule
  import opened Replay
  import opened Journal
  import opened Lifecycles
  import opened Resolver
  import opened Snapshots
  import opened SnapshotRoundTrip
  import opened Store

  // ---- writing a delta ----

  ghost function KeysOf<K, V>(s: seq<(K, V)>): set<K> {
    set i | 0 <= i < |s| :: s[i].0
  }

  /** Every listed change is the true one for its key. */
  ghost predicate TrueChanges<K, V>(s: seq<(K, Change<V>)>, before: map<K, V>, after: map<K, V>) {
    DistinctKeys(s)
    && forall i :: 0 <= i < |s| ==> s[i].1 == Change(Lookup(before, s[i].0), Lookup(after, s[i].0))
  }

  lemma ListedChanges<K, V>(s: seq<(K, Change<V>)>, before: map<K, V>, after: map<K, V>, ks: set<K>)
    requires Lists(s, Changes(before, after, ks))
    ensures TrueChanges(s, before, after) && KeysOf(s) == ks
  {
    forall k | k in ks ensures k in KeysOf(s) {
      assert k in Changes(before, after, ks);
      var i :| 0 <= i < |s| && s[i].0 == k;
    }
  }

  ghost predicate ValidChange(rules: Rules, network: Network, from: Option<u32>, to: u32, id: NameId,
                              change: Change<Head>)
  {
    ValidOptional(rules, network, id, StorePrevious(change.previous), from)
    && ValidOptional(rules, network, id, StorePrevious(change.current), Some(to))
  }

  /** Part of the changes written: those keys hold the new record, and their old one is journaled. */
  ghost predicate WrittenHeads(t: HeadRows, before: map<NameId, Head>, after: map<NameId, Head>, ks: set<NameId>) {
    && (forall id :: Lookup(t.rows, id) == StorePrevious(if id in ks then Lookup(after, id) else Lookup(before, id)))
    && t.undo == StoreUndoHeads(Record(before, ks))
  }

  lemma {:induction false} HeadsWritten(
    rules: Rules, network: Network, before: map<NameId, Head>, after: map<NameId, Head>,
    from: Option<u32>, to: u32, s: seq<(NameId, Change<Head>)>)
    requires TrueChanges(s, before, after)
    ensures
      var r := WriteHeadChanges(rules, network, HeadRows(StoreHeads(before), map[]), from, to, s);
      && (r.Ok? <==> forall i :: 0 <= i < |s| ==> ValidChange(rules, network, from, to, s[i].0, s[i].1))
      && (r.Ok? ==> WrittenHeads(r.value, before, after, KeysOf(s)))
  {
    hide ValidChange, WriteHeadChange, WrittenHeads;
    if s == [] {
      NoHeadWritten(before, after);
      assert KeysOf(s) == {};
    } else {
      var n := |s| - 1;
      var front := s[..n];
      HeadsWritten(rules, network, before, after, from, to, front);
      var r := WriteHeadChanges(rules, network, HeadRows(StoreHeads(before), map[]), from, to, front);
      LastKey(s);
      if r.Ok? {
        HeadWritten(rules, network, r.value, before, after, from, to, KeysOf(front), s[n].0);
      } else {
        var i :| 0 <= i < |front| && !ValidChange(rules, network, from, to, front[i].0, front[i].1);
        assert s[i] == front[i];
      }
    }
  }

  lemma LastKey<K, V>(s: seq<(K, V)>)
    requires s != [] && DistinctKeys(s)
    ensures KeysOf(s) == KeysOf(s[..|s| - 1]) + {s[|s| - 1].0}
    ensures s[|s| - 1].0 !in KeysOf(s[..|s| - 1])
  {
  }

  lemma NoHeadWritten(before: map<NameId, Head>, after: map<NameId, Head>)
    ensures WrittenHeads(HeadRows(StoreHeads(before), map[]), before, after, {})
  {
  }

  lemma HeadWritten(rules: Rules, network: Network, t: HeadRows, before: map<NameId, Head>,
                    after: map<NameId, Head>, from: Option<u32>, to: u32, ks: set<NameId>, id: NameId)
    requires WrittenHeads(t, before, after, ks) && id !in ks
    ensures
      var change := Change(Lookup(before, id), Lookup(after, id));
      var r := WriteHeadChange(rules, network, t, from, to, id, change);
      && (r.Ok? <==> ValidChange(rules, network, from, to, id, change))
      && (r.Ok? ==> WrittenHeads(r.value, before, after, ks + {id}))
  {
    hide ValidOptional, WrittenHeads;
    OneHeadWritten(t, before, after, ks, id);
  }

  lemma OneHeadWritten(t: HeadRows, before: map<NameId, Head>, after: map<NameId, Head>, ks: set<NameId>, id: NameId)
    requires WrittenHeads(t, before, after, ks) && id !in ks
    ensures id !in t.undo && Lookup(t.rows, id) == StorePrevious(Lookup(before, id))
    ensures WrittenHeads(
      HeadRows(Put(t.rows, id, StorePrevious(Lookup(after, id))), t.undo[id := StorePrevious(Lookup(before, id))]),
      before, after, ks + {id})
  {
  }

  ghost predicate WrittenCommits(t: CommitRows, before: map<CommitRef, Commitment>,
                                 after: map<CommitRef, Commitment>, ks: set<CommitRef>) {
    && (forall r :: Lookup(t.rows, r) == if r in ks then Lookup(after, r) else Lookup(before, r))
    && t.undo == Record(before, ks)
  }

  lemma {:induction false} CommitsWritten(
    before: map<CommitRef, Commitment>, after: map<CommitRef, Commitment>, s: seq<(CommitRef, Change<Commitment>)>)
    requires TrueChanges(s, before, after)
    ensures
      var r := WriteCommitChanges(CommitRows(before, map[]), s);
      r.Ok? && WrittenCommits(r.value, before, after, KeysOf(s))
  {
    if s == [] {
      assert KeysOf(s) == {};
    } else {
      var n := |s| - 1;
      var front := s[..n];
      CommitsWritten(before, after, front);
      assert KeysOf(s) == KeysOf(front) + {s[n].0};
      assert s[n].0 !in KeysOf(front);
      OneCommitWritten(WriteCommitChanges(CommitRows(before, map[]), front).value, before, after, KeysOf(front),
                       s[n].0);
    }
  }

  lemma OneCommitWritten(t: CommitRows, before: map<CommitRef, Commitment>, after: map<CommitRef, Commitment>,
                         ks: set<CommitRef>, r: CommitRef)
    requires WrittenCommits(t, before, after, ks) && r !in ks
    ensures r !in t.undo && Lookup(t.rows, r) == Lookup(before, r)
    ensures WrittenCommits(
      CommitRows(Put(t.rows, r, Lookup(after, r)), t.undo[r := Lookup(before, r)]), before, after, ks + {r})
  {
  }

  // ---- the mirror ----

  /** The rollback row of the block at one position of the chain. */
  function RowAt(rules: Rules, parent: Bytes32, chain: seq<Link>, i: nat): JournalRow
    requires rules.parameters.epochBlocks > 0 && i < |chain|
  {
    var entry := EntryAt(rules, parent, chain, i);
    JournalRow(chain[i].block.hash, ReplayChain(rules, parent, chain[..i]).TipOf(),
               StoreUndoHeads(entry.heads), entry.commits)
  }

  /** The newest `kept` blocks of the chain, and only those, have rollback rows. */
  ghost predicate MirrorsJournal(rules: Rules, parent: Bytes32, chain: seq<Link>, kept: nat,
                                journal: map<u32, JournalRow>)
    requires rules.parameters.epochBlocks > 0
  {
    var base := rules.parameters.activationHeight;
    && kept <= |chain|
    && (forall h: u32 :: h in journal <==> base + |chain| - kept <= h < base + |chain|)
    && (forall h: u32 :: h in journal ==> journal[h] == RowAt(rules, parent, chain, h - base))
  }

  ghost predicate Mirrors(rules: Rules, parent: Bytes32, chain: seq<Link>, kept: nat, t: Tables)
    requires rules.parameters.epochBlocks > 0
  {
    var w := ReplayChain(rules, parent, chain);
    && t.heads == StoreHeads(w.records.heads) && t.commits == w.records.commits && t.tip == w.TipOf()
    && MirrorsJournal(rules, parent, chain, kept, t.journal)
  }

  lemma RowOfPrefix(rules: Rules, parent: Bytes32, chain: seq<Link>, longer: seq<Link>, i: nat)
    requires rules.parameters.epochBlocks > 0 && i < |chain| <= |longer| && longer[..|chain|] == chain
    ensures RowAt(rules, parent, chain, i) == RowAt(rules, parent, longer, i)
  {
    assert chain[..i] == longer[..i] && chain[i] == longer[i];
  }

  /** The addresses of every head the block journals, before and after it. */
  ghost predicate BlockOn(rules: Rules, network: Network, w: World, link: Link)
    requires rules.parameters.epochBlocks > 0
  {
    forall id :: id in BlockHeads(rules, w.records, link) ==>
      && (id in w.records.heads ==> rules.uaOn(network, w.records.heads[id].ua))
      && (id in BlockRecords(rules, w.records, link).heads ==>
            rules.uaOn(network, BlockRecords(rules, w.records, link).heads[id].ua))
  }

  predicate CoverageOn(rules: Rules, coverage: Coverage, w: World, link: Link)
    requires rules.parameters.epochBlocks > 0
  {
    coverage.Exact? ==> BlockHeads(rules, w.records, link) <= {coverage.nameId}
  }

  lemma OkHeadIsValidRecord(rules: Rules, network: Network, tip: u32, id: NameId, head: Head)
    requires rules.parameters.Validated() && HeadOk(rules, tip, id, head)
    ensures ValidRecord(rules, network, id, StoreHead(head), Some(tip)) <==> rules.uaOn(network, head.ua)
  {
    NameSpellings(head.name, head.name);
  }

  lemma ChangesValid(rules: Rules, network: Network, w: World, link: Link, s: seq<(NameId, Change<Head>)>)
    requires rules.parameters.Validated() && WorldOk(rules, w) && CheckLink(rules, w, link).None?
    requires WorldOk(rules, Advance(rules, w, link))
    requires TrueChanges(s, w.records.heads, BlockRecords(rules, w.records, link).heads)
    requires KeysOf(s) == BlockHeads(rules, w.records, link)
    ensures (forall i :: 0 <= i < |s| ==>
               ValidChange(rules, network, HeightOf(w.TipOf()), link.block.height, s[i].0, s[i].1))
            <==> BlockOn(rules, network, w, link)
  {
    hide BlockHeads, BlockRecords, ValidRecord, HeadOk, CheckLink;
    var before, after := w.records.heads, BlockRecords(rules, w.records, link).heads;
    forall i | 0 <= i < |s|
      ensures ValidChange(rules, network, HeightOf(w.TipOf()), link.block.height, s[i].0, s[i].1)
              <==> (s[i].0 in before ==> rules.uaOn(network, before[s[i].0].ua))
                   && (s[i].0 in after ==> rules.uaOn(network, after[s[i].0].ua))
    {
      var id := s[i].0;
      if id in before {
        OkHeadIsValidRecord(rules, network, w.tipHeight.value, id, before[id]);
      }
      if id in after {
        OkHeadIsValidRecord(rules, network, link.block.height, id, after[id]);
      }
    }
    forall id | id in BlockHeads(rules, w.records, link) ensures exists i :: 0 <= i < |s| && s[i].0 == id {
      assert id in KeysOf(s);
    }
    assert forall i :: 0 <= i < |s| ==> s[i].0 in KeysOf(s);
  }

  lemma WholeDeltaWritten(rules: Rules, w: World, link: Link, heads: HeadRows, commits: CommitRows)
    requires rules.parameters.epochBlocks > 0
    requires WrittenHeads(heads, w.records.heads, BlockRecords(rules, w.records, link).heads,
                          BlockHeads(rules, w.records, link))
    requires WrittenCommits(commits, w.records.commits, BlockRecords(rules, w.records, link).commits,
                            BlockCommits(rules, w.records, link))
    ensures heads.rows == StoreHeads(BlockRecords(rules, w.records, link).heads)
    ensures commits.rows == BlockRecords(rules, w.records, link).commits
    ensures heads.undo == StoreUndoHeads(UndoFor(rules, w, link).heads)
    ensures commits.undo == UndoFor(rules, w, link).commits
  {
    BlockConfined(rules, w.records, link);
    hide BlockRecords, BlockHeads, BlockCommits;
    var after := BlockRecords(rules, w.records, link);
    forall id ensures Lookup(heads.rows, id) == Lookup(StoreHeads(after.heads), id) {
      assert Lookup(StoreHeads(after.heads), id) == StorePrevious(Lookup(after.heads, id));
    }
    SameLookups(heads.rows, StoreHeads(after.heads));
    SameLookups(commits.rows, after.commits);
  }

  /**
   A store that mirrors the chain accepts the delta of an accepted block exactly when the block's
   hash differs from its parent's (once there is a tip), the block journals only names the store
   covers, and the journaled addresses belong to the store's network.
   */
  lemma StoreAcceptsIff(rules: Rules, parent: Bytes32, identity: StoreIdentity, chain: seq<Link>, kept: nat,
                        t: Tables, link: Link, delta: StateDelta)
    requires rules.parameters.Validated() && ValidChain(rules, parent, chain)
    requires Mirrors(rules, parent, chain, kept, t)
    requires CheckLink(rules, ReplayChain(rules, parent, chain), link).None?
    requires
      var w := ReplayChain(rules, parent, chain);
      IsDelta(delta, w, Advance(rules, w, link), BlockHeads(rules, w.records, link),
              BlockCommits(rules, w.records, link))
    ensures
      var w := ReplayChain(rules, parent, chain);
      StoreApply(rules, identity, t, delta).Ok?
      <==> && (chain != [] ==> link.block.hash != link.block.prevHash)
           && CoverageOn(rules, identity.coverage, w, link)
           && BlockOn(rules, identity.network, w, link)
    ensures StoreApply(rules, identity, t, delta).Ok? ==>
      Mirrors(rules, parent, chain + [link], kept + 1, StoreApply(rules, identity, t, delta).value)
  {
    hide ReplayChain, BlockHeads, BlockCommits, BlockRecords, RowAt, Lists, BlockOn, IndexError, EvidenceError;
    hide ValidChain, WriteHeadChanges, WriteCommitChanges, RecordsOk, MirrorsJournal, UndoFor;
    var w := ReplayChain(rules, parent, chain);
    var after := BlockRecords(rules, w.records, link);
    ChainHeights(rules, parent, chain);
    ChainOk(rules, parent, chain);
    AdvanceOk(rules, w, link);
    ListedChanges(delta.heads, w.records.heads, after.heads, BlockHeads(rules, w.records, link));
    ListedChanges(delta.commits, w.records.commits, after.commits, BlockCommits(rules, w.records, link));
    HeadsWritten(rules, identity.network, w.records.heads, after.heads, HeightOf(delta.fromTip),
                 link.block.height, delta.heads);
    CommitsWritten(w.records.commits, after.commits, delta.commits);
    ChangesValid(rules, identity.network, w, link, delta.heads);
    CoverageIsSubset(identity.coverage, delta, BlockHeads(rules, w.records, link));
    FreshHeight(rules, parent, chain, kept, t.journal, link.block.height);
    if StoreApply(rules, identity, t, delta).Ok? {
      var heads := WriteHeadChanges(rules, identity.network, HeadRows(t.heads, map[]),
                                    HeightOf(delta.fromTip), link.block.height, delta.heads).value;
      var commits := WriteCommitChanges(CommitRows(t.commits, map[]), delta.commits).value;
      WholeDeltaWritten(rules, w, link, heads, commits);
      ReplayOneMore(rules, parent, chain, link);
      JournalOneMore(rules, parent, chain, kept, t.journal, link,
                     JournalRow(link.block.hash, w.TipOf(), heads.undo, commits.undo));
    }
  }

  lemma ReplayOneMore(rules: Rules, parent: Bytes32, chain: seq<Link>, link: Link)
    requires rules.parameters.epochBlocks > 0
    ensures ReplayChain(rules, parent, chain + [link]) == Advance(rules, ReplayChain(rules, parent, chain), link)
  {
    assert (chain + [link])[..|chain|] == chain;
  }

  lemma CoverageIsSubset(coverage: Coverage, delta: StateDelta, ks: set<NameId>)
    requires KeysOf(delta.heads) == ks
    ensures CoverageAdmits(coverage, delta) <==> (coverage.Exact? ==> ks <= {coverage.nameId})
  {
    assert forall i :: 0 <= i < |delta.heads| ==> delta.heads[i].0 in KeysOf(delta.heads);
  }

  lemma FreshHeight(rules: Rules, parent: Bytes32, chain: seq<Link>, kept: nat, journal: map<u32, JournalRow>,
                    height: u32)
    requires rules.parameters.epochBlocks > 0 && MirrorsJournal(rules, parent, chain, kept, journal)
    requires height == rules.parameters.activationHeight + |chain|
    ensures height !in journal
  {
  }

  lemma JournalOneMore(rules: Rules, parent: Bytes32, chain: seq<Link>, kept: nat, journal: map<u32, JournalRow>,
                       link: Link, row: JournalRow)
    requires rules.parameters.epochBlocks > 0 && MirrorsJournal(rules, parent, chain, kept, journal)
    requires link.block.height == rules.parameters.activationHeight + |chain|
    requires
      var w := ReplayChain(rules, parent, chain);
      row == JournalRow(link.block.hash, w.TipOf(), StoreUndoHeads(UndoFor(rules, w, link).heads),
                        UndoFor(rules, w, link).commits)
    ensures MirrorsJournal(rules, parent, chain + [link], kept + 1, journal[link.block.height := row])
  {
    hide UndoFor, ReplayChain;
    var longer, now := chain + [link], journal[link.block.height := row];
    assert longer[..|chain|] == chain && longer[|chain|] == link;
    forall h: u32 | h in now ensures now[h] == RowAt(rules, parent, longer, h - rules.parameters.activationHeight) {
      if h != link.block.height {
        RowOfPrefix(rules, parent, chain, longer, h - rules.parameters.activationHeight);
      }
    }
  }

  /** Rolling the mirrored tip back gives the mirror of the shorter chain, one row fewer. */
  lemma StoreRollbackMirrors(rules: Rules, parent: Bytes32, identity: StoreIdentity, chain: seq<Link>, kept: nat,
                             t: Tables)
    requires rules.parameters.Validated() && ValidChain(rules, parent, chain) && chain != []
    requires Mirrors(rules, parent, chain, kept, t)
    requires kept > 0 ==> ChainOn(rules, identity.network, chain)
    ensures
      var n := |chain| - 1;
      var r := StoreRollback(rules, identity, t, chain[n].block.hash);
      if kept == 0 then r == Err(MissingRollbackJournal)
      else r.Ok? && Mirrors(rules, parent, chain[..n], kept - 1, r.value)
           && r.value.walletCommits == t.walletCommits && r.value.coreSnapshot == t.coreSnapshot
           && r.value.tip != t.tip
  {
    hide RowAt, Overwrite, ValidRecord, UndoFor, CheckLink, Advance;
    var n := |chain| - 1;
    var front, link := chain[..n], chain[n];
    ChainHeights(rules, parent, chain);
    ChainHeights(rules, parent, front);
    if kept > 0 {
      var row := RowAt(rules, parent, chain, n);
      assert t.journal[link.block.height] == row;
      RowWrittenBack(rules, parent, identity.network, chain);
      JournalOneFewer(rules, parent, chain, kept, t.journal);
      assert row.hash == link.block.hash && row.previousTip == ReplayChain(rules, parent, front).TipOf() by {
        RowFields(rules, parent, chain);
      }
    }
  }

  lemma RowFields(rules: Rules, parent: Bytes32, chain: seq<Link>)
    requires rules.parameters.epochBlocks > 0 && chain != []
    ensures
      var n := |chain| - 1;
      var row := RowAt(rules, parent, chain, n);
      row.hash == chain[n].block.hash && row.previousTip == ReplayChain(rules, parent, chain[..n]).TipOf()
  {
    hide UndoFor, ReplayChain;
  }

  lemma JournalOneFewer(rules: Rules, parent: Bytes32, chain: seq<Link>, kept: nat, journal: map<u32, JournalRow>)
    requires rules.parameters.epochBlocks > 0 && MirrorsJournal(rules, parent, chain, kept, journal)
    requires kept > 0 && chain[|chain| - 1].block.height == rules.parameters.activationHeight + |chain| - 1
    ensures MirrorsJournal(rules, parent, chain[..|chain| - 1], kept - 1, journal - {chain[|chain| - 1].block.height})
  {
    hide RowAt;
    var front, now := chain[..|chain| - 1], journal - {chain[|chain| - 1].block.height};
    forall h: u32 | h in now ensures now[h] == RowAt(rules, parent, front, h - rules.parameters.activationHeight) {
      RowOfPrefix(rules, parent, front, chain, h - rules.parameters.activationHeight);
    }
  }

  lemma StoredOverwrite(now: map<NameId, Head>, undo: map<NameId, Option<Head>>)
    ensures Overwrite(StoreHeads(now), StoreUndoHeads(undo)) == StoreHeads(Overwrite(now, undo))
  {
    SameLookups(Overwrite(StoreHeads(now), StoreUndoHeads(undo)), StoreHeads(Overwrite(now, undo)));
  }

  /** The tip's row holds valid records, and writing it back restores the tables before the block. */
  lemma RowWrittenBack(rules: Rules, parent: Bytes32, network: Network, chain: seq<Link>)
    requires rules.parameters.Validated() && ValidChain(rules, parent, chain) && chain != []
    requires ChainOn(rules, network, chain)
    ensures
      var n := |chain| - 1;
      var row := RowAt(rules, parent, chain, n);
      var was, now := ReplayChain(rules, parent, chain[..n]), ReplayChain(rules, parent, chain);
      && Overwrite(StoreHeads(now.records.heads), row.heads) == StoreHeads(was.records.heads)
      && Overwrite(now.records.commits, row.commits) == was.records.commits
      && forall id :: id in row.heads ==> ValidOptional(rules, network, id, row.heads[id], HeightOf(was.TipOf()))
  {
    hide BlockHeads, BlockCommits, BlockRecords, ValidRecord, Overwrite, CheckLink, HeadOk, TxsOn;
    var n := |chain| - 1;
    var link, was, now := chain[n], ReplayChain(rules, parent, chain[..n]), ReplayChain(rules, parent, chain);
    ChainOk(rules, parent, chain[..n]);
    ChainStaysOn(rules, parent, network, chain[..n]);
    BlockConfined(rules, was.records, link);
    OverwriteUndoes(was.records.heads, now.records.heads, BlockHeads(rules, was.records, link));
    OverwriteUndoes(was.records.commits, now.records.commits, BlockCommits(rules, was.records, link));
    var undo := Record(was.records.heads, BlockHeads(rules, was.records, link));
    StoredOverwrite(now.records.heads, undo);
    forall id | id in undo
      ensures ValidOptional(rules, network, id, StorePrevious(undo[id]), HeightOf(was.TipOf()))
    {
      if id in was.records.heads {
        OkHeadIsValidRecord(rules, network, was.tipHeight.value, id, was.records.heads[id]);
      }
    }
  }

  /** Finalizing a mirrored store keeps it a mirror, with at least the configured minimum of rows. */
  lemma StoreFinalizeMirrors(rules: Rules, parent: Bytes32, identity: StoreIdentity, chain: seq<Link>, kept: nat,
                             t: Tables, height: u32)
    requires rules.parameters.Validated() && ValidChain(rules, parent, chain)
    requires Mirrors(rules, parent, chain, kept, t)
    ensures
      var r := StoreFinalize(identity, t, height);
      r.Ok? ==>
        && chain != [] && height <= chain[|chain| - 1].block.height
        && var above := chain[|chain| - 1].block.height - height;
           && identity.minimumRollbackBlocks <= above
           && Mirrors(rules, parent, chain, if above < kept then above else kept, r.value)
  {
    hide RowAt, ReplayChain;
    ChainHeights(rules, parent, chain);
    if chain == [] {
      assert ReplayChain(rules, parent, chain) == Genesis(rules, parent);
    }
  }

  // ---- runs of a reducer and its store ----

  /** `refused` records that the store once returned an error for an applied or rolled back block. */
  datatype Host = Host(core: Core, tables: Tables, refused: bool)

  /** A store call as its host sees it: an error leaves the tables alone and is remembered. */
  predicate After(r: Result<Tables, StoreError>, s: Host, s': Host) {
    s'.tables == (if r.Ok? then r.value else s.tables) && s'.refused == (s.refused || r.Err?)
  }

  /**
   One call on the reducer with what the host does to its store: the delta of an applied block,
   the hash of a rolled back one, and the height of an accepted finalization, which the store may
   refuse. A delta may list its changes in any order.
   */
  ghost predicate HostStep(rules: Rules, identity: StoreIdentity, s: Host, event: Event, s': Host)
    requires rules.parameters.epochBlocks > 0
  {
    && s'.core == CoreStep(rules, s.core, event).state
    && if CoreStep(rules, s.core, event).failure.Some? then s'.tables == s.tables && s'.refused == s.refused
       else match event
            case ApplyEvent(link) =>
              exists delta :: DeltaOf(rules, s.core.world, link, delta)
                              && After(StoreApply(rules, identity, s.tables, delta), s, s')
            case RollbackEvent(hash) => After(StoreRollback(rules, identity, s.tables, hash), s, s')
            case FinalizeEvent(height) =>
              && s'.refused == s.refused
              && s'.tables == (if StoreFinalize(identity, s.tables, height).Ok?
                               then StoreFinalize(identity, s.tables, height).value else s.tables)
  }

  ghost predicate DeltaOf(rules: Rules, w: World, link: Link, delta: StateDelta)
    requires rules.parameters.epochBlocks > 0
  {
    IsDelta(delta, w, Advance(rules, w, link), BlockHeads(rules, w.records, link), BlockCommits(rules, w.records, link))
  }

  /** What the host promises: distinct hashes, addresses of the store's network, names it covers. */
  predicate Storable(rules: Rules, identity: StoreIdentity, event: Event) {
    event.ApplyEvent? ==>
      && event.link.block.hash != event.link.block.prevHash
      && TxsOn(rules, identity.network, event.link.block.transactions)
      && (identity.coverage.Exact? ==> OnlyTarget(rules, identity.coverage.nameId, event.link.block.transactions))
  }

  /** The store has refused nothing, mirrors the reducer's surviving chain and can roll back at least as far. */
  ghost predicate Mirrored(rules: Rules, parent: Bytes32, identity: StoreIdentity, branch: Branch, s: Host)
    requires rules.parameters.epochBlocks > 0
  {
    && !s.refused && GoodBranch(rules, parent, branch) && s.core == Meaning(rules, parent, branch)
    && ChainOn(rules, identity.network, branch.chain)
    && (identity.coverage.Exact? ==> OnlyTargetChain(rules, identity.coverage.nameId, branch.chain))
    && exists kept :: branch.retained <= kept && Mirrors(rules, parent, branch.chain, kept, s.tables)
  }

  lemma BlockStaysOn(rules: Rules, parent: Bytes32, network: Network, chain: seq<Link>, link: Link)
    requires rules.parameters.epochBlocks > 0
    requires ChainOn(rules, network, chain) && TxsOn(rules, network, link.block.transactions)
    ensures BlockOn(rules, network, ReplayChain(rules, parent, chain), link)
    ensures ChainOn(rules, network, chain + [link])
  {
    hide TxsOn, StartRecords, RecordsAfter, BlockHeads;
    var w := ReplayChain(rules, parent, chain);
    ChainStaysOn(rules, parent, network, chain);
    StartStaysOn(rules, network, w.records, link);
    TxsStayOn(rules, network, StartRecords(rules, w.records, link), link.block.height, link.block.transactions);
  }

  /** The store never refuses what a mirrored, promise-keeping host feeds it, and stays a mirror. */
  lemma ApplyMirrored(rules: Rules, parent: Bytes32, identity: StoreIdentity, branch: Branch, s: Host,
                      link: Link, delta: StateDelta)
    requires rules.parameters.Validated() && Mirrored(rules, parent, identity, branch, s)
    requires Storable(rules, identity, ApplyEvent(link))
    requires CoreApply(rules, s.core, link).Ok? && DeltaOf(rules, s.core.world, link, delta)
    ensures
      var r := StoreApply(rules, identity, s.tables, delta);
      r.Ok? && Mirrored(rules, parent, identity, BranchStep(rules, parent, branch, ApplyEvent(link)).state,
                        Host(CoreApply(rules, s.core, link).value, r.value, false))
  {
    hide TxsOn, OnlyTarget, StoreApply, Advance, CheckLink, ReplayChain, Mirrors, BlockOn, UndoFor, IsDelta, ValidChain;
    var chain := branch.chain;
    var kept :| branch.retained <= kept && Mirrors(rules, parent, chain, kept, s.tables);
    BlockStaysOn(rules, parent, identity.network, chain, link);
    if identity.coverage.Exact? {
      ChainExactFor(rules, parent, identity.coverage.nameId, chain);
      BlockExactFor(rules, identity.coverage.nameId, ReplayChain(rules, parent, chain), link);
    }
    StoreAcceptsIff(rules, parent, identity, chain, kept, s.tables, link, delta);
    StepRefines(rules, parent, branch, ApplyEvent(link));
  }

  lemma RollbackMirrored(rules: Rules, parent: Bytes32, identity: StoreIdentity, branch: Branch, s: Host, hash: Bytes32)
    requires rules.parameters.Validated() && Mirrored(rules, parent, identity, branch, s)
    requires CoreRollback(s.core, hash).Ok?
    ensures
      var r := StoreRollback(rules, identity, s.tables, hash);
      r.Ok? && Mirrored(rules, parent, identity, BranchStep(rules, parent, branch, RollbackEvent(hash)).state,
                        Host(CoreRollback(s.core, hash).value, r.value, false))
  {
    hide TxsOn, OnlyTarget, StoreRollback, CheckLink, ReplayChain, Mirrors, EntryAt, Reverted, ValidChain;
    var kept :| branch.retained <= kept && Mirrors(rules, parent, branch.chain, kept, s.tables);
    StepRefines(rules, parent, branch, RollbackEvent(hash));
    StoreRollbackMirrors(rules, parent, identity, branch.chain, kept, s.tables);
  }

  lemma FinalizeMirrored(rules: Rules, parent: Bytes32, identity: StoreIdentity, branch: Branch, s: Host, height: u32)
    requires rules.parameters.Validated() && Mirrored(rules, parent, identity, branch, s)
    requires CoreFinalize(s.core, height).Ok?
    ensures
      var r := StoreFinalize(identity, s.tables, height);
      Mirrored(rules, parent, identity, BranchStep(rules, parent, branch, FinalizeEvent(height)).state,
               Host(CoreFinalize(s.core, height).value, if r.Ok? then r.value else s.tables, false))
  {
    hide TxsOn, OnlyTarget, StoreFinalize, CheckLink, ReplayChain, Mirrors, EntryAt, ValidChain, DropThrough, JournalOf;
    var kept :| branch.retained <= kept && Mirrors(rules, parent, branch.chain, kept, s.tables);
    StepRefines(rules, parent, branch, FinalizeEvent(height));
    StoreFinalizeMirrors(rules, parent, identity, branch.chain, kept, s.tables, height);
  }

  lemma HostStepMirrored(rules: Rules, parent: Bytes32, identity: StoreIdentity, branch: Branch, s: Host,
                         event: Event, s': Host)
    requires rules.parameters.Validated() && Mirrored(rules, parent, identity, branch, s)
    requires Storable(rules, identity, event) && HostStep(rules, identity, s, event, s')
    ensures Mirrored(rules, parent, identity, BranchStep(rules, parent, branch, event).state, s')
  {
    hide Mirrored, BranchStep, StoreApply, StoreRollback, StoreFinalize, CoreApply, CoreRollback, CoreFinalize;
    hide Storable, DeltaOf;
    assert !s.refused by { NotRefused(rules, parent, identity, branch, s); }
    FailedStep(rules, parent, identity, branch, s, event);
    match event
    case ApplyEvent(link) =>
      if CoreApply(rules, s.core, link).Ok? {
        var delta :| DeltaOf(rules, s.core.world, link, delta)
                     && After(StoreApply(rules, identity, s.tables, delta), s, s');
        ApplyMirrored(rules, parent, identity, branch, s, link, delta);
      }
    case RollbackEvent(hash) =>
      if CoreRollback(s.core, hash).Ok? {
        RollbackMirrored(rules, parent, identity, branch, s, hash);
      }
    case FinalizeEvent(height) =>
      if CoreFinalize(s.core, height).Ok? {
        FinalizeMirrored(rules, parent, identity, branch, s, height);
      }
  }

  lemma NotRefused(rules: Rules, parent: Bytes32, identity: StoreIdentity, branch: Branch, s: Host)
    requires rules.parameters.epochBlocks > 0 && Mirrored(rules, parent, identity, branch, s)
    ensures !s.refused
  {
  }

  /** A refused call leaves the branch as it was. */
  lemma FailedStep(rules: Rules, parent: Bytes32, identity: StoreIdentity, branch: Branch, s: Host, event: Event)
    requires rules.parameters.Validated() && Mirrored(rules, parent, identity, branch, s)
    ensures CoreStep(rules, s.core, event).failure.Some? ==>
      BranchStep(rules, parent, branch, event).state == branch && CoreStep(rules, s.core, event).state == s.core
  {
    hide CheckLink, ReplayChain, Mirrors, JournalOf, Advance, UndoFor;
    StepRefines(rules, parent, branch, event);
  }

  const EMPTY_TABLES := Tables(map[], map[], map[], map[], None, None, None)

  ghost predicate HostRun(rules: Rules, parent: Bytes32, identity: StoreIdentity, events: seq<Event>, states: seq<Host>)
    requires rules.parameters.epochBlocks > 0
  {
    && |states| == |events| + 1
    && states[0] == Host(Core(Genesis(rules, parent), []), EMPTY_TABLES, false)
    && forall i :: 0 <= i < |events| ==>
         Storable(rules, identity, events[i]) && HostStep(rules, identity, states[i], events[i], states[i + 1])
  }

  /**
   After any run of applies, rollbacks and finalizations, the store has refused no delta and no
   rollback, and mirrors the surviving chain.
   */
  lemma {:induction false} StoreMirrorsReducer(rules: Rules, parent: Bytes32, identity: StoreIdentity,
                                               events: seq<Event>, states: seq<Host>)
    requires rules.parameters.Validated() && HostRun(rules, parent, identity, events, states)
    ensures Mirrored(rules, parent, identity, BranchRun(rules, parent, events), states[|events|])
    decreases |events|
  {
    if events == [] {
      assert Mirrors(rules, parent, [], 0, EMPTY_TABLES);
      assert JournalOf(rules, parent, [], 0) == [];
    } else {
      hide Mirrored, Storable, HostStep, BranchStep;
      var n := |events| - 1;
      StoreMirrorsReducer(rules, parent, identity, events[..n], states[..n + 1]);
      HostStepMirrored(rules, parent, identity, BranchRun(rules, parent, events[..n]), states[n], events[n],
                       states[n + 1]);
    }
  }

  // ---- wallet rewind ----

  /** How many blocks of a chain from activation lie at or below a height. */
  function BlocksThrough(p: Parameters, n: nat, height: u32): nat {
    if height < p.activationHeight then 0
    else if height - p.activationHeight + 1 < n then height - p.activationHeight + 1
    else n
  }

  /** They are exactly the blocks at or below the height. */
  lemma BlocksThroughExact(rules: Rules, parent: Bytes32, chain: seq<Link>, height: u32, i: nat)
    requires rules.parameters.epochBlocks > 0 && ValidChain(rules, parent, chain) && i < |chain|
    ensures i < BlocksThrough(rules.parameters, |chain|, height) <==> chain[i].block.height <= height
  {
    ChainHeights(rules, parent, chain);
  }

  lemma {:induction false} UnwindMirrors(rules: Rules, parent: Bytes32, identity: StoreIdentity, chain: seq<Link>,
                                         kept: nat, t: Tables, height: u32)
    requires rules.parameters.Validated() && ValidChain(rules, parent, chain)
    requires Mirrors(rules, parent, chain, kept, t) && ChainOn(rules, identity.network, chain)
    ensures
      var n := BlocksThrough(rules.parameters, |chain|, height);
      var r := Unwind(rules, identity, t, height);
      if |chain| - n <= kept
      then r.Ok? && Mirrors(rules, parent, chain[..n], kept - (|chain| - n), r.value)
           && r.value.walletCommits == t.walletCommits && r.value.coreSnapshot == t.coreSnapshot
           && (r.value.tip == t.tip <==> n == |chain|)
      else r == Err(MissingRollbackJournal)
    decreases |chain|
  {
    hide MirrorsJournal, TxsOn, CheckLink, Advance, StoreRollback;
    var n := BlocksThrough(rules.parameters, |chain|, height);
    ChainHeights(rules, parent, chain);
    if n == |chain| {
      assert chain[..n] == chain;
    } else {
      var front := chain[..|chain| - 1];
      ChainHeights(rules, parent, front);
      StoreRollbackMirrors(rules, parent, identity, chain, kept, t);
      if kept > 0 {
        var next := StoreRollback(rules, identity, t, chain[|chain| - 1].block.hash).value;
        UnwindMirrors(rules, parent, identity, front, kept - 1, next, height);
        assert front[..n] == chain[..n];
        ChainHeights(rules, parent, chain[..n]) by {
          PrefixValid(rules, parent, chain, n);
        }
      }
    }
  }

  /**
   A wallet rewind always succeeds on a mirrored store: it ends with no tip or one at or below the
   height, holding the replay at that tip or nothing at all, and no wallet COMMIT above the height.
   */
  lemma RewindOrReset(rules: Rules, parent: Bytes32, identity: StoreIdentity, chain: seq<Link>, kept: nat,
                      t: Tables, height: u32)
    requires rules.parameters.Validated() && ValidChain(rules, parent, chain)
    requires Mirrors(rules, parent, chain, kept, t) && ChainOn(rules, identity.network, chain)
    ensures
      var n := BlocksThrough(rules.parameters, |chain|, height);
      var r := StoreRewindOrReset(rules, identity, t, height);
      && r.Ok?
      && (r.value.tip.Some? ==> r.value.tip.value.height <= height)
      && (forall c :: c in r.value.walletCommits ==> r.value.walletCommits[c].height <= height)
      && (forall c :: c in t.walletCommits && t.walletCommits[c].height <= height ==>
            c in r.value.walletCommits && r.value.walletCommits[c] == t.walletCommits[c])
      && (if |chain| - n <= kept then Mirrors(rules, parent, chain[..n], kept - (|chain| - n), r.value)
          else r.value == DropWalletCommits(Cleared(t), height))
      && (n < |chain| ==> r.value.coreSnapshot.None?)
      && (n == |chain| ==> r.value.coreSnapshot == t.coreSnapshot)
  {
    hide MirrorsJournal, TxsOn, CheckLink, Advance, Unwind;
    var n := BlocksThrough(rules.parameters, |chain|, height);
    UnwindMirrors(rules, parent, identity, chain, kept, t, height);
    PrefixValid(rules, parent, chain, n);
    ChainHeights(rules, parent, chain[..n]);
  }
}
