/** What the rows of a store that follows a reducer say, field by field, and which height it reports finalized. */
module MirrorRows {
  import opened Collections
  import opened Protocol
  import opened Replay
  import opened Journal
  import opened Snapshots
  import opened Store
  import opened StoreRules
  import opened StoreMirror

  /** Every head and every pending COMMIT of replay has its row, with all its fields, and no other row exists. */
  ghost predicate RowsOf(w: World, t: Tables) {
    && (forall id :: id in t.heads <==> id in w.records.heads)
    && (forall id :: id in t.heads && id in w.records.heads ==> SameFields(t.heads[id], w.records.heads[id]))
    && (forall r :: r in t.commits <==> r in w.records.commits)
    && (forall r :: r in t.commits && r in w.records.commits ==> t.commits[r] == w.records.commits[r])
  }

  /** The rollback block holds the records from before the block, at least wherever the block changed one. */
  ghost predicate RollbackRowsOf(before: World, block: Block, after: World, row: JournalRow) {
    && row.hash == block.hash
    && row.previousTip == (if before.tipHeight.None? then None
                           else Some(Tip(before.tipHeight.value, before.previousHash)))
    && (forall id :: id in row.heads ==> SameOptional(row.heads[id], Lookup(before.records.heads, id)))
    && (forall r :: r in row.commits ==> row.commits[r] == Lookup(before.records.commits, r))
    && (forall id :: id !in row.heads ==> Lookup(after.records.heads, id) == Lookup(before.records.heads, id))
    && (forall r :: r !in row.commits ==> Lookup(after.records.commits, r) == Lookup(before.records.commits, r))
  }

  lemma RowsFollow(rules: Rules, parent: Bytes32, chain: seq<Link>, kept: nat, t: Tables)
    requires rules.parameters.epochBlocks > 0 && Mirrors(rules, parent, chain, kept, t)
    ensures RowsOf(ReplayChain(rules, parent, chain), t)
  {
    hide MirrorsJournal, ReplayChain;
    var heads := ReplayChain(rules, parent, chain).records.heads;
    forall id | id in heads ensures SameFields(t.heads[id], heads[id]) {
      RecordIsExact(t.heads[id], heads[id]);
    }
  }

  lemma RollbackRowsFollow(rules: Rules, parent: Bytes32, chain: seq<Link>, i: nat)
    requires rules.parameters.epochBlocks > 0 && i < |chain|
    ensures RollbackRowsOf(ReplayChain(rules, parent, chain[..i]), chain[i].block,
                           ReplayChain(rules, parent, chain[..i + 1]), RowAt(rules, parent, chain, i))
  {
    hide BlockHeads, BlockCommits, BlockRecords, ReplayChain;
    var w := ReplayChain(rules, parent, chain[..i]);
    BlockConfined(rules, w.records, chain[i]);
    ReplayOneMore(rules, parent, chain[..i], chain[i]);
    assert chain[..i + 1] == chain[..i] + [chain[i]];
    var row := RowAt(rules, parent, chain, i);
    forall id | id in row.heads ensures SameOptional(row.heads[id], Lookup(w.records.heads, id)) {
      OptionalRecordIsExact(row.heads[id], Lookup(w.records.heads, id));
    }
  }

  /** A store that mirrors a chain holds exactly its records and, for its newest blocks, the records before each. */
  lemma MirroredRows(rules: Rules, parent: Bytes32, chain: seq<Link>, kept: nat, t: Tables)
    requires rules.parameters.epochBlocks > 0 && ValidChain(rules, parent, chain)
    requires Mirrors(rules, parent, chain, kept, t)
    ensures kept <= |chain| && RowsOf(ReplayChain(rules, parent, chain), t)
    ensures forall i :: |chain| - kept <= i < |chain| ==>
      chain[i].block.height in t.journal
      && RollbackRowsOf(ReplayChain(rules, parent, chain[..i]), chain[i].block,
                        ReplayChain(rules, parent, chain[..i + 1]), t.journal[chain[i].block.height])
  {
    hide RollbackRowsOf, ReplayChain, RowAt, RowsOf, ValidChain;
    RowsFollow(rules, parent, chain, kept, t);
    ChainHeights(rules, parent, chain);
    forall i | |chain| - kept <= i < |chain|
      ensures chain[i].block.height in t.journal
      ensures RollbackRowsOf(ReplayChain(rules, parent, chain[..i]), chain[i].block,
                             ReplayChain(rules, parent, chain[..i + 1]), t.journal[chain[i].block.height])
    {
      RollbackRowsFollow(rules, parent, chain, i);
    }
  }

  /** After a mirroring store accepts a block's delta, its rows say what replay of the longer chain says. */
  lemma AppliedRows(rules: Rules, parent: Bytes32, identity: StoreIdentity, chain: seq<Link>, kept: nat, t: Tables,
                    link: Link, delta: StateDelta)
    requires rules.parameters.Validated() && ValidChain(rules, parent, chain + [link])
    requires Mirrors(rules, parent, chain, kept, t) && DeltaOf(rules, ReplayChain(rules, parent, chain), link, delta)
    requires StoreApply(rules, identity, t, delta).Ok?
    ensures
      var now := StoreApply(rules, identity, t, delta).value;
      && RowsOf(ReplayChain(rules, parent, chain + [link]), now)
      && link.block.height in now.journal
      && RollbackRowsOf(ReplayChain(rules, parent, chain), link.block, ReplayChain(rules, parent, chain + [link]),
                        now.journal[link.block.height])
  {
    hide Mirrors, StoreApply, RowsOf, RollbackRowsOf, ReplayChain, CheckLink;
    var longer := chain + [link];
    assert longer[..|longer| - 1] == chain && longer[..|longer|] == longer;
    StoreAcceptsIff(rules, parent, identity, chain, kept, t, link, delta);
    MirroredRows(rules, parent, longer, kept + 1, StoreApply(rules, identity, t, delta).value);
  }

  /** A block's delta lists, each once, every record the block changed, with its values before and after. */
  lemma DeltaSays(rules: Rules, w: World, link: Link, delta: StateDelta)
    requires rules.parameters.epochBlocks > 0 && DeltaOf(rules, w, link, delta)
    ensures
      var next := Advance(rules, w, link);
      && delta.fromTip == (if w.tipHeight.None? then None else Some(Tip(w.tipHeight.value, w.previousHash)))
      && delta.toTip == Some(Tip(link.block.height, link.block.hash))
      && DistinctKeys(delta.heads) && DistinctKeys(delta.commits)
      && (forall i :: 0 <= i < |delta.heads| ==>
            && delta.heads[i].1.previous == Lookup(w.records.heads, delta.heads[i].0)
            && delta.heads[i].1.current == Lookup(next.records.heads, delta.heads[i].0))
      && (forall i :: 0 <= i < |delta.commits| ==>
            && delta.commits[i].1.previous == Lookup(w.records.commits, delta.commits[i].0)
            && delta.commits[i].1.current == Lookup(next.records.commits, delta.commits[i].0))
      && (forall id :: Lookup(next.records.heads, id) != Lookup(w.records.heads, id) ==>
            exists i :: 0 <= i < |delta.heads| && delta.heads[i].0 == id)
      && (forall r :: Lookup(next.records.commits, r) != Lookup(w.records.commits, r) ==>
            exists i :: 0 <= i < |delta.commits| && delta.commits[i].0 == r)
  {
    hide BlockHeads, BlockCommits, BlockRecords;
    BlockConfined(rules, w.records, link);
    var after := BlockRecords(rules, w.records, link);
    forall id | Lookup(after.heads, id) != Lookup(w.records.heads, id)
      ensures exists i :: 0 <= i < |delta.heads| && delta.heads[i].0 == id
    {
      assert id in Changes(w.records.heads, after.heads, BlockHeads(rules, w.records, link));
    }
    forall r | Lookup(after.commits, r) != Lookup(w.records.commits, r)
      ensures exists i :: 0 <= i < |delta.commits| && delta.commits[i].0 == r
    {
      assert r in Changes(w.records.commits, after.commits, BlockCommits(rules, w.records, link));
    }
  }

  // ---- the finalized height ----

  /** The call is a finalization of this height that both the reducer and the store accept. */
  ghost predicate FinalizedAt(rules: Rules, identity: StoreIdentity, events: seq<Event>, states: seq<Host>, i: int,
                              height: u32)
    requires rules.parameters.epochBlocks > 0
  {
    && 0 <= i < |events| && i < |states| && events[i] == FinalizeEvent(height)
    && CoreStep(rules, states[i].core, events[i]).failure.None?
    && StoreFinalize(identity, states[i].tables, height).Ok?
  }

  /** The store reports the greatest height both have accepted for finalization, and none before the first. */
  ghost predicate GreatestFinalized(rules: Rules, identity: StoreIdentity, events: seq<Event>, states: seq<Host>,
                                    finalized: Option<u32>)
    requires rules.parameters.epochBlocks > 0
  {
    && (finalized.Some? ==> exists i :: FinalizedAt(rules, identity, events, states, i, finalized.value))
    && forall i, height: u32 :: FinalizedAt(rules, identity, events, states, i, height) ==>
         finalized.Some? && height <= finalized.value
  }

  lemma FinalizedHeightStep(rules: Rules, identity: StoreIdentity, s: Host, event: Event, s': Host)
    requires rules.parameters.epochBlocks > 0 && HostStep(rules, identity, s, event, s')
    ensures
      var accepted := event.FinalizeEvent? && CoreStep(rules, s.core, event).failure.None?
                      && StoreFinalize(identity, s.tables, event.height).Ok?;
      if !accepted then s'.tables.finalizedHeight == s.tables.finalizedHeight
      else s'.tables.finalizedHeight.Some?
           && event.height <= s'.tables.finalizedHeight.value
           && (s.tables.finalizedHeight.Some? ==> s.tables.finalizedHeight.value <= s'.tables.finalizedHeight.value)
           && (s'.tables.finalizedHeight == Some(event.height)
               || s'.tables.finalizedHeight == s.tables.finalizedHeight)
  {
    hide CoreStep, WriteHeadChanges, WriteCommitChanges, DeltaOf, Overwrite, ValidOptional;
  }

  /** Over any run of a reducer and its store. */
  lemma {:induction false} FinalizedIsGreatest(rules: Rules, parent: Bytes32, identity: StoreIdentity,
                                               events: seq<Event>, states: seq<Host>)
    requires rules.parameters.epochBlocks > 0 && HostRun(rules, parent, identity, events, states)
    ensures GreatestFinalized(rules, identity, events, states, states[|events|].tables.finalizedHeight)
    decreases |events|
  {
    if events != [] {
      hide HostStep, Storable, GreatestFinalized, FinalizedAt;
      var n := |events| - 1;
      FinalizedIsGreatest(rules, parent, identity, events[..n], states[..n + 1]);
      FinalizedMore(rules, identity, events, states);
    }
  }

  lemma FinalizedMore(rules: Rules, identity: StoreIdentity, events: seq<Event>, states: seq<Host>)
    requires rules.parameters.epochBlocks > 0 && events != [] && |states| == |events| + 1
    requires
      var n := |events| - 1;
      && GreatestFinalized(rules, identity, events[..n], states[..n + 1], states[n].tables.finalizedHeight)
      && HostStep(rules, identity, states[n], events[n], states[n + 1])
    ensures GreatestFinalized(rules, identity, events, states, states[|events|].tables.finalizedHeight)
  {
    var n := |events| - 1;
    var was, now := states[n].tables.finalizedHeight, states[n + 1].tables.finalizedHeight;
    FinalizedHeightStep(rules, identity, states[n], events[n], states[n + 1]);
    hide HostStep, CoreStep, StoreFinalize;
    forall i, height: u32
      ensures FinalizedAt(rules, identity, events, states, i, height)
              <==> if i == n then FinalizedAt(rules, identity, events, states, n, height)
                   else FinalizedAt(rules, identity, events[..n], states[..n + 1], i, height)
    {
    }
    if now.Some? {
      if now == was {
        var i :| FinalizedAt(rules, identity, events[..n], states[..n + 1], i, was.value);
        assert i != n && FinalizedAt(rules, identity, events, states, i, now.value);
      } else {
        assert FinalizedAt(rules, identity, events, states, n, now.value);
      }
    }
    forall i, height: u32 | FinalizedAt(rules, identity, events, states, i, height)
      ensures now.Some? && height <= now.value
    {
      if i != n {
        assert FinalizedAt(rules, identity, events[..n], states[..n + 1], i, height);
      }
    }
  }
}
