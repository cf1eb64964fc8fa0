/** What the store accepts, writes and refuses on any tables, told row by row and field by field. */
module StoreRules {
  import opened Collections
  import opened Protocol
  import opened Replay
  import opened Journal
  import opened Snapshots
  import opened Store

  // ---- records ----

  /** The checks on a head at a tip: its name, its address, and the order of its heights. */
  predicate GoodHead(rules: Rules, network: Network, id: NameId, head: Option<Head>, tip: Option<u32>) {
    head.Some? ==>
      && rules.nameId(head.value.name) == Some(id) && rules.uaOn(network, head.value.ua)
      && head.value.producer.height <= head.value.expiryHeight
      && (tip.Some? ==> head.value.producer.height <= tip.value)
      && (head.value.terminalHeight.Some? ==>
            && head.value.producer.height <= head.value.terminalHeight.value
            && (tip.Some? ==> head.value.terminalHeight.value <= tip.value))
  }

  lemma GoodIsValid(rules: Rules, network: Network, id: NameId, head: Option<Head>, tip: Option<u32>)
    ensures GoodHead(rules, network, id, head, tip) <==> ValidOptional(rules, network, id, StorePrevious(head), tip)
  {
    if head.Some? {
      NameSpellings(head.value.name, head.value.name);
    }
  }

  // ---- head changes ----

  /** The change's heads are good and its previous one is what the row records. */
  predicate HeadFits(rules: Rules, network: Network, rows: map<NameId, HeadRecord>, from: Option<u32>, to: u32,
                     id: NameId, change: Change<Head>)
  {
    && GoodHead(rules, network, id, change.previous, from) && GoodHead(rules, network, id, change.current, Some(to))
    && SameOptional(Lookup(rows, id), change.previous)
  }

  ghost predicate HeadsFit(rules: Rules, network: Network, rows: map<NameId, HeadRecord>, from: Option<u32>, to: u32,
                           changes: seq<(NameId, Change<Head>)>)
  {
    && DistinctKeys(changes)
    && forall i :: 0 <= i < |changes| ==> HeadFits(rules, network, rows, from, to, changes[i].0, changes[i].1)
  }

  /** The listed rows record the current heads, the undo rows the previous ones, and nothing else changes. */
  ghost predicate HeadsChanged(before: map<NameId, HeadRecord>, changes: seq<(NameId, Change<Head>)>,
                               after: map<NameId, HeadRecord>, undo: map<NameId, Option<HeadRecord>>)
  {
    && (forall i :: 0 <= i < |changes| ==>
          && SameOptional(Lookup(after, changes[i].0), changes[i].1.current)
          && changes[i].0 in undo && SameOptional(undo[changes[i].0], changes[i].1.previous))
    && (forall id :: id !in KeysIn(changes) ==> Lookup(after, id) == Lookup(before, id) && id !in undo)
  }

  ghost function KeysIn<K, V>(s: seq<(K, V)>): set<K> {
    set i | 0 <= i < |s| :: s[i].0
  }

  lemma KeysInMore<K, V>(s: seq<(K, V)>)
    requires s != []
    ensures KeysIn(s) == KeysIn(s[..|s| - 1]) + {s[|s| - 1].0}
    ensures DistinctKeys(s) <==> DistinctKeys(s[..|s| - 1]) && s[|s| - 1].0 !in KeysIn(s[..|s| - 1])
  {
    var n := |s| - 1;
    var front := s[..n];
    assert forall i :: 0 <= i < n ==> front[i] == s[i];
    forall k ensures k in KeysIn(s) <==> k in KeysIn(front) || k == s[n].0 {
      if k in KeysIn(front) {
        var i :| 0 <= i < n && front[i].0 == k;
        assert s[i].0 == k;
      }
    }
    if DistinctKeys(front) && s[n].0 !in KeysIn(front) {
      forall i, j | 0 <= i < j < |s| ensures s[i].0 != s[j].0 {
        assert front[i].0 in KeysIn(front);
        assert j < n ==> front[i].0 != front[j].0;
      }
    }
    if DistinctKeys(s) {
      assert forall i :: 0 <= i < n ==> s[i].0 != s[n].0;
    }
  }

  /** Writing one change succeeds exactly when it fits and its name is new. */
  lemma OneHeadIff(rules: Rules, network: Network, before: map<NameId, HeadRecord>, t: HeadRows, from: Option<u32>,
                   to: u32, done: seq<(NameId, Change<Head>)>, id: NameId, change: Change<Head>)
    requires HeadsChanged(before, done, t.rows, t.undo)
    ensures
      var r := WriteHeadChange(rules, network, t, from, to, id, change);
      && (r.Ok? <==> id !in KeysIn(done) && HeadFits(rules, network, before, from, to, id, change))
      && (id !in KeysIn(done) && !r.Ok? ==>
            r == Err(if GoodHead(rules, network, id, change.previous, from)
                        && GoodHead(rules, network, id, change.current, Some(to))
                     then AuthoritativeRecordMismatch else InvalidStoredRecord))
  {
    hide GoodHead, ValidOptional;
    GoodIsValid(rules, network, id, change.previous, from);
    GoodIsValid(rules, network, id, change.current, Some(to));
    OptionalRecordIsExact(Lookup(before, id), change.previous);
    UndoKeys(before, done, t);
    assert id !in KeysIn(done) ==> Lookup(t.rows, id) == Lookup(before, id);
    hide SameOptional, StorePrevious, HeadsChanged, KeysIn;
  }

  /** It then changes that row alone. */
  lemma OneHead(rules: Rules, network: Network, before: map<NameId, HeadRecord>, t: HeadRows, from: Option<u32>,
                to: u32, changes: seq<(NameId, Change<Head>)>)
    requires changes != [] && HeadsChanged(before, changes[..|changes| - 1], t.rows, t.undo)
    requires changes[|changes| - 1].0 !in KeysIn(changes[..|changes| - 1])
    ensures
      var (id, change) := changes[|changes| - 1];
      var r := WriteHeadChange(rules, network, t, from, to, id, change);
      r.Ok? ==> HeadsChanged(before, changes, r.value.rows, r.value.undo)
  {
    hide ValidOptional;
    var n := |changes| - 1;
    var front := changes[..n];
    var (id, change) := changes[n];
    KeysInMore(changes);
    OptionalRecordIsExact(StorePrevious(change.previous), change.previous);
    OptionalRecordIsExact(StorePrevious(change.current), change.current);
    hide SameOptional, StorePrevious;
    var r := WriteHeadChange(rules, network, t, from, to, id, change);
    if r.Ok? {
      forall i | 0 <= i < |changes|
        ensures SameOptional(Lookup(r.value.rows, changes[i].0), changes[i].1.current)
        ensures changes[i].0 in r.value.undo && SameOptional(r.value.undo[changes[i].0], changes[i].1.previous)
      {
        assert i < n ==> front[i] == changes[i] && front[i].0 in KeysIn(front);
      }
    }
  }

  lemma UndoKeys(before: map<NameId, HeadRecord>, changes: seq<(NameId, Change<Head>)>, t: HeadRows)
    requires HeadsChanged(before, changes, t.rows, t.undo)
    ensures t.undo.Keys == KeysIn(changes)
  {
    hide SameOptional;
    forall id ensures id in t.undo <==> id in KeysIn(changes) {
      if id in KeysIn(changes) {
        var i :| 0 <= i < |changes| && changes[i].0 == id;
        assert changes[i].0 in t.undo;
      }
    }
  }

  lemma {:induction false} HeadsWrittenIff(rules: Rules, network: Network, before: map<NameId, HeadRecord>,
                                           from: Option<u32>, to: u32, changes: seq<(NameId, Change<Head>)>)
    ensures
      var r := WriteHeadChanges(rules, network, HeadRows(before, map[]), from, to, changes);
      && (r.Ok? <==> HeadsFit(rules, network, before, from, to, changes))
      && (r.Ok? ==> HeadsChanged(before, changes, r.value.rows, r.value.undo))
  {
    hide HeadFits, HeadsChanged, WriteHeadChange;
    if changes == [] {
      NothingChanged(before);
    } else {
      var n := |changes| - 1;
      var front := changes[..n];
      HeadsWrittenIff(rules, network, before, from, to, front);
      KeysInMore(changes);
      assert forall i :: 0 <= i < n ==> front[i] == changes[i];
      var r := WriteHeadChanges(rules, network, HeadRows(before, map[]), from, to, front);
      if r.Ok? {
        OneHeadIff(rules, network, before, r.value, from, to, front, changes[n].0, changes[n].1);
        if changes[n].0 !in KeysIn(front) {
          OneHead(rules, network, before, r.value, from, to, changes);
        }
      }
    }
  }

  lemma NothingChanged(before: map<NameId, HeadRecord>)
    ensures HeadsChanged(before, [], before, map[])
  {
  }

  /** The first change that does not fit decides the error: bad heads before a row that says otherwise. */
  lemma FirstBadHead(rules: Rules, network: Network, before: map<NameId, HeadRecord>, from: Option<u32>, to: u32,
                     changes: seq<(NameId, Change<Head>)>, i: nat)
    requires i < |changes| && HeadsFit(rules, network, before, from, to, changes[..i])
    requires changes[i].0 !in KeysIn(changes[..i])
    requires !HeadFits(rules, network, before, from, to, changes[i].0, changes[i].1)
    ensures WriteHeadChanges(rules, network, HeadRows(before, map[]), from, to, changes)
            == Err(if GoodHead(rules, network, changes[i].0, changes[i].1.previous, from)
                      && GoodHead(rules, network, changes[i].0, changes[i].1.current, Some(to))
                   then AuthoritativeRecordMismatch else InvalidStoredRecord)
  {
    hide HeadFits, HeadsChanged, WriteHeadChange, GoodHead, HeadsFit;
    HeadsWrittenIff(rules, network, before, from, to, changes[..i]);
    var r := WriteHeadChanges(rules, network, HeadRows(before, map[]), from, to, changes[..i]);
    assert changes[..i + 1][..i] == changes[..i];
    OneHeadIff(rules, network, before, r.value, from, to, changes[..i], changes[i].0, changes[i].1);
    HeadErrorSticks(rules, network, HeadRows(before, map[]), from, to, changes, i + 1);
  }

  // ---- COMMIT changes ----

  ghost predicate CommitsFit(rows: map<CommitRef, Commitment>, changes: seq<(CommitRef, Change<Commitment>)>) {
    && DistinctKeys(changes)
    && forall i :: 0 <= i < |changes| ==> Lookup(rows, changes[i].0) == changes[i].1.previous
  }

  ghost predicate CommitsChanged(before: map<CommitRef, Commitment>, changes: seq<(CommitRef, Change<Commitment>)>,
                                 after: map<CommitRef, Commitment>, undo: map<CommitRef, Option<Commitment>>)
  {
    && (forall i :: 0 <= i < |changes| ==>
          && Lookup(after, changes[i].0) == changes[i].1.current
          && changes[i].0 in undo && undo[changes[i].0] == changes[i].1.previous)
    && (forall r :: r !in KeysIn(changes) ==> Lookup(after, r) == Lookup(before, r) && r !in undo)
  }

  lemma OneCommit(before: map<CommitRef, Commitment>, t: CommitRows, changes: seq<(CommitRef, Change<Commitment>)>)
    requires changes != [] && CommitsChanged(before, changes[..|changes| - 1], t.rows, t.undo)
    ensures
      var (reference, change) := changes[|changes| - 1];
      var r := WriteCommitChange(t, reference, change);
      && (r.Ok? <==> reference !in KeysIn(changes[..|changes| - 1]) && Lookup(before, reference) == change.previous)
      && (r.Ok? ==> CommitsChanged(before, changes, r.value.rows, r.value.undo))
      && (reference !in KeysIn(changes[..|changes| - 1]) && !r.Ok? ==> r == Err(AuthoritativeRecordMismatch))
  {
    var n := |changes| - 1;
    var front := changes[..n];
    var (reference, change) := changes[n];
    KeysInMore(changes);
    assert forall i :: 0 <= i < n ==> front[i] == changes[i] && front[i].0 in KeysIn(front);
    if reference in KeysIn(front) {
      var i :| 0 <= i < n && front[i].0 == reference;
      assert front[i].0 in t.undo;
    }
  }

  lemma {:induction false} CommitsWrittenIff(before: map<CommitRef, Commitment>,
                                             changes: seq<(CommitRef, Change<Commitment>)>)
    ensures
      var r := WriteCommitChanges(CommitRows(before, map[]), changes);
      && (r.Ok? <==> CommitsFit(before, changes))
      && (r.Ok? ==> CommitsChanged(before, changes, r.value.rows, r.value.undo))
  {
    hide CommitsChanged, WriteCommitChange;
    if changes == [] {
      NoCommitChanged(before);
    } else {
      var n := |changes| - 1;
      var front := changes[..n];
      CommitsWrittenIff(before, front);
      KeysInMore(changes);
      assert forall i :: 0 <= i < n ==> front[i] == changes[i];
      var r := WriteCommitChanges(CommitRows(before, map[]), front);
      if r.Ok? {
        OneCommit(before, r.value, changes);
      }
    }
  }

  lemma NoCommitChanged(before: map<CommitRef, Commitment>)
    ensures CommitsChanged(before, [], before, map[])
  {
  }

  lemma FirstBadCommit(before: map<CommitRef, Commitment>, changes: seq<(CommitRef, Change<Commitment>)>, i: nat)
    requires i < |changes| && CommitsFit(before, changes[..i])
    requires changes[i].0 !in KeysIn(changes[..i]) && Lookup(before, changes[i].0) != changes[i].1.previous
    ensures WriteCommitChanges(CommitRows(before, map[]), changes) == Err(AuthoritativeRecordMismatch)
  {
    hide CommitsChanged, WriteCommitChange, CommitsFit;
    CommitsWrittenIff(before, changes[..i]);
    var r := WriteCommitChanges(CommitRows(before, map[]), changes[..i]);
    assert changes[..i + 1][..i] == changes[..i];
    OneCommit(before, r.value, changes[..i + 1]);
    CommitErrorSticks(CommitRows(before, map[]), changes, i + 1);
  }

  // ---- deltas ----

  /** The delta starts at the tables' tip and leads one block further, to another hash. */
  predicate Continues(t: Tables, delta: StateDelta) {
    && t.tip == delta.fromTip && delta.toTip.Some?
    && (delta.fromTip.Some? ==>
          && delta.toTip.value.height == delta.fromTip.value.height + 1
          && delta.toTip.value.hash != delta.fromTip.value.hash)
  }

  predicate Covered(identity: StoreIdentity, delta: StateDelta) {
    match identity.coverage
    case Exact(nameId) => forall i :: 0 <= i < |delta.heads| ==> delta.heads[i].0 == nameId
    case _ => true
  }

  /** Whatever the tables hold, a delta is accepted exactly when all of this is so. */
  ghost predicate DeltaFits(rules: Rules, identity: StoreIdentity, t: Tables, delta: StateDelta) {
    && Continues(t, delta) && Covered(identity, delta) && delta.toTip.value.height !in t.journal
    && HeadsFit(rules, identity.network, t.heads, HeightOf(delta.fromTip), delta.toTip.value.height, delta.heads)
    && CommitsFit(t.commits, delta.commits)
  }

  /** What an accepted delta makes of the tables: its rows, one new rollback block, the tip, and nothing else. */
  ghost predicate DeltaWritten(t: Tables, delta: StateDelta, t': Tables) {
    && delta.toTip.Some? && t'.tip == delta.toTip
    && t'.journal.Keys == t.journal.Keys + {delta.toTip.value.height}
    && (forall h :: h in t.journal && h != delta.toTip.value.height ==>
          h in t'.journal && t'.journal[h] == t.journal[h])
    && (var row := t'.journal[delta.toTip.value.height];
        && row.hash == delta.toTip.value.hash && row.previousTip == t.tip
        && HeadsChanged(t.heads, delta.heads, t'.heads, row.heads)
        && CommitsChanged(t.commits, delta.commits, t'.commits, row.commits))
    && t'.walletCommits == t.walletCommits && t'.finalizedHeight == t.finalizedHeight
    && t'.coreSnapshot == t.coreSnapshot
  }

  lemma DeltaAcceptedIff(rules: Rules, identity: StoreIdentity, t: Tables, delta: StateDelta)
    ensures StoreApply(rules, identity, t, delta).Ok? <==> DeltaFits(rules, identity, t, delta)
    ensures StoreApply(rules, identity, t, delta).Ok? ==>
      DeltaWritten(t, delta, StoreApply(rules, identity, t, delta).value)
  {
    hide WriteHeadChanges, WriteCommitChanges, HeadsFit, CommitsFit, HeadsChanged, CommitsChanged;
    if delta.toTip.Some? {
      HeadsWrittenIff(rules, identity.network, t.heads, HeightOf(delta.fromTip), delta.toTip.value.height, delta.heads);
      CommitsWrittenIff(t.commits, delta.commits);
    }
  }

  /** A delta that does not start at the tip, does not lead one further, or names a foreign head is refused as such. */
  lemma MisfitDelta(rules: Rules, identity: StoreIdentity, t: Tables, delta: StateDelta)
    requires !Continues(t, delta) || !Covered(identity, delta) || delta.toTip.value.height in t.journal
    ensures StoreApply(rules, identity, t, delta)
            == Err(if t.tip != delta.fromTip then TipMismatch
                   else if !Continues(t, delta) then NonSequentialDelta
                   else if !Covered(identity, delta) then CoverageViolation
                   else ConstraintViolation)
  {
    hide WriteHeadChanges, WriteCommitChanges;
  }

  /** A delta that fits the tip is refused for its first head change that does not fit its row. */
  lemma HeadChangeRefused(rules: Rules, identity: StoreIdentity, t: Tables, delta: StateDelta, i: nat)
    requires Continues(t, delta) && Covered(identity, delta) && delta.toTip.value.height !in t.journal
    requires i < |delta.heads| && delta.heads[i].0 !in KeysIn(delta.heads[..i])
    requires HeadsFit(rules, identity.network, t.heads, HeightOf(delta.fromTip), delta.toTip.value.height,
                      delta.heads[..i])
    requires !HeadFits(rules, identity.network, t.heads, HeightOf(delta.fromTip), delta.toTip.value.height,
                       delta.heads[i].0, delta.heads[i].1)
    ensures
      var (id, change) := delta.heads[i];
      StoreApply(rules, identity, t, delta)
      == Err(if GoodHead(rules, identity.network, id, change.previous, HeightOf(delta.fromTip))
                && GoodHead(rules, identity.network, id, change.current, Some(delta.toTip.value.height))
             then AuthoritativeRecordMismatch else InvalidStoredRecord)
  {
    hide WriteHeadChanges, WriteCommitChanges, HeadsFit, HeadFits, GoodHead;
    FirstBadHead(rules, identity.network, t.heads, HeightOf(delta.fromTip), delta.toTip.value.height, delta.heads, i);
  }

  /** And then for its first COMMIT change whose previous value is not the row's. */
  lemma CommitChangeRefused(rules: Rules, identity: StoreIdentity, t: Tables, delta: StateDelta, i: nat)
    requires Continues(t, delta) && Covered(identity, delta) && delta.toTip.value.height !in t.journal
    requires HeadsFit(rules, identity.network, t.heads, HeightOf(delta.fromTip), delta.toTip.value.height, delta.heads)
    requires i < |delta.commits| && delta.commits[i].0 !in KeysIn(delta.commits[..i])
    requires CommitsFit(t.commits, delta.commits[..i])
    requires Lookup(t.commits, delta.commits[i].0) != delta.commits[i].1.previous
    ensures StoreApply(rules, identity, t, delta) == Err(AuthoritativeRecordMismatch)
  {
    hide WriteHeadChanges, WriteCommitChanges, HeadsFit, CommitsFit, HeadsChanged;
    HeadsWrittenIff(rules, identity.network, t.heads, HeightOf(delta.fromTip), delta.toTip.value.height, delta.heads);
    FirstBadCommit(t.commits, delta.commits, i);
  }

  // ---- rollback and finalization ----

  /** A rollback writes back exactly the tip's rollback block, and only under the tip's hash. */
  lemma RollbackAcceptedIff(rules: Rules, identity: StoreIdentity, t: Tables, expectedHash: Bytes32)
    ensures
      var r := StoreRollback(rules, identity, t, expectedHash);
      && (t.tip.None? ==> r == Err(MissingRollbackJournal))
      && (t.tip.Some? && t.tip.value.hash != expectedHash ==> r == Err(StoreError.WrongTipHash))
      && (t.tip.Some? && t.tip.value.hash == expectedHash ==>
            if t.tip.value.height !in t.journal || t.journal[t.tip.value.height].hash != expectedHash
            then r == Err(MissingRollbackJournal)
            else
              var row := t.journal[t.tip.value.height];
              if exists id :: id in row.heads
                              && !ValidOptional(rules, identity.network, id, row.heads[id], HeightOf(row.previousTip))
              then r == Err(InvalidStoredRecord)
              else RowWrittenBack(t, row, r))
  {
    hide ValidOptional;
  }

  /** The rows the block saved are back, the others as they were, the block is gone and the tip is the one before. */
  ghost predicate RowWrittenBack(t: Tables, row: JournalRow, r: Result<Tables, StoreError>) {
    && t.tip.Some? && r.Ok? && r.value.tip == row.previousTip
    && (forall id :: Lookup(r.value.heads, id) == if id in row.heads then row.heads[id] else Lookup(t.heads, id))
    && (forall c :: Lookup(r.value.commits, c) == if c in row.commits then row.commits[c] else Lookup(t.commits, c))
    && r.value.journal == t.journal - {t.tip.value.height}
    && r.value.walletCommits == t.walletCommits && r.value.finalizedHeight == t.finalizedHeight
    && r.value.coreSnapshot == t.coreSnapshot
  }

  /** Finalization is accepted exactly up to the safe minimum below the tip, and prunes and records just that height. */
  lemma FinalizationAcceptedIff(identity: StoreIdentity, t: Tables, height: u32)
    ensures
      var r := StoreFinalize(identity, t, height);
      && (r.Ok? <==> t.tip.Some? && height + identity.minimumRollbackBlocks <= t.tip.value.height)
      && (r.Err? ==> r == Err(if t.tip.None? || height > t.tip.value.height then FinalizationBeyondTip
                              else InsufficientRollbackRetention))
      && (r.Ok? ==>
            && r.value == t.(journal := r.value.journal, finalizedHeight := r.value.finalizedHeight)
            && (forall h :: h in r.value.journal <==> h in t.journal && h > height)
            && (forall h :: h in r.value.journal ==> r.value.journal[h] == t.journal[h])
            && r.value.finalizedHeight.Some? && r.value.finalizedHeight.value >= height
            && (t.finalizedHeight.Some? ==> r.value.finalizedHeight.value >= t.finalizedHeight.value)
            && (r.value.finalizedHeight == Some(height) || r.value.finalizedHeight == t.finalizedHeight))
  {
  }

  /** A reset empties everything replay can rebuild and keeps the wallet's own COMMITs. */
  lemma ResetKeepsWallet(t: Tables)
    ensures Cleared(t) == Tables(map[], map[], t.walletCommits, map[], None, None, None)
  {
  }
}
