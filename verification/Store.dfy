/**
 The persistent mirror: one row per head and per pending COMMIT, a rollback journal, and the tip.
 It is fed the reducer's record deltas and keeps its own rows for undoing them.
 */
module Store {
  import opened Collections
  import opened Protocol
  import opened Replay
  import opened Journal
  import opened Snapshots

  datatype Coverage = Complete | Exact(nameId: NameId) | Owned

  datatype StoreIdentity = StoreIdentity(network: Network, coverage: Coverage, minimumRollbackBlocks: u32)

  datatype StoreError =
    | ConstraintViolation | CoverageViolation | TipMismatch | NonSequentialDelta
    | AuthoritativeRecordMismatch | MissingRollbackJournal | WrongTipHash | FinalizationBeyondTip
    | InsufficientRollbackRetention | InvalidStoredRecord

  type HeadRecord = StoredHead

  /** One rollback block with its child rows, which the database deletes together with it. */
  datatype JournalRow = JournalRow(
    hash: Bytes32, previousTip: Option<Tip>, heads: map<NameId, Option<HeadRecord>>,
    commits: map<CommitRef, Option<Commitment>>)

  datatype Tables = Tables(
    heads: map<NameId, HeadRecord>, commits: map<CommitRef, Commitment>,
    walletCommits: map<Commitment, CommitRef>, journal: map<u32, JournalRow>, tip: Option<Tip>,
    finalizedHeight: Option<u32>, coreSnapshot: Option<seq<byte>>)

  // ---- what each operation does to the tables ----

  function HeightOf(tip: Option<Tip>): Option<u32> {
    if tip.Some? then Some(tip.value.height) else None
  }

  predicate ValidRecord(rules: Rules, network: Network, id: NameId, record: HeadRecord, tipHeight: Option<u32>) {
    && ParseName(record.name).Some? && rules.nameId(ParseName(record.name).value) == Some(id)
    && 0 < |record.ua| <= MAX_UA_BYTES && rules.uaOn(network, record.ua)
    && record.producer.height <= record.expiryHeight
    && (record.terminalHeight.Some? ==> record.producer.height <= record.terminalHeight.value)
    && (tipHeight.Some? ==>
          && record.producer.height <= tipHeight.value
          && (record.terminalHeight.Some? ==> record.terminalHeight.value <= tipHeight.value))
  }

  predicate ValidOptional(rules: Rules, network: Network, id: NameId, record: Option<HeadRecord>,
                          tipHeight: Option<u32>)
  {
    record.Some? ==> ValidRecord(rules, network, id, record.value, tipHeight)
  }

  /** Head rows being rewritten by a delta, with the rollback rows written so far. */
  datatype HeadRows = HeadRows(rows: map<NameId, HeadRecord>, undo: map<NameId, Option<HeadRecord>>)

  function WriteHeadChange(rules: Rules, network: Network, t: HeadRows, from: Option<u32>, to: u32,
                           id: NameId, change: Change<Head>): Result<HeadRows, StoreError> {
    var previous, current := StorePrevious(change.previous), StorePrevious(change.current);
    if !ValidOptional(rules, network, id, previous, from) then Err(InvalidStoredRecord)
    else if !ValidOptional(rules, network, id, current, Some(to)) then Err(InvalidStoredRecord)
    else if Lookup(t.rows, id) != previous then Err(AuthoritativeRecordMismatch)
    else if id in t.undo then Err(ConstraintViolation)
    else Ok(HeadRows(Put(t.rows, id, current), t.undo[id := previous]))
  }

  function WriteHeadChanges(rules: Rules, network: Network, t: HeadRows, from: Option<u32>, to: u32,
                            changes: seq<(NameId, Change<Head>)>): Result<HeadRows, StoreError> {
    if changes == [] then Ok(t)
    else
      var front, last := WriteHeadChanges(rules, network, t, from, to, changes[..|changes| - 1]),
          changes[|changes| - 1];
      if front.Err? then front else WriteHeadChange(rules, network, front.value, from, to, last.0, last.1)
  }

  datatype CommitRows = CommitRows(rows: map<CommitRef, Commitment>, undo: map<CommitRef, Option<Commitment>>)

  function WriteCommitChange(t: CommitRows, r: CommitRef, change: Change<Commitment>): Result<CommitRows, StoreError> {
    if Lookup(t.rows, r) != change.previous then Err(AuthoritativeRecordMismatch)
    else if r in t.undo then Err(ConstraintViolation)
    else Ok(CommitRows(Put(t.rows, r, change.current), t.undo[r := change.previous]))
  }

  function WriteCommitChanges(t: CommitRows, changes: seq<(CommitRef, Change<Commitment>)>)
    : Result<CommitRows, StoreError>
  {
    if changes == [] then Ok(t)
    else
      var front, last := WriteCommitChanges(t, changes[..|changes| - 1]), changes[|changes| - 1];
      if front.Err? then front else WriteCommitChange(front.value, last.0, last.1)
  }

  predicate CoverageAdmits(coverage: Coverage, delta: StateDelta) {
    coverage.Exact? ==> forall i :: 0 <= i < |delta.heads| ==> delta.heads[i].0 == coverage.nameId
  }

  predicate Sequential(from: Option<Tip>, to: Tip) {
    from.Some? ==> CheckedAdd(from.value.height, 1) == Some(to.height) && from.value.hash != to.hash
  }

  function StoreApply(rules: Rules, identity: StoreIdentity, t: Tables, delta: StateDelta): Result<Tables, StoreError> {
    if t.tip != delta.fromTip then Err(TipMismatch)
    else if delta.toTip.None? then Err(NonSequentialDelta)
    else
      var to := delta.toTip.value;
      if !Sequential(delta.fromTip, to) then Err(NonSequentialDelta)
      else if !CoverageAdmits(identity.coverage, delta) then Err(CoverageViolation)
      else if to.height in t.journal then Err(ConstraintViolation)
      else
        var heads := WriteHeadChanges(rules, identity.network, HeadRows(t.heads, map[]),
                                      HeightOf(delta.fromTip), to.height, delta.heads);
        var commits := WriteCommitChanges(CommitRows(t.commits, map[]), delta.commits);
        if heads.Err? then Err(heads.error)
        else if commits.Err? then Err(commits.error)
        else Ok(t.(heads := heads.value.rows, commits := commits.value.rows, tip := Some(to),
                   journal := t.journal[to.height :=
                     JournalRow(to.hash, delta.fromTip, heads.value.undo, commits.value.undo)]))
  }

  /** The tip's journal row written back and removed. */
  function StoreRollback(rules: Rules, identity: StoreIdentity, t: Tables, expectedHash: Bytes32)
    : Result<Tables, StoreError>
  {
    if t.tip.None? then Err(MissingRollbackJournal)
    else if t.tip.value.hash != expectedHash then Err(StoreError.WrongTipHash)
    else
      var tip := t.tip.value;
      if tip.height !in t.journal || t.journal[tip.height].hash != tip.hash then Err(MissingRollbackJournal)
      else
        var row := t.journal[tip.height];
        if exists id :: id in row.heads
                        && !ValidOptional(rules, identity.network, id, row.heads[id], HeightOf(row.previousTip))
        then Err(InvalidStoredRecord)
        else Ok(t.(heads := Overwrite(t.heads, row.heads), commits := Overwrite(t.commits, row.commits),
                   journal := t.journal - {tip.height}, tip := row.previousTip))
  }

  function StoreFinalize(identity: StoreIdentity, t: Tables, height: u32): Result<Tables, StoreError> {
    if t.tip.None? || height > t.tip.value.height then Err(FinalizationBeyondTip)
    else if t.tip.value.height < identity.minimumRollbackBlocks then Err(InsufficientRollbackRetention)
    else if height > t.tip.value.height - identity.minimumRollbackBlocks then Err(InsufficientRollbackRetention)
    else Ok(t.(journal := map h | h in t.journal && h > height :: t.journal[h],
               finalizedHeight := if t.finalizedHeight.None? || t.finalizedHeight.value < height
                                  then Some(height) else t.finalizedHeight))
  }

  /** One rollback after another while the tip is above the height. */
  function Unwind(rules: Rules, identity: StoreIdentity, t: Tables, height: u32): Result<Tables, StoreError>
    decreases |t.journal|
  {
    if t.tip.None? || t.tip.value.height <= height then Ok(t)
    else
      var next := StoreRollback(rules, identity, t, t.tip.value.hash);
      if next.Err? then next
      else
        assert t.journal.Keys == next.value.journal.Keys + {t.tip.value.height};
        assert |t.journal.Keys| == |next.value.journal.Keys| + 1;
        Unwind(rules, identity, next.value, height)
  }

  function StoreRewind(rules: Rules, identity: StoreIdentity, t: Tables, height: u32): Result<Tables, StoreError> {
    var r := Unwind(rules, identity, t, height);
    if r.Ok? && r.value.tip != t.tip then Ok(r.value.(coreSnapshot := None)) else r
  }

  function Cleared(t: Tables): Tables {
    t.(heads := map[], commits := map[], journal := map[], tip := None, finalizedHeight := None, coreSnapshot := None)
  }

  function DropWalletCommits(t: Tables, height: u32): Tables {
    t.(walletCommits := map c | c in t.walletCommits && t.walletCommits[c].height <= height :: t.walletCommits[c])
  }

  function StoreRewindOrReset(rules: Rules, identity: StoreIdentity, t: Tables, height: u32)
    : Result<Tables, StoreError>
  {
    match StoreRewind(rules, identity, t, height)
    case Ok(next) => Ok(DropWalletCommits(next, height))
    case Err(MissingRollbackJournal) => Ok(DropWalletCommits(Cleared(t), height))
    case Err(e) => Err(e)
  }

  // ---- the tables as they are written ----

  lemma {:induction false} HeadErrorSticks(rules: Rules, network: Network, t: HeadRows, from: Option<u32>, to: u32,
                                           changes: seq<(NameId, Change<Head>)>, k: nat)
    requires k <= |changes| && WriteHeadChanges(rules, network, t, from, to, changes[..k]).Err?
    ensures WriteHeadChanges(rules, network, t, from, to, changes)
            == WriteHeadChanges(rules, network, t, from, to, changes[..k])
    decreases |changes| - k
  {
    if k == |changes| {
      assert changes[..k] == changes;
    } else {
      assert changes[..k + 1][..k] == changes[..k];
      HeadErrorSticks(rules, network, t, from, to, changes, k + 1);
    }
  }

  lemma {:induction false} CommitErrorSticks(t: CommitRows, changes: seq<(CommitRef, Change<Commitment>)>, k: nat)
    requires k <= |changes| && WriteCommitChanges(t, changes[..k]).Err?
    ensures WriteCommitChanges(t, changes) == WriteCommitChanges(t, changes[..k])
    decreases |changes| - k
  {
    if k == |changes| {
      assert changes[..k] == changes;
    } else {
      assert changes[..k + 1][..k] == changes[..k];
      CommitErrorSticks(t, changes, k + 1);
    }
  }

  class NamesTables {
    const rules: Rules
    const identity: StoreIdentity
    var heads: map<NameId, HeadRecord>
    var commits: map<CommitRef, Commitment>
    var walletCommits: map<Commitment, CommitRef>
    var journal: map<u32, JournalRow>
    var tip: Option<Tip>
    var finalizedHeight: Option<u32>
    var coreSnapshot: Option<seq<byte>>

    ghost function Now(): Tables
      reads this
    {
      Tables(heads, commits, walletCommits, journal, tip, finalizedHeight, coreSnapshot)
    }

    constructor (rules: Rules, identity: StoreIdentity)
      ensures this.rules == rules && this.identity == identity
      ensures Now() == Tables(map[], map[], map[], map[], None, None, None)
    {
      this.rules, this.identity := rules, identity;
      heads, commits, walletCommits, journal := map[], map[], map[], map[];
      tip, finalizedHeight, coreSnapshot := None, None, None;
    }

    method WriteHead(id: NameId, record: Option<HeadRecord>)
      modifies `heads
      ensures heads == Put(old(heads), id, record)
    {
      heads := heads - {id};
      if record.Some? {
        heads := heads[id := record.value];
      }
    }

    method WriteCommit(r: CommitRef, commitment: Option<Commitment>)
      modifies `commits
      ensures commits == Put(old(commits), r, commitment)
    {
      commits := commits - {r};
      if commitment.Some? {
        commits := commits[r := commitment.value];
      }
    }

    method ApplyHeadChange(from: Option<u32>, to: u32, id: NameId, change: Change<Head>,
                           undo: map<NameId, Option<HeadRecord>>)
      returns (r: Result<map<NameId, Option<HeadRecord>>, StoreError>)
      modifies `heads
      ensures
        match WriteHeadChange(rules, identity.network, HeadRows(old(heads), undo), from, to, id, change) {
          case Err(e) => r == Err(e)
          case Ok(t) => r == Ok(t.undo) && heads == t.rows
        }
    {
      hide ValidRecord;
      var previous, current := StorePrevious(change.previous), StorePrevious(change.current);
      if previous.Some? && !ValidRecord(rules, identity.network, id, previous.value, from) {
        return Err(InvalidStoredRecord);
      }
      if current.Some? && !ValidRecord(rules, identity.network, id, current.value, Some(to)) {
        return Err(InvalidStoredRecord);
      }
      if Lookup(heads, id) != previous {
        return Err(AuthoritativeRecordMismatch);
      }
      if id in undo {
        return Err(ConstraintViolation);
      }
      WriteHead(id, current);
      return Ok(undo[id := previous]);
    }

    method ApplyHeadChanges(from: Option<u32>, to: u32, changes: seq<(NameId, Change<Head>)>)
      returns (r: Result<map<NameId, Option<HeadRecord>>, StoreError>)
      modifies `heads
      ensures
        match WriteHeadChanges(rules, identity.network, HeadRows(old(heads), map[]), from, to, changes) {
          case Err(e) => r == Err(e)
          case Ok(t) => r == Ok(t.undo) && heads == t.rows
        }
    {
      hide WriteHeadChange;
      ghost var start := HeadRows(heads, map[]);
      var undo: map<NameId, Option<HeadRecord>> := map[];
      for i := 0 to |changes|
        invariant WriteHeadChanges(rules, identity.network, start, from, to, changes[..i]) == Ok(HeadRows(heads, undo))
      {
        assert changes[..i + 1][..i] == changes[..i];
        var step := ApplyHeadChange(from, to, changes[i].0, changes[i].1, undo);
        if step.Err? {
          HeadErrorSticks(rules, identity.network, start, from, to, changes, i + 1);
          return Err(step.error);
        }
        undo := step.value;
      }
      assert changes[..|changes|] == changes;
      return Ok(undo);
    }

    method ApplyCommitChanges(changes: seq<(CommitRef, Change<Commitment>)>)
      returns (r: Result<map<CommitRef, Option<Commitment>>, StoreError>)
      modifies `commits
      ensures
        match WriteCommitChanges(CommitRows(old(commits), map[]), changes) {
          case Err(e) => r == Err(e)
          case Ok(t) => r == Ok(t.undo) && commits == t.rows
        }
    {
      ghost var start := CommitRows(commits, map[]);
      var undo: map<CommitRef, Option<Commitment>> := map[];
      for i := 0 to |changes|
        invariant WriteCommitChanges(start, changes[..i]) == Ok(CommitRows(commits, undo))
      {
        assert changes[..i + 1][..i] == changes[..i];
        var reference, change := changes[i].0, changes[i].1;
        if Lookup(commits, reference) != change.previous {
          CommitErrorSticks(start, changes, i + 1);
          return Err(AuthoritativeRecordMismatch);
        }
        if reference in undo {
          CommitErrorSticks(start, changes, i + 1);
          return Err(ConstraintViolation);
        }
        undo := undo[reference := change.previous];
        WriteCommit(reference, change.current);
      }
      assert changes[..|changes|] == changes;
      return Ok(undo);
    }

    /** Writes one delta; after an error the enclosing database transaction discards what was written. */
    method ApplyDelta(delta: StateDelta) returns (r: Result<(), StoreError>)
      modifies this
      ensures
        match StoreApply(rules, identity, old(Now()), delta) {
          case Err(e) => r == Err(e)
          case Ok(t) => r == Ok(()) && Now() == t
        }
    {
      hide WriteHeadChanges, WriteCommitChanges;
      if tip != delta.fromTip {
        return Err(TipMismatch);
      }
      if delta.toTip.None? {
        return Err(NonSequentialDelta);
      }
      var to := delta.toTip.value;
      if !Sequential(delta.fromTip, to) {
        return Err(NonSequentialDelta);
      }
      if && identity.coverage.Exact?
         && exists i :: 0 <= i < |delta.heads| && delta.heads[i].0 != identity.coverage.nameId
      {
        return Err(CoverageViolation);
      }
      if to.height in journal {
        return Err(ConstraintViolation);
      }
      var headUndo := ApplyHeadChanges(HeightOf(delta.fromTip), to.height, delta.heads);
      if headUndo.Err? {
        return Err(headUndo.error);
      }
      var commitUndo := ApplyCommitChanges(delta.commits);
      if commitUndo.Err? {
        return Err(commitUndo.error);
      }
      journal := journal[to.height := JournalRow(to.hash, delta.fromTip, headUndo.value, commitUndo.value)];
      tip := Some(to);
      return Ok(());
    }

    /** Rolls the tip back by reading all of its rollback rows and writing them in one batch. */
    method RollbackTip(expectedHash: Bytes32) returns (r: Result<Option<Tip>, StoreError>)
      modifies this
      ensures
        match StoreRollback(rules, identity, old(Now()), expectedHash) {
          case Err(e) => r == Err(e)
          case Ok(t) => r == Ok(t.tip) && Now() == t
        }
    {
      hide Overwrite, ValidRecord;
      if tip.None? {
        return Err(MissingRollbackJournal);
      }
      if tip.value.hash != expectedHash {
        return Err(StoreError.WrongTipHash);
      }
      var height := tip.value.height;
      if height !in journal || journal[height].hash != expectedHash {
        return Err(MissingRollbackJournal);
      }
      var row := journal[height];
      var todo := row.heads.Keys;
      OverwriteNone(heads, row.heads);
      while todo != {}
        invariant todo <= row.heads.Keys
        invariant heads == Overwrite(old(heads), row.heads - todo)
        invariant forall id :: id in row.heads && id !in todo ==>
          ValidOptional(rules, identity.network, id, row.heads[id], HeightOf(row.previousTip))
        invariant Now() == old(Now()).(heads := heads)
        decreases todo
      {
        var id :| id in todo;
        var previous := row.heads[id];
        if previous.Some? && !ValidRecord(rules, identity.network, id, previous.value, HeightOf(row.previousTip)) {
          return Err(InvalidStoredRecord);
        }
        OverwriteOneMore(old(heads), row.heads, todo, id);
        todo := todo - {id};
        WriteHead(id, previous);
      }
      var refs := row.commits.Keys;
      OverwriteNone(commits, row.commits);
      while refs != {}
        invariant refs <= row.commits.Keys
        invariant commits == Overwrite(old(commits), row.commits - refs)
        invariant Now() == old(Now()).(heads := heads, commits := commits)
        invariant heads == Overwrite(old(heads), row.heads)
        decreases refs
      {
        var reference :| reference in refs;
        OverwriteOneMore(old(commits), row.commits, refs, reference);
        refs := refs - {reference};
        WriteCommit(reference, row.commits[reference]);
      }
      journal := journal - {height};
      tip := row.previousTip;
      return Ok(tip);
    }

    /** Writes back the head rows of one rollback block, deleting each as it goes. */
    method RestoreHeadRows(height: u32) returns (ok: bool)
      requires height in journal
      modifies `heads, `journal
      ensures
        var row := old(journal)[height];
        && ok == (forall id :: id in row.heads ==>
                    ValidOptional(rules, identity.network, id, row.heads[id], HeightOf(row.previousTip)))
        && (ok ==> heads == Overwrite(old(heads), row.heads)
                   && journal == old(journal)[height := row.(heads := map[])])
    {
      hide Overwrite, ValidRecord;
      ghost var was := journal[height];
      OverwriteNone(heads, was.heads);
      while journal[height].heads != map[]
        invariant height in journal && journal[height].heads.Keys <= was.heads.Keys
        invariant journal == old(journal)[height := was.(heads := journal[height].heads)]
        invariant forall id :: id in journal[height].heads ==> journal[height].heads[id] == was.heads[id]
        invariant heads == Overwrite(old(heads), was.heads - journal[height].heads.Keys)
        invariant forall id :: id in was.heads && id !in journal[height].heads ==>
          ValidOptional(rules, identity.network, id, was.heads[id], HeightOf(was.previousTip))
        decreases journal[height].heads.Keys
      {
        var row := journal[height];
        assert row.heads.Keys != {};
        var id :| id in row.heads;
        var previous := row.heads[id];
        if previous.Some? && !ValidRecord(rules, identity.network, id, previous.value, HeightOf(row.previousTip)) {
          return false;
        }
        OverwriteOneMore(old(heads), was.heads, row.heads.Keys, id);
        WriteHead(id, previous);
        journal := journal[height := row.(heads := row.heads - {id})];
        assert journal[height].heads.Keys == row.heads.Keys - {id};
      }
      assert was.heads - journal[height].heads.Keys == was.heads;
      return true;
    }

    /** Writes back the COMMIT rows of one rollback block, deleting each as it goes. */
    method RestoreCommitRows(height: u32)
      requires height in journal
      modifies `commits, `journal
      ensures
        var row := old(journal)[height];
        && commits == Overwrite(old(commits), row.commits)
        && journal == old(journal)[height := row.(commits := map[])]
    {
      hide Overwrite;
      ghost var was := journal[height];
      OverwriteNone(commits, was.commits);
      while journal[height].commits != map[]
        invariant height in journal && journal[height].commits.Keys <= was.commits.Keys
        invariant journal == old(journal)[height := was.(commits := journal[height].commits)]
        invariant forall c :: c in journal[height].commits ==> journal[height].commits[c] == was.commits[c]
        invariant commits == Overwrite(old(commits), was.commits - journal[height].commits.Keys)
        decreases journal[height].commits.Keys
      {
        var row := journal[height];
        assert row.commits.Keys != {};
        var reference :| reference in row.commits;
        OverwriteOneMore(old(commits), was.commits, row.commits.Keys, reference);
        WriteCommit(reference, row.commits[reference]);
        journal := journal[height := row.(commits := row.commits - {reference})];
        assert journal[height].commits.Keys == row.commits.Keys - {reference};
      }
      assert was.commits - journal[height].commits.Keys == was.commits;
    }

    /** Rolls the tip back one rollback row at a time, deleting each row as it is written back. */
    method RollbackTipByRows() returns (r: Result<Option<Tip>, StoreError>)
      modifies this
      ensures walletCommits == old(walletCommits)
      ensures
        var was := old(Now());
        match StoreRollback(rules, identity, was, if was.tip.Some? then was.tip.value.hash else 0) {
          case Err(e) => r == Err(e)
          case Ok(t) => r == Ok(t.tip) && Now() == t
        }
    {
      hide Overwrite, ValidOptional;
      if tip.None? {
        return Err(MissingRollbackJournal);
      }
      var height := tip.value.height;
      if height !in journal || journal[height].hash != tip.value.hash {
        return Err(MissingRollbackJournal);
      }
      var previousTip := journal[height].previousTip;
      var ok := RestoreHeadRows(height);
      if !ok {
        return Err(InvalidStoredRecord);
      }
      RestoreCommitRows(height);
      journal := journal - {height};
      assert journal == old(journal) - {height};
      tip := previousTip;
      return Ok(previousTip);
    }

    method FinalizeThrough(height: u32) returns (r: Result<(), StoreError>)
      modifies this
      ensures
        match StoreFinalize(identity, old(Now()), height) {
          case Err(e) => r == Err(e) && Now() == old(Now())
          case Ok(t) => r == Ok(()) && Now() == t
        }
    {
      if tip.None? || height > tip.value.height {
        return Err(FinalizationBeyondTip);
      }
      if tip.value.height < identity.minimumRollbackBlocks {
        return Err(InsufficientRollbackRetention);
      }
      var latestSafe := tip.value.height - identity.minimumRollbackBlocks;
      if height > latestSafe {
        return Err(InsufficientRollbackRetention);
      }
      journal := map h | h in journal && h > height :: journal[h];
      if finalizedHeight.None? || finalizedHeight.value < height {
        finalizedHeight := Some(height);
      }
      return Ok(());
    }

    method ResetForReplay()
      modifies this
      ensures Now() == Cleared(old(Now()))
    {
      journal := map[];
      commits := map[];
      heads := map[];
      tip, finalizedHeight, coreSnapshot := None, None, None;
    }

    method RecordWalletCommit(commitment: Commitment, reference: CommitRef) returns (r: Result<(), StoreError>)
      modifies `walletCommits
      ensures commitment in old(walletCommits) && old(walletCommits)[commitment] != reference ==>
        r == Err(AuthoritativeRecordMismatch) && walletCommits == old(walletCommits)
      ensures !(commitment in old(walletCommits) && old(walletCommits)[commitment] != reference) ==>
        r == Ok(()) && walletCommits == old(walletCommits)[commitment := reference]
    {
      if commitment in walletCommits {
        if walletCommits[commitment] != reference {
          return Err(AuthoritativeRecordMismatch);
        }
        return Ok(());
      }
      walletCommits := walletCommits[commitment := reference];
      return Ok(());
    }

    method RollbackToHeight(height: u32) returns (r: Result<Option<Tip>, StoreError>)
      modifies this
      ensures walletCommits == old(walletCommits)
      ensures
        match StoreRewind(rules, identity, old(Now()), height) {
          case Err(e) => r == Err(e)
          case Ok(t) => r == Ok(t.tip) && Now() == t
        }
    {
      hide StoreRollback;
      var originalTip := tip;
      while tip.Some? && tip.value.height > height
        invariant walletCommits == old(walletCommits)
        invariant Unwind(rules, identity, Now(), height) == Unwind(rules, identity, old(Now()), height)
        decreases |journal|
      {
        ghost var before := Now();
        var step := RollbackTipByRows();
        if step.Err? {
          return Err(step.error);
        }
        RollbackShortens(rules, identity, before, before.tip.value.hash);
      }
      if tip != originalTip {
        coreSnapshot := None;
      }
      return Ok(tip);
    }

    /** Rewinds while the journal suffices; a deeper rewind discards the replayable view instead. */
    method RollbackToHeightOrReset(height: u32) returns (r: Result<Option<Tip>, StoreError>)
      modifies this
      ensures
        match StoreRewindOrReset(rules, identity, old(Now()), height) {
          case Err(e) => r == Err(e)
          case Ok(t) => r == Ok(t.tip) && Now() == t
        }
    {
      hide StoreRewind;
      var result := RollbackToHeight(height);
      match result {
        case Ok(_) =>
        case Err(MissingRollbackJournal) =>
          ResetForReplay();
          result := Ok(None);
        case Err(e) =>
          return Err(e);
      }
      walletCommits := map c | c in walletCommits && walletCommits[c].height <= height :: walletCommits[c];
      return result;
    }
  }

  lemma RollbackShortens(rules: Rules, identity: StoreIdentity, t: Tables, hash: Bytes32)
    ensures
      var next := StoreRollback(rules, identity, t, hash);
      next.Ok? ==> |next.value.journal| + 1 == |t.journal|
  {
    if StoreRollback(rules, identity, t, hash).Ok? {
      var next := StoreRollback(rules, identity, t, hash).value;
      assert t.journal.Keys == next.journal.Keys + {t.tip.value.height};
    }
  }
}
