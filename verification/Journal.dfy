/**
 The rollback journal: what a block records so that it can be undone, what rollback and
 finalization do with it, and the simple machine that interleaving them refines, namely
 the surviving chain of blocks together with how many of them can still be rolled back.
 */
module Journal {
  import opened Collections
  import opened Protocol
  import opened Replay

  datatype Undo = Undo(
    height: u32, hash: Bytes32, previousHash: Bytes32, previousNextHeight: Option<u32>,
    previousTipHeight: Option<u32>, commits: map<CommitRef, Option<Commitment>>,
    heads: map<NameId, Option<Head>>)

  datatype RollbackError = NoAppliedBlock | BeyondRetention | WrongTipHash
  datatype FinalizationError = BeyondTip

  datatype Core = Core(world: World, history: seq<Undo>)

  function UndoFor(rules: Rules, w: World, link: Link): Undo
    requires rules.parameters.epochBlocks > 0
  {
    Undo(link.block.height, link.block.hash, w.previousHash, w.nextHeight, w.tipHeight,
         Record(w.records.commits, BlockCommits(rules, w.records, link)),
         Record(w.records.heads, BlockHeads(rules, w.records, link)))
  }

  function CoreApply(rules: Rules, core: Core, link: Link): Result<Core, ApplyError>
    requires rules.parameters.epochBlocks > 0
  {
    if CheckLink(rules, core.world, link).Some? then Err(CheckLink(rules, core.world, link).value)
    else Ok(Core(Advance(rules, core.world, link), core.history + [UndoFor(rules, core.world, link)]))
  }

  function Reverted(w: World, undo: Undo): World {
    World(undo.previousNextHeight, undo.previousTipHeight, undo.previousHash,
          Records(Overwrite(w.records.commits, undo.commits), Overwrite(w.records.heads, undo.heads)))
  }

  function CoreRollback(core: Core, expectedHash: Bytes32): Result<Core, RollbackError> {
    if core.history == [] then Err(if core.world.tipHeight.Some? then BeyondRetention else NoAppliedBlock)
    else
      var undo := core.history[|core.history| - 1];
      if undo.hash != expectedHash || core.world.previousHash != expectedHash then Err(WrongTipHash)
      else Ok(Core(Reverted(core.world, undo), core.history[..|core.history| - 1]))
  }

  function DropThrough(history: seq<Undo>, height: u32): seq<Undo> {
    if history != [] && history[0].height <= height then DropThrough(history[1..], height) else history
  }

  function CoreFinalize(core: Core, height: u32): Result<Core, FinalizationError> {
    if core.world.tipHeight.None? || height > core.world.tipHeight.value then Err(BeyondTip)
    else Ok(core.(history := DropThrough(core.history, height)))
  }

  // ---- deltas ----

  datatype Change<+V> = Change(previous: Option<V>, current: Option<V>)

  datatype StateDelta = StateDelta(
    fromTip: Option<Tip>, toTip: Option<Tip>,
    heads: seq<(NameId, Change<Head>)>, commits: seq<(CommitRef, Change<Commitment>)>)

  function Changes<K, V>(before: map<K, V>, after: map<K, V>, ks: set<K>): map<K, Change<V>> {
    map k | k in ks :: Change(Lookup(before, k), Lookup(after, k))
  }

  /** `delta` lists, once each, the previous and current records of exactly the given keys. */
  ghost predicate IsDelta(delta: StateDelta, before: World, after: World, heads: set<NameId>, commits: set<CommitRef>) {
    && delta.fromTip == before.TipOf()
    && delta.toTip == after.TipOf()
    && Lists(delta.heads, Changes(before.records.heads, after.records.heads, heads))
    && Lists(delta.commits, Changes(before.records.commits, after.records.commits, commits))
  }

  /** The delta lists its changes in key order. */
  ghost predicate OrderedDelta(delta: StateDelta) {
    Ascends(delta.heads, NameRank) && Ascends(delta.commits, RefRank)
  }

  /** Two states and the journaled keys have one ordered delta. */
  lemma OrderedDeltaUnique(a: StateDelta, b: StateDelta, before: World, after: World,
                           heads: set<NameId>, commits: set<CommitRef>)
    requires IsDelta(a, before, after, heads, commits) && OrderedDelta(a)
    requires IsDelta(b, before, after, heads, commits) && OrderedDelta(b)
    ensures a == b
  {
    hide Lists, Ascends, Ranks, RefRank, NameRank, Changes;
    var changedHeads := Changes(before.records.heads, after.records.heads, heads);
    var changedCommits := Changes(before.records.commits, after.records.commits, commits);
    NamesRanked(changedHeads);
    RefsRanked(changedCommits);
    OrderedListingUnique(a.heads, b.heads, changedHeads, NameRank);
    OrderedListingUnique(a.commits, b.commits, changedCommits, RefRank);
  }

  function SwapAll<K, V>(s: seq<(K, Change<V>)>): seq<(K, Change<V>)> {
    seq(|s|, i requires 0 <= i < |s| => (s[i].0, Change(s[i].1.current, s[i].1.previous)))
  }

  lemma SwapLists<K, V>(s: seq<(K, Change<V>)>, before: map<K, V>, after: map<K, V>, ks: set<K>)
    requires Lists(s, Changes(before, after, ks))
    ensures Lists(SwapAll(s), Changes(after, before, ks))
  {
    var t := SwapAll(s);
    forall k | k in Changes(after, before, ks) ensures exists i :: 0 <= i < |t| && t[i].0 == k {
      assert k in Changes(before, after, ks);
      var i :| 0 <= i < |s| && s[i].0 == k;
      assert t[i].0 == k;
    }
  }

  /** Swapping every previous and current record of a forward delta gives the inverse delta. */
  lemma InverseDelta(delta: StateDelta, before: World, after: World, heads: set<NameId>, commits: set<CommitRef>)
    requires IsDelta(delta, before, after, heads, commits)
    ensures
      var inverse := StateDelta(delta.toTip, delta.fromTip, SwapAll(delta.heads), SwapAll(delta.commits));
      && IsDelta(inverse, after, before, heads, commits)
      && (OrderedDelta(delta) ==> OrderedDelta(inverse))
  {
    SwapLists(delta.heads, before.records.heads, after.records.heads, heads);
    SwapLists(delta.commits, before.records.commits, after.records.commits, commits);
  }

  /** The ordered delta of a rollback is the ordered delta of its block, swapped entry by entry. */
  lemma RollbackDelta(delta: StateDelta, back: StateDelta, before: World, after: World,
                      heads: set<NameId>, commits: set<CommitRef>)
    requires IsDelta(delta, before, after, heads, commits) && OrderedDelta(delta)
    requires IsDelta(back, after, before, heads, commits) && OrderedDelta(back)
    ensures back == StateDelta(delta.toTip, delta.fromTip, SwapAll(delta.heads), SwapAll(delta.commits))
  {
    hide IsDelta, OrderedDelta;
    var inverse := StateDelta(delta.toTip, delta.fromTip, SwapAll(delta.heads), SwapAll(delta.commits));
    InverseDelta(delta, before, after, heads, commits);
    OrderedDeltaUnique(back, inverse, after, before, heads, commits);
  }

  // ---- rollback undoes a block ----

  lemma TxConfined(rules: Rules, rec: Records, height: u32, tx: Transaction)
    requires rules.parameters.epochBlocks > 0
    ensures forall id :: id !in TxHeads(rules, rec, height, tx) ==>
      Lookup(TxRecords(rules, rec, height, tx).heads, id) == Lookup(rec.heads, id)
    ensures forall r :: r !in TxCommits(height, tx) ==>
      Lookup(TxRecords(rules, rec, height, tx).commits, r) == Lookup(rec.commits, r)
  {
  }

  lemma {:induction false} TxsConfined(rules: Rules, rec: Records, height: u32, txs: seq<Transaction>)
    requires rules.parameters.epochBlocks > 0
    ensures forall id :: id !in HeadsAfter(rules, rec, height, txs) ==>
      Lookup(RecordsAfter(rules, rec, height, txs).heads, id) == Lookup(rec.heads, id)
    ensures forall r :: r !in CommitsAfter(height, txs) ==>
      Lookup(RecordsAfter(rules, rec, height, txs).commits, r) == Lookup(rec.commits, r)
  {
    if txs != [] {
      var front := txs[..|txs| - 1];
      TxsConfined(rules, rec, height, front);
      TxConfined(rules, RecordsAfter(rules, rec, height, front), height, txs[|txs| - 1]);
    }
  }

  /** A block changes only the records it journals. */
  lemma BlockConfined(rules: Rules, rec: Records, link: Link)
    requires rules.parameters.epochBlocks > 0
    ensures forall id :: id !in BlockHeads(rules, rec, link) ==>
      Lookup(rec.heads, id) == Lookup(BlockRecords(rules, rec, link).heads, id)
    ensures forall r :: r !in BlockCommits(rules, rec, link) ==>
      Lookup(rec.commits, r) == Lookup(BlockRecords(rules, rec, link).commits, r)
  {
    var start := StartRecords(rules, rec, link);
    TxsConfined(rules, start, link.block.height, link.block.transactions);
    forall id | id !in BlockHeads(rules, rec, link) ensures Lookup(rec.heads, id) == Lookup(start.heads, id) {
      var marked := MarkExpired(rec.heads, link.block.height);
      if id in rec.heads {
        assert marked[id] == rec.heads[id];
      }
    }
    forall r | r !in BlockCommits(rules, rec, link) ensures Lookup(rec.commits, r) == Lookup(start.commits, r) {
    }
  }

  /** Rolling back an accepted block restores records, journal, tip and chain linkage. */
  lemma RollbackUndoesApply(rules: Rules, core: Core, link: Link)
    requires rules.parameters.epochBlocks > 0
    requires CoreApply(rules, core, link).Ok?
    ensures CoreRollback(CoreApply(rules, core, link).value, link.block.hash) == Ok(core)
  {
    var w := core.world;
    var after := Advance(rules, w, link);
    BlockConfined(rules, w.records, link);
    OverwriteUndoes(w.records.heads, after.records.heads, BlockHeads(rules, w.records, link));
    OverwriteUndoes(w.records.commits, after.records.commits, BlockCommits(rules, w.records, link));
    assert (core.history + [UndoFor(rules, w, link)])[..|core.history|] == core.history;
  }

  // ---- runs ----

  datatype Event =
    | ApplyEvent(link: Link)
    | RollbackEvent(expectedHash: Bytes32)
    | FinalizeEvent(height: u32)

  datatype Failure =
    | ApplyFailed(apply: ApplyError)
    | RollbackFailed(rollback: RollbackError)
    | FinalizeFailed(finalize: FinalizationError)

  datatype Step<+S> = Step(state: S, failure: Option<Failure>)

  /** One call on the journaled state; a call that fails changes nothing. */
  function CoreStep(rules: Rules, core: Core, event: Event): Step<Core>
    requires rules.parameters.epochBlocks > 0
  {
    match event
    case ApplyEvent(link) =>
      (match CoreApply(rules, core, link)
       case Ok(next) => Step(next, None)
       case Err(e) => Step(core, Some(ApplyFailed(e))))
    case RollbackEvent(hash) =>
      (match CoreRollback(core, hash)
       case Ok(next) => Step(next, None)
       case Err(e) => Step(core, Some(RollbackFailed(e))))
    case FinalizeEvent(height) =>
      (match CoreFinalize(core, height)
       case Ok(next) => Step(next, None)
       case Err(e) => Step(core, Some(FinalizeFailed(e))))
  }

  function CoreRun(rules: Rules, parent: Bytes32, events: seq<Event>): Core
    requires rules.parameters.epochBlocks > 0
  {
    if events == [] then Core(Genesis(rules, parent), [])
    else CoreStep(rules, CoreRun(rules, parent, events[..|events| - 1]), events[|events| - 1]).state
  }

  /** The surviving chain and how many of its newest blocks can still be rolled back. */
  datatype Branch = Branch(chain: seq<Link>, retained: nat)

  /** The same call on the simple machine, which only ever extends or shortens the chain. */
  function BranchStep(rules: Rules, parent: Bytes32, branch: Branch, event: Event): Step<Branch>
    requires rules.parameters.epochBlocks > 0
  {
    var chain, n := branch.chain, |branch.chain|;
    match event
    case ApplyEvent(link) =>
      (match CheckLink(rules, ReplayChain(rules, parent, chain), link)
       case None => Step(Branch(chain + [link], branch.retained + 1), None)
       case Some(e) => Step(branch, Some(ApplyFailed(e))))
    case RollbackEvent(hash) =>
      if n == 0 then Step(branch, Some(RollbackFailed(NoAppliedBlock)))
      else if branch.retained == 0 then Step(branch, Some(RollbackFailed(BeyondRetention)))
      else if chain[n - 1].block.hash != hash then Step(branch, Some(RollbackFailed(WrongTipHash)))
      else Step(Branch(chain[..n - 1], branch.retained - 1), None)
    case FinalizeEvent(height) =>
      if n == 0 || height > chain[n - 1].block.height then Step(branch, Some(FinalizeFailed(BeyondTip)))
      else
        var above := chain[n - 1].block.height - height;
        Step(Branch(chain, if above < branch.retained then above else branch.retained), None)
  }

  function BranchRun(rules: Rules, parent: Bytes32, events: seq<Event>): Branch
    requires rules.parameters.epochBlocks > 0
  {
    if events == [] then Branch([], 0)
    else BranchStep(rules, parent, BranchRun(rules, parent, events[..|events| - 1]), events[|events| - 1]).state
  }

  ghost predicate GoodBranch(rules: Rules, parent: Bytes32, branch: Branch)
    requires rules.parameters.epochBlocks > 0
  {
    ValidChain(rules, parent, branch.chain) && branch.retained <= |branch.chain|
  }

  /** The journal entry of the block at one position of the chain. */
  function EntryAt(rules: Rules, parent: Bytes32, chain: seq<Link>, i: nat): Undo
    requires rules.parameters.epochBlocks > 0 && i < |chain|
  {
    UndoFor(rules, ReplayChain(rules, parent, chain[..i]), chain[i])
  }

  function JournalOf(rules: Rules, parent: Bytes32, chain: seq<Link>, retained: nat): seq<Undo>
    requires rules.parameters.epochBlocks > 0 && retained <= |chain|
  {
    seq(retained, i requires 0 <= i < retained => EntryAt(rules, parent, chain, |chain| - retained + i))
  }

  /** The journaled state a branch stands for: a plain replay, and one entry per retained block. */
  function Meaning(rules: Rules, parent: Bytes32, branch: Branch): Core
    requires rules.parameters.epochBlocks > 0 && branch.retained <= |branch.chain|
  {
    Core(ReplayChain(rules, parent, branch.chain), JournalOf(rules, parent, branch.chain, branch.retained))
  }

  /** Heights along a valid chain are consecutive from activation. */
  lemma {:induction false} ChainHeights(rules: Rules, parent: Bytes32, chain: seq<Link>)
    requires rules.parameters.epochBlocks > 0 && ValidChain(rules, parent, chain)
    ensures forall i :: 0 <= i < |chain| ==> chain[i].block.height == rules.parameters.activationHeight + i
    ensures
      var w := ReplayChain(rules, parent, chain);
      && (chain == [] ==> w == Genesis(rules, parent))
      && (chain != [] ==>
            && w.tipHeight == Some(chain[|chain| - 1].block.height)
            && w.previousHash == chain[|chain| - 1].block.hash
            && w.nextHeight == CheckedAdd(chain[|chain| - 1].block.height, 1))
  {
    if chain != [] {
      var front := chain[..|chain| - 1];
      ChainHeights(rules, parent, front);
      forall i | 0 <= i < |chain| ensures chain[i].block.height == rules.parameters.activationHeight + i {
        if i < |front| {
          assert chain[i] == front[i];
        }
      }
    }
  }

  lemma {:induction false} PrefixValid(rules: Rules, parent: Bytes32, chain: seq<Link>, n: nat)
    requires rules.parameters.epochBlocks > 0 && ValidChain(rules, parent, chain) && n <= |chain|
    ensures ValidChain(rules, parent, chain[..n])
    ensures n < |chain| ==> CheckLink(rules, ReplayChain(rules, parent, chain[..n]), chain[n]).None?
  {
    hide CheckLink, Advance;
    if n == |chain| {
      assert chain[..n] == chain;
    } else if n < |chain| - 1 {
      var front := chain[..|chain| - 1];
      PrefixValid(rules, parent, front, n);
      assert front[..n] == chain[..n];
    }
  }

  lemma EntryFields(rules: Rules, parent: Bytes32, chain: seq<Link>, i: nat)
    requires rules.parameters.epochBlocks > 0 && i < |chain|
    ensures
      var entry, w := EntryAt(rules, parent, chain, i), ReplayChain(rules, parent, chain[..i]);
      && entry.height == chain[i].block.height && entry.hash == chain[i].block.hash
      && entry.previousHash == w.previousHash && entry.previousNextHeight == w.nextHeight
      && entry.previousTipHeight == w.tipHeight
  {
  }

  /** Entries depend only on the part of the chain up to their own block. */
  lemma EntryOfPrefix(rules: Rules, parent: Bytes32, chain: seq<Link>, longer: seq<Link>, i: nat)
    requires rules.parameters.epochBlocks > 0 && i < |chain| <= |longer| && longer[..|chain|] == chain
    ensures EntryAt(rules, parent, chain, i) == EntryAt(rules, parent, longer, i)
  {
    assert chain[..i] == longer[..i] && chain[i] == longer[i];
  }

  lemma JournalExtends(rules: Rules, parent: Bytes32, chain: seq<Link>, retained: nat, link: Link)
    requires rules.parameters.epochBlocks > 0 && retained <= |chain|
    ensures JournalOf(rules, parent, chain + [link], retained + 1)
            == JournalOf(rules, parent, chain, retained) + [UndoFor(rules, ReplayChain(rules, parent, chain), link)]
  {
    hide UndoFor, Advance;
    var longer := chain + [link];
    assert longer[..|chain|] == chain && longer[|chain|] == link;
    var was, now := JournalOf(rules, parent, chain, retained), JournalOf(rules, parent, longer, retained + 1);
    forall i | 0 <= i < retained ensures now[i] == was[i] {
      EntryOfPrefix(rules, parent, chain, longer, |chain| - retained + i);
    }
    assert now[retained] == EntryAt(rules, parent, longer, |chain|);
  }

  lemma {:induction false} DropThroughKeepsNewest(rules: Rules, parent: Bytes32, chain: seq<Link>, retained: nat,
                                                  height: u32)
    requires rules.parameters.epochBlocks > 0 && ValidChain(rules, parent, chain)
    requires chain != [] && retained <= |chain| && height <= chain[|chain| - 1].block.height
    ensures
      var above := chain[|chain| - 1].block.height - height;
      DropThrough(JournalOf(rules, parent, chain, retained), height)
      == JournalOf(rules, parent, chain, if above < retained then above else retained)
    decreases retained
  {
    hide UndoFor, Advance;
    var journal := JournalOf(rules, parent, chain, retained);
    ChainHeights(rules, parent, chain);
    if retained > 0 {
      EntryFields(rules, parent, chain, |chain| - retained);
    }
    if retained > 0 && journal[0].height <= height {
      assert journal[1..] == JournalOf(rules, parent, chain, retained - 1);
      DropThroughKeepsNewest(rules, parent, chain, retained - 1, height);
    }
  }

  /** One call acts on the journaled state exactly as on the branch it stands for. */
  ghost predicate Refines(rules: Rules, parent: Bytes32, branch: Branch, event: Event)
    requires rules.parameters.epochBlocks > 0 && GoodBranch(rules, parent, branch)
  {
    var next := BranchStep(rules, parent, branch, event);
    && GoodBranch(rules, parent, next.state)
    && CoreStep(rules, Meaning(rules, parent, branch), event) == Step(Meaning(rules, parent, next.state), next.failure)
  }

  lemma StepRefines(rules: Rules, parent: Bytes32, branch: Branch, event: Event)
    requires rules.parameters.epochBlocks > 0 && GoodBranch(rules, parent, branch)
    ensures Refines(rules, parent, branch, event)
  {
    hide Refines, GoodBranch;
    match event
    case ApplyEvent(link) => ApplyRefines(rules, parent, branch, link);
    case RollbackEvent(hash) => RollbackRefines(rules, parent, branch, hash);
    case FinalizeEvent(height) => FinalizeRefines(rules, parent, branch, height);
  }

  lemma ApplyRefines(rules: Rules, parent: Bytes32, branch: Branch, link: Link)
    requires rules.parameters.epochBlocks > 0 && GoodBranch(rules, parent, branch)
    ensures Refines(rules, parent, branch, ApplyEvent(link))
  {
    hide UndoFor, Advance;
    var chain := branch.chain;
    assert (chain + [link])[..|chain|] == chain;
    JournalExtends(rules, parent, chain, branch.retained, link);
  }

  /** Rolling back the newest retained block gives what the shorter branch stands for. */
  lemma RollbackMeaning(rules: Rules, parent: Bytes32, branch: Branch)
    requires rules.parameters.epochBlocks > 0 && GoodBranch(rules, parent, branch) && branch.retained > 0
    ensures
      var n := |branch.chain| - 1;
      CoreRollback(Meaning(rules, parent, branch), branch.chain[n].block.hash)
      == Ok(Meaning(rules, parent, Branch(branch.chain[..n], branch.retained - 1)))
  {
    hide UndoFor, Advance, CheckLink, JournalOf, CoreRollback, ValidChain;
    var front, last := branch.chain[..|branch.chain| - 1], branch.chain[|branch.chain| - 1];
    assert branch.chain == front + [last];
    var was := Meaning(rules, parent, Branch(front, branch.retained - 1));
    JournalExtends(rules, parent, front, branch.retained - 1, last);
    LastFits(rules, parent, branch.chain);
    assert CoreApply(rules, was, last) == Ok(Meaning(rules, parent, branch));
    RollbackUndoesApply(rules, was, last);
  }

  lemma LastFits(rules: Rules, parent: Bytes32, chain: seq<Link>)
    requires rules.parameters.epochBlocks > 0 && ValidChain(rules, parent, chain) && chain != []
    ensures
      var front, last := chain[..|chain| - 1], chain[|chain| - 1];
      && ValidChain(rules, parent, front)
      && CheckLink(rules, ReplayChain(rules, parent, front), last).None?
      && ReplayChain(rules, parent, chain) == Advance(rules, ReplayChain(rules, parent, front), last)
  {
    hide CheckLink, Advance;
  }

  /** Without a retained block, or under another hash, a rollback fails as it does on the branch. */
  lemma RollbackFails(rules: Rules, parent: Bytes32, branch: Branch, hash: Bytes32)
    requires rules.parameters.epochBlocks > 0 && GoodBranch(rules, parent, branch)
    requires BranchStep(rules, parent, branch, RollbackEvent(hash)).failure.Some?
    ensures Refines(rules, parent, branch, RollbackEvent(hash))
  {
    hide UndoFor, Advance, CheckLink, Reverted, ValidChain, ReplayChain, EntryAt;
    ChainHeights(rules, parent, branch.chain);
    if branch.retained > 0 {
      EntryFields(rules, parent, branch.chain, |branch.chain| - 1);
    }
  }

  lemma RollbackRefines(rules: Rules, parent: Bytes32, branch: Branch, hash: Bytes32)
    requires rules.parameters.epochBlocks > 0 && GoodBranch(rules, parent, branch)
    ensures Refines(rules, parent, branch, RollbackEvent(hash))
  {
    hide Meaning, CheckLink, ReplayChain, CoreRollback;
    if BranchStep(rules, parent, branch, RollbackEvent(hash)).failure.Some? {
      RollbackFails(rules, parent, branch, hash);
    } else {
      RollbackMeaning(rules, parent, branch);
    }
  }

  lemma FinalizeRefines(rules: Rules, parent: Bytes32, branch: Branch, height: u32)
    requires rules.parameters.epochBlocks > 0 && GoodBranch(rules, parent, branch)
    ensures Refines(rules, parent, branch, FinalizeEvent(height))
  {
    hide UndoFor, Advance;
    var chain, n := branch.chain, |branch.chain|;
    ChainHeights(rules, parent, chain);
    if n > 0 && height <= chain[n - 1].block.height {
      DropThroughKeepsNewest(rules, parent, chain, branch.retained, height);
    }
  }

  /**
   After any interleaving of applied blocks, rollbacks and finalizations, accepted or refused,
   the state is the plain replay of the surviving chain plus the journal of its newest blocks.
   */
  lemma {:induction false} PathIndependence(rules: Rules, parent: Bytes32, events: seq<Event>)
    requires rules.parameters.epochBlocks > 0
    ensures GoodBranch(rules, parent, BranchRun(rules, parent, events))
    ensures CoreRun(rules, parent, events) == Meaning(rules, parent, BranchRun(rules, parent, events))
  {
    if events != [] {
      var front := events[..|events| - 1];
      PathIndependence(rules, parent, front);
      StepRefines(rules, parent, BranchRun(rules, parent, front), events[|events| - 1]);
    }
  }

  /** Two histories that leave the same surviving chain agree on records, tip and linkage. */
  lemma SameChainSameWorld(rules: Rules, parent: Bytes32, a: seq<Event>, b: seq<Event>)
    requires rules.parameters.epochBlocks > 0
    requires BranchRun(rules, parent, a).chain == BranchRun(rules, parent, b).chain
    ensures CoreRun(rules, parent, a).world == CoreRun(rules, parent, b).world
  {
    PathIndependence(rules, parent, a);
    PathIndependence(rules, parent, b);
  }

  /** The blocks of a branch that can no longer be rolled back. */
  function Fixed(branch: Branch): seq<Link>
    requires branch.retained <= |branch.chain|
  {
    branch.chain[..|branch.chain| - branch.retained]
  }

  lemma StepKeepsFixed(rules: Rules, parent: Bytes32, branch: Branch, event: Event)
    requires rules.parameters.epochBlocks > 0 && GoodBranch(rules, parent, branch)
    ensures
      var next := BranchStep(rules, parent, branch, event).state;
      GoodBranch(rules, parent, next) && Fixed(branch) <= Fixed(next)
  {
    hide CheckLink, ReplayChain;
    StepRefines(rules, parent, branch, event);
  }

  /** The blocks that can no longer be rolled back stay in the chain, whatever happens later. */
  lemma {:induction false} FinalizedPrefixStays(rules: Rules, parent: Bytes32, events: seq<Event>, m: nat)
    requires rules.parameters.epochBlocks > 0 && m <= |events|
    ensures
      var early, late := BranchRun(rules, parent, events[..m]), BranchRun(rules, parent, events);
      && early.retained <= |early.chain| && late.retained <= |late.chain|
      && Fixed(early) <= Fixed(late)
  {
    hide BranchStep, CoreStep, Meaning, ValidChain;
    PathIndependence(rules, parent, events);
    PathIndependence(rules, parent, events[..m]);
    if m == |events| {
      assert events[..m] == events;
    } else {
      var front := events[..|events| - 1];
      assert front[..m] == events[..m];
      FinalizedPrefixStays(rules, parent, front, m);
      PathIndependence(rules, parent, front);
      StepKeepsFixed(rules, parent, BranchRun(rules, parent, front), events[|events| - 1]);
    }
  }

  /** Once a height at or above activation is finalized, the tip never goes below it again. */
  lemma FinalizedHeightIsFloor(rules: Rules, parent: Bytes32, events: seq<Event>, m: nat)
    requires rules.parameters.epochBlocks > 0 && m < |events| && events[m].FinalizeEvent?
    requires rules.parameters.activationHeight <= events[m].height
    requires CoreFinalize(CoreRun(rules, parent, events[..m]), events[m].height).Ok?
    ensures
      var tip := CoreRun(rules, parent, events).world.tipHeight;
      tip.Some? && events[m].height <= tip.value
  {
    hide UndoFor, Advance, CheckLink, JournalOf, ReplayChain, EntryAt, ValidChain;
    var before := BranchRun(rules, parent, events[..m]);
    PathIndependence(rules, parent, events[..m]);
    ChainHeights(rules, parent, before.chain);
    assert events[..m + 1][..m] == events[..m];
    FinalizedPrefixStays(rules, parent, events, m + 1);
    PathIndependence(rules, parent, events);
    ChainHeights(rules, parent, BranchRun(rules, parent, events).chain);
  }

  lemma BranchJournalShape(rules: Rules, parent: Bytes32, chain: seq<Link>, retained: nat)
    requires rules.parameters.epochBlocks > 0 && ValidChain(rules, parent, chain) && retained <= |chain|
    ensures
      var history, w := JournalOf(rules, parent, chain, retained), ReplayChain(rules, parent, chain);
      && (history != [] ==>
            && w.tipHeight == Some(history[|history| - 1].height)
            && w.previousHash == history[|history| - 1].hash)
      && (forall i :: 0 < i < |history| ==>
            history[i].height == history[i - 1].height + 1 && history[i].previousHash == history[i - 1].hash)
  {
    hide UndoFor, Advance, CheckLink, ReplayChain;
    var base := |chain| - retained;
    var history := JournalOf(rules, parent, chain, retained);
    ChainHeights(rules, parent, chain);
    forall i | 0 < i < |history|
      ensures history[i].height == history[i - 1].height + 1 && history[i].previousHash == history[i - 1].hash
    {
      EntryFields(rules, parent, chain, base + i);
      EntryFields(rules, parent, chain, base + i - 1);
      PrefixValid(rules, parent, chain, base + i);
      ChainHeights(rules, parent, chain[..base + i]);
    }
    if history != [] {
      EntryFields(rules, parent, chain, |chain| - 1);
    }
  }

  /** Retained journal entries have consecutive heights ending at the tip and linked hashes. */
  lemma JournalShape(rules: Rules, parent: Bytes32, events: seq<Event>)
    requires rules.parameters.epochBlocks > 0
    ensures
      var core := CoreRun(rules, parent, events);
      var history := core.history;
      && (history != [] ==>
            && core.world.tipHeight == Some(history[|history| - 1].height)
            && core.world.previousHash == history[|history| - 1].hash)
      && (forall i :: 0 < i < |history| ==>
            history[i].height == history[i - 1].height + 1 && history[i].previousHash == history[i - 1].hash)
  {
    hide JournalOf, ReplayChain, CoreRun;
    var branch := BranchRun(rules, parent, events);
    PathIndependence(rules, parent, events);
    BranchJournalShape(rules, parent, branch.chain, branch.retained);
  }

  // ---- when rollback and finalization are accepted ----

  /** A rollback is accepted exactly for the tip's hash while its block is journaled. */
  lemma RollbackAcceptedIff(rules: Rules, parent: Bytes32, events: seq<Event>, hash: Bytes32)
    requires rules.parameters.epochBlocks > 0
    ensures
      var core := CoreRun(rules, parent, events);
      var r := CoreRollback(core, hash);
      && (r.Ok? <==> core.history != [] && core.world.previousHash == hash)
      && (r.Err? ==> r == Err(if core.world.tipHeight.None? then NoAppliedBlock
                              else if core.history == [] then BeyondRetention else WrongTipHash))
  {
    hide CoreRun, Reverted;
    JournalShape(rules, parent, events);
  }

  lemma {:induction false} DropSplits(history: seq<Undo>, height: u32) returns (d: nat)
    ensures d <= |history| && DropThrough(history, height) == history[d..]
    ensures forall i :: 0 <= i < d ==> history[i].height <= height
    ensures d < |history| ==> history[d].height > height
  {
    if history != [] && history[0].height <= height {
      var rest := DropSplits(history[1..], height);
      d := rest + 1;
      assert history[1..][rest..] == history[d..];
      forall i | 0 <= i < d ensures history[i].height <= height {
        assert i > 0 ==> history[i] == history[1..][i - 1];
      }
    } else {
      d := 0;
    }
  }

  lemma {:induction false} HeightsAscend(history: seq<Undo>, i: nat, j: nat)
    requires i <= j < |history|
    requires forall k :: 0 < k < |history| ==> history[k].height == history[k - 1].height + 1
    ensures history[i].height <= history[j].height
  {
    if i < j {
      HeightsAscend(history, i, j - 1);
    }
  }

  /** A finalization is accepted exactly up to the tip, keeps the state, and drops exactly the entries it covers. */
  lemma FinalizeAcceptedIff(rules: Rules, parent: Bytes32, events: seq<Event>, height: u32)
    requires rules.parameters.epochBlocks > 0
    ensures
      var core := CoreRun(rules, parent, events);
      var r := CoreFinalize(core, height);
      && (r.Ok? <==> core.world.tipHeight.Some? && height <= core.world.tipHeight.value)
      && (r.Err? ==> r == Err(BeyondTip))
      && (r.Ok? ==>
            && r.value.world == core.world
            && exists d :: 0 <= d <= |core.history| && r.value.history == core.history[d..]
                           && (forall i :: 0 <= i < d ==> core.history[i].height <= height)
                           && (forall i :: d <= i < |core.history| ==> core.history[i].height > height))
  {
    hide CoreRun, DropThrough;
    var core := CoreRun(rules, parent, events);
    JournalShape(rules, parent, events);
    var d := DropSplits(core.history, height);
    forall i | d <= i < |core.history| ensures core.history[i].height > height {
      HeightsAscend(core.history, d, i);
    }
  }
}
