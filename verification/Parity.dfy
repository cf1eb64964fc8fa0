/**
 Parity over runs: a full reducer and an exact resolver that are fed the same applied blocks, rollbacks and
 finalizations, the resolver's blocks filtered and its evidence fetched on demand.
 */
module Parity {
  import opened Collections
  import opened Protocol
  import opened Replay
  import opened Journal
  import opened Lifecycles
  import opened Resolver

  /** The block does not fit the tip, or its transactions or actions are out of order. */
  predicate Misplaced(w: World, block: Block) {
    Some(block.height) != w.nextHeight || block.prevHash != w.previousHash || IndexError(block.transactions).Some?
  }

  /**
   The resolver's call that goes with a call on the full reducer: a view of the same block, whose evidence
   serves it when full replay accepts, or the very same rollback or finalization. The full reducer is
   handed evidence it admits for every block that fits.
   */
  ghost predicate Follows(rules: Rules, target: NameId, full: Core, exact: Core, event: Event, seen: Event)
    requires rules.parameters.epochBlocks > 0
  {
    match event
    case ApplyEvent(link) =>
      && seen.ApplyEvent? && SeenBlock(rules, target, link.block, seen.link.block)
      && OnlyTarget(rules, target, seen.link.block.transactions)
      && (Misplaced(full.world, link.block) || CheckLink(rules, full.world, link).None?)
      && (CheckLink(rules, full.world, link).None? ==>
            Serves(StartRecords(rules, full.world.records, link).commits, exact.world.records.commits,
                   rules.parameters, seen.link.block, seen.link.evidence))
    case RollbackEvent(_) => seen == event
    case FinalizeEvent(_) => seen == event
  }

  ghost predicate FollowsAll(rules: Rules, parent: Bytes32, target: NameId, full: seq<Event>, exact: seq<Event>)
    requires rules.parameters.epochBlocks > 0
  {
    && |full| == |exact|
    && forall i :: 0 <= i < |full| ==>
         Follows(rules, target, CoreRun(rules, parent, full[..i]), CoreRun(rules, parent, exact[..i]),
                 full[i], exact[i])
  }

  /** The resolver's surviving chain is a view of the full one, and both can roll back equally far. */
  ghost predicate BranchView(rules: Rules, parent: Bytes32, target: NameId, full: Branch, exact: Branch)
    requires rules.parameters.epochBlocks > 0
  {
    && GoodBranch(rules, parent, full) && GoodBranch(rules, parent, exact)
    && ViewOf(rules, parent, target, full.chain, exact.chain) && exact.retained == full.retained
  }

  lemma EmptyView(rules: Rules, parent: Bytes32, target: NameId)
    requires rules.parameters.epochBlocks > 0
    ensures BranchView(rules, parent, target, Branch([], 0), Branch([], 0))
  {
  }

  /** A refused block is refused by both, for the same reason. */
  lemma SameRefusal(rules: Rules, target: NameId, full: World, exact: World, link: Link, seen: Link)
    requires Agrees(target, full, exact) && SeenBlock(rules, target, link.block, seen.block)
    requires Misplaced(full, link.block)
    ensures CheckLink(rules, exact, seen) == CheckLink(rules, full, link)
  {
    hide EvidenceError, IndexError;
    SameIndexErrors(link.block.transactions, seen.block.transactions);
  }

  lemma ViewOneMore(rules: Rules, parent: Bytes32, target: NameId, full: seq<Link>, exact: seq<Link>,
                    link: Link, seen: Link)
    requires rules.parameters.epochBlocks > 0 && ViewOf(rules, parent, target, full, exact)
    requires SeenBlock(rules, target, link.block, seen.block)
    requires OnlyTarget(rules, target, seen.block.transactions)
    requires Serves(StartRecords(rules, ReplayChain(rules, parent, full).records, link).commits,
                    ReplayChain(rules, parent, exact).records.commits, rules.parameters, seen.block, seen.evidence)
    ensures ViewOf(rules, parent, target, full + [link], exact + [seen])
  {
    hide SeenBlock, OnlyTarget, Serves, StartRecords, ReplayChain;
    assert (full + [link])[..|full|] == full && (exact + [seen])[..|exact|] == exact;
  }

  lemma ValidOneMore(rules: Rules, parent: Bytes32, chain: seq<Link>, link: Link)
    requires rules.parameters.epochBlocks > 0 && ValidChain(rules, parent, chain)
    requires CheckLink(rules, ReplayChain(rules, parent, chain), link).None?
    ensures ValidChain(rules, parent, chain + [link])
  {
    hide CheckLink, ReplayChain;
    assert (chain + [link])[..|chain|] == chain;
  }

  lemma ApplyParity(rules: Rules, parent: Bytes32, target: NameId, full: Branch, exact: Branch, link: Link, seen: Link)
    requires rules.parameters.Validated() && BranchView(rules, parent, target, full, exact)
    requires Follows(rules, target, Meaning(rules, parent, full), Meaning(rules, parent, exact),
                     ApplyEvent(link), ApplyEvent(seen))
    ensures StepsAlike(rules, parent, target, full, exact, ApplyEvent(link), ApplyEvent(seen))
  {
    hide SeenBlock, OnlyTarget, Serves, StartRecords, JournalOf, Misplaced, Agrees, CheckLink;
    hide ReplayChain, ValidChain, ViewOf, WorldOk;
    var f, e := ReplayChain(rules, parent, full.chain), ReplayChain(rules, parent, exact.chain);
    ExactParity(rules, parent, target, full.chain, exact.chain);
    ChainOk(rules, parent, full.chain);
    if CheckLink(rules, f, link).None? {
      BlockParity(rules, target, f, e, link, seen);
      ViewOneMore(rules, parent, target, full.chain, exact.chain, link, seen);
      ValidOneMore(rules, parent, full.chain, link);
      ValidOneMore(rules, parent, exact.chain, seen);
    } else {
      SameRefusal(rules, target, f, e, link, seen);
    }
  }

  /** Views have equal lengths, and their newest blocks equal heights and hashes. */
  lemma ViewTip(rules: Rules, parent: Bytes32, target: NameId, full: seq<Link>, exact: seq<Link>)
    requires rules.parameters.epochBlocks > 0 && ViewOf(rules, parent, target, full, exact) && full != []
    ensures |exact| == |full|
    ensures
      var n := |full| - 1;
      && exact[n].block.height == full[n].block.height && exact[n].block.hash == full[n].block.hash
      && ViewOf(rules, parent, target, full[..n], exact[..n])
  {
    hide Serves, OnlyTarget, StartRecords, ReplayChain;
  }

  lemma RollbackParity(rules: Rules, parent: Bytes32, target: NameId, full: Branch, exact: Branch, hash: Bytes32)
    requires rules.parameters.Validated() && BranchView(rules, parent, target, full, exact)
    ensures StepsAlike(rules, parent, target, full, exact, RollbackEvent(hash), RollbackEvent(hash))
  {
    hide CheckLink, Advance, ReplayChain;
    if full.chain != [] {
      ViewTip(rules, parent, target, full.chain, exact.chain);
    }
    hide ViewOf;
  }

  lemma FinalizeParity(rules: Rules, parent: Bytes32, target: NameId, full: Branch, exact: Branch, height: u32)
    requires rules.parameters.Validated() && BranchView(rules, parent, target, full, exact)
    ensures StepsAlike(rules, parent, target, full, exact, FinalizeEvent(height), FinalizeEvent(height))
  {
    hide CheckLink, Advance, ReplayChain;
    if full.chain != [] {
      ViewTip(rules, parent, target, full.chain, exact.chain);
    }
    hide ViewOf;
  }

  /** Both calls succeed or both fail alike, and the resolver's branch stays a view. */
  ghost predicate StepsAlike(rules: Rules, parent: Bytes32, target: NameId, full: Branch, exact: Branch,
                             event: Event, seen: Event)
    requires rules.parameters.epochBlocks > 0
  {
    var f, e := BranchStep(rules, parent, full, event), BranchStep(rules, parent, exact, seen);
    f.failure == e.failure && BranchView(rules, parent, target, f.state, e.state)
  }

  lemma StepParity(rules: Rules, parent: Bytes32, target: NameId, full: Branch, exact: Branch,
                   event: Event, seen: Event)
    requires rules.parameters.Validated() && BranchView(rules, parent, target, full, exact)
    requires Follows(rules, target, Meaning(rules, parent, full), Meaning(rules, parent, exact), event, seen)
    ensures StepsAlike(rules, parent, target, full, exact, event, seen)
  {
    hide StepsAlike, BranchView, Meaning;
    match event {
      case ApplyEvent(link) => ApplyParity(rules, parent, target, full, exact, link, seen.link);
      case RollbackEvent(hash) => RollbackParity(rules, parent, target, full, exact, hash);
      case FinalizeEvent(height) => FinalizeParity(rules, parent, target, full, exact, height);
    }
  }

  lemma {:induction false} RunView(rules: Rules, parent: Bytes32, target: NameId, full: seq<Event>, exact: seq<Event>)
    requires rules.parameters.Validated() && FollowsAll(rules, parent, target, full, exact)
    ensures BranchView(rules, parent, target, BranchRun(rules, parent, full), BranchRun(rules, parent, exact))
  {
    hide BranchView, Follows, BranchStep, CoreStep, Meaning;
    if full == [] {
      EmptyView(rules, parent, target);
    } else {
      var n := |full| - 1;
      FrontFollows(rules, parent, target, full, exact);
      RunView(rules, parent, target, full[..n], exact[..n]);
      LastParity(rules, parent, target, full, exact);
    }
  }

  lemma FrontFollows(rules: Rules, parent: Bytes32, target: NameId, full: seq<Event>, exact: seq<Event>)
    requires rules.parameters.epochBlocks > 0 && FollowsAll(rules, parent, target, full, exact) && full != []
    ensures FollowsAll(rules, parent, target, full[..|full| - 1], exact[..|full| - 1])
  {
    hide Follows, CoreRun;
    var f, e := full[..|full| - 1], exact[..|full| - 1];
    forall i | 0 <= i < |f|
      ensures Follows(rules, target, CoreRun(rules, parent, f[..i]), CoreRun(rules, parent, e[..i]), f[i], e[i])
    {
      assert f[..i] == full[..i] && e[..i] == exact[..i];
    }
  }

  lemma LastParity(rules: Rules, parent: Bytes32, target: NameId, full: seq<Event>, exact: seq<Event>)
    requires rules.parameters.Validated() && FollowsAll(rules, parent, target, full, exact) && full != []
    requires
      var n := |full| - 1;
      BranchView(rules, parent, target, BranchRun(rules, parent, full[..n]), BranchRun(rules, parent, exact[..n]))
    ensures
      var n := |full| - 1;
      StepsAlike(rules, parent, target, BranchRun(rules, parent, full[..n]), BranchRun(rules, parent, exact[..n]),
                 full[n], exact[n])
    ensures BranchView(rules, parent, target, BranchRun(rules, parent, full), BranchRun(rules, parent, exact))
  {
    hide BranchView, Follows, BranchStep, CoreStep, Meaning;
    var n := |full| - 1;
    PathIndependence(rules, parent, full[..n]);
    PathIndependence(rules, parent, exact[..n]);
    assert Follows(rules, target, CoreRun(rules, parent, full[..n]), CoreRun(rules, parent, exact[..n]),
                   full[n], exact[n]);
    StepParity(rules, parent, target, BranchRun(rules, parent, full[..n]), BranchRun(rules, parent, exact[..n]),
               full[n], exact[n]);
  }

  /** After every event of such a run the two states agree on the target, its tip and its linkage. */
  lemma RunParity(rules: Rules, parent: Bytes32, target: NameId, full: seq<Event>, exact: seq<Event>)
    requires rules.parameters.Validated() && FollowsAll(rules, parent, target, full, exact)
    ensures Agrees(target, CoreRun(rules, parent, full).world, CoreRun(rules, parent, exact).world)
    ensures |CoreRun(rules, parent, full).history| == |CoreRun(rules, parent, exact).history|
  {
    hide FollowsAll, ValidChain, ViewOf, ReplayChain, CoreRun, BranchRun;
    RunView(rules, parent, target, full, exact);
    PathIndependence(rules, parent, full);
    PathIndependence(rules, parent, exact);
    ExactParity(rules, parent, target, BranchRun(rules, parent, full).chain, BranchRun(rules, parent, exact).chain);
  }

  /**
   Whatever both have gone through, the next call fails for the resolver exactly when it fails for the
   full reducer, and with the same error; in particular they can roll back the same blocks.
   */
  lemma RunFailsAlike(rules: Rules, parent: Bytes32, target: NameId, full: seq<Event>, exact: seq<Event>,
                      event: Event, seen: Event)
    requires rules.parameters.Validated() && FollowsAll(rules, parent, target, full, exact)
    requires Follows(rules, target, CoreRun(rules, parent, full), CoreRun(rules, parent, exact), event, seen)
    ensures CoreStep(rules, CoreRun(rules, parent, full), event).failure
            == CoreStep(rules, CoreRun(rules, parent, exact), seen).failure
  {
    hide FollowsAll, BranchView, CoreRun, BranchRun, CoreStep, Follows, Meaning, BranchStep;
    var f, e := BranchRun(rules, parent, full), BranchRun(rules, parent, exact);
    RunView(rules, parent, target, full, exact);
    PathIndependence(rules, parent, full);
    PathIndependence(rules, parent, exact);
    StepParity(rules, parent, target, f, e, event, seen);
    StepRefines(rules, parent, f, event);
    StepRefines(rules, parent, e, seen);
  }

  // ---- without evidence ----

  ghost predicate NoEvidence(chain: seq<Link>) {
    forall i :: 0 <= i < |chain| ==> chain[i].evidence == []
  }

  function FilterLink(rules: Rules, target: NameId, link: Link): Link {
    Link(FilterBlock(rules, target, link.block), [])
  }

  /** The same blocks as the resolver of the target applies them, with no evidence at all. */
  function FilterChain(rules: Rules, target: NameId, chain: seq<Link>): seq<Link> {
    if chain == [] then []
    else FilterChain(rules, target, chain[..|chain| - 1]) + [FilterLink(rules, target, chain[|chain| - 1])]
  }

  /** Both transactions carry the same COMMIT, or neither carries one. */
  predicate SameCommit(full: Transaction, seen: Transaction) {
    && seen.txIndex == full.txIndex && seen.txid == full.txid
    && (full.operation.Some? && full.operation.value.Commit? ==> seen.operation == full.operation)
    && (seen.operation.Some? && seen.operation.value.Commit? ==> seen.operation == full.operation)
  }

  lemma {:induction false} SameCommitsAfter(rules: Rules, full: Records, exact: Records, height: u32,
                                            txs: seq<Transaction>, seen: seq<Transaction>)
    requires rules.parameters.epochBlocks > 0 && exact.commits == full.commits && |seen| == |txs|
    requires forall i :: 0 <= i < |txs| ==> SameCommit(txs[i], seen[i])
    ensures RecordsAfter(rules, exact, height, seen).commits == RecordsAfter(rules, full, height, txs).commits
  {
    hide TxRecords;
    if txs != [] {
      var n := |txs| - 1;
      SameCommitsAfter(rules, full, exact, height, txs[..n], seen[..n]);
      CommitsAfterTx(rules, RecordsAfter(rules, full, height, txs[..n]), height, txs[n]);
      CommitsAfterTx(rules, RecordsAfter(rules, exact, height, seen[..n]), height, seen[n]);
      assert SameCommit(txs[n], seen[n]);
    }
  }

  lemma FilterKeepsCommits(rules: Rules, target: NameId, block: Block)
    ensures
      var txs, seen := block.transactions, FilterBlock(rules, target, block).transactions;
      |seen| == |txs| && forall i :: 0 <= i < |txs| ==> SameCommit(txs[i], seen[i])
  {
  }

  /** The COMMITs still known serve every REVEAL of a block that brings no evidence. */
  lemma HeldServes(rules: Rules, held: Records, link: Link, block: Block)
    requires link.evidence == [] && block.height == link.block.height
    ensures Serves(StartRecords(rules, held, link).commits, held.commits, rules.parameters, block, [])
  {
  }

  lemma FilteredStep(rules: Rules, target: NameId, full: World, exact: World, link: Link)
    requires rules.parameters.Validated() && WorldOk(rules, full) && CheckLink(rules, full, link).None?
    requires link.evidence == [] && Agrees(target, full, exact) && exact.records.commits == full.records.commits
    ensures
      var seen := FilterLink(rules, target, link);
      && SeenBlock(rules, target, link.block, seen.block) && OnlyTarget(rules, target, seen.block.transactions)
      && Serves(StartRecords(rules, full.records, link).commits, exact.records.commits, rules.parameters,
                seen.block, seen.evidence)
      && CheckLink(rules, exact, seen).None?
      && Agrees(target, Advance(rules, full, link), Advance(rules, exact, seen))
      && Advance(rules, exact, seen).records.commits == Advance(rules, full, link).records.commits
  {
    var seen := FilterLink(rules, target, link);
    ItsOwnView(rules, target, link.block);
    FilterKeepsSeen(rules, target, link.block, link.block);
    FilterKeepsCommits(rules, target, link.block);
    HeldServes(rules, full.records, link, seen.block);
    assert StartRecords(rules, exact.records, seen).commits == StartRecords(rules, full.records, link).commits;
    hide CheckLink, StartRecords, RecordsAfter, Agrees, SeenBlock, OnlyTarget, FilterBlock, Serves, WorldOk;
    BlockParity(rules, target, full, exact, link, seen);
    SameCommitsAfter(rules, StartRecords(rules, full.records, link), StartRecords(rules, exact.records, seen),
                     link.block.height, link.block.transactions, seen.block.transactions);
  }

  lemma ItsOwnView(rules: Rules, target: NameId, block: Block)
    ensures SeenBlock(rules, target, block, block)
  {
  }

  /**
   A resolver that sees every block, COMMITs included, needs no evidence: it accepts the filtered chain, agrees
   with full replay on the name and holds exactly the same pending COMMITs.
   */
  lemma {:induction false} FilteredParity(rules: Rules, parent: Bytes32, target: NameId, chain: seq<Link>)
    requires rules.parameters.Validated() && ValidChain(rules, parent, chain) && NoEvidence(chain)
    ensures
      var seen := FilterChain(rules, target, chain);
      && |seen| == |chain| && ValidChain(rules, parent, seen) && ViewOf(rules, parent, target, chain, seen)
      && Agrees(target, ReplayChain(rules, parent, chain), ReplayChain(rules, parent, seen))
      && ReplayChain(rules, parent, seen).records.commits == ReplayChain(rules, parent, chain).records.commits
  {
    hide CheckLink, Advance, SeenBlock, OnlyTarget, Serves, StartRecords, FilterLink;
    if chain != [] {
      var front, link := chain[..|chain| - 1], chain[|chain| - 1];
      FilteredParity(rules, parent, target, front);
      ChainOk(rules, parent, front);
      FilteredStep(rules, target, ReplayChain(rules, parent, front),
                   ReplayChain(rules, parent, FilterChain(rules, target, front)), link);
      var seen := FilterChain(rules, target, chain);
      assert seen[..|seen| - 1] == FilterChain(rules, target, front);
      assert seen[|seen| - 1] == FilterLink(rules, target, link);
      assert FilterLink(rules, target, link).evidence == [] by { FilteredEvidence(rules, target, link); }
    }
  }

  lemma FilteredEvidence(rules: Rules, target: NameId, link: Link)
    ensures FilterLink(rules, target, link).evidence == []
  {
  }

  function FilterEvent(rules: Rules, target: NameId, event: Event): Event {
    match event
    case ApplyEvent(link) => ApplyEvent(FilterLink(rules, target, link))
    case _ => event
  }

  function FilterEvents(rules: Rules, target: NameId, events: seq<Event>): seq<Event> {
    if events == [] then []
    else FilterEvents(rules, target, events[..|events| - 1]) + [FilterEvent(rules, target, events[|events| - 1])]
  }

  predicate EventsWithoutEvidence(events: seq<Event>) {
    forall i :: 0 <= i < |events| && events[i].ApplyEvent? ==> events[i].link.evidence == []
  }

  /** The branch the resolver is on while full replay is on the given one. */
  function FilterBranch(rules: Rules, target: NameId, branch: Branch): Branch {
    Branch(FilterChain(rules, target, branch.chain), branch.retained)
  }

  /** The call on the resolver's branch does what the call on the full branch does. */
  ghost predicate FilteredAlike(rules: Rules, parent: Bytes32, target: NameId, branch: Branch, event: Event)
    requires rules.parameters.epochBlocks > 0
  {
    var full := BranchStep(rules, parent, branch, event);
    && NoEvidence(full.state.chain)
    && BranchStep(rules, parent, FilterBranch(rules, target, branch), FilterEvent(rules, target, event))
       == Step(FilterBranch(rules, target, full.state), full.failure)
  }

  lemma FilteredBranchStep(rules: Rules, parent: Bytes32, target: NameId, branch: Branch, event: Event)
    requires rules.parameters.Validated() && GoodBranch(rules, parent, branch) && NoEvidence(branch.chain)
    requires event.ApplyEvent? ==> event.link.evidence == []
    ensures FilteredAlike(rules, parent, target, branch, event)
  {
    hide CheckLink, ReplayChain, FilterChain, FilterLink, ValidChain, NoEvidence, FilteredAlike;
    match event
    case ApplyEvent(link) => FilteredBranchApply(rules, parent, target, branch, link);
    case RollbackEvent(hash) => FilteredBranchRollback(rules, parent, target, branch, hash);
    case FinalizeEvent(height) => FilteredBranchFinalize(rules, parent, target, branch, height);
  }

  lemma FilteredBranchApply(rules: Rules, parent: Bytes32, target: NameId, branch: Branch, link: Link)
    requires rules.parameters.Validated() && GoodBranch(rules, parent, branch) && NoEvidence(branch.chain)
    requires link.evidence == []
    ensures FilteredAlike(rules, parent, target, branch, ApplyEvent(link))
  {
    hide CheckLink, ReplayChain, FilterChain, FilterLink, ValidChain;
    FilteredApply(rules, parent, target, branch.chain, link);
  }

  lemma FilteredBranchRollback(rules: Rules, parent: Bytes32, target: NameId, branch: Branch, hash: Bytes32)
    requires rules.parameters.epochBlocks > 0 && NoEvidence(branch.chain)
    ensures FilteredAlike(rules, parent, target, branch, RollbackEvent(hash))
  {
    hide CheckLink, ReplayChain, FilterLink;
    if branch.chain != [] {
      FilteredTip(rules, target, branch.chain);
    }
  }

  lemma FilteredBranchFinalize(rules: Rules, parent: Bytes32, target: NameId, branch: Branch, height: u32)
    requires rules.parameters.epochBlocks > 0 && NoEvidence(branch.chain)
    ensures FilteredAlike(rules, parent, target, branch, FinalizeEvent(height))
  {
    hide CheckLink, ReplayChain, FilterLink;
    if branch.chain != [] {
      FilteredTip(rules, target, branch.chain);
    }
  }

  lemma FilteredTip(rules: Rules, target: NameId, chain: seq<Link>)
    requires chain != []
    ensures
      var seen, n := FilterChain(rules, target, chain), |chain| - 1;
      && |seen| == n + 1 && seen[n].block.hash == chain[n].block.hash && seen[n].block.height == chain[n].block.height
      && seen[..n] == FilterChain(rules, target, chain[..n])
  {
    FilteredLength(rules, target, chain[..|chain| - 1]);
  }

  lemma {:induction false} FilteredLength(rules: Rules, target: NameId, chain: seq<Link>)
    ensures |FilterChain(rules, target, chain)| == |chain|
  {
    if chain != [] {
      FilteredLength(rules, target, chain[..|chain| - 1]);
    }
  }

  lemma FilteredApply(rules: Rules, parent: Bytes32, target: NameId, chain: seq<Link>, link: Link)
    requires rules.parameters.Validated() && ValidChain(rules, parent, chain)
    requires NoEvidence(chain) && link.evidence == []
    ensures
      var seen := FilterChain(rules, target, chain);
      && CheckLink(rules, ReplayChain(rules, parent, seen), FilterLink(rules, target, link))
         == CheckLink(rules, ReplayChain(rules, parent, chain), link)
      && FilterChain(rules, target, chain + [link]) == seen + [FilterLink(rules, target, link)]
  {
    var f, e := ReplayChain(rules, parent, chain), ReplayChain(rules, parent, FilterChain(rules, target, chain));
    assert (chain + [link])[..|chain|] == chain;
    ItsOwnView(rules, target, link.block);
    FilterKeepsSeen(rules, target, link.block, link.block);
    FitsOrMisplaced(rules, f, link);
    hide CheckLink, Misplaced, SeenBlock, FilterBlock, ReplayChain, ValidChain, ViewOf;
    hide Agrees, WorldOk, Serves, OnlyTarget;
    FilteredParity(rules, parent, target, chain);
    ChainOk(rules, parent, chain);
    if CheckLink(rules, f, link).None? {
      FilteredStep(rules, target, f, e, link);
    } else {
      SameRefusal(rules, target, f, e, link, FilterLink(rules, target, link));
    }
  }

  lemma FitsOrMisplaced(rules: Rules, w: World, link: Link)
    requires link.evidence == []
    ensures CheckLink(rules, w, link).Some? ==> Misplaced(w, link.block)
  {
  }

  lemma {:induction false} FilteredRun(rules: Rules, parent: Bytes32, target: NameId, events: seq<Event>)
    requires rules.parameters.Validated() && EventsWithoutEvidence(events)
    ensures NoEvidence(BranchRun(rules, parent, events).chain)
    ensures BranchRun(rules, parent, FilterEvents(rules, target, events))
            == FilterBranch(rules, target, BranchRun(rules, parent, events))
  {
    hide BranchStep, FilterEvent, CoreRun, Meaning;
    if events != [] {
      var n := |events| - 1;
      FilteredRun(rules, parent, target, events[..n]);
      PathIndependence(rules, parent, events[..n]);
      FilteredBranchStep(rules, parent, target, BranchRun(rules, parent, events[..n]), events[n]);
      var seen := FilterEvents(rules, target, events);
      assert seen[..|seen| - 1] == FilterEvents(rules, target, events[..n]);
    }
  }

  /**
   Over any run without evidence, the resolver fed the filtered events agrees with full replay on the name,
   holds the same pending COMMITs and journals as many blocks.
   */
  lemma FilteredRunParity(rules: Rules, parent: Bytes32, target: NameId, events: seq<Event>)
    requires rules.parameters.Validated() && EventsWithoutEvidence(events)
    ensures
      var full := CoreRun(rules, parent, events);
      var exact := CoreRun(rules, parent, FilterEvents(rules, target, events));
      && Agrees(target, full.world, exact.world)
      && exact.world.records.commits == full.world.records.commits
      && |exact.history| == |full.history|
  {
    hide ValidChain, ViewOf, ReplayChain, CoreRun, BranchRun, Agrees, FilterChain, FilterEvents;
    var seen := FilterEvents(rules, target, events);
    FilteredRun(rules, parent, target, events);
    PathIndependence(rules, parent, events);
    PathIndependence(rules, parent, seen);
    FilteredParity(rules, parent, target, BranchRun(rules, parent, events).chain);
  }

  /** And the next call fails on both sides alike. */
  lemma FilteredRunFailsAlike(rules: Rules, parent: Bytes32, target: NameId, events: seq<Event>, event: Event)
    requires rules.parameters.Validated() && EventsWithoutEvidence(events)
    requires event.ApplyEvent? ==> event.link.evidence == []
    ensures
      CoreStep(rules, CoreRun(rules, parent, FilterEvents(rules, target, events)),
               FilterEvent(rules, target, event)).failure
      == CoreStep(rules, CoreRun(rules, parent, events), event).failure
  {
    hide CoreRun, BranchRun, CoreStep, Meaning, BranchStep, FilterEvent, FilterEvents, FilterBranch;
    var branch, seen := BranchRun(rules, parent, events), FilterEvents(rules, target, events);
    FilteredRun(rules, parent, target, events);
    PathIndependence(rules, parent, events);
    PathIndependence(rules, parent, seen);
    FilteredBranchStep(rules, parent, target, branch, event);
    StepRefines(rules, parent, branch, event);
    StepRefines(rules, parent, FilterBranch(rules, target, branch), FilterEvent(rules, target, event));
  }
}
