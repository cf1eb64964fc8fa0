/**
 A wallet's runs: besides applying, rolling back and finalizing blocks, the wallet may rewind its store to
 any height at any time, and then brings its reducer to the tip the store was left with.
 */
module WalletRuns {
  import opened Collections
  import opened Protocol
  import opened Replay
  import opened Journal
  import opened Resolver
  import opened SnapshotRoundTrip
  import opened Store
  import opened StoreMirror

  /** The blocks the wallet holds to replay from, with its reducer and its store. */
  datatype Wallet = Wallet(chain: seq<Link>, host: Host)

  datatype WalletEvent = Replayed(event: Event) | Rewound(height: u32)

  /** One rollback of the reducer after another while its tip is above the height. */
  function CoreUnwind(core: Core, height: u32): Result<Core, RollbackError>
    decreases |core.history|
  {
    if core.world.tipHeight.None? || core.world.tipHeight.value <= height then Ok(core)
    else
      var next := CoreRollback(core, core.world.previousHash);
      if next.Err? then next else CoreUnwind(next.value, height)
  }

  function ChainAfter(rules: Rules, w: Wallet, event: Event): seq<Link>
    requires rules.parameters.epochBlocks > 0
  {
    if CoreStep(rules, w.host.core, event).failure.Some? then w.chain
    else
      match event
      case ApplyEvent(link) => w.chain + [link]
      case RollbackEvent(_) => if w.chain == [] then [] else w.chain[..|w.chain| - 1]
      case FinalizeEvent(_) => w.chain
  }

  /** The reducer at the end of a shorter chain: rolled back if its journal reaches, and replayed from it otherwise. */
  function CoreAt(rules: Rules, parent: Bytes32, core: Core, chain: seq<Link>, height: u32): Core
    requires rules.parameters.epochBlocks > 0
  {
    var rolledBack := CoreUnwind(core, height);
    if rolledBack.Ok? then rolledBack.value else Core(ReplayChain(rules, parent, chain), [])
  }

  /** A rewind within the store's rollback rows keeps the blocks up to the height; a deeper one starts over. */
  ghost predicate WalletStep(rules: Rules, parent: Bytes32, identity: StoreIdentity, w: Wallet, event: WalletEvent,
                             w': Wallet)
    requires rules.parameters.epochBlocks > 0
  {
    match event
    case Replayed(e) =>
      && Storable(rules, identity, e) && HostStep(rules, identity, w.host, e, w'.host)
      && w'.chain == ChainAfter(rules, w, e)
    case Rewound(height) =>
      && After(StoreRewindOrReset(rules, identity, w.host.tables, height), w.host, w'.host)
      && if StoreRewind(rules, identity, w.host.tables, height).Ok? then
           && w'.chain == w.chain[..BlocksThrough(rules.parameters, |w.chain|, height)]
           && w'.host.core == CoreAt(rules, parent, w.host.core, w'.chain, height)
         else
           w'.chain == [] && w'.host.core == Core(Genesis(rules, parent), [])
  }

  ghost predicate WalletMirrored(rules: Rules, parent: Bytes32, identity: StoreIdentity, w: Wallet)
    requires rules.parameters.epochBlocks > 0
  {
    exists retained: nat :: Mirrored(rules, parent, identity, Branch(w.chain, retained), w.host)
  }

  lemma UnwindOnce(rules: Rules, parent: Bytes32, branch: Branch, height: u32)
    requires rules.parameters.epochBlocks > 0 && GoodBranch(rules, parent, branch)
    requires branch.chain != [] && height < branch.chain[|branch.chain| - 1].block.height
    ensures
      var r := CoreUnwind(Meaning(rules, parent, branch), height);
      var front := branch.chain[..|branch.chain| - 1];
      if branch.retained == 0 then r.Err?
      else GoodBranch(rules, parent, Branch(front, branch.retained - 1))
           && r == CoreUnwind(Meaning(rules, parent, Branch(front, branch.retained - 1)), height)
  {
    hide CheckLink, Advance, EntryAt;
    ChainHeights(rules, parent, branch.chain);
    if branch.retained > 0 {
      RollbackMeaning(rules, parent, branch);
    }
  }

  /** Rolling back repeatedly reaches the branch that ends at the height, exactly when the journal reaches it. */
  lemma {:induction false} UnwindMeaning(rules: Rules, parent: Bytes32, branch: Branch, height: u32)
    requires rules.parameters.Validated() && GoodBranch(rules, parent, branch)
    ensures
      var n := BlocksThrough(rules.parameters, |branch.chain|, height);
      var r := CoreUnwind(Meaning(rules, parent, branch), height);
      var dropped := |branch.chain| - n;
      && GoodBranch(rules, parent, Branch(branch.chain[..n], 0))
      && (r.Ok? <==> dropped <= branch.retained)
      && (r.Ok? ==> && GoodBranch(rules, parent, Branch(branch.chain[..n], branch.retained - dropped))
                    && r.value == Meaning(rules, parent, Branch(branch.chain[..n], branch.retained - dropped)))
    decreases |branch.chain|
  {
    hide ValidChain, JournalOf, ReplayChain, CoreRollback;
    var chain := branch.chain;
    var n := BlocksThrough(rules.parameters, |chain|, height);
    ChainHeights(rules, parent, chain);
    PrefixValid(rules, parent, chain, n);
    if n == |chain| {
      assert chain[..n] == chain;
    } else {
      hide CoreUnwind, Meaning;
      UnwindOnce(rules, parent, branch, height);
      if branch.retained > 0 {
        var front := chain[..|chain| - 1];
        UnwindMeaning(rules, parent, Branch(front, branch.retained - 1), height);
        assert front[..n] == chain[..n];
      }
    }
  }

  lemma ReplayMirrored(rules: Rules, parent: Bytes32, identity: StoreIdentity, w: Wallet, event: Event, w': Wallet)
    requires rules.parameters.Validated() && WalletMirrored(rules, parent, identity, w)
    requires WalletStep(rules, parent, identity, w, Replayed(event), w')
    ensures WalletMirrored(rules, parent, identity, w')
  {
    hide HostStep, Storable, CoreStep, BranchStep, Mirrored;
    var retained: nat :| Mirrored(rules, parent, identity, Branch(w.chain, retained), w.host);
    var branch := Branch(w.chain, retained);
    HostStepMirrored(rules, parent, identity, branch, w.host, event, w'.host);
    ChainFollows(rules, parent, identity, branch, w, event);
    var next := BranchStep(rules, parent, branch, event).state;
    assert Mirrored(rules, parent, identity, Branch(w'.chain, next.retained), w'.host);
  }

  /** The blocks the wallet holds are those of the branch its reducer stands for. */
  lemma ChainFollows(rules: Rules, parent: Bytes32, identity: StoreIdentity, branch: Branch, w: Wallet, event: Event)
    requires rules.parameters.Validated() && branch.chain == w.chain
    requires Mirrored(rules, parent, identity, branch, w.host)
    ensures ChainAfter(rules, w, event) == BranchStep(rules, parent, branch, event).state.chain
  {
    hide CheckLink, ReplayChain, Mirrors, JournalOf, Advance, UndoFor, CoreStep;
    StepRefines(rules, parent, branch, event);
  }

  lemma PrefixOn(rules: Rules, identity: StoreIdentity, chain: seq<Link>, n: nat)
    requires n <= |chain| && ChainOn(rules, identity.network, chain)
    requires identity.coverage.Exact? ==> OnlyTargetChain(rules, identity.coverage.nameId, chain)
    ensures ChainOn(rules, identity.network, chain[..n])
    ensures identity.coverage.Exact? ==> OnlyTargetChain(rules, identity.coverage.nameId, chain[..n])
  {
    hide TxsOn, OnlyTarget;
  }

  lemma RewindMirrored(rules: Rules, parent: Bytes32, identity: StoreIdentity, w: Wallet, height: u32, w': Wallet)
    requires rules.parameters.Validated() && WalletMirrored(rules, parent, identity, w)
    requires WalletStep(rules, parent, identity, w, Rewound(height), w')
    ensures WalletMirrored(rules, parent, identity, w')
    ensures w'.host.tables.tip.Some? ==> w'.host.tables.tip.value.height <= height
  {
    hide Mirrors, Meaning, ChainOn, OnlyTargetChain, Unwind, DropWalletCommits, Cleared, CoreUnwind, ReplayChain;
    var retained: nat :| Mirrored(rules, parent, identity, Branch(w.chain, retained), w.host);
    var branch, chain := Branch(w.chain, retained), w.chain;
    var kept :| retained <= kept && Mirrors(rules, parent, chain, kept, w.host.tables);
    var n := BlocksThrough(rules.parameters, |chain|, height);
    var dropped := |chain| - n;
    UnwindMirrors(rules, parent, identity, chain, kept, w.host.tables, height);
    RewindOrReset(rules, parent, identity, chain, kept, w.host.tables, height);
    PrefixOn(rules, identity, chain, n);
    if dropped <= kept {
      UnwindMeaning(rules, parent, branch, height);
      var r: nat := if dropped <= retained then retained - dropped else 0;
      NoJournal(rules, parent, chain[..n]);
      assert Mirrored(rules, parent, identity, Branch(w'.chain, r), w'.host);
    } else {
      FreshWallet(rules, parent, identity, w.host.tables, height);
      NoJournal(rules, parent, []);
      PrefixOn(rules, identity, chain, 0);
      assert chain[..0] == [];
      assert Mirrored(rules, parent, identity, Branch([], 0), w'.host);
    }
  }

  lemma NoJournal(rules: Rules, parent: Bytes32, chain: seq<Link>)
    requires rules.parameters.epochBlocks > 0
    ensures Meaning(rules, parent, Branch(chain, 0)) == Core(ReplayChain(rules, parent, chain), [])
    ensures chain == [] ==> ReplayChain(rules, parent, chain) == Genesis(rules, parent)
  {
    assert JournalOf(rules, parent, chain, 0) == [];
  }

  lemma FreshWallet(rules: Rules, parent: Bytes32, identity: StoreIdentity, t: Tables, height: u32)
    requires rules.parameters.epochBlocks > 0
    ensures Mirrors(rules, parent, [], 0, DropWalletCommits(Cleared(t), height))
  {
  }

  function NewWallet(rules: Rules, parent: Bytes32): Wallet {
    Wallet([], Host(Core(Genesis(rules, parent), []), EMPTY_TABLES, false))
  }

  ghost predicate WalletRun(rules: Rules, parent: Bytes32, identity: StoreIdentity, events: seq<WalletEvent>,
                            states: seq<Wallet>)
    requires rules.parameters.epochBlocks > 0
  {
    && |states| == |events| + 1
    && states[0] == NewWallet(rules, parent)
    && forall i :: 0 <= i < |events| ==> WalletStep(rules, parent, identity, states[i], events[i], states[i + 1])
  }

  lemma NewWalletMirrored(rules: Rules, parent: Bytes32, identity: StoreIdentity)
    requires rules.parameters.epochBlocks > 0
    ensures WalletMirrored(rules, parent, identity, NewWallet(rules, parent))
  {
    assert JournalOf(rules, parent, [], 0) == [];
    assert Mirrors(rules, parent, [], 0, EMPTY_TABLES);
    assert Mirrored(rules, parent, identity, Branch([], 0), NewWallet(rules, parent).host);
  }

  /**
   Rewinds may be mixed in any way with applied, rolled back and finalized blocks: the store never refuses a
   call, and always mirrors the blocks the wallet holds and the reducer that goes with them.
   */
  lemma {:induction false} WalletStaysMirrored(rules: Rules, parent: Bytes32, identity: StoreIdentity,
                                               events: seq<WalletEvent>, states: seq<Wallet>)
    requires rules.parameters.Validated() && WalletRun(rules, parent, identity, events, states)
    ensures WalletMirrored(rules, parent, identity, states[|events|])
    decreases |events|
  {
    hide WalletMirrored, WalletStep;
    if events == [] {
      NewWalletMirrored(rules, parent, identity);
    } else {
      var n := |events| - 1;
      WalletStaysMirrored(rules, parent, identity, events[..n], states[..n + 1]);
      match events[n]
      case Replayed(event) => ReplayMirrored(rules, parent, identity, states[n], event, states[n + 1]);
      case Rewound(height) => RewindMirrored(rules, parent, identity, states[n], height, states[n + 1]);
    }
  }
}
