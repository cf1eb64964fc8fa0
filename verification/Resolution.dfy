/** What resolution answers, and for which heights, told by the chain. */
module Resolutions {
  import opened Collections
  import opened Protocol
  import opened Schedule
  import opened Replay
  import opened Journal
  import opened Lifecycles
  import opened Runs
  import opened History

  /** Only the tip is answered for, or the parent of activation before any block. */
  lemma AnsweredIff(rules: Rules, w: World, name: Name, height: u32)
    ensures
      var r := ResolveAuthenticated(rules, w, name, height);
      && (r.Ok? <==> w.tipHeight == Some(height)
                     || (w.tipHeight.None? && height + 1 == rules.parameters.activationHeight))
      && (r.Err? ==> r == match w.tipHeight
                          case None => Err(IncompleteHistory(height, None))
                          case Some(tip) =>
                            if height > tip then Err(IncompleteHistory(height, Some(tip)))
                            else Err(HistoricalResolutionUnavailable(height, tip)))
  {
  }

  /** Before any block every name is Missing. */
  lemma NothingBeforeActivation(rules: Rules, parent: Bytes32, name: Name, height: u32)
    requires height + 1 == rules.parameters.activationHeight
    ensures ResolveAuthenticated(rules, Genesis(rules, parent), name, height) == Ok(Resolution(Missing, None, None))
  {
  }

  /** What the head map answers at the tip, by the head's terminal height alone. */
  lemma AnswerAtTip(rules: Rules, heads: map<NameId, Head>, name: Name, id: NameId, tip: u32)
    requires rules.parameters.Validated() && rules.nameId(name) == Some(id)
    requires id in heads ==> HeadOk(rules, tip, id, heads[id])
    ensures
      Resolve(rules, heads, name, tip)
      == if id !in heads then Resolution(Missing, None, None)
         else if heads[id].terminalHeight.None? then Resolution(Active, Some(heads[id].ua), Some(heads[id]))
         else Resolution(Cooldown, None, Some(heads[id]))
  {
  }

  /** The address in the operation of transaction `b` of block `a`. */
  function AddressIn(chain: seq<Link>, a: int, b: int): Option<Ua> {
    if 0 <= a < |chain| && 0 <= b < |chain[a].block.transactions|
       && chain[a].block.transactions[b].operation.Some? && !chain[a].block.transactions[b].operation.value.Commit?
    then Some(chain[a].block.transactions[b].operation.value.ua)
    else None
  }

  lemma HeadAddress(rules: Rules, chain: seq<Link>, a: int, b: int)
    requires rules.parameters.epochBlocks > 0 && HeadFrom(rules, chain, a, b).Some?
    ensures AddressIn(chain, a, b) == Some(HeadFrom(rules, chain, a, b).value.ua)
  {
  }

  /**
   At the tip of a chain a name resolves by its last accepted operation: Active with that operation's address
   and head while nothing has ended it, Cooldown with the ended head and no address until a cooldown has
   passed since the first end, and Missing otherwise.
   */
  lemma ResolutionTraced(rules: Rules, parent: Bytes32, chain: seq<Link>, name: Name, id: NameId)
    requires rules.parameters.Validated() && ValidChain(rules, parent, chain) && chain != []
    requires rules.nameId(name) == Some(id)
    ensures
      var k := |chain| - 1;
      var n, tip, d := |chain[k].block.transactions|, chain[k].block.height, rules.parameters.cooldownBlocks;
      var r := ResolveAuthenticated(rules, ReplayChain(rules, parent, chain), name, tip);
      && r.Ok?
      && (forall a, b :: HeldFrom(rules, parent, chain, k, n, id, a, b, 0) ==>
            r.value == Resolution(Active, AddressIn(chain, a, b), HeadFrom(rules, chain, a, b)))
      && (forall a, b :: HeldFrom(rules, parent, chain, k, n, id, a, b, d)
                         && !HeldFrom(rules, parent, chain, k, n, id, a, b, 0) ==>
            && r.value.lifecycle == Cooldown && r.value.ua == None && r.value.head.Some?
            && r.value.head.value.terminalHeight.Some?
            && SameButEnd(HeadFrom(rules, chain, a, b), r.value.head))
      && ((forall a, b :: !HeldFrom(rules, parent, chain, k, n, id, a, b, d)) ==>
            r.value == Resolution(Missing, None, None))
  {
    hide RecordsBefore, ReplayChain, ValidChain, HeadFrom, HeldFrom, Replay.Resolve, ProducedBefore, AddressIn, HeadOk;
    var k := |chain| - 1;
    var n, tip, d := |chain[k].block.transactions|, chain[k].block.height, rules.parameters.cooldownBlocks;
    var heads := RecordsBefore(rules, parent, chain, k, n).heads;
    assert chain[..k + 1] == chain;
    ChainHeights(rules, parent, chain);
    NextHead(rules, parent, chain, k, id);
    BeforeOk(rules, parent, chain, k, n);
    AnswerAtTip(rules, heads, name, id, tip);
    HeadTraced(rules, parent, chain, k, n, id);
    forall a, b | HeldFrom(rules, parent, chain, k, n, id, a, b, 0)
      ensures id in heads && heads[id].terminalHeight.None? && Some(heads[id]) == HeadFrom(rules, chain, a, b)
      ensures AddressIn(chain, a, b) == Some(heads[id].ua)
    {
      HeldNow(rules, parent, chain, k, n, id, a, b);
    }
    forall a, b | HeldFrom(rules, parent, chain, k, n, id, a, b, d)
                  && !HeldFrom(rules, parent, chain, k, n, id, a, b, 0)
      ensures id in heads && heads[id].terminalHeight.Some? && SameButEnd(HeadFrom(rules, chain, a, b), Some(heads[id]))
    {
      EndedNow(rules, parent, chain, k, n, id, a, b);
    }
  }

  lemma HeldNow(rules: Rules, parent: Bytes32, chain: seq<Link>, k: nat, n: nat, id: NameId, a: int, b: int)
    requires rules.parameters.Validated() && ValidChain(rules, parent, chain)
    requires k < |chain| && n <= |chain[k].block.transactions|
    requires HeldFrom(rules, parent, chain, k, n, id, a, b, 0)
    ensures HeadFrom(rules, chain, a, b).Some?
    ensures HeadFrom(rules, chain, a, b) == Lookup(RecordsBefore(rules, parent, chain, k, n).heads, id)
    ensures HeadFrom(rules, chain, a, b).value.terminalHeight.None?
    ensures AddressIn(chain, a, b) == Some(HeadFrom(rules, chain, a, b).value.ua)
  {
    hide RecordsBefore, ValidChain, LastBefore, Lasts, HeadFrom, AddressIn;
    HeadFromUnended(rules, chain, a, b);
    HeadAddress(rules, chain, a, b);
    ActiveHeadTraced(rules, parent, chain, k, n, id, HeadFrom(rules, chain, a, b).value);
  }

  lemma EndedNow(rules: Rules, parent: Bytes32, chain: seq<Link>, k: nat, n: nat, id: NameId, a: int, b: int)
    requires rules.parameters.Validated() && ValidChain(rules, parent, chain)
    requires k < |chain| && n <= |chain[k].block.transactions|
    requires HeldFrom(rules, parent, chain, k, n, id, a, b, rules.parameters.cooldownBlocks)
    requires !HeldFrom(rules, parent, chain, k, n, id, a, b, 0)
    ensures
      var heads := RecordsBefore(rules, parent, chain, k, n).heads;
      id in heads && heads[id].terminalHeight.Some? && SameButEnd(HeadFrom(rules, chain, a, b), Some(heads[id]))
  {
    hide RecordsBefore, ValidChain, LastBefore, Lasts, HeadFrom;
    HeadTraced(rules, parent, chain, k, n, id);
    var a', b' := TraceHead(rules, parent, chain, k, n, id);
    LastUnique(rules, parent, chain, k, n, id, a, b, a', b');
    HeldLasts(rules, parent, chain, k, n, id, HeadFrom(rules, chain, a, b).value);
  }
}
