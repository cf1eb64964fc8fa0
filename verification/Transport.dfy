/**
 Global positions of Ironwood actions: where in the commitment tree an action of a block landed,
 counted back from the tree size after the block or forward from the one before it.
 */
module Transport {
  import opened Collections
  import opened Protocol

  datatype BlockTransportError = InvalidActionEffects | InvalidActionPosition

  /** What Core reports of one transaction: its index and the effects of its actions. */
  datatype CoreTransaction = CoreTransaction(
    txIndex: u32, nullifiers: seq<FieldElement>, commitments: seq<FieldElement>)
  {
    predicate Balanced() {
      |nullifiers| == |commitments|
    }
  }

  /** Number of actions in a run of transactions. */
  function Total(txs: seq<CoreTransaction>): nat {
    if txs == [] then 0 else Total(txs[..|txs| - 1]) + |txs[|txs| - 1].commitments|
  }

  /** Position in the list of the first transaction with the index, or the length of the list. */
  function Match(txs: seq<CoreTransaction>, txIndex: u32): (k: nat)
    ensures k <= |txs| && forall i :: 0 <= i < k ==> txs[i].txIndex != txIndex
    ensures k < |txs| ==> txs[k].txIndex == txIndex
  {
    if txs == [] then 0
    else
      var n := |txs| - 1;
      var k := Match(txs[..n], txIndex);
      if k < n || txs[n].txIndex == txIndex then k else |txs|
  }

  /** Position in the list of the first transaction with unbalanced effects, or the length of the list. */
  function Flaw(txs: seq<CoreTransaction>): (k: nat)
    ensures k <= |txs| && forall i :: 0 <= i < k ==> txs[i].Balanced()
    ensures k < |txs| ==> !txs[k].Balanced()
  {
    if txs == [] then 0
    else
      var n := |txs| - 1;
      var k := Flaw(txs[..n]);
      if k < n || !txs[n].Balanced() then k else |txs|
  }

  /** Where action `a` of transaction `k` lands when the block's first action lands at `start`. */
  function Place(txs: seq<CoreTransaction>, start: nat, k: nat, a: nat): nat
    requires k < |txs|
  {
    start + Total(txs[..k]) + a
  }

  /** The forward count: a flaw matters only if it is reached before the transaction asked for. */
  function Position(txs: seq<CoreTransaction>, start: u32, txIndex: u32, actionIndex: u32)
    : Result<u32, BlockTransportError>
  {
    var k, flaw := Match(txs, txIndex), Flaw(txs);
    if flaw < |txs| && flaw <= k && start + Total(txs[..flaw]) < U32_LIMIT then Err(InvalidActionEffects)
    else if k < flaw && actionIndex < |txs[k].commitments| < U32_LIMIT
            && Place(txs, start, k, actionIndex) < U32_LIMIT then Ok(Place(txs, start, k, actionIndex))
    else Err(InvalidActionPosition)
  }

  /** The count back from the size after the block: a flaw anywhere in the block matters. */
  function AuthenticatedPosition(txs: seq<CoreTransaction>, treeSize: u32, txIndex: u32, actionIndex: u32)
    : Result<u32, BlockTransportError>
  {
    var flaw := Flaw(txs);
    if flaw < |txs| && Total(txs[..flaw]) < U32_LIMIT then Err(InvalidActionEffects)
    else if flaw < |txs| || Total(txs) > treeSize then Err(InvalidActionPosition)
    else Position(txs, treeSize - Total(txs), txIndex, actionIndex)
  }

  lemma {:induction false} TotalGrows(txs: seq<CoreTransaction>, j: nat, k: nat)
    requires j <= k <= |txs|
    ensures Total(txs[..j]) <= Total(txs[..k]) <= Total(txs)
    ensures j < k ==> Total(txs[..j]) + |txs[j].commitments| <= Total(txs[..k])
    decreases |txs|
  {
    if k < |txs| {
      var front := txs[..|txs| - 1];
      TotalGrows(front, j, k);
      assert front[..j] == txs[..j] && front[..k] == txs[..k];
    } else if j < k {
      var front := txs[..|txs| - 1];
      TotalGrows(front, j, |front|);
      assert front[..j] == txs[..j] && front[..|front|] == front && txs[..k] == txs;
    } else {
      assert txs[..k] == txs;
    }
  }

  lemma TotalStep(txs: seq<CoreTransaction>, k: nat)
    requires k < |txs|
    ensures Total(txs[..k + 1]) == Total(txs[..k]) + |txs[k].commitments|
    ensures forall m :: k < m <= |txs| ==> Total(txs[..k + 1]) <= Total(txs[..m])
  {
    assert txs[..k + 1][..k] == txs[..k];
    forall m | k < m <= |txs| ensures Total(txs[..k + 1]) <= Total(txs[..m]) {
      TotalGrows(txs, k + 1, m);
    }
  }

  /** Counts forward from the tree size before the block and stops at the transaction asked for. */
  method ActionPosition(txs: seq<CoreTransaction>, start: u32, txIndex: u32, actionIndex: u32)
    returns (r: Result<u32, BlockTransportError>)
    ensures r == Position(txs, start, txIndex, actionIndex)
  {
    var position := start;
    for k := 0 to |txs|
      invariant k <= Match(txs, txIndex) && k <= Flaw(txs)
      invariant position == start + Total(txs[..k])
    {
      if |txs[k].nullifiers| != |txs[k].commitments| {
        return Err(InvalidActionEffects);
      }
      TotalStep(txs, k);
      if |txs[k].commitments| >= U32_LIMIT {
        return Err(InvalidActionPosition);
      }
      if txs[k].txIndex == txIndex {
        if actionIndex >= |txs[k].commitments| {
          return Err(InvalidActionPosition);
        }
        var found := CheckedAdd(position, actionIndex);
        return if found.Some? then Ok(found.value) else Err(InvalidActionPosition);
      }
      var next := CheckedAdd(position, |txs[k].commitments|);
      if next.None? {
        return Err(InvalidActionPosition);
      }
      position := next.value;
    }
    r := Err(InvalidActionPosition);
  }

  /** Counts the actions of the whole block. */
  method TotalActions(txs: seq<CoreTransaction>) returns (r: Result<u32, BlockTransportError>)
    ensures r == if Flaw(txs) < |txs| && Total(txs[..Flaw(txs)]) < U32_LIMIT then Err(InvalidActionEffects)
                 else if Flaw(txs) < |txs| || Total(txs) >= U32_LIMIT then Err(InvalidActionPosition)
                 else Ok(Total(txs))
  {
    var total: u32 := 0;
    assert txs[..|txs|] == txs;
    for k := 0 to |txs|
      invariant k <= Flaw(txs) && total == Total(txs[..k])
    {
      if |txs[k].nullifiers| != |txs[k].commitments| {
        return Err(InvalidActionEffects);
      }
      TotalStep(txs, k);
      if |txs[k].commitments| >= U32_LIMIT {
        return Err(InvalidActionPosition);
      }
      var sum := CheckedAdd(total, |txs[k].commitments|);
      if sum.None? {
        return Err(InvalidActionPosition);
      }
      total := sum.value;
    }
    r := Ok(total);
  }

  /** Takes the block's actions off the tree size after it and then counts forward. */
  method AuthenticatedActionPosition(txs: seq<CoreTransaction>, treeSize: u32, txIndex: u32, actionIndex: u32)
    returns (r: Result<u32, BlockTransportError>)
    ensures r == AuthenticatedPosition(txs, treeSize, txIndex, actionIndex)
  {
    var total :- TotalActions(txs);
    if treeSize < total {
      return Err(InvalidActionPosition);
    }
    var position: u32 := treeSize - total;
    for k := 0 to |txs|
      invariant k <= Match(txs, txIndex)
      invariant position == treeSize - total + Total(txs[..k])
    {
      TotalStep(txs, k);
      if |txs[k].commitments| >= U32_LIMIT {
        return Err(InvalidActionPosition);
      }
      if txs[k].txIndex == txIndex {
        if actionIndex >= |txs[k].commitments| {
          return Err(InvalidActionPosition);
        }
        var found := CheckedAdd(position, actionIndex);
        return if found.Some? then Ok(found.value) else Err(InvalidActionPosition);
      }
      var next := CheckedAdd(position, |txs[k].commitments|);
      if next.None? {
        return Err(InvalidActionPosition);
      }
      position := next.value;
    }
    r := Err(InvalidActionPosition);
  }

  /**
   The two counts over one block agree exactly when no transaction is unbalanced, or the first
   unbalanced one comes no later than the one asked for.
   */
  lemma CountsAgree(txs: seq<CoreTransaction>, start: u32, treeSize: u32, txIndex: u32, actionIndex: u32)
    requires treeSize == start + Total(txs)
    ensures AuthenticatedPosition(txs, treeSize, txIndex, actionIndex) == Position(txs, start, txIndex, actionIndex)
            <==> Flaw(txs) == |txs| || Flaw(txs) <= Match(txs, txIndex)
  {
    TotalGrows(txs, 0, Flaw(txs));
  }

  /** Indices strictly increase, as they do in a canonical block. */
  predicate Ordered(txs: seq<CoreTransaction>) {
    forall i, j :: 0 <= i < j < |txs| ==> txs[i].txIndex < txs[j].txIndex
  }

  /** Later actions land later, so no two actions share a position. */
  lemma PlacesIncrease(txs: seq<CoreTransaction>, start: nat, k: nat, a: nat, k': nat, a': nat)
    requires k < |txs| && a < |txs[k].commitments| && k' < |txs| && a' < |txs[k'].commitments|
    ensures Place(txs, start, k, a) < Place(txs, start, k', a') <==> k < k' || (k == k' && a < a')
  {
    if k < k' {
      TotalGrows(txs, k, k');
    } else if k' < k {
      TotalGrows(txs, k', k);
    }
  }

  /** Every position the block added to the tree belongs to one of its actions. */
  lemma {:induction false} PlacesCover(txs: seq<CoreTransaction>, start: nat, p: nat) returns (k: nat, a: nat)
    requires start <= p < start + Total(txs)
    ensures k < |txs| && a < |txs[k].commitments| && Place(txs, start, k, a) == p
  {
    var n := |txs| - 1;
    var front := txs[..n];
    if p < start + Total(front) {
      k, a := PlacesCover(front, start, p);
      assert front[..k] == txs[..k];
    } else {
      k, a := n, p - start - Total(front);
    }
  }

  lemma AnswerInside(txs: seq<CoreTransaction>, start: u32, i: u32, a: u32, p: u32)
    requires Position(txs, start, i, a) == Ok(p)
    ensures start <= p < start + Total(txs)
  {
    var k := Match(txs, i);
    TotalStep(txs, k);
    TotalGrows(txs, k, k + 1);
  }

  lemma AnswerFor(txs: seq<CoreTransaction>, start: u32, k: nat, a: u32)
    requires Ordered(txs) && Flaw(txs) == |txs| && start + Total(txs) < U32_LIMIT
    requires k < |txs| && a < |txs[k].commitments|
    ensures Place(txs, start, k, a) < U32_LIMIT
    ensures Position(txs, start, txs[k].txIndex, a) == Ok(Place(txs, start, k, a))
  {
    TotalStep(txs, k);
    TotalGrows(txs, k, k + 1);
    assert Match(txs, txs[k].txIndex) == k;
  }

  lemma AnswersDiffer(txs: seq<CoreTransaction>, start: u32, i: u32, a: u32, i': u32, a': u32, p: u32)
    requires Position(txs, start, i, a) == Ok(p) && Position(txs, start, i', a') == Ok(p)
    ensures i == i' && a == a'
  {
    PlacesIncrease(txs, start, Match(txs, i), a, Match(txs, i'), a');
    PlacesIncrease(txs, start, Match(txs, i'), a', Match(txs, i), a);
  }

  /**
   In a well-formed block the answers are exactly the positions the block added to the tree, and no
   two actions have the same one; `CountsAgree` gives the same for the count back.
   */
  lemma AnswersAreTheBlock(txs: seq<CoreTransaction>, start: u32, p: u32)
    requires Ordered(txs) && Flaw(txs) == |txs| && start + Total(txs) < U32_LIMIT
    ensures (exists i: u32, a: u32 :: Position(txs, start, i, a) == Ok(p)) <==> start <= p < start + Total(txs)
    ensures forall i: u32, a: u32, i': u32, a': u32 ::
              Position(txs, start, i, a) == Ok(p) && Position(txs, start, i', a') == Ok(p) ==> i == i' && a == a'
  {
    hide Position, Total, Match, Flaw, Ordered;
    forall i: u32, a: u32 | Position(txs, start, i, a) == Ok(p) ensures start <= p < start + Total(txs) {
      AnswerInside(txs, start, i, a, p);
    }
    if start <= p < start + Total(txs) {
      var k, a := PlacesCover(txs, start, p);
      AnswerFor(txs, start, k, a);
    }
    forall i: u32, a: u32, i': u32, a': u32
      | Position(txs, start, i, a) == Ok(p) && Position(txs, start, i', a') == Ok(p)
      ensures i == i' && a == a'
    {
      AnswersDiffer(txs, start, i, a, i', a', p);
    }
  }

  /** The forward count answers exactly when the first transaction with the index is reached and has such an action. */
  lemma PositionIff(txs: seq<CoreTransaction>, start: u32, txIndex: u32, actionIndex: u32, p: u32)
    ensures
      Position(txs, start, txIndex, actionIndex) == Ok(p)
      <==> exists k :: 0 <= k < |txs| && AnswersFrom(txs, start, txIndex, actionIndex, k)
                       && p == Place(txs, start, k, actionIndex)
  {
    var k := Match(txs, txIndex);
    if Position(txs, start, txIndex, actionIndex) == Ok(p) {
      assert AnswersFrom(txs, start, txIndex, actionIndex, k);
    }
  }

  predicate AnswersFrom(txs: seq<CoreTransaction>, start: u32, txIndex: u32, actionIndex: u32, k: nat)
    requires k < |txs|
  {
    && txs[k].txIndex == txIndex && (forall i :: 0 <= i < k ==> txs[i].txIndex != txIndex)
    && (forall i :: 0 <= i <= k ==> |txs[i].nullifiers| == |txs[i].commitments|)
    && actionIndex < |txs[k].commitments| < U32_LIMIT && Place(txs, start, k, actionIndex) < U32_LIMIT
  }

  /** It reports bad effects exactly for an unbalanced transaction it reaches first. */
  lemma EffectsIff(txs: seq<CoreTransaction>, start: u32, txIndex: u32, actionIndex: u32)
    ensures
      Position(txs, start, txIndex, actionIndex) == Err(InvalidActionEffects)
      <==> exists i :: 0 <= i < |txs| && FailsAt(txs, start, i) && forall j :: 0 <= j < i ==> txs[j].txIndex != txIndex
  {
    if Position(txs, start, txIndex, actionIndex) == Err(InvalidActionEffects) {
      assert FailsAt(txs, start, Flaw(txs));
    }
  }

  predicate FailsAt(txs: seq<CoreTransaction>, start: nat, i: nat)
    requires i < |txs|
  {
    && |txs[i].nullifiers| != |txs[i].commitments|
    && (forall j :: 0 <= j < i ==> |txs[j].nullifiers| == |txs[j].commitments|)
    && start + Total(txs[..i]) < U32_LIMIT
  }

  /** The count back reports bad effects anywhere, and otherwise counts forward from the size before the block. */
  lemma AuthenticatedIff(txs: seq<CoreTransaction>, treeSize: u32, txIndex: u32, actionIndex: u32)
    ensures
      var r := AuthenticatedPosition(txs, treeSize, txIndex, actionIndex);
      && (r == Err(InvalidActionEffects) <==> exists i :: 0 <= i < |txs| && FailsAt(txs, 0, i))
      && (r.Ok? ==> Total(txs) <= treeSize && forall i :: 0 <= i < |txs| ==> txs[i].Balanced())
      && ((forall i :: 0 <= i < |txs| ==> txs[i].Balanced()) && Total(txs) <= treeSize ==>
            r == Position(txs, treeSize - Total(txs), txIndex, actionIndex))
  {
    if Flaw(txs) < |txs| && Total(txs[..Flaw(txs)]) < U32_LIMIT {
      assert FailsAt(txs, 0, Flaw(txs));
    }
    hide Total, Match;
  }
}
