/**
 The reducer as it runs: two authoritative maps, four acceleration indexes over them, and a
 journal of undo entries. Every method is proved to act on the records and the journal exactly
 as the simple form does, and to leave each index equal to one rebuilt from the records.
 */
module IndexedReducer {
  import opened Collections
  import opened Protocol
  import opened Schedule
  import opened Replay
  import opened Journal
  import opened Snapshots

  datatype Compaction = Compaction(nameId: NameId, previousHead: StateRef, height: u32)

  datatype BlockOutcome = BlockOutcome(
    accepted: seq<Accepted>, decisions: seq<Decision>, compacted: seq<Compaction>,
    terminated: seq<Termination>, stateDelta: StateDelta)

  // ---- what the indexes index ----

  ghost function CommitHeights(commits: map<CommitRef, Commitment>): map<CommitRef, u32> {
    map r | r in commits :: r.height
  }

  ghost function FutureNullifiers(heads: map<NameId, Head>): map<NameId, FieldElement> {
    map id | id in heads :: heads[id].futureNf
  }

  ghost function ActiveExpiries(heads: map<NameId, Head>): map<NameId, u32> {
    map id | id in heads && heads[id].terminalHeight.None? :: heads[id].expiryHeight
  }

  ghost function TerminalHeights(heads: map<NameId, Head>): map<NameId, u32> {
    map id | id in heads && heads[id].terminalHeight.Some? :: heads[id].terminalHeight.value
  }

  lemma KeysWithout(heads: map<NameId, Head>, id: NameId)
    ensures FutureNullifiers(heads - {id}) == FutureNullifiers(heads) - {id}
    ensures ActiveExpiries(heads - {id}) == ActiveExpiries(heads) - {id}
    ensures TerminalHeights(heads - {id}) == TerminalHeights(heads) - {id}
  {
  }

  lemma KeysWith(heads: map<NameId, Head>, id: NameId, head: Head)
    requires id !in heads
    ensures FutureNullifiers(heads[id := head]) == FutureNullifiers(heads)[id := head.futureNf]
    ensures head.terminalHeight.None? ==>
      && ActiveExpiries(heads[id := head]) == ActiveExpiries(heads)[id := head.expiryHeight]
      && TerminalHeights(heads[id := head]) == TerminalHeights(heads)
    ensures head.terminalHeight.Some? ==>
      && ActiveExpiries(heads[id := head]) == ActiveExpiries(heads)
      && TerminalHeights(heads[id := head]) == TerminalHeights(heads)[id := head.terminalHeight.value]
  {
    if head.terminalHeight.None? {
      SameLookups(ActiveExpiries(heads[id := head]), ActiveExpiries(heads)[id := head.expiryHeight]);
      SameLookups(TerminalHeights(heads[id := head]), TerminalHeights(heads));
    } else {
      SameLookups(ActiveExpiries(heads[id := head]), ActiveExpiries(heads));
      SameLookups(TerminalHeights(heads[id := head]), TerminalHeights(heads)[id := head.terminalHeight.value]);
    }
  }

  ghost predicate IndexesOf(heads: map<NameId, Head>, futureNf: map<FieldElement, set<NameId>>,
                            expiry: map<u32, set<NameId>>, terminal: map<u32, set<NameId>>) {
    && futureNf == Inverted(FutureNullifiers(heads))
    && expiry == Inverted(ActiveExpiries(heads))
    && terminal == Inverted(TerminalHeights(heads))
  }

  lemma NoCommitIndex()
    ensures Inverted(CommitHeights(map[])) == map[]
  {
  }

  lemma NoIndexes()
    ensures IndexesOf(map[], map[], map[], map[])
  {
  }

  lemma IndexesGrow(heads: map<NameId, Head>, id: NameId, head: Head, futureNf: map<FieldElement, set<NameId>>,
                    expiry: map<u32, set<NameId>>, terminal: map<u32, set<NameId>>)
    requires IndexesOf(heads, futureNf, expiry, terminal) && id !in heads
    ensures
      var more := AddEntry(futureNf, head.futureNf, id);
      match head.terminalHeight
      case Some(height) => IndexesOf(heads[id := head], more, expiry, AddEntry(terminal, height, id))
      case None => IndexesOf(heads[id := head], more, AddEntry(expiry, head.expiryHeight, id), terminal)
  {
    hide Inverted, AddEntry;
    KeysWith(heads, id, head);
    AddEntryTracks(FutureNullifiers(heads), id, head.futureNf);
    match head.terminalHeight
    case Some(height) => AddEntryTracks(TerminalHeights(heads), id, height);
    case None => AddEntryTracks(ActiveExpiries(heads), id, head.expiryHeight);
  }

  // ---- journaling ----

  /** First write wins: a key already journaled keeps its entry. */
  function Remember<K, V>(undo: map<K, Option<V>>, now: map<K, V>, k: K): map<K, Option<V>> {
    if k in undo then undo else undo[k := Lookup(now, k)]
  }

  /** Journaled keys hold the value from the start of the block; the others have not changed. */
  ghost predicate Journaled<K(!new), V>(undo: map<K, Option<V>>, base: map<K, V>, now: map<K, V>) {
    forall k :: Lookup(base, k) == if k in undo then undo[k] else Lookup(now, k)
  }

  lemma RememberThenPut<K(!new), V>(undo: map<K, Option<V>>, base: map<K, V>, now: map<K, V>, k: K, v: Option<V>)
    requires Journaled(undo, base, now)
    ensures Journaled(Remember(undo, now, k), base, Put(now, k, v))
    ensures Remember(undo, now, k).Keys == undo.Keys + {k}
  {
    var after, u := Put(now, k, v), Remember(undo, now, k);
    forall j ensures Lookup(base, j) == if j in u then u[j] else Lookup(after, j) {
      assert Lookup(base, j) == if j in undo then undo[j] else Lookup(now, j);
    }
  }

  lemma NothingJournaled<K(!new), V>(base: map<K, V>)
    ensures Journaled(map[], base, base)
  {
  }

  lemma RememberOnly<K(!new), V>(undo: map<K, Option<V>>, base: map<K, V>, now: map<K, V>, k: K)
    requires Journaled(undo, base, now)
    ensures Journaled(Remember(undo, now, k), base, now)
  {
  }

  lemma JournaledIsRecord<K(!new), V>(undo: map<K, Option<V>>, base: map<K, V>, now: map<K, V>)
    requires Journaled(undo, base, now)
    ensures undo == Record(base, undo.Keys)
  {
  }

  lemma RecordedChanges<K(!new), V>(before: map<K, V>, after: map<K, V>, ks: set<K>)
    ensures (map k | k in Record(before, ks) :: Change(Record(before, ks)[k], Lookup(after, k)))
            == Changes(before, after, ks)
  {
  }

  // ---- loops over the records, by the part already done ----

  ghost function MarkedIn(heads: map<NameId, Head>, height: u32, done: set<NameId>): map<NameId, Head> {
    map id | id in heads :: if id in done then Marked(heads[id], height) else heads[id]
  }

  lemma MarkOneMore(heads: map<NameId, Head>, height: u32, done: set<NameId>, id: NameId)
    requires id in heads && id !in done && Expires(heads[id], height)
    ensures Lookup(MarkedIn(heads, height, done), id) == Some(heads[id])
    ensures Put(MarkedIn(heads, height, done), id, Some(heads[id].(terminalHeight := Some(heads[id].expiryHeight))))
            == MarkedIn(heads, height, done + {id})
  {
  }

  lemma MarkedNone(heads: map<NameId, Head>, height: u32)
    ensures MarkedIn(heads, height, {}) == heads
  {
  }

  ghost function SpentIn(before: map<NameId, Head>, middle: map<NameId, Head>, tx: Transaction, height: u32,
                         done: set<NameId>): map<NameId, Head> {
    map id | id in middle ::
      if id in done && Ends(before, middle, tx, id)
      then middle[id].(terminalHeight := Some(height))
      else middle[id]
  }

  lemma SpendOneMore(before: map<NameId, Head>, middle: map<NameId, Head>, tx: Transaction, height: u32,
                     done: set<NameId>, id: NameId)
    ensures
      if Ends(before, middle, tx, id)
      then Put(SpentIn(before, middle, tx, height, done), id, Some(middle[id].(terminalHeight := Some(height))))
           == SpentIn(before, middle, tx, height, done + {id})
      else SpentIn(before, middle, tx, height, done) == SpentIn(before, middle, tx, height, done + {id})
  {
  }

  ghost function StillSpentIn(before: map<NameId, Head>, middle: map<NameId, Head>, tx: Transaction,
                              done: set<NameId>): set<NameId> {
    set id | id in done && StillSpent(before, middle, tx, id)
  }

  lemma SpentNone(before: map<NameId, Head>, middle: map<NameId, Head>, tx: Transaction, height: u32)
    ensures SpentIn(before, middle, tx, height, {}) == middle
  {
  }

  lemma SpentLookup(before: map<NameId, Head>, middle: map<NameId, Head>, tx: Transaction, height: u32,
                    done: set<NameId>, id: NameId)
    requires id !in done
    ensures Lookup(SpentIn(before, middle, tx, height, done), id) == Lookup(middle, id)
  {
  }

  lemma StillSpentNone(before: map<NameId, Head>, middle: map<NameId, Head>, tx: Transaction)
    ensures StillSpentIn(before, middle, tx, {}) == {}
  {
  }

  lemma StillSpentOneMore(before: map<NameId, Head>, middle: map<NameId, Head>, tx: Transaction,
                          done: set<NameId>, id: NameId, others: set<NameId>)
    ensures others + StillSpentIn(before, middle, tx, done + {id})
            == others + StillSpentIn(before, middle, tx, done)
               + if StillSpent(before, middle, tx, id) then {id} else {}
  {
    assert StillSpentIn(before, middle, tx, done + {id})
        == StillSpentIn(before, middle, tx, done) + if StillSpent(before, middle, tx, id) then {id} else {};
  }

  lemma SpentAll(before: map<NameId, Head>, middle: map<NameId, Head>, tx: Transaction, height: u32,
                 spent: set<NameId>)
    requires forall id :: id in spent <==> id in before && Carries(tx, before[id].futureNf)
    ensures SpentIn(before, middle, tx, height, spent) == SpendPass(before, middle, tx, height)
    ensures StillSpentIn(before, middle, tx, spent) == set id | id in before && StillSpent(before, middle, tx, id)
  {
  }

  /** The terminations reported while running through spent names in order. */
  ghost function TerminationsOf(before: map<NameId, Head>, middle: map<NameId, Head>, tx: Transaction,
                                height: u32, ids: seq<NameId>): seq<Termination>
  {
    if ids == [] then []
    else
      var last := ids[|ids| - 1];
      TerminationsOf(before, middle, tx, height, ids[..|ids| - 1])
      + if Ends(before, middle, tx, last)
        then [Termination(last, before[last].producer, height)]
        else []
  }

  lemma TerminationsNone(before: map<NameId, Head>, middle: map<NameId, Head>, tx: Transaction, height: u32)
    ensures TerminationsOf(before, middle, tx, height, []) == []
  {
  }

  lemma TerminationsOneMore(before: map<NameId, Head>, middle: map<NameId, Head>, tx: Transaction,
                            height: u32, ids: seq<NameId>, i: nat)
    requires i < |ids|
    ensures TerminationsOf(before, middle, tx, height, ids[..i + 1])
            == TerminationsOf(before, middle, tx, height, ids[..i])
               + if Ends(before, middle, tx, ids[i])
                 then [Termination(ids[i], before[ids[i]].producer, height)]
                 else []
  {
    assert ids[..i + 1][..i] == ids[..i];
  }

  lemma {:induction false} TerminationsAscend(
    before: map<NameId, Head>, middle: map<NameId, Head>, tx: Transaction, height: u32, ids: seq<NameId>)
    requires StrictlyAscending(ids)
    ensures
      var ts := TerminationsOf(before, middle, tx, height, ids);
      && StrictlyAscending(TerminatedNames(ts))
      && (forall id :: id in TerminatedNames(ts) <==> id in ids && Ends(before, middle, tx, id))
      && (forall i :: 0 <= i < |ts| ==>
            Ends(before, middle, tx, ts[i].nameId)
            && ts[i] == Termination(ts[i].nameId, before[ts[i].nameId].producer, height))
  {
    if ids != [] {
      var front, last := ids[..|ids| - 1], ids[|ids| - 1];
      TerminationsAscend(before, middle, tx, height, front);
      var was, ts := TerminationsOf(before, middle, tx, height, front), TerminationsOf(before, middle, tx, height, ids);
      var ends := Ends(before, middle, tx, last);
      assert Ends(before, middle, tx, last) ==> last in before;
      assert ts == was + if ends then [Termination(last, before[last].producer, height)] else [];
      hide Ends;
      assert ids == front + [last];
      assert forall i :: 0 <= i < |was| ==> TerminatedNames(was)[i] in TerminatedNames(was);
      assert TerminatedNames(ts) == TerminatedNames(was) + if ends then [last] else [];
    }
  }

  lemma NoEffectHeads(others: set<NameId>, effect: Effect)
    ensures !effect.PutHead? ==> others + EffectHeads(effect) == others
  {
  }

  /** A transaction in two steps: its operation, then the spend pass against the records before it. */
  lemma TxInTwoSteps(rules: Rules, rec: Records, height: u32, tx: Transaction, others: set<NameId>)
    requires rules.parameters.epochBlocks > 0
    ensures
      var effect := OperationEffect(rules, rec, height, tx);
      var middle := AfterEffect(rec, effect);
      && TxRecords(rules, rec, height, tx)
         == Records(middle.commits, SpendPass(rec.heads, middle.heads, tx, height))
      && TxDecision(rules, rec, height, tx) == EffectDecision(effect)
      && others + TxHeads(rules, rec, height, tx)
         == others + EffectHeads(effect)
            + set id | id in rec.heads && StillSpent(rec.heads, middle.heads, tx, id)
  {
    hide OperationEffect, SpendPass, EffectHeads;
  }

  lemma TerminationReport(rules: Rules, rec: Records, height: u32, tx: Transaction, ids: seq<NameId>)
    requires rules.parameters.epochBlocks > 0
    requires Enumerates(ids, set id | id in rec.heads && Carries(tx, rec.heads[id].futureNf))
    ensures
      var middle := AfterEffect(rec, OperationEffect(rules, rec, height, tx));
      ReportsTerminations(rules, rec, height, tx, TerminationsOf(rec.heads, middle.heads, tx, height, ids))
  {
    hide OperationEffect;
    var middle := AfterEffect(rec, OperationEffect(rules, rec, height, tx));
    TerminationsAscend(rec.heads, middle.heads, tx, height, ids);
  }

  lemma MarkedAll(heads: map<NameId, Head>, height: u32)
    ensures MarkedIn(heads, height, set id | id in heads && Expires(heads[id], height))
            == MarkExpired(heads, height)
  {
  }

  lemma CompactedAll(p: Parameters, heads: map<NameId, Head>, height: u32, compacting: set<NameId>)
    requires compacting == set id | id in heads && Compactable(p, heads[id], height)
    ensures heads - compacting == CompactClaimable(p, heads, height)
    ensures height < p.cooldownBlocks ==> compacting == {}
  {
  }

  lemma PrunedAll(p: Parameters, commits: map<CommitRef, Commitment>, height: u32, pruning: set<CommitRef>)
    requires pruning == set r | r in commits && Prunable(p, r, height)
    ensures commits - pruning == PruneCommits(p, commits, height)
    ensures height < p.commitTtlBlocks ==> pruning == {}
  {
  }

  lemma RemoveOneMore<K(!new), V>(m: map<K, V>, done: set<K>, k: K)
    ensures Put(m - done, k, None) == m - (done + {k})
  {
  }

  lemma AdmitOneMore<K(!new), V>(m: map<K, V>, supplied: map<K, V>, todo: set<K>, k: K)
    requires k in supplied && k in todo
    ensures Put(m + (supplied - todo), k, Some(supplied[k])) == m + (supplied - (todo - {k}))
  {
  }

  // ---- iteration orders ----

  /** `ids` are the names whose key is at most `last`, ordered by key and then by name. */
  ghost predicate OrderedThrough(ids: seq<NameId>, key: map<NameId, u32>, last: u32) {
    && (forall id :: id in ids <==> id in key && key[id] <= last)
    && (forall i, j :: 0 <= i < j < |ids| ==>
          key[ids[i]] < key[ids[j]] || (key[ids[i]] == key[ids[j]] && ids[i] < ids[j]))
  }

  method NamesThrough(index: map<u32, set<NameId>>, ghost key: map<NameId, u32>, last: u32)
    returns (ids: seq<NameId>)
    requires index == Inverted(key)
    ensures OrderedThrough(ids, key, last)
    ensures Distinct(ids)
  {
    ids := [];
    var keys := SortAscending(set k | k in index && k <= last);
    var i := 0;
    while i < |keys|
      invariant 0 <= i <= |keys|
      invariant forall id :: id in ids <==> id in key && key[id] in keys[..i]
      invariant forall a, b :: 0 <= a < b < |ids| ==>
        key[ids[a]] < key[ids[b]] || (key[ids[a]] == key[ids[b]] && ids[a] < ids[b])
    {
      assert keys[i] in keys;
      InvertedLookup(key, keys[i]);
      var bucket := SortAscending(index[keys[i]]);
      ghost var was := ids;
      assert forall a :: 0 <= a < |bucket| ==> bucket[a] in index[keys[i]];
      ids := ids + bucket;
      assert keys[..i + 1] == keys[..i] + [keys[i]];
      forall a, b | 0 <= a < b < |ids|
        ensures key[ids[a]] < key[ids[b]] || (key[ids[a]] == key[ids[b]] && ids[a] < ids[b])
      {
        if a < |was| <= b {
          assert ids[a] in was && key[ids[a]] in keys[..i] && key[ids[b]] == keys[i];
        }
      }
      i := i + 1;
    }
    assert keys[..i] == keys;
    forall id ensures id in ids <==> id in key && key[id] <= last {
      if id in key {
        InvertedLookup(key, key[id]);
        assert id in set v | v in key && key[v] == key[id];
      }
    }
  }

  /** The compaction report of a block: every compacted head, by terminal height and then by name. */
  ghost predicate ReportsCompactions(p: Parameters, marked: map<NameId, Head>, height: u32, cs: seq<Compaction>) {
    && (forall id :: (exists i :: 0 <= i < |cs| && cs[i].nameId == id)
                     <==> id in marked && Compactable(p, marked[id], height))
    && (forall i :: 0 <= i < |cs| ==>
          && cs[i].nameId in marked && marked[cs[i].nameId].terminalHeight.Some?
          && cs[i].previousHead == marked[cs[i].nameId].producer && cs[i].height == height)
    && (forall i, j :: 0 <= i < j < |cs| ==>
          var a, b := marked[cs[i].nameId].terminalHeight.value, marked[cs[j].nameId].terminalHeight.value;
          a < b || (a == b && cs[i].nameId < cs[j].nameId))
  }

  ghost predicate Compacts(cs: seq<Compaction>, ids: seq<NameId>, marked: map<NameId, Head>, height: u32) {
    && |cs| == |ids|
    && forall k :: 0 <= k < |ids| ==>
         ids[k] in marked && cs[k] == Compaction(ids[k], marked[ids[k]].producer, height)
  }

  lemma CompactionReport(
    p: Parameters, marked: map<NameId, Head>, ids: seq<NameId>, height: u32, cs: seq<Compaction>)
    requires p.cooldownBlocks <= height
    requires OrderedThrough(ids, TerminalHeights(marked), height - p.cooldownBlocks)
    requires Compacts(cs, ids, marked, height)
    ensures ReportsCompactions(p, marked, height, cs)
  {
    forall k | 0 <= k < |ids| ensures ids[k] in TerminalHeights(marked) && Compactable(p, marked[ids[k]], height) {
      assert ids[k] in ids;
    }
    forall id | id in marked && Compactable(p, marked[id], height)
      ensures exists k :: 0 <= k < |cs| && cs[k].nameId == id
    {
      assert id in ids;
      var k :| 0 <= k < |ids| && ids[k] == id;
      assert cs[k].nameId == id;
    }
  }

  /** What an accepted block reports: its decisions, lifecycle events and exact record changes. */
  ghost predicate OutcomeOf(rules: Rules, was: World, link: Link, outcome: BlockOutcome)
    requires rules.parameters.epochBlocks > 0
  {
    var height := link.block.height;
    && outcome.decisions == BlockDecisions(rules, was.records, link)
    && outcome.accepted == AcceptedOf(outcome.decisions)
    && ReportsCompactions(rules.parameters, MarkExpired(was.records.heads, height), height, outcome.compacted)
    && ReportsAllTerminations(rules, StartRecords(rules, was.records, link), height, link.block.transactions,
                              outcome.terminated)
    && IsDelta(outcome.stateDelta, was, Advance(rules, was, link),
               BlockHeads(rules, was.records, link), BlockCommits(rules, was.records, link))
    && OrderedDelta(outcome.stateDelta)
  }

  // ---- a block has one outcome ----

  lemma TerminationsUnique(rules: Rules, rec: Records, height: u32, tx: Transaction,
                           a: seq<Termination>, b: seq<Termination>)
    requires rules.parameters.epochBlocks > 0
    requires ReportsTerminations(rules, rec, height, tx, a) && ReportsTerminations(rules, rec, height, tx, b)
    ensures a == b
  {
    hide Enumerates, TxTerminated;
    EnumerationUnique(TerminatedNames(a), TerminatedNames(b), TxTerminated(rules, rec, height, tx));
    assert |a| == |TerminatedNames(a)| == |b|;
    forall i | 0 <= i < |a| ensures a[i] == b[i] {
      assert TerminatedNames(a)[i] == TerminatedNames(b)[i];
    }
  }

  lemma {:induction false} AllTerminationsUnique(rules: Rules, rec: Records, height: u32, txs: seq<Transaction>,
                                                 a: seq<Termination>, b: seq<Termination>)
    requires rules.parameters.epochBlocks > 0
    requires ReportsAllTerminations(rules, rec, height, txs, a)
    requires ReportsAllTerminations(rules, rec, height, txs, b)
    ensures a == b
    decreases |txs|
  {
    hide ReportsTerminations, RecordsAfter;
    if txs != [] {
      var front, last := txs[..|txs| - 1], txs[|txs| - 1];
      var before := RecordsAfter(rules, rec, height, front);
      var i :| 0 <= i <= |a| && ReportsAllTerminations(rules, rec, height, front, a[..i])
               && ReportsTerminations(rules, before, height, last, a[i..]);
      var j :| 0 <= j <= |b| && ReportsAllTerminations(rules, rec, height, front, b[..j])
               && ReportsTerminations(rules, before, height, last, b[j..]);
      AllTerminationsUnique(rules, rec, height, front, a[..i], b[..j]);
      TerminationsUnique(rules, before, height, last, a[i..], b[j..]);
      assert a == a[..i] + a[i..] && b == b[..j] + b[j..];
    }
  }

  /** The place of a compaction in its report: by terminal height, then by name. */
  ghost function CompactionRank(marked: map<NameId, Head>, id: NameId): nat {
    if id in marked && marked[id].terminalHeight.Some? then marked[id].terminalHeight.value * BYTES32_LIMIT + id else id
  }

  lemma CompactionOrder(marked: map<NameId, Head>, a: NameId, b: NameId)
    requires a in marked && marked[a].terminalHeight.Some? && b in marked && marked[b].terminalHeight.Some?
    ensures CompactionRank(marked, a) < CompactionRank(marked, b)
            <==> || marked[a].terminalHeight.value < marked[b].terminalHeight.value
                 || (marked[a].terminalHeight == marked[b].terminalHeight && a < b)
  {
  }

  ghost function CompactionsOf(p: Parameters, marked: map<NameId, Head>, height: u32): map<NameId, Compaction> {
    map id | id in marked && Compactable(p, marked[id], height) :: Compaction(id, marked[id].producer, height)
  }

  ghost function ByName(cs: seq<Compaction>): seq<(NameId, Compaction)> {
    seq(|cs|, i requires 0 <= i < |cs| => (cs[i].nameId, cs[i]))
  }

  lemma ReportIsListing(p: Parameters, marked: map<NameId, Head>, height: u32, cs: seq<Compaction>)
    requires ReportsCompactions(p, marked, height, cs)
    ensures Lists(ByName(cs), CompactionsOf(p, marked, height))
    ensures Ascends(ByName(cs), id => CompactionRank(marked, id))
    ensures Ranks(CompactionsOf(p, marked, height), id => CompactionRank(marked, id))
  {
    var m, s := CompactionsOf(p, marked, height), ByName(cs);
    forall i, j | 0 <= i < j < |s|
      ensures s[i].0 != s[j].0 && CompactionRank(marked, s[i].0) < CompactionRank(marked, s[j].0)
    {
      CompactionOrder(marked, cs[i].nameId, cs[j].nameId);
    }
    forall i | 0 <= i < |s| ensures s[i].0 in m && m[s[i].0] == s[i].1 {
      assert cs[i].nameId in marked;
    }
    forall id | id in m ensures exists i :: 0 <= i < |s| && s[i].0 == id {
      var i :| 0 <= i < |cs| && cs[i].nameId == id;
      assert s[i].0 == id;
    }
    forall a, b | a in m && b in m && CompactionRank(marked, a) == CompactionRank(marked, b) ensures a == b {
      CompactionOrder(marked, a, b);
      CompactionOrder(marked, b, a);
    }
  }

  lemma CompactionsUnique(p: Parameters, marked: map<NameId, Head>, height: u32, a: seq<Compaction>, b: seq<Compaction>)
    requires ReportsCompactions(p, marked, height, a) && ReportsCompactions(p, marked, height, b)
    ensures a == b
  {
    hide ReportsCompactions, Lists, Ascends, Ranks, CompactionsOf;
    ReportIsListing(p, marked, height, a);
    ReportIsListing(p, marked, height, b);
    OrderedListingUnique(ByName(a), ByName(b), CompactionsOf(p, marked, height), id => CompactionRank(marked, id));
    assert |a| == |ByName(a)| == |b|;
    forall i | 0 <= i < |a| ensures a[i] == b[i] {
      assert ByName(a)[i] == ByName(b)[i];
    }
  }

  /** The specification of a block's outcome, with all its orders, leaves no choice. */
  lemma OutcomeUnique(rules: Rules, was: World, link: Link, a: BlockOutcome, b: BlockOutcome)
    requires rules.parameters.epochBlocks > 0
    requires OutcomeOf(rules, was, link, a) && OutcomeOf(rules, was, link, b)
    ensures a == b
  {
    hide ReportsCompactions, ReportsAllTerminations, IsDelta, OrderedDelta, BlockHeads, BlockCommits, Advance;
    var height := link.block.height;
    CompactionsUnique(rules.parameters, MarkExpired(was.records.heads, height), height, a.compacted, b.compacted);
    AllTerminationsUnique(rules, StartRecords(rules, was.records, link), height, link.block.transactions,
                          a.terminated, b.terminated);
    OrderedDeltaUnique(a.stateDelta, b.stateDelta, was, Advance(rules, was, link),
                       BlockHeads(rules, was.records, link), BlockCommits(rules, was.records, link));
  }

  // ---- blocks by prefix ----

  lemma {:induction false} IndexErrorSticks(txs: seq<Transaction>, k: nat)
    requires k <= |txs| && IndexError(txs[..k]).Some?
    ensures IndexError(txs) == IndexError(txs[..k])
    decreases |txs| - k
  {
    if k == |txs| {
      assert txs[..k] == txs;
    } else {
      assert txs[..k + 1][..k] == txs[..k];
      IndexErrorSticks(txs, k + 1);
    }
  }

  lemma NoEvidenceYet(p: Parameters, commits: map<CommitRef, Commitment>, block: Block)
    ensures EvidenceError(p, commits, block, []).None? && EvidenceMap([]) == map[]
  {
  }

  lemma OneMoreItem(p: Parameters, commits: map<CommitRef, Commitment>, block: Block,
                    evidence: seq<ReferencedCommit>, i: nat)
    requires i < |evidence| && EvidenceError(p, commits, block, evidence[..i]).None?
    ensures EvidenceError(p, commits, block, evidence[..i + 1])
            == ItemError(p, commits, block, EvidenceMap(evidence[..i]), evidence[i])
    ensures EvidenceMap(evidence[..i + 1])
            == EvidenceMap(evidence[..i])[evidence[i].reference := evidence[i].commitment]
  {
    assert evidence[..i + 1][..i] == evidence[..i];
  }

  lemma {:induction false} EvidenceErrorSticks(
    p: Parameters, commits: map<CommitRef, Commitment>, block: Block, evidence: seq<ReferencedCommit>, k: nat)
    requires k <= |evidence| && EvidenceError(p, commits, block, evidence[..k]).Some?
    ensures EvidenceError(p, commits, block, evidence) == EvidenceError(p, commits, block, evidence[..k])
    decreases |evidence| - k
  {
    if k == |evidence| {
      assert evidence[..k] == evidence;
    } else {
      assert evidence[..k + 1][..k] == evidence[..k];
      EvidenceErrorSticks(p, commits, block, evidence, k + 1);
    }
  }

  lemma OneMoreTx(rules: Rules, rec: Records, height: u32, txs: seq<Transaction>, i: nat,
                  heads: set<NameId>, commits: set<CommitRef>)
    requires rules.parameters.epochBlocks > 0 && i < |txs|
    ensures
      var middle := RecordsAfter(rules, rec, height, txs[..i]);
      && RecordsAfter(rules, rec, height, txs[..i + 1]) == TxRecords(rules, middle, height, txs[i])
      && heads + HeadsAfter(rules, rec, height, txs[..i + 1])
         == heads + HeadsAfter(rules, rec, height, txs[..i]) + TxHeads(rules, middle, height, txs[i])
      && commits + CommitsAfter(height, txs[..i + 1])
         == commits + CommitsAfter(height, txs[..i]) + TxCommits(height, txs[i])
      && DecisionsAfter(rules, rec, height, txs[..i + 1])
         == DecisionsAfter(rules, rec, height, txs[..i]) + [TxDecision(rules, middle, height, txs[i])]
  {
    hide TxRecords, TxHeads, TxDecision, TxCommits;
    assert txs[..i + 1][..i] == txs[..i];
  }

  lemma OneMoreReport(rules: Rules, rec: Records, height: u32, txs: seq<Transaction>, i: nat,
                      ts: seq<Termination>, more: seq<Termination>)
    requires rules.parameters.epochBlocks > 0 && i < |txs|
    requires ReportsAllTerminations(rules, rec, height, txs[..i], ts)
    requires ReportsTerminations(rules, RecordsAfter(rules, rec, height, txs[..i]), height, txs[i], more)
    ensures ReportsAllTerminations(rules, rec, height, txs[..i + 1], ts + more)
  {
    hide RecordsAfter, ReportsTerminations;
    assert txs[..i + 1][..i] == txs[..i];
    var all := ts + more;
    assert all[..|ts|] == ts && all[|ts|..] == more;
  }

  class Reducer {
    const rules: Rules
    var nextHeight: Option<u32>
    var tipHeight: Option<u32>
    var previousHash: Bytes32
    var commits: map<CommitRef, Commitment>
    var heads: map<NameId, Head>
    var commitsByHeight: map<u32, set<CommitRef>>
    var headsByFutureNf: map<FieldElement, set<NameId>>
    var activeHeadsByExpiry: map<u32, set<NameId>>
    var terminalHeadsByHeight: map<u32, set<NameId>>
    var history: seq<Undo>

    ghost predicate CommitIndexCurrent()
      reads this`commits, this`commitsByHeight
    {
      commitsByHeight == Inverted(CommitHeights(commits))
    }

    ghost predicate HeadIndexesCurrent()
      reads this`heads, this`headsByFutureNf, this`activeHeadsByExpiry, this`terminalHeadsByHeight
    {
      IndexesOf(heads, headsByFutureNf, activeHeadsByExpiry, terminalHeadsByHeight)
    }

    /** Each index is exactly what a rebuild from the records would give. */
    ghost predicate Valid()
      reads this
    {
      rules.parameters.Validated() && CommitIndexCurrent() && HeadIndexesCurrent()
    }

    ghost function RecordsNow(): Records
      reads this`commits, this`heads
    {
      Records(commits, heads)
    }

    /** The records, linkage and journal, without the indexes. */
    function State(): Core
      reads this
    {
      Core(World(nextHeight, tipHeight, previousHash, Records(commits, heads)), history)
    }

    constructor At(rules: Rules, activationParentHash: Bytes32)
      requires rules.parameters.Validated()
      ensures Valid() && this.rules == rules
      ensures State() == Core(Genesis(rules, activationParentHash), [])
    {
      this.rules := rules;
      nextHeight := Some(rules.parameters.activationHeight);
      tipHeight := None;
      previousHash := activationParentHash;
      commits, heads := map[], map[];
      commitsByHeight, headsByFutureNf := map[], map[];
      activeHeadsByExpiry, terminalHeadsByHeight := map[], map[];
      history := [];
    }

    static method New(rules: Rules, activationParentHash: Bytes32) returns (r: Result<Reducer, ApplyError>)
      ensures r.Err? <==> !rules.parameters.Validated()
      ensures r.Err? ==> r.error == BadParameters
      ensures r.Ok? ==> fresh(r.value) && r.value.Valid() && r.value.rules == rules
      ensures r.Ok? ==> r.value.State() == Core(Genesis(rules, activationParentHash), [])
    {
      if rules.parameters.Validate().Err? {
        return Err(BadParameters);
      }
      var reducer := new Reducer.At(rules, activationParentHash);
      return Ok(reducer);
    }

    method ReplaceCommit(reference: CommitRef, commitment: Option<Commitment>)
      requires CommitIndexCurrent()
      modifies `commits, `commitsByHeight
      ensures CommitIndexCurrent()
      ensures commits == Put(old(commits), reference, commitment)
    {
      if reference in commits {
        RemoveEntryTracks(CommitHeights(commits), reference);
        commits := commits - {reference};
        assert CommitHeights(commits) == CommitHeights(old(commits)) - {reference};
        commitsByHeight := RemoveEntry(commitsByHeight, reference.height, reference);
      }
      if commitment.Some? {
        AddEntryTracks(CommitHeights(commits), reference, reference.height);
        ghost var was := commits;
        commits := commits[reference := commitment.value];
        assert CommitHeights(commits) == CommitHeights(was)[reference := reference.height];
        commitsByHeight := AddEntry(commitsByHeight, reference.height, reference);
      }
    }

    method ReplaceHead(nameId: NameId, head: Option<Head>)
      requires HeadIndexesCurrent()
      modifies `heads, `headsByFutureNf, `activeHeadsByExpiry, `terminalHeadsByHeight
      ensures HeadIndexesCurrent()
      ensures heads == Put(old(heads), nameId, head)
    {
      if nameId in heads {
        RemoveHead(nameId);
      }
      if head.Some? {
        InsertHead(nameId, head.value);
      }
    }

    method RemoveHead(nameId: NameId)
      requires HeadIndexesCurrent() && nameId in heads
      modifies `heads, `headsByFutureNf, `activeHeadsByExpiry, `terminalHeadsByHeight
      ensures HeadIndexesCurrent()
      ensures heads == old(heads) - {nameId}
    {
      hide Inverted, RemoveEntry;
      var previous := heads[nameId];
      KeysWithout(heads, nameId);
      RemoveEntryTracks(FutureNullifiers(heads), nameId);
      headsByFutureNf := RemoveEntry(headsByFutureNf, previous.futureNf, nameId);
      match previous.terminalHeight {
        case Some(height) =>
          RemoveEntryTracks(TerminalHeights(heads), nameId);
          assert ActiveExpiries(heads) - {nameId} == ActiveExpiries(heads);
          terminalHeadsByHeight := RemoveEntry(terminalHeadsByHeight, height, nameId);
        case None =>
          RemoveEntryTracks(ActiveExpiries(heads), nameId);
          assert TerminalHeights(heads) - {nameId} == TerminalHeights(heads);
          activeHeadsByExpiry := RemoveEntry(activeHeadsByExpiry, previous.expiryHeight, nameId);
      }
      heads := heads - {nameId};
    }

    method InsertHead(nameId: NameId, head: Head)
      requires HeadIndexesCurrent() && nameId !in heads
      modifies `heads, `headsByFutureNf, `activeHeadsByExpiry, `terminalHeadsByHeight
      ensures HeadIndexesCurrent()
      ensures heads == old(heads)[nameId := head]
    {
      hide Inverted, AddEntry;
      IndexesGrow(heads, nameId, head, headsByFutureNf, activeHeadsByExpiry, terminalHeadsByHeight);
      headsByFutureNf := AddEntry(headsByFutureNf, head.futureNf, nameId);
      match head.terminalHeight {
        case Some(height) => terminalHeadsByHeight := AddEntry(terminalHeadsByHeight, height, nameId);
        case None => activeHeadsByExpiry := AddEntry(activeHeadsByExpiry, head.expiryHeight, nameId);
      }
      heads := heads[nameId := head];
    }

    /** Journals the head of one name, unless it is journaled already, and replaces it. */
    method JournalHead(nameId: NameId, head: Option<Head>, undo: Undo, ghost base: Records) returns (undo': Undo)
      requires HeadIndexesCurrent() && Journaled(undo.heads, base.heads, heads)
      modifies `heads, `headsByFutureNf, `activeHeadsByExpiry, `terminalHeadsByHeight
      ensures HeadIndexesCurrent() && Journaled(undo'.heads, base.heads, heads)
      ensures heads == Put(old(heads), nameId, head)
      ensures undo' == undo.(heads := undo'.heads)
      ensures undo'.heads.Keys == undo.heads.Keys + {nameId}
    {
      hide HeadIndexesCurrent, Journaled, Remember, Put;
      RememberThenPut(undo.heads, base.heads, heads, nameId, head);
      undo' := undo.(heads := Remember(undo.heads, heads, nameId));
      ReplaceHead(nameId, head);
    }

    /** Journals the COMMIT of one reference, unless it is journaled already, and replaces it. */
    method JournalCommit(reference: CommitRef, commitment: Option<Commitment>, undo: Undo, ghost base: Records)
      returns (undo': Undo)
      requires CommitIndexCurrent() && Journaled(undo.commits, base.commits, commits)
      modifies `commits, `commitsByHeight
      ensures CommitIndexCurrent() && Journaled(undo'.commits, base.commits, commits)
      ensures commits == Put(old(commits), reference, commitment)
      ensures undo' == undo.(commits := undo'.commits)
      ensures undo'.commits.Keys == undo.commits.Keys + {reference}
    {
      hide CommitIndexCurrent, Journaled, Remember, Put;
      RememberThenPut(undo.commits, base.commits, commits, reference, commitment);
      undo' := undo.(commits := Remember(undo.commits, commits, reference));
      ReplaceCommit(reference, commitment);
    }

    method MarkExpired(height: u32, undo: Undo, ghost base: Records) returns (undo': Undo)
      requires HeadIndexesCurrent() && Journaled(undo.heads, base.heads, heads)
      modifies `heads, `headsByFutureNf, `activeHeadsByExpiry, `terminalHeadsByHeight
      ensures HeadIndexesCurrent() && Journaled(undo'.heads, base.heads, heads)
      ensures heads == Replay.MarkExpired(old(heads), height)
      ensures undo' == undo.(heads := undo'.heads)
      ensures undo'.heads.Keys
              == undo.heads.Keys + set id | id in old(heads) && Expires(old(heads)[id], height)
    {
      hide Inverted, Journaled, Taken, Distinct, MarkedIn, Replay.MarkExpired, Remember;
      undo' := undo;
      ghost var expiring := set id | id in heads && Expires(heads[id], height);
      var expired := NamesThrough(activeHeadsByExpiry, ActiveExpiries(heads), height);
      TakenAll(expired, expiring);
      MarkedNone(heads, height);
      for i := 0 to |expired|
        invariant HeadIndexesCurrent() && Journaled(undo'.heads, base.heads, heads)
        invariant undo' == undo.(heads := undo'.heads)
        invariant undo'.heads.Keys == undo.heads.Keys + Taken(expired, i)
        invariant heads == MarkedIn(old(heads), height, Taken(expired, i))
      {
        hide HeadIndexesCurrent, OrderedThrough;
        var nameId := expired[i];
        assert nameId in expired && nameId in expiring;
        TakeOneMore(expired, i, undo.heads.Keys);
        MarkOneMore(old(heads), height, Taken(expired, i), nameId);
        var head := heads[nameId];
        undo' := JournalHead(nameId, Some(head.(terminalHeight := Some(head.expiryHeight))), undo', base);
      }
      MarkedAll(old(heads), height);
    }

    method CompactClaimable(height: u32, undo: Undo, ghost base: Records)
      returns (undo': Undo, compacted: seq<Compaction>)
      requires HeadIndexesCurrent() && Journaled(undo.heads, base.heads, heads)
      modifies `heads, `headsByFutureNf, `activeHeadsByExpiry, `terminalHeadsByHeight
      ensures HeadIndexesCurrent() && Journaled(undo'.heads, base.heads, heads)
      ensures heads == Replay.CompactClaimable(rules.parameters, old(heads), height)
      ensures undo' == undo.(heads := undo'.heads)
      ensures undo'.heads.Keys == undo.heads.Keys
        + set id | id in old(heads) && Compactable(rules.parameters, old(heads)[id], height)
      ensures ReportsCompactions(rules.parameters, old(heads), height, compacted)
    {
      hide Inverted, Journaled, Distinct;
      undo', compacted := undo, [];
      ghost var compacting := set id | id in heads && Compactable(rules.parameters, heads[id], height);
      CompactedAll(rules.parameters, heads, height, compacting);
      hide Replay.CompactClaimable;
      if height < rules.parameters.cooldownBlocks {
        return;
      }
      var claimable := NamesThrough(
        terminalHeadsByHeight, TerminalHeights(heads), height - rules.parameters.cooldownBlocks);
      var marked := heads;
      assert forall k :: 0 <= k < |claimable| ==> claimable[k] in claimable;
      compacted := seq(|claimable|, k requires 0 <= k < |claimable| =>
        Compaction(claimable[k], marked[claimable[k]].producer, height));
      CompactionReport(rules.parameters, marked, claimable, height, compacted);
      undo' := DeleteHeads(claimable, compacting, undo, base);
    }

    method DeleteHeads(ids: seq<NameId>, ghost all: set<NameId>, undo: Undo, ghost base: Records)
      returns (undo': Undo)
      requires HeadIndexesCurrent() && Journaled(undo.heads, base.heads, heads)
      requires Distinct(ids) && forall id :: id in ids <==> id in all
      modifies `heads, `headsByFutureNf, `activeHeadsByExpiry, `terminalHeadsByHeight
      ensures HeadIndexesCurrent() && Journaled(undo'.heads, base.heads, heads)
      ensures heads == old(heads) - all
      ensures undo' == undo.(heads := undo'.heads)
      ensures undo'.heads.Keys == undo.heads.Keys + all
    {
      hide Journaled, HeadIndexesCurrent, Taken, Distinct;
      undo' := undo;
      TakenAll(ids, all);
      assert heads - {} == heads;
      for i := 0 to |ids|
        invariant HeadIndexesCurrent() && Journaled(undo'.heads, base.heads, heads)
        invariant undo' == undo.(heads := undo'.heads)
        invariant undo'.heads.Keys == undo.heads.Keys + Taken(ids, i)
        invariant heads == old(heads) - Taken(ids, i)
      {
        var nameId := ids[i];
        TakeOneMore(ids, i, undo.heads.Keys);
        RemoveOneMore(old(heads), Taken(ids, i), nameId);
        undo' := JournalHead(nameId, None, undo', base);
      }
    }

    method PruneCommits(height: u32, undo: Undo, ghost base: Records) returns (undo': Undo)
      requires CommitIndexCurrent() && Journaled(undo.commits, base.commits, commits)
      modifies `commits, `commitsByHeight
      ensures CommitIndexCurrent() && Journaled(undo'.commits, base.commits, commits)
      ensures commits == Replay.PruneCommits(rules.parameters, old(commits), height)
      ensures undo' == undo.(commits := undo'.commits)
      ensures undo'.commits.Keys == undo.commits.Keys
        + set r | r in old(commits) && Prunable(rules.parameters, r, height)
    {
      hide Inverted, Journaled;
      undo' := undo;
      ghost var pruning := set r | r in commits && Prunable(rules.parameters, r, height);
      PrunedAll(rules.parameters, commits, height, pruning);
      hide Replay.PruneCommits;
      if height < rules.parameters.commitTtlBlocks {
        return;
      }
      var lastExpired := height - rules.parameters.commitTtlBlocks;
      var expired := set h, r | h in commitsByHeight && h <= lastExpired && r in commitsByHeight[h] :: r;
      forall h, r { InvertedMember(CommitHeights(commits), h, r); }
      assert expired == pruning by {
        forall r | r in pruning ensures r in expired {
          assert r.height in commitsByHeight && r in commitsByHeight[r.height];
        }
      }
      var todo := expired;
      ghost var done: set<CommitRef> := {};
      while todo != {}
        invariant done + todo == expired
        invariant CommitIndexCurrent() && Journaled(undo'.commits, base.commits, commits)
        invariant undo' == undo.(commits := undo'.commits)
        invariant undo'.commits.Keys == undo.commits.Keys + done
        invariant commits == old(commits) - done
        decreases todo
      {
        hide CommitIndexCurrent;
        var reference :| reference in todo;
        MoveOne(undo.commits.Keys, done, todo, reference);
        RemoveOneMore(old(commits), done, reference);
        todo, done := todo - {reference}, done + {reference};
        undo' := JournalCommit(reference, None, undo', base);
      }
    }

    method AdmitCommits(supplied: map<CommitRef, Commitment>, undo: Undo, ghost base: Records)
      returns (undo': Undo)
      requires CommitIndexCurrent() && Journaled(undo.commits, base.commits, commits)
      modifies `commits, `commitsByHeight
      ensures CommitIndexCurrent() && Journaled(undo'.commits, base.commits, commits)
      ensures commits == old(commits) + supplied
      ensures undo' == undo.(commits := undo'.commits)
      ensures undo'.commits.Keys == undo.commits.Keys + supplied.Keys
    {
      hide CommitIndexCurrent, Journaled;
      undo' := undo;
      var todo := supplied.Keys;
      while todo != {}
        invariant todo <= supplied.Keys
        invariant CommitIndexCurrent() && Journaled(undo'.commits, base.commits, commits)
        invariant undo' == undo.(commits := undo'.commits)
        invariant undo'.commits.Keys == undo.commits.Keys + (supplied.Keys - todo)
        invariant commits == old(commits) + (supplied - todo)
        decreases todo
      {
        var reference :| reference in todo;
        AdmitOneMore(old(commits), supplied, todo, reference);
        todo := todo - {reference};
        assert supplied.Keys - todo == (supplied.Keys - (todo + {reference})) + {reference};
        undo' := JournalCommit(reference, Some(supplied[reference]), undo', base);
      }
    }

    /** The current heads spent by some action of the transaction, in name order. */
    method SpentNames(tx: Transaction) returns (spent: seq<NameId>)
      requires HeadIndexesCurrent()
      ensures Enumerates(spent, set id | id in heads && Carries(tx, heads[id].futureNf))
    {
      var ids: set<NameId> := {};
      for i := 0 to |tx.actions|
        invariant forall id :: id in ids <==>
          id in heads && exists k :: 0 <= k < i && tx.actions[k].nullifier == heads[id].futureNf
      {
        var nullifier := tx.actions[i].nullifier;
        InvertedLookup(FutureNullifiers(heads), nullifier);
        ids := ids + Bucket(headsByFutureNf, nullifier);
      }
      assert ids == set id | id in heads && Carries(tx, heads[id].futureNf);
      var sorted := SortAscending(ids);
      EnumeratedMembers(sorted, ids);
      spent := sorted;
    }

    /** Marks terminal every spent head that still has the producer it had before the operation. */
    method TerminateSpent(height: u32, ghost tx: Transaction, ghost before: map<NameId, Head>,
                          spent: seq<NameId>, producers: seq<StateRef>, undo: Undo, ghost base: Records)
      returns (undo': Undo, terminated: seq<Termination>)
      requires HeadIndexesCurrent() && Journaled(undo.heads, base.heads, heads)
      requires Enumerates(spent, set id | id in before && Carries(tx, before[id].futureNf))
      requires |producers| == |spent|
      requires forall i :: 0 <= i < |spent| ==> spent[i] in before && producers[i] == before[spent[i]].producer
      modifies `heads, `headsByFutureNf, `activeHeadsByExpiry, `terminalHeadsByHeight
      ensures HeadIndexesCurrent() && Journaled(undo'.heads, base.heads, heads)
      ensures heads == SpendPass(before, old(heads), tx, height)
      ensures undo' == undo.(heads := undo'.heads)
      ensures undo'.heads.Keys
              == undo.heads.Keys + set id | id in before && StillSpent(before, old(heads), tx, id)
      ensures terminated == TerminationsOf(before, old(heads), tx, height, spent)
    {
      hide Journaled, Taken, Distinct, SpendPass, StillSpentIn, TerminationsOf, Remember, SpentIn;
      ghost var middle := heads;
      undo', terminated := undo, [];
      ghost var spending := set id | id in before && Carries(tx, before[id].futureNf);
      TakenAll(spent, spending);
      AscendingIsDistinct(spent);
      SpentNone(before, middle, tx, height);
      assert StillSpentIn(before, middle, tx, {}) == {} by {
        StillSpentNone(before, middle, tx);
      }
      assert TerminationsOf(before, middle, tx, height, spent[..0]) == [] by {
        TerminationsNone(before, middle, tx, height);
      }
      for i := 0 to |spent|
        invariant HeadIndexesCurrent() && Journaled(undo'.heads, base.heads, heads)
        invariant undo' == undo.(heads := undo'.heads)
        invariant undo'.heads.Keys == undo.heads.Keys + StillSpentIn(before, middle, tx, Taken(spent, i))
        invariant heads == SpentIn(before, middle, tx, height, Taken(spent, i))
        invariant terminated == TerminationsOf(before, middle, tx, height, spent[..i])
      {
        hide HeadIndexesCurrent;
        var nameId := spent[i];
        assert nameId in spent && nameId in spending;
        TerminationsOneMore(before, middle, tx, height, spent, i);
        TakeOneMore(spent, i, {});
        ghost var done := Taken(spent, i);
        SpendOneMore(before, middle, tx, height, done, nameId);
        SpentLookup(before, middle, tx, height, done, nameId);
        StillSpentOneMore(before, middle, tx, done, nameId, undo.heads.Keys);
        if nameId in heads && heads[nameId].producer == producers[i] {
          var head := heads[nameId];
          assert head == middle[nameId] && StillSpent(before, middle, tx, nameId);
          RememberThenPut(undo'.heads, base.heads, heads, nameId, Some(head.(terminalHeight := Some(height))));
          RememberOnly(undo'.heads, base.heads, heads, nameId);
          undo' := undo'.(heads := Remember(undo'.heads, heads, nameId));
          if head.terminalHeight.None? {
            ReplaceHead(nameId, Some(head.(terminalHeight := Some(height))));
            terminated := terminated + [Termination(nameId, producers[i], height)];
          }
        }
      }
      assert spent[..|spent|] == spent;
      SpentAll(before, middle, tx, height, spending);
    }

    method ApplyReveal(height: u32, tx: Transaction, op: Operation, undo: Undo, ghost base: Records)
      returns (r: Result<NameId, Clause>, undo': Undo)
      requires Valid() && op.Reveal? && Journaled(undo.heads, base.heads, heads)
      modifies `heads, `headsByFutureNf, `activeHeadsByExpiry, `terminalHeadsByHeight
      ensures HeadIndexesCurrent() && Journaled(undo'.heads, base.heads, heads)
      ensures undo' == undo.(heads := undo'.heads)
      ensures
        var effect := RevealEffect(rules, old(RecordsNow()), height, tx, op);
        && r == (if effect.Inert? then Err(effect.clause) else Ok(effect.nameId))
        && heads == AfterEffect(old(RecordsNow()), effect).heads
        && undo'.heads.Keys == undo.heads.Keys + EffectHeads(effect)
    {
      hide Journaled, HeadIndexesCurrent;
      undo' := undo;
      var p := rules.parameters;
      var id := rules.nameId(op.name);
      if id.None? {
        return Err(RevealMissing), undo;
      }
      var nameId := id.value;
      if nameId in heads {
        return Err(RevealMissing), undo;
      }
      if !p.AcceptsOperation(rules.scheduleHash, nameId, height) {
        return Err(RevealSchedule), undo;
      }
      if !p.AcceptsCommit(op.commit.height, height) {
        return Err(RevealCommit), undo;
      }
      if op.commit !in commits {
        return Err(RevealCommit), undo;
      }
      var commitment := commits[op.commit];
      if op.actionIndex >= |tx.actions| {
        return Err(RevealAction), undo;
      }
      var action := tx.actions[op.actionIndex];
      if action.actionIndex != op.actionIndex {
        return Err(RevealAction), undo;
      }
      var epoch := p.Epoch(height);
      if epoch.Err? {
        return Err(RevealSchedule), undo;
      }
      var statement := RevealStatement(
        p.deploymentId, nameId, epoch.value, commitment, op.commit, op.ua, op.actionIndex,
        action.nullifier, action.commitment, op.successorFutureNf);
      if !rules.verifyReveal(statement, op.proof) {
        return Err(RevealProof), undo;
      }
      var expiryHeight := p.Expiry(height);
      if expiryHeight.Err? {
        return Err(RevealSchedule), undo;
      }
      var head := Head(op.name, op.ua, StateRef(height, tx.txIndex, tx.txid, op.actionIndex),
                       action.commitment, op.successorFutureNf, epoch.value, expiryHeight.value, None);
      undo' := JournalHead(nameId, Some(head), undo, base);
      return Ok(nameId), undo';
    }

    method ApplyRefresh(height: u32, tx: Transaction, op: Operation, undo: Undo, ghost base: Records)
      returns (r: Result<NameId, Clause>, undo': Undo)
      requires Valid() && op.Refresh? && Journaled(undo.heads, base.heads, heads)
      modifies `heads, `headsByFutureNf, `activeHeadsByExpiry, `terminalHeadsByHeight
      ensures HeadIndexesCurrent() && Journaled(undo'.heads, base.heads, heads)
      ensures undo' == undo.(heads := undo'.heads)
      ensures
        var effect := RefreshEffect(rules, old(RecordsNow()), height, tx, op);
        && r == (if effect.Inert? then Err(effect.clause) else Ok(effect.nameId))
        && heads == AfterEffect(old(RecordsNow()), effect).heads
        && undo'.heads.Keys == undo.heads.Keys + EffectHeads(effect)
    {
      hide Journaled, HeadIndexesCurrent;
      undo' := undo;
      var p := rules.parameters;
      var id := rules.nameId(op.name);
      if id.None? {
        return Err(RefreshCurrent), undo;
      }
      var nameId := id.value;
      if nameId !in heads {
        return Err(RefreshCurrent), undo;
      }
      var predecessorHead := heads[nameId];
      var epoch := p.Epoch(height);
      if epoch.Err? {
        return Err(RefreshSchedule), undo;
      }
      if !predecessorHead.LifecycleAt(height, p).Active? || predecessorHead.producer != op.predecessor {
        return Err(RefreshCurrent), undo;
      }
      if predecessorHead.producerEpoch >= epoch.value {
        return Err(RefreshEpoch), undo;
      }
      if !p.AcceptsOperation(rules.scheduleHash, nameId, height) {
        return Err(RefreshSchedule), undo;
      }
      if op.actionIndex >= |tx.actions| {
        return Err(RefreshAction), undo;
      }
      var action := tx.actions[op.actionIndex];
      if action.actionIndex != op.actionIndex || action.nullifier != predecessorHead.futureNf {
        return Err(RefreshAction), undo;
      }
      var statement := RefreshStatement(
        p.deploymentId, nameId, op.predecessor, predecessorHead.commitment, predecessorHead.futureNf,
        predecessorHead.producerEpoch, epoch.value, op.ua, op.actionIndex, action.nullifier,
        action.commitment, op.successorFutureNf);
      if !rules.verifyRefresh(statement, op.proof) {
        return Err(RefreshProof), undo;
      }
      var expiryHeight := p.Expiry(height);
      if expiryHeight.Err? {
        return Err(RefreshSchedule), undo;
      }
      var head := Head(op.name, op.ua, StateRef(height, tx.txIndex, tx.txid, op.actionIndex),
                       action.commitment, op.successorFutureNf, epoch.value, expiryHeight.value, None);
      undo' := JournalHead(nameId, Some(head), undo, base);
      return Ok(nameId), undo';
    }

    /** Decides and applies the operation of a transaction, before its spends are accounted for. */
    method ApplyOperation(height: u32, tx: Transaction, undo: Undo, ghost base: Records)
      returns (decision: Decision, undo': Undo)
      requires Valid()
      requires Journaled(undo.heads, base.heads, heads) && Journaled(undo.commits, base.commits, commits)
      modifies `commits, `commitsByHeight, `heads, `headsByFutureNf, `activeHeadsByExpiry, `terminalHeadsByHeight
      ensures Valid()
      ensures Journaled(undo'.heads, base.heads, heads) && Journaled(undo'.commits, base.commits, commits)
      ensures undo' == undo.(heads := undo'.heads, commits := undo'.commits)
      ensures undo'.commits.Keys == undo.commits.Keys + TxCommits(height, tx)
      ensures
        var effect := OperationEffect(rules, old(RecordsNow()), height, tx);
        && RecordsNow() == AfterEffect(old(RecordsNow()), effect)
        && decision == EffectDecision(effect)
        && undo'.heads.Keys == undo.heads.Keys + EffectHeads(effect)
    {
      hide Journaled, HeadIndexesCurrent, CommitIndexCurrent, RevealEffect, RefreshEffect, Remember;
      hide EffectHeads;
      undo' := undo;
      NoEffectHeads(undo.heads.Keys, OperationEffect(rules, RecordsNow(), height, tx));
      match tx.operation {
        case Some(Commit(commitment)) =>
          undo' := JournalCommit(CommitRef(height, tx.txIndex, tx.txid), Some(commitment), undo, base);
          decision := Decision(Some(AcceptedCommit), CommitAccept);
        case Some(Reveal(_, _, _, _, _, _)) =>
          var r;
          r, undo' := ApplyReveal(height, tx, tx.operation.value, undo, base);
          decision := if r.Ok? then Decision(Some(AcceptedReveal), RevealAccept) else Decision(None, r.error);
        case Some(Refresh(_, _, _, _, _, _)) =>
          var r;
          r, undo' := ApplyRefresh(height, tx, tx.operation.value, undo, base);
          decision := if r.Ok? then Decision(Some(AcceptedRefresh), RefreshAccept) else Decision(None, r.error);
        case None =>
          decision := Decision(None, BlockOrder);
      }
    }

    method ApplyTransactionDetailed(height: u32, tx: Transaction, undo: Undo, ghost base: Records)
      returns (decision: Decision, undo': Undo, terminated: seq<Termination>)
      requires Valid()
      requires Journaled(undo.heads, base.heads, heads) && Journaled(undo.commits, base.commits, commits)
      modifies `commits, `commitsByHeight, `heads, `headsByFutureNf, `activeHeadsByExpiry, `terminalHeadsByHeight
      ensures Valid()
      ensures Journaled(undo'.heads, base.heads, heads) && Journaled(undo'.commits, base.commits, commits)
      ensures RecordsNow() == TxRecords(rules, old(RecordsNow()), height, tx)
      ensures undo' == undo.(heads := undo'.heads, commits := undo'.commits)
      ensures undo'.heads.Keys == undo.heads.Keys + TxHeads(rules, old(RecordsNow()), height, tx)
      ensures undo'.commits.Keys == undo.commits.Keys + TxCommits(height, tx)
      ensures decision == TxDecision(rules, old(RecordsNow()), height, tx)
      ensures ReportsTerminations(rules, old(RecordsNow()), height, tx, terminated)
    {
      hide Journaled, HeadIndexesCurrent, CommitIndexCurrent, SpendPass, ReportsTerminations;
      hide OperationEffect, AfterEffect, EffectHeads, TxRecords, TxHeads, TxDecision, StillSpent, Ends, TerminationsOf;
      ghost var rec := RecordsNow();
      TxInTwoSteps(rules, rec, height, tx, undo.heads.Keys);
      var spent := SpentNames(tx);
      EnumeratedMembers(spent, set id | id in heads && Carries(tx, heads[id].futureNf));
      var before := heads;
      var producers := seq(|spent|, i requires 0 <= i < |spent| => before[spent[i]].producer);
      decision, undo' := ApplyOperation(height, tx, undo, base);
      undo', terminated := TerminateSpent(height, tx, before, spent, producers, undo', base);
      TerminationReport(rules, rec, height, tx, spent);
    }

    /** Transaction indexes must increase strictly and action indexes must count from zero. */
    static method CheckOrder(txs: seq<Transaction>) returns (e: Option<ApplyError>)
      ensures e == IndexError(txs)
    {
      var previousTxIndex: Option<u32> := None;
      for i := 0 to |txs|
        invariant previousTxIndex == if i == 0 then None else Some(txs[i - 1].txIndex)
        invariant IndexError(txs[..i]).None?
      {
        var tx := txs[i];
        assert txs[..i + 1][..i] == txs[..i];
        if previousTxIndex.Some? && tx.txIndex <= previousTxIndex.value {
          IndexErrorSticks(txs, i + 1);
          return Some(NonCanonicalTransactionIndex);
        }
        previousTxIndex := Some(tx.txIndex);
        for k := 0 to |tx.actions|
          invariant forall j :: 0 <= j < k ==>
            tx.actions[j].actionIndex == (if j < U32_LIMIT then j else U32_LIMIT - 1)
        {
          if tx.actions[k].actionIndex != (if k < U32_LIMIT then k else U32_LIMIT - 1) {
            IndexErrorSticks(txs, i + 1);
            return Some(NonCanonicalActionIndex);
          }
        }
      }
      assert txs[..|txs|] == txs;
      return None;
    }

    /** Collects the evidence, or reports the first item that is out of range or contradicts a known COMMIT. */
    method CheckEvidence(block: Block, evidence: seq<ReferencedCommit>)
      returns (r: Result<map<CommitRef, Commitment>, ApplyError>)
      ensures
        var e := EvidenceError(rules.parameters, commits, block, evidence);
        r == if e.Some? then Err(e.value) else Ok(EvidenceMap(evidence))
    {
      var p := rules.parameters;
      var revealReferences := RevealReferences(block.transactions);
      var supplied: map<CommitRef, Commitment> := map[];
      NoEvidenceYet(p, commits, block);
      hide EvidenceError, EvidenceMap, RevealReferences;
      for i := 0 to |evidence|
        invariant supplied == EvidenceMap(evidence[..i])
        invariant EvidenceError(p, commits, block, evidence[..i]).None?
      {
        var item := evidence[i];
        OneMoreItem(p, commits, block, evidence, i);
        if || item.reference !in revealReferences
           || item.reference.height < p.activationHeight
           || item.reference.height >= block.height
           || block.height - item.reference.height >= p.commitTtlBlocks
        {
          EvidenceErrorSticks(p, commits, block, evidence, i + 1);
          return Err(InvalidReferencedCommit);
        }
        if || (item.reference in supplied && supplied[item.reference] != item.commitment)
           || (item.reference in commits && commits[item.reference] != item.commitment)
        {
          EvidenceErrorSticks(p, commits, block, evidence, i + 1);
          return Err(ConflictingReferencedCommit);
        }
        supplied := supplied[item.reference := item.commitment];
      }
      assert evidence[..|evidence|] == evidence;
      return Ok(supplied);
    }

    method ApplyTransactions(height: u32, txs: seq<Transaction>, undo: Undo, ghost base: Records)
      returns (undo': Undo, accepted: seq<Accepted>, decisions: seq<Decision>, terminated: seq<Termination>)
      requires Valid()
      requires Journaled(undo.heads, base.heads, heads) && Journaled(undo.commits, base.commits, commits)
      modifies `commits, `commitsByHeight, `heads, `headsByFutureNf, `activeHeadsByExpiry, `terminalHeadsByHeight
      ensures Valid()
      ensures Journaled(undo'.heads, base.heads, heads) && Journaled(undo'.commits, base.commits, commits)
      ensures RecordsNow() == RecordsAfter(rules, old(RecordsNow()), height, txs)
      ensures undo' == undo.(heads := undo'.heads, commits := undo'.commits)
      ensures undo'.heads.Keys == undo.heads.Keys + HeadsAfter(rules, old(RecordsNow()), height, txs)
      ensures undo'.commits.Keys == undo.commits.Keys + CommitsAfter(height, txs)
      ensures decisions == DecisionsAfter(rules, old(RecordsNow()), height, txs)
      ensures accepted == AcceptedOf(decisions)
      ensures ReportsAllTerminations(rules, old(RecordsNow()), height, txs, terminated)
    {
      hide Journaled, HeadIndexesCurrent, CommitIndexCurrent, TxRecords, TxHeads, TxDecision, TxCommits;
      ghost var start := RecordsNow();
      undo', accepted, decisions, terminated := undo, [], [], [];
      for i := 0 to |txs|
        invariant Valid()
        invariant Journaled(undo'.heads, base.heads, heads) && Journaled(undo'.commits, base.commits, commits)
        invariant RecordsNow() == RecordsAfter(rules, start, height, txs[..i])
        invariant undo' == undo.(heads := undo'.heads, commits := undo'.commits)
        invariant undo'.heads.Keys == undo.heads.Keys + HeadsAfter(rules, start, height, txs[..i])
        invariant undo'.commits.Keys == undo.commits.Keys + CommitsAfter(height, txs[..i])
        invariant decisions == DecisionsAfter(rules, start, height, txs[..i])
        invariant accepted == AcceptedOf(decisions)
        invariant ReportsAllTerminations(rules, start, height, txs[..i], terminated)
      {
        hide RecordsAfter, HeadsAfter, CommitsAfter, DecisionsAfter, ReportsAllTerminations, ReportsTerminations;
        OneMoreTx(rules, start, height, txs, i, undo.heads.Keys, undo.commits.Keys);
        var decision, more;
        decision, undo', more := ApplyTransactionDetailed(height, txs[i], undo', base);
        OneMoreReport(rules, start, height, txs, i, terminated, more);
        assert (decisions + [decision])[..|decisions|] == decisions;
        if decision.accepted.Some? {
          accepted := accepted + [decision.accepted.value];
        }
        decisions := decisions + [decision];
        terminated := terminated + more;
      }
      assert txs[..|txs|] == txs;
    }

    function TipNow(): Option<Tip>
      reads this
    {
      if tipHeight.Some? then Some(Tip(tipHeight.value, previousHash)) else None
    }

    function NewUndo(height: u32, hash: Bytes32): Undo
      reads this
    {
      Undo(height, hash, previousHash, nextHeight, tipHeight, map[], map[])
    }

    method DeltaFromUndo(fromTip: Option<Tip>, toTip: Option<Tip>, undo: Undo) returns (delta: StateDelta)
      ensures delta.fromTip == fromTip && delta.toTip == toTip
      ensures Lists(delta.heads, map id | id in undo.heads :: Change(undo.heads[id], Lookup(heads, id)))
      ensures Lists(delta.commits, map r | r in undo.commits :: Change(undo.commits[r], Lookup(commits, r)))
      ensures OrderedDelta(delta)
    {
      hide Lists, Ascends, Ranks, RefRank, NameRank;
      var changedHeads := map id | id in undo.heads :: Change(undo.heads[id], Lookup(heads, id));
      var changedCommits := map r | r in undo.commits :: Change(undo.commits[r], Lookup(commits, r));
      NamesRanked(changedHeads);
      RefsRanked(changedCommits);
      var h := ListAscending(changedHeads, NameRank);
      var c := ListAscending(changedCommits, RefRank);
      delta := StateDelta(fromTip, toTip, h, c);
    }

    /** Applies a block with its evidence, or refuses it and changes nothing. */
    method ApplyBlockDetailed(block: Block, evidence: seq<ReferencedCommit>)
      returns (r: Result<BlockOutcome, ApplyError>)
      requires Valid()
      modifies this
      ensures Valid()
      ensures
        var link, was := Link(block, evidence), old(State());
        match CoreApply(rules, was, link) {
          case Err(e) => r == Err(e) && State() == was
          case Ok(next) => State() == next && r.Ok? && OutcomeOf(rules, was.world, link, r.value)
        }
    {
      hide Journaled, HeadIndexesCurrent, CommitIndexCurrent;
      if Some(block.height) != nextHeight {
        return Err(WrongHeight);
      }
      if block.prevHash != previousHash {
        return Err(WrongPreviousHash);
      }
      var orderError := CheckOrder(block.transactions);
      if orderError.Some? {
        return Err(orderError.value);
      }
      var checked := CheckEvidence(block, evidence);
      if checked.Err? {
        return Err(checked.error);
      }
      assert CheckLink(rules, State().world, Link(block, evidence)).None?;
      var outcome := ApplyChecked(block, evidence, checked.value);
      return Ok(outcome);
    }

    /** Block start and transactions: expiry, compaction, pruning, evidence, then each transaction. */
    method AdvanceRecords(block: Block, supplied: map<CommitRef, Commitment>, undo: Undo, ghost link: Link)
      returns (undo': Undo, accepted: seq<Accepted>, decisions: seq<Decision>, compacted: seq<Compaction>,
               terminated: seq<Termination>)
      requires Valid() && link.block == block && supplied == EvidenceMap(link.evidence)
      requires undo.heads == map[] && undo.commits == map[]
      modifies `commits, `commitsByHeight, `heads, `headsByFutureNf, `activeHeadsByExpiry, `terminalHeadsByHeight
      ensures Valid()
      ensures RecordsNow() == BlockRecords(rules, old(RecordsNow()), link)
      ensures undo' == undo.(heads := Record(old(heads), BlockHeads(rules, old(RecordsNow()), link)),
                             commits := Record(old(commits), BlockCommits(rules, old(RecordsNow()), link)))
      ensures decisions == BlockDecisions(rules, old(RecordsNow()), link)
      ensures accepted == AcceptedOf(decisions)
      ensures ReportsCompactions(rules.parameters, Replay.MarkExpired(old(heads), block.height),
                                 block.height, compacted)
      ensures ReportsAllTerminations(rules, StartRecords(rules, old(RecordsNow()), link), block.height,
                                     block.transactions, terminated)
    {
      hide Journaled, HeadIndexesCurrent, CommitIndexCurrent;
      hide RecordsAfter, HeadsAfter, CommitsAfter, DecisionsAfter, ReportsAllTerminations, ReportsCompactions;
      hide Replay.MarkExpired, Replay.CompactClaimable, Replay.PruneCommits, EvidenceMap, AcceptedOf;
      hide Expires, Compactable, Prunable;
      ghost var base := RecordsNow();
      NothingJournaled(base.heads);
      NothingJournaled(base.commits);
      undo' := MarkExpired(block.height, undo, base);
      undo', compacted := CompactClaimable(block.height, undo', base);
      undo' := PruneCommits(block.height, undo', base);
      undo' := AdmitCommits(supplied, undo', base);
      undo', accepted, decisions, terminated := ApplyTransactions(block.height, block.transactions, undo', base);
      assert undo'.heads.Keys == BlockHeads(rules, base, link);
      assert undo'.commits.Keys == BlockCommits(rules, base, link);
      JournaledIsRecord(undo'.heads, base.heads, heads);
      JournaledIsRecord(undo'.commits, base.commits, commits);
    }

    method ApplyChecked(block: Block, ghost evidence: seq<ReferencedCommit>, supplied: map<CommitRef, Commitment>)
      returns (outcome: BlockOutcome)
      requires Valid() && supplied == EvidenceMap(evidence)
      modifies this
      ensures Valid()
      ensures
        var link, was := Link(block, evidence), old(State());
        && State() == Core(Advance(rules, was.world, link), was.history + [UndoFor(rules, was.world, link)])
        && OutcomeOf(rules, was.world, link, outcome)
    {
      hide HeadIndexesCurrent, CommitIndexCurrent, BlockRecords, BlockHeads, BlockCommits, BlockDecisions;
      hide ReportsAllTerminations, ReportsCompactions, StartRecords, Lists, AcceptedOf, Replay.MarkExpired;
      var fromTip := TipNow();
      var undo := NewUndo(block.height, block.hash);
      var accepted, decisions, compacted, terminated;
      undo, accepted, decisions, compacted, terminated :=
        AdvanceRecords(block, supplied, undo, Link(block, evidence));
      nextHeight := CheckedAdd(block.height, 1);
      tipHeight := Some(block.height);
      previousHash := block.hash;
      var stateDelta := DeltaFromUndo(fromTip, TipNow(), undo);
      RecordedChanges(old(heads), heads, BlockHeads(rules, old(RecordsNow()), Link(block, evidence)));
      RecordedChanges(old(commits), commits, BlockCommits(rules, old(RecordsNow()), Link(block, evidence)));
      history := history + [undo];
      outcome := BlockOutcome(accepted, decisions, compacted, terminated, stateDelta);
    }

    method WriteCommits(entries: map<CommitRef, Option<Commitment>>)
      requires CommitIndexCurrent()
      modifies `commits, `commitsByHeight
      ensures CommitIndexCurrent()
      ensures commits == Overwrite(old(commits), entries)
    {
      hide CommitIndexCurrent;
      var todo := entries.Keys;
      OverwriteNone(commits, entries);
      while todo != {}
        invariant todo <= entries.Keys
        invariant CommitIndexCurrent()
        invariant commits == Overwrite(old(commits), entries - todo)
        decreases todo
      {
        hide Overwrite;
        var reference :| reference in todo;
        OverwriteOneMore(old(commits), entries, todo, reference);
        todo := todo - {reference};
        ReplaceCommit(reference, entries[reference]);
      }
      assert entries - todo == entries;
    }

    method WriteHeads(entries: map<NameId, Option<Head>>)
      requires HeadIndexesCurrent()
      modifies `heads, `headsByFutureNf, `activeHeadsByExpiry, `terminalHeadsByHeight
      ensures HeadIndexesCurrent()
      ensures heads == Overwrite(old(heads), entries)
    {
      hide HeadIndexesCurrent;
      var todo := entries.Keys;
      OverwriteNone(heads, entries);
      while todo != {}
        invariant todo <= entries.Keys
        invariant HeadIndexesCurrent()
        invariant heads == Overwrite(old(heads), entries - todo)
        decreases todo
      {
        hide Overwrite;
        var nameId :| nameId in todo;
        OverwriteOneMore(old(heads), entries, todo, nameId);
        todo := todo - {nameId};
        ReplaceHead(nameId, entries[nameId]);
      }
      assert entries - todo == entries;
    }

    /** Reverts the tip block if it has the expected hash, and reports the inverse record changes. */
    method RollbackTipDetailed(expectedHash: Bytes32) returns (r: Result<StateDelta, RollbackError>)
      requires Valid()
      modifies this
      ensures Valid()
      ensures
        var was := old(State());
        match CoreRollback(was, expectedHash) {
          case Err(e) => r == Err(e) && State() == was
          case Ok(next) =>
            && State() == next && r.Ok? && OrderedDelta(r.value)
            && var undo := was.history[|was.history| - 1];
               IsDelta(r.value, was.world, next.world, undo.heads.Keys, undo.commits.Keys)
        }
    {
      hide HeadIndexesCurrent, CommitIndexCurrent, Overwrite, Lists, Changes;
      if history == [] {
        return Err(if tipHeight.Some? then BeyondRetention else NoAppliedBlock);
      }
      var undo := history[|history| - 1];
      if undo.hash != expectedHash || previousHash != expectedHash {
        return Err(WrongTipHash);
      }
      var fromTip := TipNow();
      history := history[..|history| - 1];
      var currentCommits := Record(commits, undo.commits.Keys);
      var currentHeads := Record(heads, undo.heads.Keys);
      assert currentCommits.Keys == undo.commits.Keys && currentHeads.Keys == undo.heads.Keys;
      WriteCommits(undo.commits);
      WriteHeads(undo.heads);
      previousHash := undo.previousHash;
      nextHeight := undo.previousNextHeight;
      tipHeight := undo.previousTipHeight;
      var delta := InverseDelta(fromTip, currentHeads, currentCommits, old(heads), old(commits));
      return Ok(delta);
    }

    method InverseDelta(fromTip: Option<Tip>, currentHeads: map<NameId, Option<Head>>,
                        currentCommits: map<CommitRef, Option<Commitment>>,
                        ghost wasHeads: map<NameId, Head>, ghost wasCommits: map<CommitRef, Commitment>)
      returns (delta: StateDelta)
      requires currentHeads == Record(wasHeads, currentHeads.Keys)
      requires currentCommits == Record(wasCommits, currentCommits.Keys)
      ensures delta.fromTip == fromTip && delta.toTip == TipNow()
      ensures Lists(delta.heads, Changes(wasHeads, heads, currentHeads.Keys))
      ensures Lists(delta.commits, Changes(wasCommits, commits, currentCommits.Keys))
      ensures OrderedDelta(delta)
    {
      hide Lists, Ascends, Ranks, RefRank, NameRank;
      RecordedChanges(wasHeads, heads, currentHeads.Keys);
      RecordedChanges(wasCommits, commits, currentCommits.Keys);
      var changedHeads := map id | id in currentHeads :: Change(currentHeads[id], Lookup(heads, id));
      var changedCommits := map r | r in currentCommits :: Change(currentCommits[r], Lookup(commits, r));
      NamesRanked(changedHeads);
      RefsRanked(changedCommits);
      var h := ListAscending(changedHeads, NameRank);
      var c := ListAscending(changedCommits, RefRank);
      delta := StateDelta(fromTip, TipNow(), h, c);
    }

    method FinalizeThrough(height: u32) returns (r: Result<(), FinalizationError>)
      requires Valid()
      modifies `history
      ensures Valid()
      ensures match CoreFinalize(old(State()), height) {
        case Err(e) => r == Err(e) && State() == old(State())
        case Ok(next) => r.Ok? && State() == next
      }
    {
      if tipHeight.None? || height > tipHeight.value {
        return Err(BeyondTip);
      }
      while history != [] && history[0].height <= height
        invariant DropThrough(history, height) == DropThrough(old(history), height)
        decreases |history|
      {
        history := history[1..];
      }
      return Ok(());
    }

    method Resolve(name: Name, height: u32) returns (r: Resolution)
      ensures r == Replay.Resolve(rules, heads, name, height)
    {
      var id := rules.nameId(name);
      if id.None? || id.value !in heads {
        return Resolution(Missing, None, None);
      }
      var head := heads[id.value];
      var lifecycle := head.LifecycleAt(height, rules.parameters);
      if lifecycle.Missing? {
        return Resolution(lifecycle, None, None);
      }
      return Resolution(lifecycle, if lifecycle.Active? then Some(head.ua) else None, Some(head));
    }

    /** Resolves only at the canonical tip, or at the activation parent before any block. */
    method ResolveAuthenticated(name: Name, height: u32) returns (r: Result<Resolution, ResolutionError>)
      ensures r == Replay.ResolveAuthenticated(rules, State().world, name, height)
    {
      if tipHeight.None? && rules.parameters.activationHeight == height + 1 {
        var resolution := Resolve(name, height);
        return Ok(resolution);
      }
      if tipHeight.None? || height > tipHeight.value {
        return Err(IncompleteHistory(height, tipHeight));
      }
      if tipHeight != Some(height) {
        return Err(HistoricalResolutionUnavailable(height, tipHeight.value));
      }
      var resolution := Resolve(name, height);
      return Ok(resolution);
    }

    /** Recomputes every index from the records alone. */
    method RebuildDerivedIndexes()
      modifies `commitsByHeight, `headsByFutureNf, `activeHeadsByExpiry, `terminalHeadsByHeight
      ensures CommitIndexCurrent() && HeadIndexesCurrent()
    {
      RebuildCommitIndex();
      RebuildHeadIndexes();
    }

    method RebuildCommitIndex()
      modifies `commitsByHeight
      ensures CommitIndexCurrent()
    {
      hide Inverted, AddEntry;
      commitsByHeight := map[];
      var todo := commits.Keys;
      assert commits - todo == map[];
      NoCommitIndex();
      while todo != {}
        invariant todo <= commits.Keys
        invariant commitsByHeight == Inverted(CommitHeights(commits - todo))
        decreases todo
      {
        var reference :| reference in todo;
        ghost var was := commits - todo;
        AddEntryTracks(CommitHeights(was), reference, reference.height);
        todo := todo - {reference};
        assert commits - todo == was[reference := commits[reference]];
        assert CommitHeights(commits - todo) == CommitHeights(was)[reference := reference.height];
        commitsByHeight := AddEntry(commitsByHeight, reference.height, reference);
      }
      assert commits - todo == commits;
    }

    method RebuildHeadIndexes()
      modifies `headsByFutureNf, `activeHeadsByExpiry, `terminalHeadsByHeight
      ensures HeadIndexesCurrent()
    {
      hide IndexesOf, AddEntry;
      headsByFutureNf, activeHeadsByExpiry, terminalHeadsByHeight := map[], map[], map[];
      var todo := heads.Keys;
      assert heads - todo == map[];
      NoIndexes();
      while todo != {}
        invariant todo <= heads.Keys
        invariant IndexesOf(heads - todo, headsByFutureNf, activeHeadsByExpiry, terminalHeadsByHeight)
        decreases todo
      {
        var nameId :| nameId in todo;
        ghost var was := heads - todo;
        todo := todo - {nameId};
        var head := heads[nameId];
        assert heads - todo == was[nameId := head];
        IndexesGrow(was, nameId, head, headsByFutureNf, activeHeadsByExpiry, terminalHeadsByHeight);
        headsByFutureNf := AddEntry(headsByFutureNf, head.futureNf, nameId);
        match head.terminalHeight {
          case Some(height) => terminalHeadsByHeight := AddEntry(terminalHeadsByHeight, height, nameId);
          case None => activeHeadsByExpiry := AddEntry(activeHeadsByExpiry, head.expiryHeight, nameId);
        }
      }
      assert heads - todo == heads;
    }

    method SaveSnapshot() returns (stored: StoredReducer)
      ensures IsSnapshot(rules, State(), stored) && OrderedSnapshot(stored)
    {
      hide Lists, Ascends, Ranks, RefRank, NameRank;
      RefsRanked(commits);
      NamesRanked(StoreHeads(heads));
      var storedCommits := ListAscending(commits, RefRank);
      var storedHeads := ListAscending(StoreHeads(heads), NameRank);
      var storedHistory: seq<StoredUndo> := [];
      for i := 0 to |history|
        invariant |storedHistory| == i
        invariant forall k :: 0 <= k < i ==> StoresUndo(storedHistory[k], history[k]) && OrderedUndo(storedHistory[k])
      {
        var undo := history[i];
        RefsRanked(undo.commits);
        NamesRanked(StoreUndoHeads(undo.heads));
        var undoCommits := ListAscending(undo.commits, RefRank);
        var undoHeads := ListAscending(StoreUndoHeads(undo.heads), NameRank);
        storedHistory := storedHistory + [
          StoredUndo(undo.height, undo.hash, undo.previousHash, undo.previousNextHeight, undo.previousTipHeight,
                     undoCommits, undoHeads)];
      }
      stored := StoredReducer(
        REDUCER_SNAPSHOT_FORMAT_VERSION, rules.parameters.deploymentId, rules.fingerprint, RangeOf(history),
        rules.parameters, nextHeight, tipHeight, previousHash, storedCommits, storedHeads, storedHistory);
    }

    static method LoadUndo(rules: Rules, network: Network, tipHeight: Option<u32>, stored: StoredUndo)
      returns (r: Option<Undo>)
      requires rules.parameters.epochBlocks > 0
      ensures r == RestoreUndo(rules, network, tipHeight, stored)
    {
      hide Checked, RestoreUndoHead, RestoreUndoCommit;
      if !StorableUndo(rules.parameters, tipHeight, stored) {
        return None;
      }
      var undoCommits := CollectChecked(stored.commits, (r, c) =>
        RestoreUndoCommit(rules.parameters, stored.height, stored.previousTipHeight, r, c));
      if undoCommits.None? {
        return None;
      }
      var undoHeads := CollectChecked(stored.heads, (id, h) =>
        RestoreUndoHead(rules, network, stored.previousTipHeight, id, h));
      if undoHeads.None? {
        return None;
      }
      return Some(Undo(stored.height, stored.hash, stored.previousHash, stored.previousNextHeight,
                       stored.previousTipHeight, undoCommits.value, undoHeads.value));
    }

    static method LoadUndos(rules: Rules, network: Network, stored: StoredReducer) returns (r: Option<seq<Undo>>)
      requires rules.parameters.epochBlocks > 0
      ensures r.Some? <==> forall i :: 0 <= i < |stored.history| ==>
        RestoreUndo(rules, network, stored.tipHeight, stored.history[i]).Some?
      ensures r.Some? ==> r.value == RestoredHistory(rules, network, stored)
    {
      hide RestoreUndo;
      var restored: seq<Undo> := [];
      for i := 0 to |stored.history|
        invariant |restored| == i
        invariant forall k :: 0 <= k < i ==>
          RestoreUndo(rules, network, stored.tipHeight, stored.history[k]) == Some(restored[k])
      {
        var undo := LoadUndo(rules, network, stored.tipHeight, stored.history[i]);
        if undo.None? {
          return None;
        }
        restored := restored + [undo.value];
      }
      return Some(restored);
    }

    constructor From(rules: Rules, core: Core)
      requires rules.parameters.Validated()
      ensures Valid() && this.rules == rules && State() == core
    {
      this.rules := rules;
      nextHeight, tipHeight, previousHash := core.world.nextHeight, core.world.tipHeight, core.world.previousHash;
      commits, heads, history := core.world.records.commits, core.world.records.heads, core.history;
      commitsByHeight, headsByFutureNf := map[], map[];
      activeHeadsByExpiry, terminalHeadsByHeight := map[], map[];
      new;
      RebuildDerivedIndexes();
    }

    /** Restores a checked snapshot with freshly rebuilt indexes, or reports the first failing check. */
    static method LoadSnapshot(rules: Rules, network: Network, stored: StoredReducer)
      returns (r: Result<Reducer, SnapshotError>)
      ensures
        match LoadCore(rules, network, stored) {
          case Err(e) => r == Err(e)
          case Ok(core) =>
            && r.Ok? && fresh(r.value) && r.value.Valid() && r.value.rules == rules
            && r.value.State() == core
        }
    {
      hide Checked, RestoredHistory, RestoreUndo, RestoreNamedHead, RestoreCommit, StorableHistory;
      if rules.parameters.Validate().Err? {
        return Err(ParametersMismatch);
      }
      if stored.formatVersion != REDUCER_SNAPSHOT_FORMAT_VERSION {
        return Err(UnsupportedFormat);
      }
      if || stored.deploymentId != rules.parameters.deploymentId
         || stored.rulesetFingerprint != rules.fingerprint
         || stored.parameters != rules.parameters
      {
        return Err(ParametersMismatch);
      }
      if !StorableTip(rules.parameters, stored.nextHeight, stored.tipHeight) {
        return Err(InvalidState);
      }
      var commits := CollectChecked(stored.commits, (r, c) =>
        RestoreCommit(rules.parameters, stored.tipHeight, r, c));
      if commits.None? {
        return Err(InvalidState);
      }
      var heads := CollectChecked(stored.heads, (id, h) =>
        RestoreNamedHead(rules, network, stored.tipHeight, id, h));
      if heads.None? {
        return Err(InvalidState);
      }
      var history := LoadUndos(rules, network, stored);
      if history.None? {
        return Err(InvalidHistory);
      }
      if !StorableHistory(stored.tipHeight, stored.previousHash, history.value) {
        return Err(InvalidHistory);
      }
      if stored.rollbackRange != RangeOf(history.value) {
        return Err(InvalidHistory);
      }
      var core := Core(World(stored.nextHeight, stored.tipHeight, stored.previousHash,
                             Records(commits.value, heads.value)), history.value);
      var reducer := new Reducer.From(rules, core);
      return Ok(reducer);
    }
  }
}
