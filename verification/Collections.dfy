/**
 Values shared by every component: optional and fallible results, total map lookup,
 keyed overwriting, and the multi-valued index that accelerates range queries.
 */
module Collections {

  datatype Option<+T> = None | Some(value: T)

  datatype Result<+T, +E> = Ok(value: T) | Err(error: E) {
    predicate IsFailure() {
      Err?
    }

    function PropagateFailure<U>(): Result<U, E>
      requires Err?
    {
      Err(error)
    }

    function Extract(): T
      requires Ok?
    {
      value
    }
  }

  function Lookup<K, V>(m: map<K, V>, k: K): Option<V> {
    if k in m then Some(m[k]) else None
  }

  /** The map after storing, or erasing, the value at one key. */
  function Put<K(!new), V>(m: map<K, V>, k: K, v: Option<V>): (r: map<K, V>)
    ensures Lookup(r, k) == v
    ensures forall j :: j != k ==> Lookup(r, j) == Lookup(m, j)
  {
    match v
    case Some(value) => m[k := value]
    case None => m - {k}
  }

  /** The map after every entry of `u` has been written over it; a recorded None erases the key. */
  function Overwrite<K(!new), V>(m: map<K, V>, u: map<K, Option<V>>): (r: map<K, V>)
    ensures forall k :: Lookup(r, k) == if k in u then u[k] else Lookup(m, k)
  {
    map k | k in m.Keys + u.Keys && (k in u ==> u[k].Some?) :: if k in u then u[k].value else m[k]
  }

  /** Maps that answer every lookup alike are equal. */
  lemma SameLookups<K, V>(a: map<K, V>, b: map<K, V>)
    requires forall k :: Lookup(a, k) == Lookup(b, k)
    ensures a == b
  {
    forall k ensures k in a <==> k in b {
      assert Lookup(a, k) == Lookup(b, k);
    }
    forall k | k in a ensures a[k] == b[k] {
      assert Lookup(a, k) == Lookup(b, k);
    }
  }

  /** The recorded value of each key of `ks` in `m`. */
  function Record<K, V>(m: map<K, V>, ks: set<K>): map<K, Option<V>> {
    map k | k in ks :: Lookup(m, k)
  }

  /** Writing the recorded values back undoes any change confined to the recorded keys. */
  lemma OverwriteUndoes<K(!new), V>(before: map<K, V>, after: map<K, V>, ks: set<K>)
    requires forall k :: k !in ks ==> Lookup(before, k) == Lookup(after, k)
    ensures Overwrite(after, Record(before, ks)) == before
  {
    var r := Overwrite(after, Record(before, ks));
    forall k ensures Lookup(r, k) == Lookup(before, k) {
    }
    SameLookups(r, before);
  }

  lemma OverwriteNone<K(!new), V>(m: map<K, V>, entries: map<K, Option<V>>)
    ensures Overwrite(m, entries - entries.Keys) == m
    ensures entries - {} == entries
  {
    SameLookups(Overwrite(m, entries - entries.Keys), m);
  }

  lemma OverwriteOneMore<K(!new), V>(m: map<K, V>, entries: map<K, Option<V>>, todo: set<K>, k: K)
    requires k in todo && k in entries
    ensures Put(Overwrite(m, entries - todo), k, entries[k]) == Overwrite(m, entries - (todo - {k}))
  {
    SameLookups(Put(Overwrite(m, entries - todo), k, entries[k]), Overwrite(m, entries - (todo - {k})));
  }

  // ---- lists of key/value pairs ----

  ghost predicate DistinctKeys<K, V>(s: seq<(K, V)>) {
    forall i, j :: 0 <= i < j < |s| ==> s[i].0 != s[j].0
  }

  /** `s` lists every entry of `m` exactly once, in some order. */
  ghost predicate Lists<K, V>(s: seq<(K, V)>, m: map<K, V>) {
    && DistinctKeys(s)
    && (forall i :: 0 <= i < |s| ==> s[i].0 in m && m[s[i].0] == s[i].1)
    && (forall k :: k in m ==> exists i :: 0 <= i < |s| && s[i].0 == k)
  }

  /** The map built by inserting the listed pairs from first to last. */
  function Collect<K, V>(s: seq<(K, V)>): map<K, V> {
    if s == [] then map[] else Collect(s[..|s| - 1])[s[|s| - 1].0 := s[|s| - 1].1]
  }

  lemma {:induction false} CollectKeys<K, V>(s: seq<(K, V)>)
    ensures forall k :: k in Collect(s) <==> exists i :: 0 <= i < |s| && s[i].0 == k
  {
    if s != [] {
      var front, last := s[..|s| - 1], s[|s| - 1];
      CollectKeys(front);
      forall k ensures k in Collect(s) <==> exists i :: 0 <= i < |s| && s[i].0 == k {
        if k == last.0 {
          assert s[|s| - 1].0 == k;
        } else if k in Collect(front) {
          var i :| 0 <= i < |front| && front[i].0 == k;
          assert s[i].0 == k;
        } else {
          forall i | 0 <= i < |s| ensures s[i].0 != k {
            assert i < |front| ==> front[i] == s[i];
          }
        }
      }
    }
  }

  lemma {:induction false} CollectDistinct<K, V>(s: seq<(K, V)>)
    requires DistinctKeys(s)
    ensures forall i :: 0 <= i < |s| ==> s[i].0 in Collect(s) && Collect(s)[s[i].0] == s[i].1
  {
    if s != [] {
      var front, last := s[..|s| - 1], s[|s| - 1];
      forall i, j | 0 <= i < j < |front| ensures front[i].0 != front[j].0 {
        assert s[i].0 != s[j].0;
      }
      CollectDistinct(front);
      forall i | 0 <= i < |s| ensures s[i].0 in Collect(s) && Collect(s)[s[i].0] == s[i].1 {
        if i < |front| {
          assert front[i] == s[i];
        }
      }
    }
  }

  /** Collecting any listing of a map gives that map back. */
  lemma CollectListing<K, V>(s: seq<(K, V)>, m: map<K, V>)
    requires Lists(s, m)
    ensures Collect(s) == m
  {
    CollectKeys(s);
    CollectDistinct(s);
    forall k ensures Lookup(Collect(s), k) == Lookup(m, k) {
    }
    SameLookups(Collect(s), m);
  }

  // ---- ascending enumeration of a set of numbers ----

  ghost predicate StrictlyAscending(s: seq<nat>) {
    forall i, j :: 0 <= i < j < |s| ==> s[i] < s[j]
  }

  ghost predicate Enumerates(s: seq<nat>, xs: set<nat>) {
    StrictlyAscending(s) && forall x :: x in xs <==> x in s
  }

  predicate IsLeast(x: nat, xs: set<nat>) {
    x in xs && forall y :: y in xs ==> x <= y
  }

  lemma {:induction false} LeastExists(xs: set<nat>)
    requires xs != {}
    ensures exists x :: x in xs && IsLeast(x, xs)
  {
    var a :| a in xs;
    var rest := xs - {a};
    if rest == {} {
      assert xs == {a} && IsLeast(a, xs);
    } else {
      LeastExists(rest);
      var b :| b in rest && IsLeast(b, rest);
      assert xs == rest + {a};
      assert IsLeast(if a < b then a else b, xs);
    }
  }

  /** A set has only one ascending enumeration. */
  lemma {:induction false} EnumerationUnique(a: seq<nat>, b: seq<nat>, xs: set<nat>)
    requires Enumerates(a, xs) && Enumerates(b, xs)
    ensures a == b
    decreases |a|
  {
    EmptyEnumeration(a, xs);
    EmptyEnumeration(b, xs);
    if a != [] && b != [] {
      LastIsGreatest(a, xs);
      LastIsGreatest(b, xs);
      hide Enumerates;
      var x := a[|a| - 1];
      EnumerationUnique(a[..|a| - 1], b[..|b| - 1], xs - {x});
      assert a == a[..|a| - 1] + [x] && b == b[..|b| - 1] + [x];
    }
  }

  lemma EmptyEnumeration(s: seq<nat>, xs: set<nat>)
    requires Enumerates(s, xs)
    ensures s == [] <==> xs == {}
  {
    assert s != [] ==> s[0] in xs;
  }

  lemma LastIsGreatest(s: seq<nat>, xs: set<nat>)
    requires Enumerates(s, xs) && s != []
    ensures s[|s| - 1] in xs && forall y :: y in xs ==> y <= s[|s| - 1]
    ensures Enumerates(s[..|s| - 1], xs - {s[|s| - 1]})
  {
    var front, x := s[..|s| - 1], s[|s| - 1];
    forall y | y in xs ensures y <= x && (y in front <==> y != x) {
      var i :| 0 <= i < |s| && s[i] == y;
      assert i < |front| ==> front[i] == y;
    }
    forall y | y in front ensures y in xs && y != x {
      var i :| 0 <= i < |front| && front[i] == y;
      assert s[i] == y;
    }
  }

  /** A number above every number of a set extends its enumeration. */
  lemma EnumeratesMore(s: seq<nat>, xs: set<nat>, x: nat)
    requires Enumerates(s, xs) && forall y :: y in xs ==> y < x
    ensures Enumerates(s + [x], xs + {x})
  {
    assert forall i :: 0 <= i < |s| ==> s[i] in xs;
  }

  /** Iteration order of an ordered set: its elements from least to greatest. */
  method SortAscending(xs: set<nat>) returns (s: seq<nat>)
    ensures Enumerates(s, xs)
  {
    s := [];
    var todo := xs;
    while todo != {}
      invariant todo <= xs && Enumerates(s, xs - todo)
      invariant forall x, y :: x in xs - todo && y in todo ==> x < y
      decreases todo
    {
      LeastExists(todo);
      var x :| x in todo && IsLeast(x, todo);
      EnumeratesMore(s, xs - todo, x);
      assert xs - (todo - {x}) == xs - todo + {x};
      s := s + [x];
      todo := todo - {x};
    }
    assert xs - todo == xs;
  }

  // ---- listings in key order ----

  /** The keys of the listing have strictly increasing ranks. */
  ghost predicate Ascends<K, V>(s: seq<(K, V)>, rank: K -> nat) {
    forall i, j :: 0 <= i < j < |s| ==> rank(s[i].0) < rank(s[j].0)
  }

  /** Different keys of the map have different ranks. */
  ghost predicate Ranks<K, V>(m: map<K, V>, rank: K -> nat) {
    forall j, k :: j in m && k in m && rank(j) == rank(k) ==> j == k
  }

  predicate IsFirst<K(==)>(k: K, ks: set<K>, rank: K -> nat) {
    k in ks && forall j :: j in ks ==> rank(k) <= rank(j)
  }

  lemma {:induction false} FirstExists<K>(ks: set<K>, rank: K -> nat)
    requires ks != {}
    ensures exists k :: k in ks && IsFirst(k, ks, rank)
  {
    var a :| a in ks;
    var rest := ks - {a};
    if rest == {} {
      assert ks == {a} && IsFirst(a, ks, rank);
    } else {
      FirstExists(rest, rank);
      var b :| b in rest && IsFirst(b, rest, rank);
      assert ks == rest + {a};
      assert IsFirst(if rank(a) < rank(b) then a else b, ks, rank);
    }
  }

  lemma ListsOneMore<K, V>(s: seq<(K, V)>, m: map<K, V>, todo: set<K>, k: K)
    requires Lists(s, m - todo) && k in m && k in todo
    ensures Lists(s + [(k, m[k])], m - (todo - {k}))
  {
    var t := s + [(k, m[k])];
    forall j | j in m - (todo - {k}) ensures exists i :: 0 <= i < |t| && t[i].0 == j {
      if j == k {
        assert t[|s|].0 == k;
      } else {
        assert j in m - todo;
        var i :| 0 <= i < |s| && s[i].0 == j;
        assert t[i].0 == j;
      }
    }
  }

  lemma AscendsOneMore<K, V>(s: seq<(K, V)>, m: map<K, V>, rank: K -> nat, k: K, v: V)
    requires Lists(s, m) && Ascends(s, rank) && forall j :: j in m ==> rank(j) < rank(k)
    ensures Ascends(s + [(k, v)], rank)
  {
  }

  /** Iteration order of an ordered map: its entries from the least key to the greatest. */
  method ListAscending<K(==), V>(m: map<K, V>, rank: K -> nat) returns (s: seq<(K, V)>)
    requires Ranks(m, rank)
    ensures Lists(s, m) && Ascends(s, rank)
  {
    s := [];
    var todo := m.Keys;
    assert m - todo == map[];
    while todo != {}
      invariant todo <= m.Keys
      invariant Lists(s, m - todo) && Ascends(s, rank)
      invariant forall j, k :: j in m && j !in todo && k in todo ==> rank(j) < rank(k)
      decreases todo
    {
      hide Lists, Ascends;
      FirstExists(todo, rank);
      var k :| k in todo && IsFirst(k, todo, rank);
      ListsOneMore(s, m, todo, k);
      AscendsOneMore(s, m - todo, rank, k, m[k]);
      s := s + [(k, m[k])];
      todo := todo - {k};
    }
    assert m - todo == m;
  }

  ghost function RanksOf<K, V>(s: seq<(K, V)>, rank: K -> nat): (r: seq<nat>)
    ensures |r| == |s| && forall i :: 0 <= i < |s| ==> r[i] == rank(s[i].0)
  {
    if s == [] then [] else RanksOf(s[..|s| - 1], rank) + [rank(s[|s| - 1].0)]
  }

  lemma RanksEnumerate<K, V>(s: seq<(K, V)>, m: map<K, V>, rank: K -> nat)
    requires Lists(s, m) && Ascends(s, rank)
    ensures Enumerates(RanksOf(s, rank), set k | k in m :: rank(k))
  {
    var ranks := RanksOf(s, rank);
    forall k | k in m ensures rank(k) in ranks {
      var i :| 0 <= i < |s| && s[i].0 == k;
      assert ranks[i] == rank(k);
    }
  }

  /** A map has only one listing in key order. */
  lemma OrderedListingUnique<K, V>(s: seq<(K, V)>, t: seq<(K, V)>, m: map<K, V>, rank: K -> nat)
    requires Ranks(m, rank)
    requires Lists(s, m) && Ascends(s, rank) && Lists(t, m) && Ascends(t, rank)
    ensures s == t
  {
    RanksEnumerate(s, m, rank);
    RanksEnumerate(t, m, rank);
    EnumerationUnique(RanksOf(s, rank), RanksOf(t, rank), set k | k in m :: rank(k));
    forall i | 0 <= i < |s| ensures s[i] == t[i] {
      assert RanksOf(s, rank)[i] == RanksOf(t, rank)[i];
    }
  }

  // ---- loops over a collection, by the part already done ----

  ghost predicate Distinct<T>(s: seq<T>) {
    forall i, j :: 0 <= i < j < |s| ==> s[i] != s[j]
  }

  ghost function Taken<T>(s: seq<T>, i: nat): set<T>
    requires i <= |s|
  {
    set x | x in s[..i]
  }

  lemma TakeOneMore<T>(s: seq<T>, i: nat, others: set<T>)
    requires i < |s| && Distinct(s)
    ensures Taken(s, i + 1) == Taken(s, i) + {s[i]} && s[i] !in Taken(s, i)
    ensures others + Taken(s, i) + {s[i]} == others + Taken(s, i + 1)
  {
    assert s[..i + 1] == s[..i] + [s[i]];
  }

  lemma AscendingIsDistinct(s: seq<nat>)
    requires StrictlyAscending(s)
    ensures Distinct(s)
  {
  }

  lemma EnumeratedMembers(s: seq<nat>, xs: set<nat>)
    requires Enumerates(s, xs)
    ensures forall i :: 0 <= i < |s| ==> s[i] in xs
  {
  }

  lemma TakenAll<T>(s: seq<T>, xs: set<T>)
    requires forall x :: x in s <==> x in xs
    ensures Taken(s, |s|) == xs
    ensures Taken(s, 0) == {}
  {
    assert s[..|s|] == s;
  }

  lemma MoveOne<T>(others: set<T>, done: set<T>, todo: set<T>, x: T)
    requires x in todo
    ensures done + {x} + (todo - {x}) == done + todo
    ensures others + done + {x} == others + (done + {x})
  {
  }

  // ---- multi-valued indexes ----

  /** The index that groups the keys of `key` by the value they carry; it has no empty bucket. */
  ghost function Inverted<V, K>(key: map<V, K>): map<K, set<V>> {
    map k | k in key.Values :: set v | v in key && key[v] == k
  }

  function Bucket<K, V>(index: map<K, set<V>>, k: K): set<V> {
    if k in index then index[k] else {}
  }

  function AddEntry<K, V>(index: map<K, set<V>>, k: K, v: V): map<K, set<V>> {
    index[k := Bucket(index, k) + {v}]
  }

  /** Takes `v` out of the bucket at `k` and drops the bucket once it is empty. */
  function RemoveEntry<K, V>(index: map<K, set<V>>, k: K, v: V): map<K, set<V>> {
    if k in index then
      var bucket := index[k] - {v};
      if bucket == {} then index - {k} else index[k := bucket]
    else index
  }

  lemma InvertedLookup<V, K>(key: map<V, K>, k: K)
    ensures Bucket(Inverted(key), k) == set v | v in key && key[v] == k
    ensures k in Inverted(key) <==> (set v | v in key && key[v] == k) != {}
  {
    var bucket := set v | v in key && key[v] == k;
    if k in key.Values {
      var v :| v in key && key[v] == k;
      assert v in bucket;
    } else {
      forall v | v in key ensures key[v] != k {
        assert key[v] in key.Values;
      }
      assert bucket == {};
    }
  }

  lemma InvertedMember<V, K>(key: map<V, K>, k: K, v: V)
    ensures k in Inverted(key) && v in Inverted(key)[k] <==> v in key && key[v] == k
  {
  }

  /** Adding an entry to the index tracks the insertion of a fresh key. */
  lemma AddEntryTracks<V, K>(key: map<V, K>, v: V, k: K)
    requires v !in key
    ensures AddEntry(Inverted(key), k, v) == Inverted(key[v := k])
  {
    var after := key[v := k];
    var index := AddEntry(Inverted(key), k, v);
    forall j ensures Lookup(index, j) == Lookup(Inverted(after), j) {
      InvertedLookup(key, j);
      InvertedLookup(after, j);
      var was, now := set u | u in key && key[u] == j, set u | u in after && after[u] == j;
      if j == k {
        assert v in now;
        assert now == was + {v};
      } else {
        assert now == was;
      }
    }
    SameLookups(index, Inverted(after));
  }

  /** Removing an entry from the index tracks the removal of its key. */
  lemma RemoveEntryTracks<V, K>(key: map<V, K>, v: V)
    requires v in key
    ensures RemoveEntry(Inverted(key), key[v], v) == Inverted(key - {v})
  {
    var after, k := key - {v}, key[v];
    var index := RemoveEntry(Inverted(key), k, v);
    forall j ensures Lookup(index, j) == Lookup(Inverted(after), j) {
      InvertedLookup(key, j);
      InvertedLookup(after, j);
      var was, now := set u | u in key && key[u] == j, set u | u in after && after[u] == j;
      if j == k {
        assert v in was;
        assert now == was - {v};
      } else {
        assert now == was;
      }
    }
    SameLookups(index, Inverted(after));
  }
}
