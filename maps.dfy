/**
 * The persistent map: a mathematical map from values to values. Lookup is by
 * value equality. The tree's ascending iteration order is not modelled; where
 * an operation depends on the order of iteration, the order is the one
 * `Enumerate` picks.
 */
module Maps {
  import opened Wrappers
  import opened Values

  function NewEmpty(): (r: map<Value, Value>)
    ensures |r| == 0 && IsEmpty(r)
  {
    map[]
  }

  predicate IsEmpty(m: map<Value, Value>) { |m| == 0 }

  /** The value stored under `key`, if any. */
  function Get(m: map<Value, Value>, key: Value): (r: Option<Value>)
    ensures r.Some? <==> key in m
    ensures r.Some? ==> r.value == m[key]
  {
    if key in m then Some(m[key]) else None
  }

  predicate ContainsKey(m: map<Value, Value>, key: Value)
  {
    key in m
  }

  /** `get_or`: the stored value, or the given one when the key is absent. */
  function GetOr(m: map<Value, Value>, key: Value, fallback: Value): (r: Value)
    ensures ContainsKey(m, key) ==> r == m[key]
    ensures !ContainsKey(m, key) ==> r == fallback
  {
    match Get(m, key)
    case Some(v) => v
    case None => fallback
  }

  /** `get_or_nil`: the stored value, or nil. */
  function GetOrNil(m: map<Value, Value>, key: Value): (r: Value)
    ensures Get(m, key).Some? ==> r == Get(m, key).value
    ensures Get(m, key).None? ==> r == Nil
  {
    GetOr(m, key, Nil)
  }

  /** `get_or_else`: the stored value, or what the fallback produces. */
  function GetOrElse(m: map<Value, Value>, key: Value, orElse: () -> Value): (r: Value)
    ensures Get(m, key).Some? ==> r == Get(m, key).value
    ensures Get(m, key).None? ==> r == orElse()
  {
    match Get(m, key)
    case Some(v) => v
    case None => orElse()
  }

  /** A present nil is told apart from an absent key only by `get`, not by `get_or_nil`. */
  lemma NilValueLooksAbsent(m: map<Value, Value>, key: Value)
    requires key !in m
    ensures GetOrNil(m[key := Nil], key) == GetOrNil(m, key)
    ensures Get(m[key := Nil], key) != Get(m, key)
  {
  }

  // ---------------------------------------------------------------- iteration

  /** `keys`: every key once. */
  ghost function Keys(m: map<Value, Value>): (r: seq<Value>)
    ensures |r| == |m|
    ensures forall i | 0 <= i < |r| :: r[i] in m
    ensures forall k | k in m :: k in r
    ensures forall i, j | 0 <= i < j < |r| :: r[i] != r[j]
  {
    Enumerate(m.Keys)
  }

  /** `values`: the value of every key, in the order of `keys`. */
  ghost function ValuesOf(m: map<Value, Value>): (r: seq<Value>)
    ensures |r| == |m|
    ensures forall i | 0 <= i < |r| :: r[i] == m[Keys(m)[i]]
  {
    var ks := Keys(m);
    seq(|ks|, i requires 0 <= i < |ks| => m[ks[i]])
  }

  /** `entries`: every key with its value, in the order of `keys`. */
  ghost function Entries(m: map<Value, Value>): (r: seq<(Value, Value)>)
    ensures |r| == |m|
    ensures forall i | 0 <= i < |r| :: r[i] == (Keys(m)[i], ValuesOf(m)[i])
  {
    var ks := Keys(m);
    seq(|ks|, i requires 0 <= i < |ks| => (ks[i], m[ks[i]]))
  }

  // ---------------------------------------------------------------- building

  /**
   * `FromIterator<(K, V)>`: the pairs inserted in order, so a key that occurs
   * more than once keeps the value of its last occurrence.
   */
  function FromPairs(pairs: seq<(Value, Value)>): (r: map<Value, Value>)
    ensures |r| <= |pairs|
  {
    if pairs == [] then map[]
    else
      var last := pairs[|pairs| - 1];
      FromPairs(pairs[..|pairs| - 1])[last.0 := last.1]
  }

  /** No later pair has the same key as the pair at `i`. */
  predicate LastOccurrence(pairs: seq<(Value, Value)>, i: int)
    requires 0 <= i < |pairs|
  {
    forall j | i < j < |pairs| :: pairs[j].0 != pairs[i].0
  }

  /** Every key of the pairs ends up in the map. */
  lemma {:induction false} FromPairsHas(pairs: seq<(Value, Value)>, i: int)
    requires 0 <= i < |pairs|
    ensures pairs[i].0 in FromPairs(pairs)
  {
    if i < |pairs| - 1 {
      var init := pairs[..|pairs| - 1];
      FromPairsHas(init, i);
      assert init[i] == pairs[i];
    }
  }

  /** Every key of the map comes from a pair, and its value is the one of the key's last pair. */
  lemma {:induction false} FromPairsOnly(pairs: seq<(Value, Value)>, k: Value)
    requires k in FromPairs(pairs)
    ensures exists i | 0 <= i < |pairs| :: pairs[i].0 == k && LastOccurrence(pairs, i) && FromPairs(pairs)[k] == pairs[i].1
  {
    var n := |pairs|;
    var init := pairs[..n - 1];
    if k == pairs[n - 1].0 {
      assert LastOccurrence(pairs, n - 1);
    } else {
      FromPairsOnly(init, k);
      var i :| 0 <= i < |init| && init[i].0 == k && LastOccurrence(init, i) && FromPairs(init)[k] == init[i].1;
      LastBeforeTheEnd(pairs, i);
      assert FromPairs(pairs)[k] == FromPairs(init)[k];
      assert pairs[i].0 == k && LastOccurrence(pairs, i) && FromPairs(pairs)[k] == pairs[i].1;
    }
  }

  /** The last pair of a key among all but the final pair stays last when the final pair has another key. */
  lemma LastBeforeTheEnd(pairs: seq<(Value, Value)>, i: int)
    requires 0 <= i < |pairs| - 1 && LastOccurrence(pairs[..|pairs| - 1], i)
    requires pairs[i].0 != pairs[|pairs| - 1].0
    ensures LastOccurrence(pairs, i) && pairs[..|pairs| - 1][i] == pairs[i]
  {
    var init := pairs[..|pairs| - 1];
    forall j | i < j < |pairs| ensures pairs[j].0 != pairs[i].0 {
      if j < |pairs| - 1 { assert init[j] == pairs[j] && init[i] == pairs[i]; }
    }
  }

  /** The last pair of each key decides its value: later insertions win. */
  lemma LastPairWins(pairs: seq<(Value, Value)>, i: int)
    requires 0 <= i < |pairs| && LastOccurrence(pairs, i)
    ensures pairs[i].0 in FromPairs(pairs)
    ensures FromPairs(pairs)[pairs[i].0] == pairs[i].1
  {
    FromPairsHas(pairs, i);
    FromPairsOnly(pairs, pairs[i].0);
    var i' :| 0 <= i' < |pairs| && pairs[i'].0 == pairs[i].0 && LastOccurrence(pairs, i') && FromPairs(pairs)[pairs[i].0] == pairs[i'].1;
    assert i' == i;
  }

  /** The keys of `entries` never repeat, so each entry is the last of its key. */
  lemma EntryIsLast(m: map<Value, Value>, i: int)
    requires 0 <= i < |m|
    ensures LastOccurrence(Entries(m), i)
    ensures Entries(m)[i] == (Keys(m)[i], m[Keys(m)[i]])
  {
    var ps := Entries(m);
    forall j | i < j < |ps| ensures ps[j].0 != ps[i].0 {
      assert ps[j].0 == Keys(m)[j];
    }
  }

  /** Collecting the entries of a map gives the map back: `entries` and `FromIterator` are inverse. */
  lemma EntriesRebuild(m: map<Value, Value>)
    ensures FromPairs(Entries(m)) == m
  {
    var r := FromPairs(Entries(m));
    forall k | k in m ensures k in r && r[k] == m[k] {
      EntryKept(m, k);
    }
    forall k | k in r ensures k in m {
      EntryKeyIn(m, k);
    }
    SameEntries(r, m);
  }

  lemma SameEntries(r: map<Value, Value>, m: map<Value, Value>)
    requires forall k | k in m :: k in r && r[k] == m[k]
    requires forall k | k in r :: k in m
    ensures r == m
  {
  }

  lemma EntryKeyIn(m: map<Value, Value>, k: Value)
    requires k in FromPairs(Entries(m))
    ensures k in m
  {
    FromPairsOnly(Entries(m), k);
    var i :| 0 <= i < |Entries(m)| && Entries(m)[i].0 == k;
    assert Entries(m)[i].0 == Keys(m)[i];
  }

  lemma EntryKept(m: map<Value, Value>, k: Value)
    requires k in m
    ensures k in FromPairs(Entries(m)) && FromPairs(Entries(m))[k] == m[k]
  {
    var ks := Keys(m);
    var i :| 0 <= i < |ks| && ks[i] == k;
    EntryIsLast(m, i);
    LastPairWins(Entries(m), i);
  }

  /** `f` sends no two keys of `m` to the same value. */
  ghost predicate InjectiveOn(m: map<Value, Value>, f: Value -> Value)
  {
    forall a, b | a in m && b in m && a != b :: f(a) != f(b)
  }

  /** `map_values`: every key keeps its place and gets `f` of its value. */
  function MapValues(m: map<Value, Value>, f: Value -> Value): (r: map<Value, Value>)
    ensures r.Keys == m.Keys
    ensures forall k | k in m :: r[k] == f(m[k])
  {
    map k | k in m :: f(m[k])
  }

  /** The pairs `f(k, v)` for the entries of `m`, in iteration order. */
  ghost function RewrittenEntries(m: map<Value, Value>, f: (Value, Value) -> (Value, Value)): (r: seq<(Value, Value)>)
    ensures |r| == |Keys(m)|
    ensures forall i | 0 <= i < |r| :: r[i] == f(Keys(m)[i], m[Keys(m)[i]])
  {
    var ks := Keys(m);
    seq(|ks|, i requires 0 <= i < |ks| => f(ks[i], m[ks[i]]))
  }

  /** `map_entries`: every pair `f(k, v)` is inserted in iteration order. */
  ghost function MapEntries(m: map<Value, Value>, f: (Value, Value) -> (Value, Value)): (r: map<Value, Value>)
    ensures |r| <= |m|
  {
    FromPairs(RewrittenEntries(m, f))
  }

  /** `map_keys`: every pair `(f(k), v)` is inserted in iteration order. */
  ghost function MapKeys(m: map<Value, Value>, f: Value -> Value): (r: map<Value, Value>)
    ensures |r| <= |m|
  {
    MapEntries(m, (k, v) => (f(k), v))
  }

  /**
   * The keys of `map_entries` are the new keys, and an entry whose new key
   * no other entry produces is stored as produced.
   */
  lemma MapEntriesHas(m: map<Value, Value>, f: (Value, Value) -> (Value, Value), k: Value)
    requires k in m
    ensures f(k, m[k]).0 in MapEntries(m, f)
    ensures (forall k' | k' in m && k' != k :: f(k', m[k']).0 != f(k, m[k]).0) ==>
      MapEntries(m, f)[f(k, m[k]).0] == f(k, m[k]).1
  {
    var ks := Keys(m);
    var pairs := RewrittenEntries(m, f);
    var i :| 0 <= i < |ks| && ks[i] == k;
    FromPairsHas(pairs, i);
    if forall k' | k' in m && k' != k :: f(k', m[k']).0 != f(k, m[k]).0 {
      forall j | i < j < |pairs| ensures pairs[j].0 != pairs[i].0 {
        assert ks[j] != ks[i];
      }
      LastPairWins(pairs, i);
    }
  }

  /** Every key of `map_entries` is the new key of some entry. */
  lemma MapEntriesOnly(m: map<Value, Value>, f: (Value, Value) -> (Value, Value), y: Value)
    requires y in MapEntries(m, f)
    ensures exists k | k in m :: f(k, m[k]).0 == y
  {
    var pairs := RewrittenEntries(m, f);
    FromPairsOnly(pairs, y);
    var i :| 0 <= i < |pairs| && pairs[i].0 == y;
    assert Keys(m)[i] in m;
  }

  /** `map_keys` with an `f` that keeps keys apart moves each value to its new key. */
  lemma MapKeysInjective(m: map<Value, Value>, f: Value -> Value, k: Value)
    requires InjectiveOn(m, f) && k in m
    ensures f(k) in MapKeys(m, f) && MapKeys(m, f)[f(k)] == m[k]
  {
    MapEntriesHas(m, (k, v) => (f(k), v), k);
  }

  /** Rewriting entries without touching the keys is `map_values`. */
  lemma MapEntriesKeepingKeys(m: map<Value, Value>, g: Value -> Value)
    ensures MapEntries(m, (k, v) => (k, g(v))) == MapValues(m, g)
  {
    var f := (k, v) => (k, g(v));
    var r := MapEntries(m, f);
    forall k | k in m ensures k in r && r[k] == g(m[k]) {
      KeptKeyHas(m, g, f, k);
    }
    forall y | y in r ensures y in m {
      KeptKeyOnly(m, g, f, y);
    }
    SameEntries(r, MapValues(m, g));
  }

  lemma KeptKeyHas(m: map<Value, Value>, g: Value -> Value, f: (Value, Value) -> (Value, Value), k: Value)
    requires forall a, b :: f(a, b) == (a, g(b))
    requires k in m
    ensures k in MapEntries(m, f) && MapEntries(m, f)[k] == g(m[k])
  {
    MapEntriesHas(m, f, k);
  }

  lemma KeptKeyOnly(m: map<Value, Value>, g: Value -> Value, f: (Value, Value) -> (Value, Value), y: Value)
    requires forall a, b :: f(a, b) == (a, g(b))
    requires y in MapEntries(m, f)
    ensures y in m
  {
    MapEntriesOnly(m, f, y);
  }

  /**
   * The rewritten keys stay apart: no two entries get the same new key, and
   * no entry's new key is another entry's old key.
   */
  ghost predicate NewKeysApart(m: map<Value, Value>, f: (Value, Value) -> (Value, Value))
  {
    forall a, b | a in m && b in m && a != b :: f(a, m[a]).0 != f(b, m[b]).0 && f(a, m[a]).0 != b
  }

  /**
   * Part way through rewriting `m0` in place: the keys still `pending` hold
   * their old values, every other entry is stored under its new key, and
   * nothing else is in `r`.
   */
  ghost predicate Partial(m0: map<Value, Value>, f: (Value, Value) -> (Value, Value), pending: set<Value>, r: map<Value, Value>)
  {
    (forall k | k in pending :: k in m0 && k in r && r[k] == m0[k]) &&
    (forall k | k in m0 && k !in pending :: f(k, m0[k]).0 in r && r[f(k, m0[k]).0] == f(k, m0[k]).1) &&
    (forall y | y in r :: y in pending || exists k | k in m0 && k !in pending :: f(k, m0[k]).0 == y)
  }

  /** Rewriting one pending entry in place keeps the rewrite partial. */
  lemma PartialStep(m0: map<Value, Value>, f: (Value, Value) -> (Value, Value), pending: set<Value>, r: map<Value, Value>, k: Value)
    requires NewKeysApart(m0, f) && pending <= m0.Keys && Partial(m0, f, pending, r) && k in pending
    ensures k in r && r[k] == m0[k]
    ensures Partial(m0, f, pending - {k}, (r - {k})[f(k, m0[k]).0 := f(k, m0[k]).1])
  {
    var e := f(k, m0[k]);
    var r' := (r - {k})[e.0 := e.1];
    var rest := pending - {k};
    forall j | j in rest ensures j in r' && r'[j] == m0[j] {
      assert e.0 != j;
    }
    forall j | j in m0 && j !in rest ensures f(j, m0[j]).0 in r' && r'[f(j, m0[j]).0] == f(j, m0[j]).1 {
      if j != k {
        assert f(j, m0[j]).0 != k && f(j, m0[j]).0 != e.0;
      }
    }
    forall y | y in r' ensures y in rest || exists j | j in m0 && j !in rest :: f(j, m0[j]).0 == y {
      if y != e.0 {
        assert y in r && y != k;
      }
    }
  }

  /** When the rewritten keys stay apart, no other entry gets the new key of `k`. */
  lemma ApartFromOthers(m0: map<Value, Value>, f: (Value, Value) -> (Value, Value), k: Value)
    requires NewKeysApart(m0, f) && k in m0
    ensures forall j | j in m0 && j != k :: f(j, m0[j]).0 != f(k, m0[k]).0
  {
  }

  /** A finished rewrite is `map_entries`. */
  lemma PartialDone(m0: map<Value, Value>, f: (Value, Value) -> (Value, Value), r: map<Value, Value>)
    requires NewKeysApart(m0, f) && Partial(m0, f, {}, r)
    ensures r == MapEntries(m0, f)
  {
    var e := MapEntries(m0, f);
    forall y | y in r ensures y in e && e[y] == r[y] {
      DoneHas(m0, f, r, y);
    }
    forall y | y in e ensures y in r {
      DoneOnly(m0, f, r, y);
    }
    SameEntries(e, r);
  }

  lemma DoneHas(m0: map<Value, Value>, f: (Value, Value) -> (Value, Value), r: map<Value, Value>, y: Value)
    requires NewKeysApart(m0, f) && Partial(m0, f, {}, r) && y in r
    ensures y in MapEntries(m0, f) && MapEntries(m0, f)[y] == r[y]
  {
    var k :| k in m0 && f(k, m0[k]).0 == y;
    ApartFromOthers(m0, f, k);
    MapEntriesHas(m0, f, k);
  }

  lemma DoneOnly(m0: map<Value, Value>, f: (Value, Value) -> (Value, Value), r: map<Value, Value>, y: Value)
    requires Partial(m0, f, {}, r) && y in MapEntries(m0, f)
    ensures y in r
  {
    MapEntriesOnly(m0, f, y);
  }

  /** `map_values` composes, and mapping with the identity changes nothing. */
  lemma MapValuesCompose(m: map<Value, Value>, f: Value -> Value, g: Value -> Value)
    ensures MapValues(MapValues(m, f), g) == MapValues(m, x => g(f(x)))
    ensures MapValues(m, x => x) == m
  {
  }

  // ---------------------------------------------------------------- in place

  /** What `map_values_mut` stores: `f` applied to each KEY. */
  function MapValuesByKey(m: map<Value, Value>, f: Value -> Value): (r: map<Value, Value>)
    ensures r.Keys == m.Keys
    ensures forall k | k in m :: r[k] == f(k)
  {
    map k | k in m :: f(k)
  }

  /**
   * A witness for one input of the discrepancy: on a map whose value differs
   * from its key, `map_values_mut` with the identity rewrites it and
   * `map_values` does not.
   */
  lemma MapValuesMutDiffers()
    ensures MapValuesByKey(map[Integer(1) := Integer(2)], x => x) != MapValues(map[Integer(1) := Integer(2)], x => x)
  {
    var m := map[Integer(1) := Integer(2)];
    assert MapValuesByKey(m, x => x)[Integer(1)] == Integer(1);
  }

  /** The map value updated in place (the `*_mut` methods). */
  class MutableMap {
    var entries: map<Value, Value>

    constructor (entries: map<Value, Value>)
      ensures this.entries == entries
    {
      this.entries := entries;
    }

    /**
     * `map_entries_mut`: every entry, taken from a snapshot of the entries, is
     * rewritten in place to `f(k, v)`; the map ends as `map_entries` would
     * build it.
     */
    method MapEntriesMut(f: (Value, Value) -> (Value, Value))
      requires NewKeysApart(entries, f)
      modifies this
      ensures entries == MapEntries(old(entries), f)
    {
      var pending := entries.Keys;
      ghost var m0 := entries;
      while pending != {}
        invariant pending <= m0.Keys && Partial(m0, f, pending, entries)
        decreases pending
      {
        var k :| k in pending;
        PartialStep(m0, f, pending, entries, k);
        var e := f(k, entries[k]);
        entries := (entries - {k})[e.0 := e.1];
        pending := pending - {k};
      }
      PartialDone(m0, f, entries);
    }

    /**
     * `map_keys_mut`: every key, taken from a snapshot of the keys, is
     * rewritten in place to `f(k)` and keeps its value; the map ends as
     * `map_keys` would build it.
     */
    method MapKeysMut(f: Value -> Value)
      requires NewKeysApart(entries, (k, v) => (f(k), v))
      modifies this
      ensures entries == MapKeys(old(entries), f)
    {
      var pending := entries.Keys;
      ghost var m0 := entries;
      ghost var g := (k, v) => (f(k), v);
      while pending != {}
        invariant pending <= m0.Keys && Partial(m0, g, pending, entries)
        decreases pending
      {
        var k :| k in pending;
        PartialStep(m0, g, pending, entries, k);
        entries := (entries - {k})[f(k) := entries[k]];
        pending := pending - {k};
      }
      PartialDone(m0, g, entries);
    }

    /** `map_values_mut` as written: each value is replaced by `f` of its key. */
    method MapValuesMutAsWritten(f: Value -> Value)
      modifies this
      ensures entries == MapValuesByKey(old(entries), f)
    {
      var pending := entries.Keys;
      ghost var m0 := entries;
      while pending != {}
        invariant pending <= m0.Keys && entries.Keys == m0.Keys
        invariant forall k | k in m0 && k !in pending :: entries[k] == f(k)
        invariant forall k | k in pending :: entries[k] == m0[k]
        decreases pending
      {
        var k :| k in pending;
        entries := entries[k := f(k)];
        pending := pending - {k};
      }
    }

    /** `map_values_mut` as intended: each value is replaced by `f` of itself, as `map_values` does. */
    method MapValuesMut(f: Value -> Value)
      modifies this
      ensures entries == MapValues(old(entries), f)
    {
      var pending := entries.Keys;
      ghost var m0 := entries;
      while pending != {}
        invariant pending <= m0.Keys && entries.Keys == m0.Keys
        invariant forall k | k in m0 && k !in pending :: entries[k] == f(m0[k])
        invariant forall k | k in pending :: entries[k] == m0[k]
        decreases pending
      {
        var k :| k in pending;
        entries := entries[k := f(entries[k])];
        pending := pending - {k};
      }
    }
  }
}
