/**
 * Python dicts and JavaScript objects remember the order in which keys were
 * first inserted.  A Table pairs that order with the key-value map.
 */
module Dict {
  import opened Wrappers
  import opened Seqs

  datatype Table<K, V> = Table(keys: seq<K>, entries: map<K, V>)

  ghost predicate Valid<K(!new), V>(t: Table<K, V>) {
    Distinct(t.keys) && (forall k :: k in t.entries <==> k in t.keys)
  }

  function Empty<K(==,!new), V>(): (t: Table<K, V>)
    ensures Valid(t) && t.keys == [] && t.entries == map[]
  {
    Table([], map[])
  }

  /** d[k] = v: a new key goes last, an existing key keeps its place and gets the new value. */
  function Put<K(==,!new), V>(t: Table<K, V>, k: K, v: V): (r: Table<K, V>)
    requires Valid(t)
    ensures Valid(r)
    ensures r.entries == t.entries[k := v]
    ensures r.keys == if k in t.entries then t.keys else t.keys + [k]
  {
    if k in t.entries then Table(t.keys, t.entries[k := v])
    else Table(t.keys + [k], t.entries[k := v])
  }

  /** d.get(k). */
  function Get<K(==,!new), V>(t: Table<K, V>, k: K): (r: Option<V>)
    ensures r.Some? <==> k in t.entries
    ensures r.Some? ==> r.value == t.entries[k]
  {
    if k in t.entries then Some(t.entries[k]) else None
  }

  /** d.values(), in insertion order. */
  function Values<K(==,!new), V>(t: Table<K, V>): (vs: seq<V>)
    requires Valid(t)
    ensures |vs| == |t.keys|
    ensures forall i :: 0 <= i < |t.keys| ==> vs[i] == t.entries[t.keys[i]]
  {
    seq(|t.keys|, i requires 0 <= i < |t.keys| => t.entries[t.keys[i]])
  }

  /** Assigns the pairs one after the other, as a loop of d[k] = v does. */
  function PutAll<K(==,!new), V>(t: Table<K, V>, kvs: seq<(K, V)>): (r: Table<K, V>)
    requires Valid(t)
    ensures Valid(r)
    decreases |kvs|
  {
    if kvs == [] then t else PutAll(Put(t, kvs[0].0, kvs[0].1), kvs[1..])
  }

  /** The value of the last pair with key k. */
  function LastValue<K(==,!new), V>(kvs: seq<(K, V)>, k: K): (r: Option<V>)
    ensures r.Some? ==> (k, r.value) in kvs
    ensures r.None? ==> forall i :: 0 <= i < |kvs| ==> kvs[i].0 != k
  {
    if kvs == [] then None
    else if kvs[|kvs| - 1].0 == k then Some(kvs[|kvs| - 1].1)
    else LastValue(kvs[..|kvs| - 1], k)
  }

  /** The last pair for k is in the tail, or else it is the head. */
  lemma {:induction false} LastValueFirst<K(!new), V>(kvs: seq<(K, V)>, k: K)
    requires kvs != []
    ensures LastValue(kvs, k)
         == if LastValue(kvs[1..], k).Some? then LastValue(kvs[1..], k)
            else if kvs[0].0 == k then Some(kvs[0].1) else None
    decreases |kvs|
  {
    if |kvs| > 1 {
      var init := kvs[..|kvs| - 1];
      assert init[1..] == kvs[1..][..|kvs[1..]| - 1];
      assert init[0] == kvs[0];
      LastValueFirst(init, k);
    }
  }

  /** No pair names k: k has no last value. */
  lemma {:induction false} LastValueAbsent<K(!new), V>(kvs: seq<(K, V)>, k: K)
    requires forall i :: 0 <= i < |kvs| ==> kvs[i].0 != k
    ensures LastValue(kvs, k).None?
  {
    if kvs != [] {
      var init := kvs[..|kvs| - 1];
      assert forall i :: 0 <= i < |init| ==> init[i] == kvs[i];
      LastValueAbsent(init, k);
    }
  }

  /**
   * After assigning all pairs, a key is present iff it was before or some pair
   * names it; the last pair for a key decides its value, and keys no pair names
   * keep their old values.
   */
  lemma {:induction false} PutAllLookup<K(!new), V>(t: Table<K, V>, kvs: seq<(K, V)>, k: K)
    requires Valid(t)
    ensures k in PutAll(t, kvs).entries <==> k in t.entries || LastValue(kvs, k).Some?
    ensures k in PutAll(t, kvs).entries ==>
      PutAll(t, kvs).entries[k] == if LastValue(kvs, k).Some? then LastValue(kvs, k).value else t.entries[k]
    decreases |kvs|
  {
    if kvs != [] {
      var t1 := Put(t, kvs[0].0, kvs[0].1);
      assert PutAll(t, kvs) == PutAll(t1, kvs[1..]);
      PutAllLookup(t1, kvs[1..], k);
      LastValueFirst(kvs, k);
    } else {
      assert PutAll(t, kvs) == t;
    }
  }

  /** Existing keys stay first and in their order. */
  lemma {:induction false} PutAllKeysPrefix<K(!new), V>(t: Table<K, V>, kvs: seq<(K, V)>)
    requires Valid(t)
    ensures |t.keys| <= |PutAll(t, kvs).keys| && PutAll(t, kvs).keys[..|t.keys|] == t.keys
    decreases |kvs|
  {
    if kvs != [] {
      var t1 := Put(t, kvs[0].0, kvs[0].1);
      PutAllKeysPrefix(t1, kvs[1..]);
      var ks := PutAll(t1, kvs[1..]).keys;
      assert PutAll(t, kvs).keys == ks;
      assert |t.keys| <= |t1.keys| && t1.keys[..|t.keys|] == t.keys;
      assert ks[..|t.keys|] == ks[..|t1.keys|][..|t.keys|];
    }
  }

  /** Every key after the existing ones comes from a pair. */
  lemma {:induction false} PutAllKeysAppended<K(!new), V>(t: Table<K, V>, kvs: seq<(K, V)>)
    requires Valid(t)
    ensures forall i :: |t.keys| <= i < |PutAll(t, kvs).keys| ==>
      exists j :: 0 <= j < |kvs| && kvs[j].0 == PutAll(t, kvs).keys[i]
    decreases |kvs|
  {
    if kvs != [] {
      var t1 := Put(t, kvs[0].0, kvs[0].1);
      PutAllKeysAppended(t1, kvs[1..]);
      PutAllKeysPrefix(t1, kvs[1..]);
      var ks := PutAll(t1, kvs[1..]).keys;
      assert ks == PutAll(t, kvs).keys;
      forall i | |t.keys| <= i < |ks| ensures exists j :: 0 <= j < |kvs| && kvs[j].0 == ks[i] {
        if i < |t1.keys| {
          assert ks[i] == ks[..|t1.keys|][i] == t1.keys[i] == kvs[0].0;
        } else {
          var j :| 0 <= j < |kvs[1..]| && kvs[1..][j].0 == ks[i];
          assert kvs[j + 1].0 == ks[i];
        }
      }
    } else {
      assert PutAll(t, kvs) == t;
    }
  }

  /** Assigning one more pair after the others. */
  lemma {:induction false} PutAllSnoc<K(!new), V>(t: Table<K, V>, kvs: seq<(K, V)>, kv: (K, V))
    requires Valid(t)
    ensures PutAll(t, kvs + [kv]) == Put(PutAll(t, kvs), kv.0, kv.1)
    decreases |kvs|
  {
    if kvs == [] {
      assert [] + [kv] == [kv];
    } else {
      TailSnoc(kvs, kv);
      PutAllSnoc(Put(t, kvs[0].0, kvs[0].1), kvs[1..], kv);
    }
  }

  /** The key order after assigning depends only on the keys assigned, not on the values. */
  lemma {:induction false} PutAllSameKeys<K(!new), V>(t: Table<K, V>, u: Table<K, V>, kvs: seq<(K, V)>, lvs: seq<(K, V)>)
    requires Valid(t) && Valid(u) && t.keys == u.keys && KeysOf(kvs) == KeysOf(lvs)
    ensures PutAll(t, kvs).keys == PutAll(u, lvs).keys
    decreases |kvs|
  {
    if kvs != [] {
      assert |lvs| == |kvs| && lvs[0].0 == kvs[0].0;
      assert KeysOf(kvs[1..]) == KeysOf(kvs)[1..];
      assert KeysOf(lvs[1..]) == KeysOf(lvs)[1..];
      PutAllSameKeys(Put(t, kvs[0].0, kvs[0].1), Put(u, lvs[0].0, lvs[0].1), kvs[1..], lvs[1..]);
    }
  }

  /** A property every entry has, and every assigned pair has, holds of every entry afterwards. */
  lemma {:induction false} PutAllKeeps<K(!new), V>(t: Table<K, V>, kvs: seq<(K, V)>, P: (K, V) -> bool)
    requires Valid(t)
    requires forall k :: k in t.entries ==> P(k, t.entries[k])
    requires forall i :: 0 <= i < |kvs| ==> P(kvs[i].0, kvs[i].1)
    ensures forall k :: k in PutAll(t, kvs).entries ==> P(k, PutAll(t, kvs).entries[k])
    decreases |kvs|
  {
    if kvs != [] {
      var rest := kvs[1..];
      assert forall i :: 0 <= i < |rest| ==> rest[i] == kvs[i + 1];
      PutAllKeeps(Put(t, kvs[0].0, kvs[0].1), rest, P);
    }
  }

  function KeysOf<K, V>(kvs: seq<(K, V)>): (ks: seq<K>)
    ensures |ks| == |kvs| && forall i :: 0 <= i < |kvs| ==> ks[i] == kvs[i].0
  {
    seq(|kvs|, i requires 0 <= i < |kvs| => kvs[i].0)
  }

  predicate DistinctKeys<K(==), V>(kvs: seq<(K, V)>) {
    forall i, j :: 0 <= i < j < |kvs| ==> kvs[i].0 != kvs[j].0
  }

  /** With distinct keys, the last pair for a key is its only pair. */
  lemma {:induction false} LastValueDistinct<K(!new), V>(kvs: seq<(K, V)>, i: nat)
    requires DistinctKeys(kvs) && i < |kvs|
    ensures LastValue(kvs, kvs[i].0) == Some(kvs[i].1)
    decreases |kvs|
  {
    if i < |kvs| - 1 {
      var init := kvs[..|kvs| - 1];
      assert init[i] == kvs[i];
      assert DistinctKeys(init) by {
        forall a, b | 0 <= a < b < |init| ensures init[a].0 != init[b].0 {
          assert init[a] == kvs[a] && init[b] == kvs[b];
        }
      }
      LastValueDistinct(init, i);
    }
  }

  lemma KeysOfFirst<K, V>(kvs: seq<(K, V)>)
    requires kvs != []
    ensures KeysOf(kvs) == [kvs[0].0] + KeysOf(kvs[1..])
  {
    var r := [kvs[0].0] + KeysOf(kvs[1..]);
    assert forall i :: 1 <= i < |kvs| ==> r[i] == kvs[1..][i - 1].0;
  }

  /** Pairs with fresh keys are appended in their order. */
  lemma {:induction false} PutAllFreshKeys<K(!new), V>(t: Table<K, V>, kvs: seq<(K, V)>)
    requires Valid(t) && DistinctKeys(kvs)
    requires forall i :: 0 <= i < |kvs| ==> kvs[i].0 !in t.entries
    ensures PutAll(t, kvs).keys == t.keys + KeysOf(kvs)
    decreases |kvs|
  {
    if kvs == [] {
      assert PutAll(t, kvs) == t;
      assert KeysOf(kvs) == [];
      AppendEmpty(t.keys);
    } else {
      var t1 := Put(t, kvs[0].0, kvs[0].1);
      var rest := kvs[1..];
      assert PutAll(t, kvs) == PutAll(t1, rest);
      assert forall i :: 0 <= i < |rest| ==> rest[i] == kvs[i + 1];
      assert DistinctKeys(rest);
      PutAllFreshKeys(t1, rest);
      KeysOfFirst(kvs);
      AppendAssoc(t.keys, [kvs[0].0], KeysOf(rest));
    }
  }

  /** Pairs with distinct keys, put into an empty table, give their keys in order. */
  lemma PutAllDistinctKeys<K(!new), V>(kvs: seq<(K, V)>)
    requires DistinctKeys(kvs)
    ensures PutAll(Empty(), kvs).keys == KeysOf(kvs)
  {
    var e: Table<K, V> := Empty();
    PutAllFreshKeys(e, kvs);
    assert e.keys + KeysOf(kvs) == KeysOf(kvs);
  }
}
