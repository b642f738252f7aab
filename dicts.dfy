/**
 * A Python dict as the script uses one: its keys in insertion order and its
 * entries. Assigning to a present key replaces the value and keeps the
 * key's position; assigning to a new key appends it.
 */
module Dicts {

  datatype Dict<K, V> = Dict(keys: seq<K>, entries: map<K, V>) {

    /**
     * Each key is listed once, and the listed keys are exactly the entries'
     * keys. The first two facts are stated on `At` and `Listed` terms, so a
     * proof uses them where it names the positions or the key (see
     * `DistinctKeys` and `ListedKeys`).
     */
    ghost predicate Valid() {
      && (forall i, j {:trigger At(keys, i), At(keys, j)} :: 0 <= i < j < |keys| ==> At(keys, i) != At(keys, j))
      && (forall k {:trigger Listed(keys, k)} :: k in entries ==> Listed(keys, k))
      && (forall i :: 0 <= i < |keys| ==> keys[i] in entries)
    }
  }

  /** `s[i]`: the term distinctness of keys is stated on. */
  ghost function At<K>(s: seq<K>, i: int): K
    requires 0 <= i < |s|
  {
    s[i]
  }

  /** `k in s`: the term the listing of entries is stated on. */
  ghost predicate Listed<K>(s: seq<K>, k: K)
  {
    k in s
  }

  /** Every entry of a valid dict is listed in its keys. */
  lemma ListedKeys<K, V>(d: Dict<K, V>)
    requires d.Valid()
    ensures forall k :: k in d.entries ==> k in d.keys
  {
    forall k | k in d.entries ensures k in d.keys {
      assert Listed(d.keys, k);
    }
  }

  /** The keys of a valid dict are distinct. */
  lemma DistinctKeys<K, V>(d: Dict<K, V>)
    requires d.Valid()
    ensures forall i, j :: 0 <= i < j < |d.keys| ==> d.keys[i] != d.keys[j]
  {
    forall i, j | 0 <= i < j < |d.keys| ensures d.keys[i] != d.keys[j] {
      assert At(d.keys, i) != At(d.keys, j);
    }
  }

  /** A key not yet in a valid dict can be appended to its keys. */
  lemma AppendKeyValid<K, V>(d: Dict<K, V>, k: K, v: V)
    requires d.Valid() && k !in d.entries
    ensures Dict(d.keys + [k], d.entries[k := v]).Valid()
  {
    var keys := d.keys + [k];
    forall i, j | 0 <= i < j < |keys| ensures At(keys, i) != At(keys, j) {
      if j < |d.keys| {
        assert At(d.keys, i) != At(d.keys, j);
      } else {
        assert d.keys[i] in d.entries;
      }
    }
    forall k' | k' in d.entries[k := v] ensures Listed(keys, k') {
      if k' != k {
        assert Listed(d.keys, k');
      }
    }
  }

  function Empty<K, V>(): (d: Dict<K, V>)
    ensures d.Valid() && d.entries == map[]
  {
    Dict([], map[])
  }

  /** `d[k] = v`. */
  function Put<K, V>(d: Dict<K, V>, k: K, v: V): (r: Dict<K, V>)
    requires d.Valid()
    ensures r.Valid()
    ensures r.entries == d.entries[k := v]
    ensures r.keys == if k in d.entries then d.keys else d.keys + [k]
  {
    if k in d.entries then Dict(d.keys, d.entries[k := v])
    else
      AppendKeyValid(d, k, v);
      Dict(d.keys + [k], d.entries[k := v])
  }

  /** Two dicts with the same keys in the same order and the same values are the same dict. */
  lemma SameDict<K, V>(a: Dict<K, V>, b: Dict<K, V>)
    requires a.Valid() && b.Valid() && a.keys == b.keys
    requires forall i :: 0 <= i < |a.keys| ==> a.entries[a.keys[i]] == b.entries[b.keys[i]]
    ensures a == b
  {
    ListedKeys(a);
    ListedKeys(b);
    forall k | k in a.entries ensures k in b.entries && a.entries[k] == b.entries[k] {
      var i :| 0 <= i < |a.keys| && a.keys[i] == k;
    }
    assert a.entries == b.entries;
  }

  /** Keys listed without repetition are as many as the entries. */
  lemma {:induction false} SizeIsKeyCount<K, V>(d: Dict<K, V>)
    requires d.Valid()
    ensures |d.entries| == |d.keys|
  {
    DistinctKeys(d);
    ListedKeys(d);
    DistinctCard(d.keys);
    assert d.entries.Keys == set i | 0 <= i < |d.keys| :: d.keys[i];
  }

  lemma {:induction false} DistinctCard<K>(s: seq<K>)
    requires forall i, j :: 0 <= i < j < |s| ==> s[i] != s[j]
    ensures |set i | 0 <= i < |s| :: s[i]| == |s|
  {
    if s != [] {
      var init := s[..|s| - 1];
      DistinctCard(init);
      var a := set i | 0 <= i < |init| :: init[i];
      var b := set i | 0 <= i < |s| :: s[i];
      assert b == a + {s[|s| - 1]};
      assert s[|s| - 1] !in a;
    }
  }

  /** `[f(k, v) for k, v in d.items()]`, from the `i`-th key on. */
  function MapItems<K, V, R>(d: Dict<K, V>, f: (K, V) -> R, i: nat): (rs: seq<R>)
    requires d.Valid() && i <= |d.keys|
    ensures |rs| == |d.keys| - i
    decreases |d.keys| - i
  {
    if i == |d.keys| then [] else [f(d.keys[i], d.entries[d.keys[i]])] + MapItems(d, f, i + 1)
  }

  /** The item of the `j`-th key is `f` of that key and its value. */
  lemma {:induction false} MapItemAt<K, V, R>(d: Dict<K, V>, f: (K, V) -> R, i: nat, j: nat)
    requires d.Valid() && i <= j < |d.keys|
    ensures MapItems(d, f, i)[j - i] == f(d.keys[j], d.entries[d.keys[j]])
    decreases j - i
  {
    if i < j {
      MapItemAt(d, f, i + 1, j);
    }
  }
}
