/**
 * The record cache `last_cached.json`: a JSON object whose member names are
 * the dict's keys, printed, and whose values are the records. Writing it
 * prints every key as a string; reading it back therefore yields a dict
 * keyed by strings.
 */
module Cache {
  import opened Wrappers
  import opened Text
  import opened Dicts
  import opened Subjects
  import opened Fetch

  /** A member `"name": value` of the cached JSON object, in file order. */
  datatype Member = Member(name: string, value: Subject)

  /**
   * `json.loads` of the object: the dict gets one string key per distinct
   * name; a repeated name keeps its first position and its last value.
   */
  function Load(members: seq<Member>): (d: Dict<Key, Subject>)
    ensures d.Valid()
    decreases |members|
  {
    if members == [] then Empty()
    else
      var m := members[|members| - 1];
      Put(Load(members[..|members| - 1]), Text(m.name), m.value)
  }

  /** Every key of a loaded dict is a string. */
  lemma {:induction false} LoadedKeysAreText(members: seq<Member>)
    ensures forall k :: k in Load(members).entries ==> k.Text?
    decreases |members|
  {
    if members != [] {
      LoadedKeysAreText(members[..|members| - 1]);
    }
  }

  /**
   * `get_last_cached() or dict()`: no cache file, or an empty one, starts
   * from an empty dict; otherwise from the loaded object (an empty object is
   * an empty dict either way).
   */
  function Initial(cache: Option<seq<Member>>): (d: Dict<Key, Subject>)
    ensures d.Valid()
    ensures cache.None? ==> d == Empty()
    ensures forall k :: k in d.entries ==> k.Text?
  {
    match cache
    case None => Empty()
    case Some(members) => LoadedKeysAreText(members); Load(members)
  }

  /** `json.dump(vocab_by_id)`: one member per key, in dict order, named by the printed key. */
  function Dump(d: Dict<Key, Subject>): seq<Member>
    requires d.Valid()
  {
    seq(|d.keys|, j requires 0 <= j < |d.keys| => Member(KeyText(d.keys[j]), d.entries[d.keys[j]]))
  }

  /** A dict whose keys are all strings. */
  ghost predicate TextKeyed(d: Dict<Key, Subject>)
  {
    forall k :: k in d.entries ==> k.Text?
  }

  /**
   * Loading members with distinct names keeps them all, in file order, each
   * under its own name.
   */
  lemma {:induction false} LoadDistinct(members: seq<Member>)
    requires forall i, j :: 0 <= i < j < |members| ==> members[i].name != members[j].name
    ensures var p := Load(members);
      && |p.keys| == |members|
      && (forall i :: 0 <= i < |members| ==> p.keys[i] == Text(members[i].name))
      && (forall i :: 0 <= i < |members| ==> p.entries[p.keys[i]] == members[i].value)
    decreases |members|
  {
    if members != [] {
      var init, last := members[..|members| - 1], members[|members| - 1];
      LoadDistinct(init);
      var p, q := Load(init), Load(members);
      var k := Text(last.name);
      forall i | 0 <= i < |init| ensures p.keys[i] == Text(members[i].name) != k {
        assert init[i] == members[i];
      }
      ListedKeys(p);
      assert k !in p.entries;
      LoadLast(members);
      forall i | 0 <= i < |members| ensures q.keys[i] == Text(members[i].name) && q.entries[q.keys[i]] == members[i].value {
        if i < |init| {
          assert init[i] == members[i];
          assert q.keys[i] == p.keys[i] != k;
        }
      }
    }
  }

  lemma LoadLast(members: seq<Member>)
    requires members != []
    ensures var last := members[|members| - 1];
      Load(members) == Put(Load(members[..|members| - 1]), Text(last.name), last.value)
  {
  }

  /** Every member's name is a key of the loaded dict. */
  lemma {:induction false} LoadHasNames(members: seq<Member>)
    ensures forall i :: 0 <= i < |members| ==> Text(members[i].name) in Load(members).entries
    decreases |members|
  {
    if members != [] {
      var init := members[..|members| - 1];
      LoadHasNames(init);
      LoadLast(members);
      forall i | 0 <= i < |init| ensures Text(members[i].name) in Load(members).entries {
        assert init[i] == members[i];
      }
    }
  }

  /**
   * A member whose name came earlier keeps the position of the first member
   * with that name and replaces its value.
   */
  lemma LoadRepeated(members: seq<Member>, m: Member)
    requires exists i :: 0 <= i < |members| && members[i].name == m.name
    ensures Load(members + [m]).keys == Load(members).keys
    ensures Load(members + [m]).entries == Load(members).entries[Text(m.name) := m.value]
  {
    LoadHasNames(members);
    var all := members + [m];
    assert all[..|all| - 1] == members;
    LoadLast(all);
  }

  /** The dump of a string-keyed dict names each member by its key, and so names no two alike. */
  lemma DumpNames(d: Dict<Key, Subject>)
    requires d.Valid() && TextKeyed(d)
    ensures forall i :: 0 <= i < |d.keys| ==> Text(Dump(d)[i].name) == d.keys[i]
    ensures forall i, j :: 0 <= i < j < |d.keys| ==> Dump(d)[i].name != Dump(d)[j].name
  {
    var members := Dump(d);
    DistinctKeys(d);
    forall i | 0 <= i < |d.keys| ensures Text(members[i].name) == d.keys[i] {
      assert d.keys[i] in d.entries;
    }
  }

  /** Writing a string-keyed dict to the cache and reading it back gives the same dict. */
  lemma LoadDump(d: Dict<Key, Subject>)
    requires d.Valid() && TextKeyed(d)
    ensures Load(Dump(d)) == d
  {
    var members := Dump(d);
    DumpNames(d);
    LoadDistinct(members);
    var r := Load(members);
    assert r.keys == d.keys;
    SameDict(r, d);
  }

  /** Records merged under their id string leave a string-keyed dict string-keyed. */
  lemma {:induction false} MergeKeepsTextKeyed(d: Dict<Key, Subject>, recs: seq<Subject>)
    requires d.Valid() && TextKeyed(d)
    ensures TextKeyed(MergeRecords(d, recs, ByIdText))
  {
    if recs != [] {
      MergeKeepsTextKeyed(d, recs[..|recs| - 1]);
    }
  }

  /** Each key is the id string of the record stored under it. */
  ghost predicate KeyedById(d: Dict<Key, Subject>)
  {
    forall k :: k in d.entries ==> k == CacheKey(d.entries[k])
  }

  /** Merging records under their id string keeps every key the id string of its record. */
  lemma MergeKeepsKeyedById(d: Dict<Key, Subject>, recs: seq<Subject>)
    requires d.Valid() && KeyedById(d)
    ensures KeyedById(MergeRecords(d, recs, ByIdText))
  {
    var r := MergeRecords(d, recs, ByIdText);
    forall k | k in r.entries ensures k == CacheKey(r.entries[k]) {
      MergeRecordsEntries(d, recs, ByIdText, k);
    }
  }

  /** In a dict keyed by id string no two entries hold records with the same id. */
  lemma OneEntryPerId(d: Dict<Key, Subject>)
    requires d.Valid() && KeyedById(d)
    ensures forall i, j :: 0 <= i < j < |d.keys| ==> d.entries[d.keys[i]].id != d.entries[d.keys[j]].id
  {
    DistinctKeys(d);
    forall i, j | 0 <= i < j < |d.keys| ensures d.entries[d.keys[i]].id != d.entries[d.keys[j]].id {
      CacheKeyInjective(d.entries[d.keys[i]], d.entries[d.keys[j]]);
    }
  }

  /**
   * With records keyed by id string, a second run that loads the cache the
   * first run wrote and fetches the same records ends with the first run's
   * dict, and so writes the same cache and builds the same notes.
   */
  lemma RerunStable(init: Dict<Key, Subject>, recs: seq<Subject>)
    requires init.Valid() && TextKeyed(init)
    ensures var first := MergeRecords(init, recs, ByIdText);
      MergeRecords(Load(Dump(first)), recs, ByIdText) == first
  {
    var first := MergeRecords(init, recs, ByIdText);
    MergeKeepsTextKeyed(init, recs);
    LoadDump(first);
    MergeIdempotent(init, recs, ByIdText);
  }

  /**
   * As written, the fetched record goes in under its integer id: a second
   * run that loads the first run's cache holds the record under the string
   * key and again under the integer key, and its cache has two members with
   * the same name.
   */
  lemma AsWrittenRerunDuplicates(s: Subject)
    ensures var first := MergeRecords(Empty(), [s], ById);
      var second := MergeRecords(Load(Dump(first)), [s], ById);
      && first.keys == [Num(s.id)]
      && second.keys == [Text(Decimal(s.id)), Num(s.id)]
      && second.entries[second.keys[0]] == second.entries[second.keys[1]] == s
      && Dump(second)[0].name == Dump(second)[1].name
  {
    var first := MergeRecords(Empty(), [s], ById);
    MergeLast(Empty(), [s], ById);
    assert [s][..0] == [];
    assert first == Put(Empty(), Num(s.id), s);
    var members := Dump(first);
    assert members == [Member(Decimal(s.id), s)];
    LoadLast(members);
    assert members[..0] == [];
    var loaded := Load(members);
    assert loaded == Put(Empty(), Text(Decimal(s.id)), s);
    MergeLast(loaded, [s], ById);
    var second := MergeRecords(loaded, [s], ById);
    assert second == Put(loaded, Num(s.id), s);
    assert second.keys == [Text(Decimal(s.id)), Num(s.id)];
    assert Dump(second)[0] == Member(Decimal(s.id), s);
    assert Dump(second)[1] == Member(Decimal(s.id), s);
  }
}
