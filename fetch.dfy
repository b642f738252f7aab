/**
 * `fetch_records`: the level check, the `levels` filter, the cursor loop over
 * the subjects endpoint that merges every page into the record dict, the
 * cache written afterwards, and the download of missing pronunciation audio.
 *
 * The network is abstracted: the user endpoint's answer is a `UserInfo`, the
 * subjects endpoint's answers are the given sequence of pages (the answer to
 * the i-th subjects request is `pages[i]`), the audio directory is the set of
 * file names present in it, and every call the run makes is reported as a
 * `Request`.
 */
module Fetch {
  import opened Wrappers
  import opened Text
  import opened Dicts
  import opened Subjects

  /** The fields of the user endpoint's answer that the script reads. */
  datatype UserInfo = UserInfo(level: int, maxLevelGranted: int)

  /** A call through the rate-limited gate. */
  datatype Request =
    | UserInfoRequest
    | SubjectsRequest(levels: string, types: string, hidden: string, pageAfterId: Option<nat>)
    | AudioRequest(url: string)

  const VocabTypes: string := "kana_vocabulary,vocabulary"
  const NotHidden: string := "false"

  // ----- level check and the `levels` filter -----

  /**
   * The highest level to export. Only a run without the in-progress flag
   * checks the level; in both cases the bound is the user's `level`, never
   * `max_level_granted`.
   */
  function ExportBound(user: UserInfo, includeInProgress: bool): Result<int, Error>
  {
    if !includeInProgress && user.level <= 0 then Failure(NoLevelsCompleted)
    else Success(user.level)
  }

  /** `range(1, n + 1)`. */
  function LevelRange(n: int): (r: seq<nat>)
    ensures |r| == if n <= 0 then 0 else n
    ensures forall i :: 0 <= i < |r| ==> r[i] == i + 1
  {
    if n <= 0 then [] else LevelRange(n - 1) + [n]
  }

  function Decimals(ns: seq<nat>): (r: seq<string>)
    ensures |r| == |ns|
  {
    seq(|ns|, i requires 0 <= i < |ns| => Decimal(ns[i]))
  }

  /** The `levels` filter sent in the request body: `",".join(str(lvl) for lvl in range(1, n + 1))`. */
  function LevelsParam(n: int): string
  {
    Join(",", Decimals(LevelRange(n)))
  }

  /** Reads a `levels` value back into the list of levels it names. */
  function ParseLevels(s: string): Option<seq<nat>>
  {
    if s == "" then Some([]) else ParseEach(Split(s, ','))
  }

  function ParseEach(parts: seq<string>): Option<seq<nat>>
  {
    if parts == [] then Some([])
    else match (ParseNat(parts[0]), ParseEach(parts[1..]))
      case (Some(n), Some(ns)) => Some([n] + ns)
      case _ => None
  }

  /** The `levels` value names exactly the levels 1 to n, in increasing order. */
  lemma LevelsParamRoundTrip(n: int)
    ensures ParseLevels(LevelsParam(n)) == Some(LevelRange(n))
  {
    var ns := LevelRange(n);
    var parts := Decimals(ns);
    if n > 0 {
      forall i | 0 <= i < |parts| ensures ',' !in parts[i] {
        assert forall j :: 0 <= j < |parts[i]| ==> IsDigit(parts[i][j]);
      }
      SplitJoin(',', parts);
      assert Join(",", parts) != "";
      ParseEachDecimals(ns);
    }
  }

  lemma {:induction false} ParseEachDecimals(ns: seq<nat>)
    ensures ParseEach(Decimals(ns)) == Some(ns)
  {
    if ns != [] {
      DecimalRoundTrip(ns[0]);
      assert Decimals(ns)[1..] == Decimals(ns[1..]);
      ParseEachDecimals(ns[1..]);
      assert [ns[0]] + ns[1..] == ns;
    }
  }

  // ----- merging records into the dict -----

  /** `for vocab in records: vocab_by_id[KeyFor(keying, vocab)] = vocab`. */
  function MergeRecords(d: Dict<Key, Subject>, recs: seq<Subject>, keying: Keying): (r: Dict<Key, Subject>)
    requires d.Valid()
    ensures r.Valid()
    decreases |recs|
  {
    if recs == [] then d
    else Put(MergeRecords(d, recs[..|recs| - 1], keying), KeyFor(keying, recs[|recs| - 1]), recs[|recs| - 1])
  }

  /** Index of the last record stored under key `k`, if any. */
  function LastWith(recs: seq<Subject>, k: Key, keying: Keying): (r: Option<nat>)
    ensures r.Some? ==> r.value < |recs| && KeyFor(keying, recs[r.value]) == k
    ensures r.Some? ==> forall j :: r.value < j < |recs| ==> KeyFor(keying, recs[j]) != k
    ensures r.None? ==> forall j :: 0 <= j < |recs| ==> KeyFor(keying, recs[j]) != k
  {
    if recs == [] then None
    else if KeyFor(keying, recs[|recs| - 1]) == k then Some(|recs| - 1)
    else
      var init := recs[..|recs| - 1];
      assert forall j :: 0 <= j < |init| ==> init[j] == recs[j];
      LastWith(init, k, keying)
  }

  /**
   * After the merge a key is present exactly when it was already present or
   * some record carries it; its value is the last record carrying it, and an
   * entry no record carries is unchanged.
   */
  lemma {:induction false} MergeRecordsEntries(d: Dict<Key, Subject>, recs: seq<Subject>, keying: Keying, k: Key)
    requires d.Valid()
    ensures var r := MergeRecords(d, recs, keying);
      && (k in r.entries <==> k in d.entries || LastWith(recs, k, keying).Some?)
      && (LastWith(recs, k, keying).Some? ==> r.entries[k] == recs[LastWith(recs, k, keying).value])
      && (LastWith(recs, k, keying).None? && k in d.entries ==> r.entries[k] == d.entries[k])
  {
    if recs != [] {
      var init, x := recs[..|recs| - 1], recs[|recs| - 1];
      MergeRecordsEntries(d, init, keying, k);
      MergeLast(d, recs, keying);
      var m := MergeRecords(d, init, keying);
      assert MergeRecords(d, recs, keying).entries == m.entries[KeyFor(keying, x) := x];
      if KeyFor(keying, x) != k {
        assert LastWith(recs, k, keying) == LastWith(init, k, keying);
        if LastWith(init, k, keying).Some? {
          assert recs[LastWith(init, k, keying).value] == init[LastWith(init, k, keying).value];
        }
      } else {
        assert LastWith(recs, k, keying) == Some(|recs| - 1);
      }
    }
  }

  /** The keys the dict had keep their order and come first. */
  lemma {:induction false} MergeKeepsOrder(d: Dict<Key, Subject>, recs: seq<Subject>, keying: Keying)
    requires d.Valid()
    ensures |d.keys| <= |MergeRecords(d, recs, keying).keys|
    ensures MergeRecords(d, recs, keying).keys[..|d.keys|] == d.keys
  {
    if recs != [] {
      var init := recs[..|recs| - 1];
      MergeKeepsOrder(d, init, keying);
      MergeLast(d, recs, keying);
      var m := MergeRecords(d, init, keying);
      var r := MergeRecords(d, recs, keying);
      assert |m.keys| <= |r.keys| && r.keys[..|m.keys|] == m.keys;
      assert r.keys[..|d.keys|] == m.keys[..|d.keys|];
    }
  }

  /** Merging `a` and then `b` is merging `a + b`. */
  lemma {:induction false} MergeAppend(d: Dict<Key, Subject>, a: seq<Subject>, b: seq<Subject>, keying: Keying)
    requires d.Valid()
    ensures MergeRecords(MergeRecords(d, a, keying), b, keying) == MergeRecords(d, a + b, keying)
  {
    if b == [] {
      assert a + b == a;
    } else {
      var b', x := b[..|b| - 1], b[|b| - 1];
      var ab := a + b;
      MergeAppend(d, a, b', keying);
      assert ab[..|ab| - 1] == a + b' && ab[|ab| - 1] == x;
      MergeLast(d, ab, keying);
      MergeLast(MergeRecords(d, a, keying), b, keying);
    }
  }

  lemma MergeLast(d: Dict<Key, Subject>, recs: seq<Subject>, keying: Keying)
    requires d.Valid() && recs != []
    ensures MergeRecords(d, recs, keying)
         == Put(MergeRecords(d, recs[..|recs| - 1], keying), KeyFor(keying, recs[|recs| - 1]), recs[|recs| - 1])
  {
  }

  /** Every key some record carries is present after the merge. */
  lemma MergedKeysPresent(d: Dict<Key, Subject>, recs: seq<Subject>, keying: Keying)
    requires d.Valid()
    ensures forall i :: 0 <= i < |recs| ==> KeyFor(keying, recs[i]) in MergeRecords(d, recs, keying).entries
  {
    forall i | 0 <= i < |recs| ensures KeyFor(keying, recs[i]) in MergeRecords(d, recs, keying).entries {
      MergeRecordsEntries(d, recs, keying, KeyFor(keying, recs[i]));
    }
  }

  /** Records whose keys are all present change no key's position. */
  lemma {:induction false} MergeKeepsKeys(d: Dict<Key, Subject>, recs: seq<Subject>, keying: Keying)
    requires d.Valid()
    requires forall i :: 0 <= i < |recs| ==> KeyFor(keying, recs[i]) in d.entries
    ensures MergeRecords(d, recs, keying).keys == d.keys
    ensures MergeRecords(d, recs, keying).entries.Keys == d.entries.Keys
  {
    if recs != [] {
      MergeKeepsKeys(d, recs[..|recs| - 1], keying);
    }
  }

  /**
   * Fetching the same records again changes nothing: the dict, and so the
   * cache written from it, comes out identical.
   */
  lemma MergeIdempotent(d: Dict<Key, Subject>, recs: seq<Subject>, keying: Keying)
    requires d.Valid()
    ensures MergeRecords(MergeRecords(d, recs, keying), recs, keying) == MergeRecords(d, recs, keying)
  {
    var once := MergeRecords(d, recs, keying);
    var twice := MergeRecords(once, recs, keying);
    MergedKeysPresent(d, recs, keying);
    MergeKeepsKeys(once, recs, keying);
    forall k | k in once.entries ensures twice.entries[k] == once.entries[k] {
      MergeRecordsEntries(d, recs, keying, k);
      MergeRecordsEntries(once, recs, keying, k);
    }
    assert twice.entries == once.entries;
  }

  /** The records of the first `n` pages, in order. */
  function Records(pages: seq<seq<Subject>>, n: nat): seq<Subject>
    requires n <= |pages|
  {
    if n == 0 then [] else Records(pages, n - 1) + pages[n - 1]
  }

  /** The number of pages with records before the first page without any. */
  function Served(pages: seq<seq<Subject>>): (n: nat)
    ensures n <= |pages|
    ensures forall i :: 0 <= i < n ==> pages[i] != []
    ensures n < |pages| ==> pages[n] == []
  {
    ServedFrom(pages, 0)
  }

  /**
   * The server ends the listing: some answer has no records. The cursor
   * loop is `while True` and stops only there.
   */
  ghost predicate ListingEnds(pages: seq<seq<Subject>>)
  {
    exists i :: 0 <= i < |pages| && pages[i] == []
  }

  /** A listing that ends has its first empty page among the answers. */
  lemma ListingEndsServed(pages: seq<seq<Subject>>)
    requires ListingEnds(pages)
    ensures Served(pages) < |pages| && RequestCount(pages) == Served(pages) + 1
  {
    var i :| 0 <= i < |pages| && pages[i] == [];
  }

  /** The first index from `k` on that holds the empty page, or `|pages|`. */
  function ServedFrom(pages: seq<seq<Subject>>, k: nat): (n: nat)
    requires k <= |pages|
    requires forall i :: 0 <= i < k ==> pages[i] != []
    ensures k <= n <= |pages|
    ensures forall i :: 0 <= i < n ==> pages[i] != []
    ensures n < |pages| ==> pages[n] == []
    decreases |pages| - k
  {
    if k == |pages| || pages[k] == [] then k else ServedFrom(pages, k + 1)
  }

  /** `subjects['data'][-1]["id"]`. */
  function LastId(page: seq<Subject>): nat
    requires page != []
  {
    page[|page| - 1].id
  }

  /** The `page_after_id` sent after a page: its last id, unless that id is falsy. */
  function Cursor(page: seq<Subject>): Option<nat>
    requires page != []
  {
    if LastId(page) != 0 then Some(LastId(page)) else None
  }

  /** The i-th subjects request: the filters, and the cursor left by page i - 1. */
  function PageRequest(levels: string, pages: seq<seq<Subject>>, i: nat): Request
    requires i <= Served(pages)
  {
    SubjectsRequest(levels, VocabTypes, NotHidden, if i == 0 then None else Cursor(pages[i - 1]))
  }

  /** How many subjects requests a run makes: one per page up to and including the first empty one. */
  function RequestCount(pages: seq<seq<Subject>>): nat
  {
    if Served(pages) < |pages| then Served(pages) + 1 else Served(pages)
  }

  /** The subjects requests of a run. */
  function SubjectRequests(levels: string, pages: seq<seq<Subject>>): seq<Request>
  {
    RequestsUpTo(levels, pages, RequestCount(pages))
  }

  /** The first `n` subjects requests. */
  function RequestsUpTo(levels: string, pages: seq<seq<Subject>>, n: nat): (rs: seq<Request>)
    requires n <= RequestCount(pages)
    ensures |rs| == n
  {
    if n == 0 then [] else RequestsUpTo(levels, pages, n - 1) + [PageRequest(levels, pages, n - 1)]
  }

  /** The `j`-th of the first `n` subjects requests is the `j`-th subjects request. */
  lemma {:induction false} RequestsUpToAt(levels: string, pages: seq<seq<Subject>>, n: nat)
    requires n <= RequestCount(pages)
    ensures forall j :: 0 <= j < n ==> RequestsUpTo(levels, pages, n)[j] == PageRequest(levels, pages, j)
  {
    if n > 0 {
      RequestsUpToAt(levels, pages, n - 1);
    }
  }

  /**
   * The cursor chain: the first subjects request carries no `page_after_id`;
   * every later one carries the last id of the page before it, or none when
   * that id is 0; requests stop after the first page without records.
   */
  lemma SubjectRequestsChain(levels: string, pages: seq<seq<Subject>>)
    requires ListingEnds(pages)
    ensures var rs := SubjectRequests(levels, pages);
      && (forall i :: 0 <= i < |rs| ==> rs[i].SubjectsRequest? && rs[i].levels == levels)
      && |rs| >= 1 && rs[0].pageAfterId == None
      && (forall i :: 0 < i < |rs| ==>
            && pages[i - 1] != []
            && rs[i].pageAfterId == var id := pages[i - 1][|pages[i - 1]| - 1].id; if id == 0 then None else Some(id))
      && (forall i :: 0 <= i < |rs| - 1 ==> pages[i] != [])
      && pages[|rs| - 1] == []
      && |rs| <= |pages|
  {
    ListingEndsServed(pages);
    RequestsUpToAt(levels, pages, RequestCount(pages));
  }

  /**
   * The cursor loop. `init` is the dict loaded from the cache. Each page
   * answered with records is merged under its id's decimal string (see
   * `CacheKey`), and its last id becomes the next cursor; the first page
   * without records ends the loop.
   */
  method FetchPages(levels: string, init: Dict<Key, Subject>, pages: seq<seq<Subject>>)
    returns (d: Dict<Key, Subject>, requests: seq<Request>)
    requires init.Valid() && ListingEnds(pages)
    ensures d.Valid()
    ensures d == MergeRecords(init, Records(pages, Served(pages)), ByIdText)
    ensures requests == SubjectRequests(levels, pages)
  {
    ghost var done: seq<Subject> := [];
    d := init;
    requests := [];
    var lastId: Option<nat> := None;
    var i := 0;
    ListingEndsServed(pages);
    while true
      invariant Served(pages) < |pages|
      invariant d == MergeRecords(init, done, ByIdText)
      invariant Paging(levels, pages, i, done, requests, lastId)
      decreases |pages| - i
    {
      if |pages[i]| == 0 {
        var request := NextRequest(levels, lastId);
        PagingEnd(levels, pages, i, done, requests, lastId, request);
        requests := requests + [request];
        return;
      }
      d, requests, lastId, done := TakePage(levels, init, pages, i, done, d, requests, lastId);
      i := i + 1;
    }
  }

  /**
   * One round of the cursor loop on a page with records: the request with
   * the cursor, the merge of the page, and the page's last id as the next
   * cursor.
   */
  method TakePage(levels: string, init: Dict<Key, Subject>, pages: seq<seq<Subject>>, i: nat,
                  ghost done: seq<Subject>, d0: Dict<Key, Subject>, requests0: seq<Request>, lastId0: Option<nat>)
    returns (d: Dict<Key, Subject>, requests: seq<Request>, lastId: Option<nat>, ghost done': seq<Subject>)
    requires init.Valid() && i < |pages| && pages[i] != []
    requires d0 == MergeRecords(init, done, ByIdText)
    requires Paging(levels, pages, i, done, requests0, lastId0)
    ensures d == MergeRecords(init, done', ByIdText)
    ensures Paging(levels, pages, i + 1, done', requests, lastId)
  {
    var request := NextRequest(levels, lastId0);
    var page := pages[i];
    PagingStep(levels, pages, i, done, requests0, lastId0, page, request);
    requests := requests0 + [request];
    lastId := Some(LastId(page));
    MergeAppend(init, done, page, ByIdText);
    d := MergePage(d0, page);
    done' := done + page;
  }

  /**
   * The state of the cursor loop after `i` pages with records: those
   * records, one request per page, and the last id of page `i - 1`.
   */
  ghost predicate Paging(levels: string, pages: seq<seq<Subject>>, i: nat,
                         done: seq<Subject>, requests: seq<Request>, lastId: Option<nat>)
  {
    && i <= Served(pages)
    && done == Records(pages, i)
    && requests == RequestsUpTo(levels, pages, i)
    && lastId == if i == 0 then None else Some(LastId(pages[i - 1]))
  }

  /** The request the cursor loop sends next, from the last id seen. */
  function NextRequest(levels: string, lastId: Option<nat>): Request
  {
    SubjectsRequest(levels, VocabTypes, NotHidden, if lastId.Some? && lastId.value != 0 then lastId else None)
  }

  /** A page with records moves the loop to the next page. */
  lemma PagingStep(levels: string, pages: seq<seq<Subject>>, i: nat,
                   done: seq<Subject>, requests: seq<Request>, lastId: Option<nat>,
                   page: seq<Subject>, request: Request)
    requires Paging(levels, pages, i, done, requests, lastId)
    requires i < |pages| && page == pages[i] != []
    requires request == NextRequest(levels, lastId)
    ensures Paging(levels, pages, i + 1, done + page, requests + [request], Some(LastId(page)))
  {
    ServedPast(pages, i);
    NextIsPageRequest(levels, pages, i, lastId);
    RequestsSnoc(levels, pages, i);
  }

  /** The first page without records is the last one asked for. */
  lemma PagingEnd(levels: string, pages: seq<seq<Subject>>, i: nat,
                  done: seq<Subject>, requests: seq<Request>, lastId: Option<nat>, request: Request)
    requires Paging(levels, pages, i, done, requests, lastId)
    requires i < |pages| && pages[i] == []
    requires request == NextRequest(levels, lastId)
    ensures done == Records(pages, Served(pages))
    ensures requests + [request] == SubjectRequests(levels, pages)
  {
    ServedAt(pages, i);
    NextIsPageRequest(levels, pages, i, lastId);
    RequestsSnoc(levels, pages, i);
  }

  /** One request more is the `i`-th subjects request appended. */
  lemma RequestsSnoc(levels: string, pages: seq<seq<Subject>>, i: nat)
    requires i + 1 <= RequestCount(pages)
    ensures RequestsUpTo(levels, pages, i + 1) == RequestsUpTo(levels, pages, i) + [PageRequest(levels, pages, i)]
  {
  }

  /** A page with records before the first empty one lies before `Served`. */
  lemma ServedPast(pages: seq<seq<Subject>>, i: nat)
    requires i <= Served(pages) && i < |pages| && pages[i] != []
    ensures i < Served(pages)
  {
  }

  /** The first empty page is page `Served`, and the run asks for one page more. */
  lemma ServedAt(pages: seq<seq<Subject>>, i: nat)
    requires i <= Served(pages) && i < |pages| && pages[i] == []
    ensures i == Served(pages) && RequestCount(pages) == i + 1
  {
  }

  /** The request sent after `i` pages is the `i`-th subjects request. */
  lemma NextIsPageRequest(levels: string, pages: seq<seq<Subject>>, i: nat, lastId: Option<nat>)
    requires i <= Served(pages)
    requires lastId == if i == 0 then None else Some(LastId(pages[i - 1]))
    ensures NextRequest(levels, lastId) == PageRequest(levels, pages, i)
  {
  }

  /** The inner loop: every record of one page is stored under its cache key, in order. */
  method MergePage(d0: Dict<Key, Subject>, page: seq<Subject>) returns (d: Dict<Key, Subject>)
    requires d0.Valid()
    ensures d.Valid()
    ensures d == MergeRecords(d0, page, ByIdText)
  {
    d := d0;
    for j := 0 to |page|
      invariant d == MergeRecords(d0, page[..j], ByIdText)
    {
      MergePrefix(d0, page, j);
      d := Put(d, KeyFor(ByIdText, page[j]), page[j]);
    }
    assert page[..|page|] == page;
  }

  /** Merging one record more of a page is one assignment more. */
  lemma MergePrefix(d: Dict<Key, Subject>, page: seq<Subject>, j: nat)
    requires d.Valid() && j < |page|
    ensures MergeRecords(d, page[..j + 1], ByIdText)
         == Put(MergeRecords(d, page[..j], ByIdText), KeyFor(ByIdText, page[j]), page[j])
  {
    var recs := page[..j + 1];
    assert recs[..|recs| - 1] == page[..j];
    assert recs[|recs| - 1] == page[j];
    MergeLast(d, recs, ByIdText);
  }
}
