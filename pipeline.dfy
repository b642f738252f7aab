/**
 * The whole of `fetch_records`: ask for the user, check the level, run the
 * cursor loop from the cached dict, write the cache, fetch the missing audio.
 * `Run` states what one run does; `FetchRecords` does it step by step.
 */
module Pipeline {
  import opened Wrappers
  import opened Text
  import opened Dicts
  import opened Subjects
  import opened Fetch
  import opened Audio
  import opened Cache
  import opened Notes

  /**
   * What a successful run leaves behind: the record dict it returns, the
   * cache file it writes, the audio files it downloads and the audio
   * directory afterwards.
   */
  datatype Fetched = Fetched(
    records: Dict<Key, Subject>,
    cacheFile: seq<Member>,
    downloads: seq<Download>,
    audioFiles: set<string>)

  /** The audio requests of a list of downloads, in order. */
  function AudioRequests(dl: seq<Download>): seq<Request>
  {
    seq(|dl|, j requires 0 <= j < |dl| => AudioRequest(dl[j].url))
  }

  /** The records a run ends with, starting from the cache and the pages served. */
  function RunRecords(cache: Option<seq<Member>>, pages: seq<seq<Subject>>): (d: Dict<Key, Subject>)
    ensures d.Valid()
  {
    MergeRecords(Initial(cache), Records(pages, Served(pages)), ByIdText)
  }

  /** One run of `fetch_records`, from the user's answer, the cache, the pages and the audio directory. */
  function Run(user: UserInfo, includeInProgress: bool, cache: Option<seq<Member>>,
               pages: seq<seq<Subject>>, present: set<string>): Result<Fetched, Error>
    requires ListingEnds(pages)
  {
    match ExportBound(user, includeInProgress)
    case Failure(e) => Failure(e)
    case Success(_) =>
      var recs := RunRecords(cache, pages);
      var plan := AudioPlan(FileNames(recs), Urls(recs), present, 0);
      Success(Fetched(recs, Dump(recs), plan, present + Names(plan)))
  }

  /** The calls one run makes, in order. */
  function RunRequests(user: UserInfo, includeInProgress: bool, cache: Option<seq<Member>>,
                       pages: seq<seq<Subject>>, present: set<string>): seq<Request>
    requires ListingEnds(pages)
  {
    match Run(user, includeInProgress, cache, pages, present)
    case Failure(_) => [UserInfoRequest]
    case Success(f) => [UserInfoRequest] + SubjectRequests(LevelsParam(user.level), pages) + AudioRequests(f.downloads)
  }

  /**
   * A run fails exactly when the in-progress flag is off and the user's
   * level is not positive, after the user request alone; otherwise it
   * returns the cached records updated with every record served, writes them
   * to the cache, and fetches the audio the directory lacks, with one
   * request for the user, one per subjects page and one per download.
   */
  lemma RunOutcome(user: UserInfo, includeInProgress: bool, cache: Option<seq<Member>>,
                   pages: seq<seq<Subject>>, present: set<string>)
    requires ListingEnds(pages)
    ensures var r := Run(user, includeInProgress, cache, pages, present);
      var rs := RunRequests(user, includeInProgress, cache, pages, present);
      && (r.Failure? <==> !includeInProgress && user.level <= 0)
      && (r.Failure? ==> r.error == NoLevelsCompleted && rs == [UserInfoRequest])
      && (r.Success? ==>
            && r.value.records == RunRecords(cache, pages)
            && Load(r.value.cacheFile) == r.value.records
            && r.value.audioFiles == present + Names(r.value.downloads)
            && |rs| == 1 + RequestCount(pages) + |r.value.downloads|
            && rs[0] == UserInfoRequest)
  {
    var r := Run(user, includeInProgress, cache, pages, present);
    if r.Success? {
      MergeKeepsTextKeyed(Initial(cache), Records(pages, Served(pages)));
      LoadDump(r.value.records);
    }
  }

  /**
   * Running again with the cache and the audio directory the first run left,
   * and the same pages served, returns the same records, writes the same
   * cache, and downloads nothing.
   */
  lemma RunRerun(user: UserInfo, includeInProgress: bool, cache: Option<seq<Member>>,
                 pages: seq<seq<Subject>>, present: set<string>)
    requires ListingEnds(pages) && Run(user, includeInProgress, cache, pages, present).Success?
    ensures var f := Run(user, includeInProgress, cache, pages, present).value;
      Run(user, includeInProgress, Some(f.cacheFile), pages, f.audioFiles)
        == Success(Fetched(f.records, f.cacheFile, [], f.audioFiles))
  {
    var f := Run(user, includeInProgress, cache, pages, present).value;
    RerunRecords(cache, pages);
    AudioRerun(f.records, present);
    assert f.audioFiles + Names([]) == f.audioFiles;
  }

  /** Loading the cache a run wrote and merging the same pages again gives the same records. */
  lemma RerunRecords(cache: Option<seq<Member>>, pages: seq<seq<Subject>>)
    ensures RunRecords(Some(Dump(RunRecords(cache, pages))), pages) == RunRecords(cache, pages)
  {
    RerunStable(Initial(cache), Records(pages, Served(pages)));
  }

  /**
   * A run that starts without a cache, or from a cache a run wrote, ends
   * with each record stored under its own id string, so no id has two
   * entries.
   */
  lemma RunOneEntryPerId(user: UserInfo, includeInProgress: bool, cache: Option<seq<Member>>,
                         pages: seq<seq<Subject>>, present: set<string>, previous: Dict<Key, Subject>)
    requires previous.Valid() && KeyedById(previous)
    requires cache.None? || cache == Some(Dump(previous))
    requires ListingEnds(pages) && Run(user, includeInProgress, cache, pages, present).Success?
    ensures var d := Run(user, includeInProgress, cache, pages, present).value.records;
      forall i, j :: 0 <= i < j < |d.keys| ==> d.entries[d.keys[i]].id != d.entries[d.keys[j]].id
  {
    var init := Initial(cache);
    if cache.Some? {
      assert TextKeyed(previous) by {
        forall k | k in previous.entries ensures k.Text? {
          assert k == CacheKey(previous.entries[k]);
        }
      }
      LoadDump(previous);
    }
    assert KeyedById(init);
    MergeKeepsKeyedById(init, Records(pages, Served(pages)));
    OneEntryPerId(RunRecords(cache, pages));
  }

  /**
   * The deck built from a run's records has no note twice: each plays
   * the file of its own key.
   */
  lemma RunDistinctNotes(cache: Option<seq<Member>>, pages: seq<seq<Subject>>)
    ensures var deck := Collect(NoteResults(RunRecords(cache, pages)), 0);
      deck.Success? ==> forall i, j :: 0 <= i < j < |deck.value| ==> deck.value[i] != deck.value[j]
  {
    var init := Initial(cache);
    assert TextKeyed(init);
    MergeKeepsTextKeyed(init, Records(pages, Served(pages)));
    DistinctSounds(RunRecords(cache, pages));
  }

  /**
   * `fetch_records`: the user request, the level check, the cursor loop,
   * the cache write and the audio loop, in that order.
   */
  method FetchRecords(user: UserInfo, includeInProgress: bool, cache: Option<seq<Member>>,
                      pages: seq<seq<Subject>>, present: set<string>)
    returns (r: Result<Fetched, Error>, requests: seq<Request>)
    requires ListingEnds(pages)
    ensures r == Run(user, includeInProgress, cache, pages, present)
    ensures requests == RunRequests(user, includeInProgress, cache, pages, present)
  {
    requests := [UserInfoRequest];
    var bound := ExportBound(user, includeInProgress);
    if bound.Failure? {
      return Failure(bound.error), requests;
    }
    var init := Initial(cache);
    var records, pageRequests := FetchPages(LevelsParam(bound.value), init, pages);
    requests := requests + pageRequests;
    var cacheFile := Dump(records);
    var files, downloads := FetchAudio(records, present);
    requests := requests + AudioRequests(downloads);
    r := Success(Fetched(records, cacheFile, downloads, files));
  }
}
