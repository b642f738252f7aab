# WaniKani vocabulary to Anki: a Dafny model of the record fetcher

The script `gen_apkg.py` exports a WaniKani user's vocabulary as an Anki deck
with pronunciation audio. This project models its core:

- the per-minute request gate `rate_limit`, which admits at most 60 calls per
  wall-clock minute;
- `fetch_records`:
  - the level check;
  - the `levels` filter;
  - the cursor loop over the subjects endpoint, which merges every page
    into the dict loaded from the JSON cache;
  - the cache written afterwards;
  - the download of each record's first `audio/mpeg` pronunciation clip
    whose file is missing;
- the five note fields built for each record.

Modules, one per file:

| module | file | what it holds |
|---|---|---|
| `Wrappers` | `wrappers.dfy` | `Option` and `Result` |
| `Text` | `text.dfy` | `Join`, `Split` and decimal printing/parsing |
| `Dicts` | `dicts.dfy` | an insertion-ordered Python dict: a key sequence plus a map |
| `Subjects` | `subjects.dfy` | the records, their keys, the audio file name |
| `RateLimit` | `ratelimit.dfy` | the gate; a class over the per-minute counter |
| `Fetch` | `fetch.dfy` | the level check, the `levels` value, the merge and the cursor loop |
| `Cache` | `cache.dfy` | `last_cached.json` written and read back |
| `Audio` | `audio.dfy` | the audio selection and the audio loop |
| `Notes` | `notes.dfy` | the note fields and the deck loop |
| `Pipeline` | `pipeline.dfy` | one whole run of `fetch_records` |

The code that mutates state step by step is imperative Dafny, each method
proved against a function:

- the gate is a class whose `Admit` updates the counter map;
- the cursor loop (`Fetch.FetchPages`) and its inner merge loop
  (`Fetch.MergePage`) are methods;
- the audio search with `break` (`Audio.SelectAudio`) is a method, and so
  is the audio loop (`Audio.FetchAudio`);
- the deck loop (`Notes.BuildDeck`) is a method;
- the whole run (`Pipeline.FetchRecords`) is a method.

The specifying functions are `Fetch.MergeRecords`, `Fetch.SubjectRequests`,
`Audio.AudioPlan`, `Notes.Collect` and `Pipeline.Run`. The lemmas state what
the script promises about them.

Some members are plain definitions of one source expression, with no
contract of their own; the lemmas and methods in the table below state
what follows from them:

- `Fetch.ExportBound`: the level check and the bound, lines 92-99;
- `Subjects.AsWrittenKey`: the integer key `vocab['id']`, line 119;
- `Cache.Dump`: `json.dump` of the dict, one member per key named by the
  printed key, lines 56-58;
- `Notes.Spans`: each element wrapped in `<span>`, lines 198 and 200;
- `Pipeline.AudioRequests`: one audio request per download, line 136.

The outside world is passed in:

- the user endpoint's answer is a `UserInfo`;
- the subjects endpoint answers the i-th subjects request with `pages[i]`;
- the cache file is absent (`None`) or a sequence of JSON members;
- the audio directory is the set of file names in it;
- the wall clock is the sequence of minute stamps the gate reads.

Every call a run makes is returned as a `Request`, so the models state
which calls are made, in what order and with what parameters.

Python behaviours the model writes out:

- dict insertion order (`Dicts.Put`);
- JSON object keys are always strings (`Cache.Dump` prints each key,
  `Cache.Load` gives string keys);
- `.get(name, [])` on a missing list (`Subjects.OrEmpty`, lines 129 and
  198-200);
- the falsy-cursor test `if last_id` (`Fetch.Cursor`);
- the falsy-URL test `if audio_url` (`Audio.AudioUrl`).

Two notes on what the code does:

- With `--include-in-progress-level` passed, the bound is still the user's
  current `level`. With it absent, the check only rejects a level that is
  not positive, and the bound is again `level`. So both settings export
  levels 1 to `level`, and `max_level_granted` is read but never used.
  The help text (line 36) and the error message `No levels completed and
  --include-in-progress-level not passed` (line 99) describe the flag as
  adding the level in progress. The model follows the code (`Fetch.ExportBound`).
- The failing level check comes after the user-info request (line 91),
  not before any request. The model follows the code:
  `Pipeline.RunOutcome` states that a failed run has made exactly that one
  request.

## Model

| member | source | states |
|---|---|---|
| `RateLimit.FirstOpen` | gen_apkg.py:63-65 | the waiting loop stops at the first clock reading whose minute has admitted fewer than 60 calls, and every earlier reading was full |
| `RateLimit.ChargeKeepsQuota` | gen_apkg.py:63-67 | admitting a call in an open minute raises that minute's counter by exactly one, leaves every other minute's counter unchanged, and no counter exceeds 60 |
| `RateLimit.ChargeTimesCount` | gen_apkg.py:67 | n admissions in one minute raise its counter by n |
| `RateLimit.FullBucketWaits` | gen_apkg.py:63-67 | after 60 admissions in a fresh minute, every further reading of that minute is refused, so the 61st call waits for a later minute |
| `RateLimit.RateLimiter.constructor` | gen_apkg.py:24 | the counter starts empty, within the quota |
| `RateLimit.RateLimiter.Admit` | gen_apkg.py:61-70 | a call is admitted exactly when some reading is open; the minute it is counted in is the first open reading; the counter becomes the old one with that minute raised by one; a call still waiting changes nothing; the quota holds afterwards |
| `Text.SplitJoin` | gen_apkg.py:108 | splitting a comma-join of comma-free parts gives the parts back |
| `Text.DecimalRoundTrip` | gen_apkg.py:108 | `str(n)` of a natural number parses back to n |
| `Text.DecimalInjective` | gen_apkg.py:101-119 | two numbers print alike only when they are equal |
| `Subjects.AudioNameInjective` | gen_apkg.py:126 | two keys get the same file `wbvocab-<key>.mp3` only when they print alike |
| `Subjects.CacheKey` | gen_apkg.py:101-119 | the corrected key is a string that prints as the integer id does |
| `Subjects.CacheKeyInjective` | gen_apkg.py:101-119 | two records share a string key exactly when they share an id |
| `Dicts.Put` | gen_apkg.py:119 | `d[k] = v` gives the map updated at k; a present key keeps its position and a new key is appended; the dict stays well formed |
| `Dicts.SameDict` | gen_apkg.py:101-121 | two dicts with the same keys in the same order and the same values are equal |
| `Dicts.SizeIsKeyCount` | gen_apkg.py:193 | iterating a dict visits as many keys as it has entries |
| `Dicts.MapItemAt` | gen_apkg.py:125 | iterating `items()` visits the j-th key with its own value at position j |
| `Fetch.LevelRange` | gen_apkg.py:108 | `range(1, n + 1)` has n elements, the i-th being i + 1, and is empty for n <= 0 |
| `Fetch.LevelsParamRoundTrip` | gen_apkg.py:108 | the `levels` value reads back as exactly the levels 1 to n, in increasing order |
| `Fetch.LastWith` | gen_apkg.py:118-119 | finds the last record of a page sequence stored under a key, or reports that none is |
| `Fetch.MergeRecordsEntries` | gen_apkg.py:101-119 | after the merge a key is present iff it was cached or some record carries it; its value is the last record carrying it; a cached entry that no record carries is unchanged |
| `Fetch.MergeKeepsOrder` | gen_apkg.py:118-119 | the keys the dict already had keep their order and come first |
| `Fetch.MergeAppend` | gen_apkg.py:104-119 | merging page after page is merging their concatenation |
| `Fetch.MergedKeysPresent` | gen_apkg.py:118-119 | every record fetched is in the dict afterwards |
| `Fetch.MergeKeepsKeys` | gen_apkg.py:118-119 | records whose keys are all present change no key's position and add none |
| `Fetch.MergeIdempotent` | gen_apkg.py:101-121 | merging the same records a second time changes nothing |
| `Fetch.Served` | gen_apkg.py:114-115 | the pages merged are those before the first empty page; that page is empty, and all before it are not |
| `Fetch.ListingEndsServed` | gen_apkg.py:104-115 | when some answer has no records, the first such answer is among the pages, and the run sends one subjects request per page up to and including it |
| `Fetch.RequestsUpToAt` | gen_apkg.py:104-113 | the j-th of the first n subjects requests is the j-th subjects request |
| `Fetch.SubjectRequestsChain` | gen_apkg.py:104-117 | for a listing that ends, every subjects request carries the `levels` value; the first carries no `page_after_id`; each later one carries the previous page's last id, or none when that id is 0; there is at least one request; the last request is the one answered by the first empty page, and every earlier one was answered with records |
| `Fetch.FetchPages` | gen_apkg.py:101-121 | the `while True` cursor loop, for a listing that ends, with records keyed by their id string, ends with the cached dict merged with every record served, and sends exactly the subjects requests of the cursor chain |
| `Fetch.TakePage` | gen_apkg.py:105-121 | one round of the cursor loop on a page with records, with records keyed by their id string: the dict becomes the cached dict merged with every record so far, and the loop state moves on by that page, its request and its last id as the next cursor |
| `Fetch.PagingStep` | gen_apkg.py:105-119 | a page with records advances the loop invariant of `FetchPages` by one page, one request and the new cursor |
| `Fetch.PagingEnd` | gen_apkg.py:114-115 | the first empty page is the last request the loop sends |
| `Fetch.MergePage` | gen_apkg.py:118-119 | the inner loop stores every record of one page under its key, in page order |
| `Cache.Load` | gen_apkg.py:47-53 | the loaded dict is a well-formed dict |
| `Cache.LoadedKeysAreText` | gen_apkg.py:47-53 | every key loaded from the cache is a string |
| `Cache.Initial` | gen_apkg.py:101 | no cache file starts from the empty dict; the starting dict is string-keyed |
| `Cache.LoadDistinct` | gen_apkg.py:47-53 | members with distinct names load in file order, each under its own name with its own value |
| `Cache.LoadHasNames` | gen_apkg.py:47-53 | every member's name is a key of the loaded dict |
| `Cache.LoadRepeated` | gen_apkg.py:47-53 | a member whose name came earlier keeps the position of the first member with that name and replaces its value |
| `Cache.DumpNames` | gen_apkg.py:56-58 | the cache written from a string-keyed dict names each member by its key, and no two members alike |
| `Cache.LoadDump` | gen_apkg.py:101-121 | writing a string-keyed dict to the cache and reading it back gives the same dict |
| `Cache.MergeKeepsTextKeyed` | gen_apkg.py:118-119 | merging under string ids keeps a string-keyed dict string-keyed |
| `Cache.MergeKeepsKeyedById` | gen_apkg.py:118-119 | merging under string ids keeps every key the id of its own record |
| `Cache.OneEntryPerId` | gen_apkg.py:101-119 | in a dict keyed by string id, no two entries hold records with the same id |
| `Cache.RerunStable` | gen_apkg.py:101-121 | with string-id keys, a second run that loads the first run's cache and fetches the same records ends with the first run's dict |
| `Cache.AsWrittenRerunDuplicates` | gen_apkg.py:101-121 | as written, a second run holds a re-fetched record under the string key and again under the integer key, and its cache has two members with the same name |
| `Audio.FirstMpeg` | gen_apkg.py:129-132 | finds the first asset whose content type is `audio/mpeg`, or reports that there is none |
| `Audio.SelectAudio` | gen_apkg.py:128-132 | the search with `break` returns the URL of the first `audio/mpeg` asset, and nothing when no asset has that type |
| `Audio.AudioUrlIsFirstMpeg` | gen_apkg.py:128-134 | a record has an audio URL iff its first `audio/mpeg` asset exists and has a non-empty URL; the URL is that asset's, not a later one's; an absent list gives no URL |
| `Audio.FileNameAt` | gen_apkg.py:126 | the loop's j-th file name is `wbvocab-<key>.mp3` of the j-th key |
| `Audio.UrlAt` | gen_apkg.py:128-134 | the loop's j-th URL is the j-th record's audio URL |
| `Audio.AudioPlanFresh` | gen_apkg.py:125-138 | the audio loop writes no file twice and no file that was present |
| `Audio.AudioPlanSources` | gen_apkg.py:125-138 | each file written is the file name of a record from the i-th on, fetched from that record's URL |
| `Audio.AudioPlanCovers` | gen_apkg.py:125-138 | afterwards, every record with an audio URL has its file in the directory |
| `Audio.NothingToDownload` | gen_apkg.py:127 | with every file it could fetch already present, the loop downloads nothing |
| `Audio.AudioRerun` | gen_apkg.py:125-138 | a second pass over the same records, after the first pass's downloads, downloads nothing |
| `Audio.DirectoryPlanSources` | gen_apkg.py:125-138 | each file a run writes is `wbvocab-<key>.mp3` of one of its keys, fetched from that key's record's first `audio/mpeg` URL |
| `Audio.DirectoryPlanFresh` | gen_apkg.py:125-138 | one run writes no file twice and none that was already present |
| `Audio.FetchAudio` | gen_apkg.py:123-138 | the audio loop makes exactly the downloads of the plan, in dict order, and the directory grows by exactly their files |
| `Audio.SelectedUrl` | gen_apkg.py:129-134 | the URL the search selects for the i-th record, when not empty, is that record's audio URL |
| `Notes.SoundFieldPlaysAudio` | gen_apkg.py:197 | the sound field plays exactly the file the audio loop writes for the key |
| `Notes.SpansAppend` | gen_apkg.py:200 | wrapping a concatenation in spans wraps each part in turn, so the meanings' spans come before the auxiliary meanings' |
| `Notes.MeaningsFieldOrder` | gen_apkg.py:200 | the meanings field lists the primary meanings, then a line break, then the auxiliary ones; with either list empty it is the other's lines |
| `Notes.SpanLinesSmall` | gen_apkg.py:198-200 | one element gives its span alone; no elements give the empty field |
| `Notes.AbsentListFields` | gen_apkg.py:198-200 | a record with no readings, parts of speech or meanings gets empty fields for them |
| `Notes.BuildNote` | gen_apkg.py:193-203 | a note fails exactly when the record has no `meaning_mnemonic`, and the error names the key; otherwise the first field plays the file `wbvocab-<key>.mp3` the audio loop writes; the second is the readings as `<span>`s joined by `<br>`; the third is the parts of speech joined by `", "`; the fourth is the meanings followed by the auxiliary meanings as `<span>`s joined by `<br>`; an absent list counts as empty; the fifth is the mnemonic verbatim |
| `Notes.SoundFieldInjective` | gen_apkg.py:197 | two keys with the same sound field print alike |
| `Notes.DistinctSounds` | gen_apkg.py:193-204 | in a string-keyed dict, no two notes of a built deck play the same file |
| `Notes.NoteResultAt` | gen_apkg.py:193-204 | the deck loop's j-th note is the note of the j-th key and its record |
| `Notes.NoteResultOutcome` | gen_apkg.py:201 | the j-th note fails exactly when the j-th record has no mnemonic, with an error naming its key |
| `Notes.FirstFailure` | gen_apkg.py:193-204 | finds the first record, from the k-th on, whose note fails |
| `Notes.CollectOutcome` | gen_apkg.py:193-204 | the loop ends with the first failure's error, and succeeds only when no note fails |
| `Notes.CollectNotes` | gen_apkg.py:193-204 | a successful loop keeps every note, in order |
| `Notes.DeckOutcome` | gen_apkg.py:193-204 | the deck is built iff every record has a mnemonic; otherwise the error names the first key, in dict order, whose record has none |
| `Notes.DeckNotes` | gen_apkg.py:193-204 | a built deck has one note per dict entry, in dict order, each the note of its key and record |
| `Notes.BuildDeck` | gen_apkg.py:193-204 | the deck loop returns every note in dict order, or the first missing-mnemonic error |
| `Notes.CollectStep` | gen_apkg.py:193-204 | one step of the deck loop keeps its invariant, or ends with the whole loop's error |
| `Notes.AsWrittenDuplicateNotes` | gen_apkg.py:193-204 | as written, the second run's deck gets the same note twice for one re-fetched record |
| `Pipeline.RunOutcome` | gen_apkg.py:90-140 | with records keyed by their id string and a listing that ends, a run fails iff the flag is off and `level <= 0`, after the user request alone; otherwise it returns the cached records updated with every record served, the cache it writes reads back as those records, the directory gains exactly the downloads, and it makes one request for the user, one per subjects page and one per download |
| `Pipeline.RerunRecords` | gen_apkg.py:101-121 | with records keyed by their id string, loading the cache a run wrote and merging the same pages again gives the same records |
| `Pipeline.RunRerun` | gen_apkg.py:90-140 | with records keyed by their id string, a second run with the first run's cache and audio directory, and the same pages, returns the same records, writes the same cache and downloads nothing |
| `Pipeline.RunOneEntryPerId` | gen_apkg.py:101-121 | a run from no cache, or from a cache a run wrote, holds no id twice, with records keyed by their id string |
| `Pipeline.RunDistinctNotes` | gen_apkg.py:193-204 | with records keyed by their id string, the deck built from a run's records has no note twice |
| `Pipeline.FetchRecords` | gen_apkg.py:90-140 | the whole of `fetch_records`, step by step, for a listing that ends and with records keyed by their id string, gives the result of `Run` and makes exactly the requests of `RunRequests` |

## Left out

- HTTP is not modelled: the bearer header, the `.json()` decoding, the status code, and the retry after a 429 response with its `RateLimit-Reset` sleep (lines 83-85). The answers are parameters. Every call is one `Request`, successful on the first try.
- The clock and `time.sleep` are not modelled. The gate sees the sequence of minute stamps it reads; sleeping is passing to the next reading.
- RateLimit.RateLimiter.Admit: the source reads the clock again for the increment (line 67), so near a minute boundary it can count the call in a later minute than the one it checked. The model counts the call in the minute it checked and does not capture that race.
- Concurrency is not modelled. The counter is a process global, and the script is single-threaded.
- File I/O is abstracted:
  - the cache file is a sequence of JSON members, or absent;
  - an empty cache file counts as absent, like `get_last_cached` returning `None`;
  - the audio directory is a set of names;
  - the bytes of the MP3 files are not modelled;
  - `os.makedirs` is not modelled.
- JSON values other than the fields the script reads are dropped. A cache member holds a `Subject`. Malformed responses or files, which raise in the script, are not modelled.
- A record's `id` is a natural number: the API's ids are positive integers.
- Missing keys that raise `KeyError` are not modelled: `id`, `data`, `content_type` and `url` of an audio asset (lines 130-131), `reading` of a reading (line 198), and `meaning` of a meaning (line 200). Every asset, reading and meaning has its fields.
- A JSON `null` list is not modelled. There `.get` returns `None` and iterating it raises `TypeError`; the model reads every list as present or absent.
- `gen_apkg` beyond the notes is not modelled: the genanki deck, model and package, the templates and CSS, the media file list and the `.apkg` writing (lines 143-192 and 205-207). These are calls into a library that is not part of this model.
- `parse_args`, `main` and logging are not modelled.
- Fetch.FetchPages, Fetch.TakePage, Fetch.MergePage, Pipeline.Run, Pipeline.FetchRecords: the merge loop uses the corrected string key of the Findings table below. So do the lemmas about them: `Pipeline.RunOutcome`, `Pipeline.RerunRecords`, `Pipeline.RunRerun`, `Pipeline.RunOneEntryPerId` and `Pipeline.RunDistinctNotes`. The as-written integer key is modelled by `Fetch.MergeRecords` with `ById`, and what it does on a second run is shown by `Cache.AsWrittenRerunDuplicates` and `Notes.AsWrittenDuplicateNotes`.
- Fetch.FetchPages, Pipeline.Run, Pipeline.FetchRecords: these require that some answer of the subjects endpoint has no records (`Fetch.ListingEnds`). Against a server that never answers without records, the script's `while True` asks forever, and the model does not describe that run.

## Findings

| source | as written | input that shows it | evidently intended | confidence | as-written member | corrected member |
|---|---|---|---|---|---|---|
| gen_apkg.py:101-119 | the cache is loaded with JSON's string keys, but fetched records are stored under their integer `id` | a second run over one record with id 5: the dict holds `"5"` from the cache and `5` from the fetch, so the cache gets two members named `"5"` and the deck gets two identical notes | one entry per id across runs; a re-run rewrites the same cache and builds the same deck | high; not executed | `Cache.AsWrittenRerunDuplicates`, `Notes.AsWrittenDuplicateNotes` | `Cache.RerunStable`, `Pipeline.RunOneEntryPerId`, `Pipeline.RunDistinctNotes` |
