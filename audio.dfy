/**
 * The audio step of `fetch_records`: for every record whose file
 * `wbvocab-<key>.mp3` is not in the audio directory, fetch the first
 * pronunciation asset of content type `audio/mpeg` and write it there.
 * The directory is the set of file names present in it.
 */
module Audio {
  import opened Wrappers
  import opened Dicts
  import opened Subjects

  const Mpeg: string := "audio/mpeg"

  /** A file written to the audio directory, and the URL it was fetched from. */
  datatype Download = Download(name: string, url: string)

  /** Index of the first asset whose content type is `audio/mpeg`, if any. */
  function FirstMpeg(audios: seq<AudioAsset>): (r: Option<nat>)
    ensures r.Some? ==> r.value < |audios| && audios[r.value].contentType == Mpeg
    ensures r.Some? ==> forall j :: 0 <= j < r.value ==> audios[j].contentType != Mpeg
    ensures r.None? ==> forall j :: 0 <= j < |audios| ==> audios[j].contentType != Mpeg
  {
    FirstMpegFrom(audios, 0)
  }

  function FirstMpegFrom(audios: seq<AudioAsset>, k: nat): (r: Option<nat>)
    requires k <= |audios|
    requires forall j :: 0 <= j < k ==> audios[j].contentType != Mpeg
    ensures r.Some? ==> k <= r.value < |audios| && audios[r.value].contentType == Mpeg
    ensures r.Some? ==> forall j :: 0 <= j < r.value ==> audios[j].contentType != Mpeg
    ensures r.None? ==> forall j :: 0 <= j < |audios| ==> audios[j].contentType != Mpeg
    decreases |audios| - k
  {
    if k == |audios| then None
    else if audios[k].contentType == Mpeg then Some(k)
    else FirstMpegFrom(audios, k + 1)
  }

  /**
   * The search with `break`: the URL of the first `audio/mpeg` asset, or
   * `None` when there is none.
   */
  method SelectAudio(audios: seq<AudioAsset>) returns (url: Option<string>)
    ensures FirstMpeg(audios).None? ==> url == None
    ensures FirstMpeg(audios).Some? ==> url == Some(audios[FirstMpeg(audios).value].url)
  {
    url := None;
    var i := 0;
    while i < |audios|
      invariant i <= |audios|
      invariant url == None
      invariant forall j :: 0 <= j < i ==> audios[j].contentType != Mpeg
    {
      if audios[i].contentType == Mpeg {
        url := Some(audios[i].url);
        break;
      }
      i := i + 1;
    }
  }

  /**
   * The URL a record's audio would be fetched from: the first `audio/mpeg`
   * asset's, provided it is not empty (`if audio_url:`). An absent list has
   * no assets.
   */
  function AudioUrl(s: Subject): Option<string>
  {
    var audios := OrEmpty(s.data.pronunciationAudios);
    match FirstMpeg(audios)
    case None => None
    case Some(i) => if audios[i].url != "" then Some(audios[i].url) else None
  }

  /**
   * A record has an audio URL exactly when its first `audio/mpeg` asset
   * exists and has a non-empty URL, and the URL is that asset's. A record
   * whose list is absent, or has no such asset, has none.
   */
  lemma AudioUrlIsFirstMpeg(s: Subject)
    ensures var audios := OrEmpty(s.data.pronunciationAudios);
      && (AudioUrl(s).Some? <==> FirstMpeg(audios).Some? && audios[FirstMpeg(audios).value].url != "")
      && (AudioUrl(s).Some? ==> AudioUrl(s).value == audios[FirstMpeg(audios).value].url)
      && (AudioUrl(s).Some? ==> forall j :: 0 <= j < |audios| && audios[j].contentType == Mpeg ==> FirstMpeg(audios).value <= j)
      && (s.data.pronunciationAudios.None? ==> AudioUrl(s).None?)
  {
  }

  /** The audio file name of each key, in dict order. */
  function FileNames(d: Dict<Key, Subject>): (names: seq<string>)
    requires d.Valid()
    ensures |names| == |d.keys|
  {
    MapItems(d, (k: Key, s: Subject) => AudioName(k), 0)
  }

  /** The file name of the `j`-th key is `wbvocab-<key>.mp3`. */
  lemma FileNameAt(d: Dict<Key, Subject>, j: nat)
    requires d.Valid() && j < |d.keys|
    ensures FileNames(d)[j] == AudioName(d.keys[j])
  {
    MapItemAt(d, (k: Key, s: Subject) => AudioName(k), 0, j);
  }

  /** The audio URL of each record, in dict order. */
  function Urls(d: Dict<Key, Subject>): (urls: seq<Option<string>>)
    requires d.Valid()
    ensures |urls| == |d.keys|
  {
    MapItems(d, (k: Key, s: Subject) => AudioUrl(s), 0)
  }

  /** The URL of the `j`-th record is its first non-empty `audio/mpeg` URL. */
  lemma UrlAt(d: Dict<Key, Subject>, j: nat)
    requires d.Valid() && j < |d.keys|
    ensures Urls(d)[j] == AudioUrl(d.entries[d.keys[j]])
  {
    MapItemAt(d, (k: Key, s: Subject) => AudioUrl(s), 0, j);
  }

  /**
   * The downloads of the audio loop from the `i`-th record on, given each
   * record's file name and URL, when the files in `present` are already in
   * the audio directory.
   */
  function AudioPlan(names: seq<string>, urls: seq<Option<string>>, present: set<string>, i: nat): seq<Download>
    requires |names| == |urls| && i <= |names|
    decreases |names| - i
  {
    if i == |names| then []
    else if names[i] in present || urls[i].None? then AudioPlan(names, urls, present, i + 1)
    else [Download(names[i], urls[i].value)] + AudioPlan(names, urls, present + {names[i]}, i + 1)
  }

  /** An unfolding of `AudioPlan` at `i`. */
  lemma AudioPlanStep(names: seq<string>, urls: seq<Option<string>>, present: set<string>, i: nat)
    requires |names| == |urls| && i < |names|
    ensures AudioPlan(names, urls, present, i)
      == if names[i] in present || urls[i].None? then AudioPlan(names, urls, present, i + 1)
         else [Download(names[i], urls[i].value)] + AudioPlan(names, urls, present + {names[i]}, i + 1)
  {
  }

  /** The names of the files a list of downloads writes. */
  function Names(dl: seq<Download>): set<string>
  {
    set j | 0 <= j < |dl| :: dl[j].name
  }

  lemma NamesCons(x: Download, dl: seq<Download>)
    ensures Names([x] + dl) == {x.name} + Names(dl)
  {
    var r := [x] + dl;
    forall n | n in Names(r) ensures n in {x.name} + Names(dl) {
      var a :| 0 <= a < |r| && r[a].name == n;
      if a > 0 { assert dl[a - 1].name == n; }
    }
    forall n | n in Names(dl) ensures n in Names(r) {
      var a :| 0 <= a < |dl| && dl[a].name == n;
      assert r[a + 1].name == n;
    }
    assert r[0].name == x.name;
  }

  /**
   * No file is written twice in one run, and no file that was already
   * present is written.
   */
  lemma {:induction false} AudioPlanFresh(names: seq<string>, urls: seq<Option<string>>, present: set<string>, i: nat)
    requires |names| == |urls| && i <= |names|
    ensures var plan := AudioPlan(names, urls, present, i);
      && (forall a, b :: 0 <= a < b < |plan| ==> plan[a].name != plan[b].name)
      && (forall a :: 0 <= a < |plan| ==> plan[a].name !in present)
    decreases |names| - i
  {
    if i < |names| {
      AudioPlanStep(names, urls, present, i);
      if names[i] in present || urls[i].None? {
        AudioPlanFresh(names, urls, present, i + 1);
      } else {
        AudioPlanFresh(names, urls, present + {names[i]}, i + 1);
      }
    }
  }

  /**
   * Each file written is the file name of a record from the `i`-th on,
   * fetched from that record's URL.
   */
  lemma {:induction false} AudioPlanSources(names: seq<string>, urls: seq<Option<string>>, present: set<string>, i: nat)
    requires |names| == |urls| && i <= |names|
    ensures var plan := AudioPlan(names, urls, present, i);
      forall a :: 0 <= a < |plan| ==>
        exists j :: i <= j < |names| && plan[a].name == names[j] && urls[j] == Some(plan[a].url)
    decreases |names| - i
  {
    if i < |names| {
      AudioPlanStep(names, urls, present, i);
      if names[i] in present || urls[i].None? {
        AudioPlanSources(names, urls, present, i + 1);
      } else {
        AudioPlanSources(names, urls, present + {names[i]}, i + 1);
        var plan := AudioPlan(names, urls, present, i);
        var rest := AudioPlan(names, urls, present + {names[i]}, i + 1);
        forall a | 0 <= a < |plan|
          ensures exists j :: i <= j < |names| && plan[a].name == names[j] && urls[j] == Some(plan[a].url)
        {
          if a > 0 {
            assert plan[a] == rest[a - 1];
          }
        }
      }
    }
  }

  /** The `a`-th file written is the file name of some record, fetched from that record's URL. */
  lemma AudioPlanSource(names: seq<string>, urls: seq<Option<string>>, present: set<string>, a: nat)
    requires |names| == |urls| && a < |AudioPlan(names, urls, present, 0)|
    ensures var plan := AudioPlan(names, urls, present, 0);
      exists j :: 0 <= j < |names| && plan[a].name == names[j] && urls[j] == Some(plan[a].url)
  {
    AudioPlanSources(names, urls, present, 0);
  }

  /** Every record with a URL ends the loop with its file present. */
  lemma {:induction false} AudioPlanCovers(names: seq<string>, urls: seq<Option<string>>, present: set<string>, i: nat)
    requires |names| == |urls| && i <= |names|
    ensures forall j :: i <= j < |names| && urls[j].Some? ==>
      names[j] in present + Names(AudioPlan(names, urls, present, i))
    decreases |names| - i
  {
    if i < |names| {
      AudioPlanStep(names, urls, present, i);
      if names[i] in present || urls[i].None? {
        AudioPlanCovers(names, urls, present, i + 1);
      } else {
        AudioPlanCovers(names, urls, present + {names[i]}, i + 1);
        NamesCons(Download(names[i], urls[i].value), AudioPlan(names, urls, present + {names[i]}, i + 1));
      }
    }
  }

  /** With every file it could fetch already present, the audio loop downloads nothing. */
  lemma {:induction false} NothingToDownload(names: seq<string>, urls: seq<Option<string>>, present: set<string>, i: nat)
    requires |names| == |urls| && i <= |names|
    requires forall j :: i <= j < |names| && urls[j].Some? ==> names[j] in present
    ensures AudioPlan(names, urls, present, i) == []
    decreases |names| - i
  {
    if i < |names| {
      NothingToDownload(names, urls, present, i + 1);
    }
  }

  /** A second run over the same records, after the first run's downloads, downloads nothing. */
  lemma AudioRerun(d: Dict<Key, Subject>, present: set<string>)
    requires d.Valid()
    ensures AudioPlan(FileNames(d), Urls(d), present + Names(AudioPlan(FileNames(d), Urls(d), present, 0)), 0) == []
  {
    AudioPlanCovers(FileNames(d), Urls(d), present, 0);
    NothingToDownload(FileNames(d), Urls(d), present + Names(AudioPlan(FileNames(d), Urls(d), present, 0)), 0);
  }

  /**
   * Each file one run writes is `wbvocab-<key>.mp3` of some key of `d`,
   * fetched from that key's record's first `audio/mpeg` URL.
   */
  lemma DirectoryPlanSources(d: Dict<Key, Subject>, present: set<string>)
    requires d.Valid()
    ensures var plan := AudioPlan(FileNames(d), Urls(d), present, 0);
      forall a :: 0 <= a < |plan| ==>
        exists j :: 0 <= j < |d.keys| && plan[a].name == AudioName(d.keys[j])
                 && AudioUrl(d.entries[d.keys[j]]) == Some(plan[a].url)
  {
    var names, urls := FileNames(d), Urls(d);
    var plan := AudioPlan(names, urls, present, 0);
    forall a | 0 <= a < |plan|
      ensures exists j :: 0 <= j < |d.keys| && plan[a].name == AudioName(d.keys[j])
                       && AudioUrl(d.entries[d.keys[j]]) == Some(plan[a].url)
    {
      AudioPlanSource(names, urls, present, a);
      var j :| 0 <= j < |names| && plan[a].name == names[j] && urls[j] == Some(plan[a].url);
      FileNameAt(d, j);
      UrlAt(d, j);
    }
  }

  /** One run writes no file twice and none that was already present. */
  lemma DirectoryPlanFresh(d: Dict<Key, Subject>, present: set<string>)
    requires d.Valid()
    ensures var plan := AudioPlan(FileNames(d), Urls(d), present, 0);
      && (forall a, b :: 0 <= a < b < |plan| ==> plan[a].name != plan[b].name)
      && (forall a :: 0 <= a < |plan| ==> plan[a].name !in present)
  {
    AudioPlanFresh(FileNames(d), Urls(d), present, 0);
  }

  /**
   * The audio loop: for each record, in dict order, whose file is absent,
   * select the first `audio/mpeg` URL and, when there is one, write the file.
   */
  method FetchAudio(d: Dict<Key, Subject>, present: set<string>) returns (files: set<string>, downloads: seq<Download>)
    requires d.Valid()
    ensures downloads == AudioPlan(FileNames(d), Urls(d), present, 0)
    ensures files == present + Names(downloads)
  {
    ghost var names, urls := FileNames(d), Urls(d);
    ghost var whole := AudioPlan(names, urls, present, 0);
    files := present;
    downloads := [];
    assert Fetching(names, urls, present, 0, files, downloads, whole);
    for i := 0 to |d.keys|
      invariant Fetching(names, urls, present, i, files, downloads, whole)
    {
      var key := d.keys[i];
      var name := AudioName(key);
      FileNameAt(d, i);
      var url: Option<string> := None;
      if name !in files {
        url := SelectAudio(OrEmpty(d.entries[key].data.pronunciationAudios));
        SelectedUrl(d, i, url);
      }
      if name !in files && url.Some? && url.value != "" {
        TakeStep(names, urls, present, i, files, downloads, whole);
        downloads := downloads + [Download(name, url.value)];
        files := files + {name};
      } else {
        SkipStep(names, urls, present, i, files, downloads, whole);
      }
    }
    FetchingDone(names, urls, present, files, downloads, whole);
  }

  /** The URL the search selects for the `i`-th record, unless empty, is that record's audio URL. */
  lemma SelectedUrl(d: Dict<Key, Subject>, i: nat, url: Option<string>)
    requires d.Valid() && i < |d.keys|
    requires var audios := OrEmpty(d.entries[d.keys[i]].data.pronunciationAudios);
      && (FirstMpeg(audios).None? ==> url == None)
      && (FirstMpeg(audios).Some? ==> url == Some(audios[FirstMpeg(audios).value].url))
    ensures Urls(d)[i] == if url.Some? && url.value != "" then url else None
  {
    UrlAt(d, i);
  }

  /**
   * The invariant of the audio loop after `i` records: the downloads so far
   * followed by the rest of the loop are the whole run, and the directory is
   * the initial one with the downloads so far.
   */
  ghost predicate Fetching(names: seq<string>, urls: seq<Option<string>>, present: set<string>, i: nat,
                           files: set<string>, downloads: seq<Download>, whole: seq<Download>)
  {
    && |names| == |urls| && i <= |names|
    && downloads + AudioPlan(names, urls, files, i) == whole
    && files == present + Names(downloads)
  }

  /** The invariant of the audio loop across a record it skips. */
  lemma SkipStep(names: seq<string>, urls: seq<Option<string>>, present: set<string>, i: nat,
                 files: set<string>, downloads: seq<Download>, whole: seq<Download>)
    requires Fetching(names, urls, present, i, files, downloads, whole) && i < |names|
    requires names[i] in files || urls[i].None?
    ensures Fetching(names, urls, present, i + 1, files, downloads, whole)
  {
    AudioPlanStep(names, urls, files, i);
  }

  /** The invariant of the audio loop across a record whose file it writes. */
  lemma TakeStep(names: seq<string>, urls: seq<Option<string>>, present: set<string>, i: nat,
                 files: set<string>, downloads: seq<Download>, whole: seq<Download>)
    requires Fetching(names, urls, present, i, files, downloads, whole) && i < |names|
    requires names[i] !in files && urls[i].Some?
    ensures Fetching(names, urls, present, i + 1, files + {names[i]}, downloads + [Download(names[i], urls[i].value)], whole)
  {
    AudioPlanStep(names, urls, files, i);
    var x := Download(names[i], urls[i].value);
    var rest := AudioPlan(names, urls, files + {names[i]}, i + 1);
    assert downloads + [x] + rest == downloads + ([x] + rest);
    NamesSnoc(downloads, x);
  }

  /** At the end of the audio loop the downloads are the whole run. */
  lemma FetchingDone(names: seq<string>, urls: seq<Option<string>>, present: set<string>,
                     files: set<string>, downloads: seq<Download>, whole: seq<Download>)
    requires Fetching(names, urls, present, |names|, files, downloads, whole)
    ensures downloads == whole && files == present + Names(whole)
  {
    assert downloads + [] == downloads;
  }

  lemma NamesSnoc(dl: seq<Download>, x: Download)
    ensures Names(dl + [x]) == Names(dl) + {x.name}
  {
    var r := dl + [x];
    forall n | n in Names(r) ensures n in Names(dl) + {x.name} {
      var a :| 0 <= a < |r| && r[a].name == n;
      if a < |dl| { assert dl[a].name == n; }
    }
    forall n | n in Names(dl) ensures n in Names(r) {
      var a :| 0 <= a < |dl| && dl[a].name == n;
      assert r[a].name == n;
    }
    assert r[|dl|].name == x.name;
  }
}
