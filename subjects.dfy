/**
 * The vocabulary records ("subjects") of the study API, the keys the script
 * stores them under, and the audio file name derived from a key.
 * Only the fields the script reads are kept.
 */
module Subjects {
  import opened Wrappers
  import opened Text

  /** One entry of `pronunciation_audios`. */
  datatype AudioAsset = AudioAsset(contentType: string, url: string)

  /**
   * The `data` object of a subject. A list the script reads with
   * `.get(name, [])` may be absent (`None`); `meaning_mnemonic` is read with
   * `[...]`, so its absence is an error when the deck is built.
   */
  datatype SubjectData = SubjectData(
    readings: Option<seq<string>>,
    partsOfSpeech: Option<seq<string>>,
    meanings: Option<seq<string>>,
    auxiliaryMeanings: Option<seq<string>>,
    meaningMnemonic: Option<string>,
    pronunciationAudios: Option<seq<AudioAsset>>)

  /** A subject as returned in a page of the subjects endpoint. */
  datatype Subject = Subject(id: nat, data: SubjectData)

  /**
   * A key of the record dict. Records fetched from the API are stored under
   * their integer id; records loaded from the JSON cache come back under
   * string keys, since JSON object keys are strings.
   */
  datatype Key = Num(n: nat) | Text(s: string)

  /** The errors that end a run. */
  datatype Error = NoLevelsCompleted | MissingMnemonic(key: Key)

  /** A list the script reads with `.get(name, [])`. */
  function OrEmpty<T>(o: Option<seq<T>>): seq<T>
  {
    if o.Some? then o.value else []
  }

  /** What `f"{vocab_id}"` prints for a key. */
  function KeyText(k: Key): string
  {
    match k
    case Num(n) => Decimal(n)
    case Text(s) => s
  }

  /** The audio file name `wbvocab-<key>.mp3` of a record. */
  function AudioName(k: Key): string
  {
    "wbvocab-" + KeyText(k) + ".mp3"
  }

  /** Different keys printing differently name different audio files. */
  lemma AudioNameInjective(k1: Key, k2: Key)
    requires AudioName(k1) == AudioName(k2)
    ensures KeyText(k1) == KeyText(k2)
  {
    var a, b := KeyText(k1), KeyText(k2);
    assert |a| == |b|;
    assert forall i :: 0 <= i < |a| ==> a[i] == AudioName(k1)[8 + i] == AudioName(k2)[8 + i] == b[i];
  }

  /** The key the script stores a fetched record under: its integer id. */
  function AsWrittenKey(s: Subject): Key
  {
    Num(s.id)
  }

  /** The key a cache-consistent dict stores a record under: its id as a string. */
  function CacheKey(s: Subject): (k: Key)
    ensures k.Text? && KeyText(k) == KeyText(AsWrittenKey(s))
  {
    Text(Decimal(s.id))
  }

  /** How the record dict is keyed: by the integer id, or by the id's decimal string. */
  datatype Keying = ById | ByIdText

  function KeyFor(keying: Keying, s: Subject): Key
  {
    match keying
    case ById => AsWrittenKey(s)
    case ByIdText => CacheKey(s)
  }

  /** Two subjects share a cache key exactly when they share an id. */
  lemma CacheKeyInjective(s1: Subject, s2: Subject)
    ensures CacheKey(s1) == CacheKey(s2) <==> s1.id == s2.id
  {
    if CacheKey(s1) == CacheKey(s2) {
      DecimalInjective(s1.id, s2.id);
    }
  }
}
