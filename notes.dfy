/**
 * The notes of the deck: one note per record of the dict, in dict order,
 * with five fields (sound, readings, part of speech, meanings, meaning
 * mnemonic). A record without a meaning mnemonic stops the build.
 */
module Notes {
  import opened Wrappers
  import opened Text
  import opened Dicts
  import opened Subjects
  import opened Fetch
  import opened Cache

  /** The fields of a note, in the order of the note model. */
  datatype Note = Note(sound: string, readings: string, partOfSpeech: string, meanings: string, meaningLong: string)

  /** `f"<span>{x}</span>"`. */
  function Span(x: string): string
  {
    "<span>" + x + "</span>"
  }

  /** Each element wrapped in a span, in order. */
  function Spans(xs: seq<string>): seq<string>
  {
    seq(|xs|, i requires 0 <= i < |xs| => Span(xs[i]))
  }

  /** Wrapping a concatenation wraps each part: the meanings' spans come before the auxiliary ones'. */
  lemma SpansAppend(a: seq<string>, b: seq<string>)
    ensures Spans(a + b) == Spans(a) + Spans(b)
  {
    var l, r := Spans(a + b), Spans(a) + Spans(b);
    assert |l| == |r|;
    forall i | 0 <= i < |l| ensures l[i] == r[i] {
      if i < |a| {
        assert (a + b)[i] == a[i];
      } else {
        assert (a + b)[i] == b[i - |a|];
      }
    }
  }

  /** The elements as spans separated by `<br>`. */
  function SpanLines(xs: seq<string>): string
  {
    Join("<br>", Spans(xs))
  }

  /** `f"[sound:wbvocab-{vocab_id}.mp3]"`. */
  function SoundField(k: Key): string
  {
    "[sound:wbvocab-" + KeyText(k) + ".mp3]"
  }

  /** The sound field plays exactly the audio file the audio loop writes for the key. */
  lemma SoundFieldPlaysAudio(k: Key)
    ensures SoundField(k) == "[sound:" + AudioName(k) + "]"
  {
  }

  /** The readings, one span per line. */
  function ReadingsField(s: Subject): string
  {
    SpanLines(OrEmpty(s.data.readings))
  }

  /** The parts of speech, comma separated. */
  function PartOfSpeechField(s: Subject): string
  {
    Join(", ", OrEmpty(s.data.partsOfSpeech))
  }

  /** The meanings and then the auxiliary meanings, one span per line. */
  function MeaningsField(s: Subject): string
  {
    SpanLines(OrEmpty(s.data.meanings) + OrEmpty(s.data.auxiliaryMeanings))
  }

  /**
   * The meanings field lists the primary meanings first, then a line break,
   * then the auxiliary ones; with either list empty it is the other's lines.
   */
  lemma MeaningsFieldOrder(s: Subject)
    ensures var m, a := OrEmpty(s.data.meanings), OrEmpty(s.data.auxiliaryMeanings);
      && (m != [] && a != [] ==> MeaningsField(s) == SpanLines(m) + "<br>" + SpanLines(a))
      && (a == [] ==> MeaningsField(s) == SpanLines(m))
      && (m == [] ==> MeaningsField(s) == SpanLines(a))
  {
    var m, a := OrEmpty(s.data.meanings), OrEmpty(s.data.auxiliaryMeanings);
    SpansAppend(m, a);
    if m != [] && a != [] {
      JoinAppend("<br>", Spans(m), Spans(a));
    }
    if a == [] {
      assert m + a == m;
    }
    if m == [] {
      assert m + a == a;
    }
  }

  /** Lines of one element are that element's span; lines of none are empty. */
  lemma SpanLinesSmall(x: string)
    ensures SpanLines([x]) == Span(x)
    ensures SpanLines([]) == ""
  {
    assert Spans([x]) == [Span(x)];
  }

  /**
   * An absent list reads as empty: no readings, no parts of speech, or
   * neither kind of meaning gives an empty field.
   */
  lemma AbsentListFields(s: Subject)
    ensures s.data.readings.None? ==> ReadingsField(s) == ""
    ensures s.data.partsOfSpeech.None? ==> PartOfSpeechField(s) == ""
    ensures s.data.meanings.None? && s.data.auxiliaryMeanings.None? ==> MeaningsField(s) == ""
  {
    SpanLinesSmall("");
    if s.data.meanings.None? && s.data.auxiliaryMeanings.None? {
      assert OrEmpty(s.data.meanings) + OrEmpty(s.data.auxiliaryMeanings) == [];
    }
  }

  /**
   * The note of a record stored under `k`; reading `meaning_mnemonic` with
   * `[...]` fails when the record has none.
   */
  function BuildNote(k: Key, s: Subject): (r: Result<Note, Error>)
    ensures r.Failure? <==> s.data.meaningMnemonic.None?
    ensures r.Failure? ==> r.error == MissingMnemonic(k)
    ensures r.Success? ==> r.value.meaningLong == s.data.meaningMnemonic.value
    ensures r.Success? ==> r.value.sound == "[sound:" + AudioName(k) + "]"
    ensures r.Success? ==> r.value.readings == SpanLines(OrEmpty(s.data.readings))
    ensures r.Success? ==> r.value.partOfSpeech == Join(", ", OrEmpty(s.data.partsOfSpeech))
    ensures r.Success? ==> r.value.meanings == SpanLines(OrEmpty(s.data.meanings) + OrEmpty(s.data.auxiliaryMeanings))
  {
    match s.data.meaningMnemonic
    case None => Failure(MissingMnemonic(k))
    case Some(mnemonic) =>
      Success(Note(SoundField(k), ReadingsField(s), PartOfSpeechField(s), MeaningsField(s), mnemonic))
  }

  /** The note, or the error, of each record, in dict order. */
  function NoteResults(d: Dict<Key, Subject>): (rs: seq<Result<Note, Error>>)
    requires d.Valid()
    ensures |rs| == |d.keys|
  {
    MapItems(d, BuildNote, 0)
  }

  /** The result of the `j`-th key is the note of that key and its record. */
  lemma NoteResultAt(d: Dict<Key, Subject>, j: nat)
    requires d.Valid() && j < |d.keys|
    ensures NoteResults(d)[j] == BuildNote(d.keys[j], d.entries[d.keys[j]])
  {
    MapItemAt(d, BuildNote, 0, j);
  }

  /** The `j`-th result is an error exactly when the `j`-th record has no mnemonic, and names its key. */
  lemma NoteResultOutcome(d: Dict<Key, Subject>, j: nat)
    requires d.Valid() && j < |d.keys|
    ensures var r := NoteResults(d)[j];
      && (r.Failure? <==> d.entries[d.keys[j]].data.meaningMnemonic.None?)
      && (r.Failure? ==> r.error == MissingMnemonic(d.keys[j]))
  {
    NoteResultAt(d, j);
  }

  /**
   * The deck loop from the `i`-th result on: all the notes, in order, or the
   * first error.
   */
  function Collect(rs: seq<Result<Note, Error>>, i: nat): Result<seq<Note>, Error>
    requires i <= |rs|
    decreases |rs| - i
  {
    if i == |rs| then Success([])
    else match rs[i]
      case Failure(e) => Failure(e)
      case Success(n) =>
        match Collect(rs, i + 1)
        case Failure(e) => Failure(e)
        case Success(ns) => Success([n] + ns)
  }

  /** Index of the first error from the `k`-th result on. */
  function FirstFailure(rs: seq<Result<Note, Error>>, k: nat): (r: Option<nat>)
    requires k <= |rs|
    ensures r.Some? ==> k <= r.value < |rs| && rs[r.value].Failure?
    ensures r.Some? ==> forall j :: k <= j < r.value ==> rs[j].Success?
    ensures r.None? ==> forall j :: k <= j < |rs| ==> rs[j].Success?
    decreases |rs| - k
  {
    if k == |rs| then None
    else if rs[k].Failure? then Some(k)
    else FirstFailure(rs, k + 1)
  }

  /** The loop ends with the first error, if any, and otherwise with every note. */
  lemma {:induction false} CollectOutcome(rs: seq<Result<Note, Error>>, i: nat)
    requires i <= |rs|
    ensures Collect(rs, i).Success? <==> FirstFailure(rs, i).None?
    ensures Collect(rs, i).Failure? ==> Collect(rs, i).error == rs[FirstFailure(rs, i).value].error
    decreases |rs| - i
  {
    if i < |rs| {
      CollectOutcome(rs, i + 1);
    }
  }

  /** A successful loop keeps every note, in order. */
  lemma {:induction false} CollectNotes(rs: seq<Result<Note, Error>>, i: nat)
    requires i <= |rs|
    requires Collect(rs, i).Success?
    ensures |Collect(rs, i).value| == |rs| - i
    ensures forall j :: i <= j < |rs| ==> rs[j] == Success(Collect(rs, i).value[j - i])
    decreases |rs| - i
  {
    if i < |rs| {
      CollectNotes(rs, i + 1);
    }
  }

  /**
   * The deck is built exactly when every record has a meaning mnemonic;
   * otherwise the error names the first key, in dict order, whose record
   * has none.
   */
  lemma DeckOutcome(d: Dict<Key, Subject>)
    requires d.Valid()
    ensures var deck := Collect(NoteResults(d), 0);
      && (deck.Success? <==> forall j :: 0 <= j < |d.keys| ==> d.entries[d.keys[j]].data.meaningMnemonic.Some?)
      && (deck.Failure? ==>
            exists i :: && 0 <= i < |d.keys|
                        && deck.error == MissingMnemonic(d.keys[i])
                        && d.entries[d.keys[i]].data.meaningMnemonic.None?
                        && forall j :: 0 <= j < i ==> d.entries[d.keys[j]].data.meaningMnemonic.Some?)
  {
    var rs := NoteResults(d);
    CollectOutcome(rs, 0);
    forall j | 0 <= j < |d.keys|
      ensures rs[j].Failure? <==> d.entries[d.keys[j]].data.meaningMnemonic.None?
      ensures rs[j].Failure? ==> rs[j].error == MissingMnemonic(d.keys[j])
    {
      NoteResultOutcome(d, j);
    }
    if Collect(rs, 0).Failure? {
      var i := FirstFailure(rs, 0).value;
      assert rs[i].Failure?;
    }
  }

  /**
   * A built deck holds one note per entry of the dict, in dict order, each
   * the note of its key and record.
   */
  lemma DeckNotes(d: Dict<Key, Subject>)
    requires d.Valid()
    ensures var deck := Collect(NoteResults(d), 0);
      deck.Success? ==>
        && |deck.value| == |d.entries| == |d.keys|
        && forall j :: 0 <= j < |d.keys| ==> Success(deck.value[j]) == BuildNote(d.keys[j], d.entries[d.keys[j]])
  {
    var rs := NoteResults(d);
    if Collect(rs, 0).Success? {
      CollectNotes(rs, 0);
      SizeIsKeyCount(d);
      forall j | 0 <= j < |d.keys| ensures rs[j] == BuildNote(d.keys[j], d.entries[d.keys[j]]) {
        NoteResultAt(d, j);
      }
    }
  }

  /** Two keys whose sound fields are alike print alike. */
  lemma SoundFieldInjective(k1: Key, k2: Key)
    requires SoundField(k1) == SoundField(k2)
    ensures KeyText(k1) == KeyText(k2)
  {
    SoundFieldPlaysAudio(k1);
    SoundFieldPlaysAudio(k2);
    var f := SoundField(k1);
    assert AudioName(k1) == f[7..|f| - 1] == AudioName(k2);
    AudioNameInjective(k1, k2);
  }

  /**
   * In a string-keyed dict no two notes of a built deck play the same
   * file, so the deck has no note twice.
   */
  lemma DistinctSounds(d: Dict<Key, Subject>)
    requires d.Valid() && TextKeyed(d)
    ensures var deck := Collect(NoteResults(d), 0);
      deck.Success? ==> forall i, j :: 0 <= i < j < |deck.value| ==> deck.value[i].sound != deck.value[j].sound
  {
    var deck := Collect(NoteResults(d), 0);
    if deck.Success? {
      DeckNotes(d);
      DistinctKeys(d);
      forall i, j | 0 <= i < j < |deck.value| ensures deck.value[i].sound != deck.value[j].sound {
        var ki, kj := d.keys[i], d.keys[j];
        assert ki in d.entries && kj in d.entries;
        assert Success(deck.value[i]) == BuildNote(ki, d.entries[ki]);
        assert Success(deck.value[j]) == BuildNote(kj, d.entries[kj]);
        if deck.value[i].sound == deck.value[j].sound {
          SoundFieldInjective(ki, kj);
        }
      }
    }
  }

  /**
   * The deck loop: build each record's note in dict order and add it to the
   * deck; the first record without a mnemonic ends the build with its error.
   */
  method BuildDeck(d: Dict<Key, Subject>) returns (r: Result<seq<Note>, Error>)
    requires d.Valid()
    ensures r == Collect(NoteResults(d), 0)
  {
    ghost var rs := NoteResults(d);
    ghost var whole := Collect(rs, 0);
    var notes: seq<Note> := [];
    assert whole.Success? ==> notes + whole.value == whole.value;
    for i := 0 to |d.keys|
      invariant Built(rs, i, notes, whole)
    {
      var k := d.keys[i];
      var n := BuildNote(k, d.entries[k]);
      NoteResultAt(d, i);
      CollectStep(rs, i, notes, whole);
      if n.Failure? {
        return Failure(n.error);
      }
      notes := notes + [n.value];
    }
    assert notes + [] == notes;
    return Success(notes);
  }

  /** The loop invariant: `whole` is the notes built so far followed by the rest of the loop. */
  ghost predicate Built(rs: seq<Result<Note, Error>>, i: nat, notes: seq<Note>, whole: Result<seq<Note>, Error>)
    requires i <= |rs|
  {
    whole == if Collect(rs, i).Failure? then Collect(rs, i) else Success(notes + Collect(rs, i).value)
  }

  /** One step of the deck loop keeps the invariant, or ends it with the whole loop's error. */
  lemma CollectStep(rs: seq<Result<Note, Error>>, i: nat, notes: seq<Note>, whole: Result<seq<Note>, Error>)
    requires i < |rs| && Built(rs, i, notes, whole)
    ensures rs[i].Failure? ==> whole == Failure(rs[i].error)
    ensures rs[i].Success? ==> Built(rs, i + 1, notes + [rs[i].value], whole)
  {
    if rs[i].Success? && Collect(rs, i + 1).Success? {
      var rest := Collect(rs, i + 1).value;
      assert notes + [rs[i].value] + rest == notes + ([rs[i].value] + rest);
    }
  }

  /**
   * As written, the second run's dict holds a re-fetched record twice (see
   * `AsWrittenRerunDuplicates`), and the deck gets the same note twice.
   */
  lemma AsWrittenDuplicateNotes(s: Subject)
    requires s.data.meaningMnemonic.Some?
    ensures var first := MergeRecords(Empty(), [s], ById);
      var second := MergeRecords(Load(Dump(first)), [s], ById);
      var deck := Collect(NoteResults(second), 0);
      deck.Success? && |deck.value| == 2 && deck.value[0] == deck.value[1]
  {
    var first := MergeRecords(Empty(), [s], ById);
    var second := MergeRecords(Load(Dump(first)), [s], ById);
    AsWrittenRerunDuplicates(s);
    var rs := NoteResults(second);
    NoteResultAt(second, 0);
    NoteResultAt(second, 1);
    CollectPair(rs);
  }

  /** The loop over two notes keeps both. */
  lemma CollectPair(rs: seq<Result<Note, Error>>)
    requires |rs| == 2 && rs[0].Success? && rs[1].Success?
    ensures Collect(rs, 0) == Success([rs[0].value, rs[1].value])
  {
    assert Collect(rs, 2) == Success([]);
    assert [rs[1].value] + [] == [rs[1].value];
    assert Collect(rs, 1) == Success([rs[1].value]);
    assert [rs[0].value] + [rs[1].value] == [rs[0].value, rs[1].value];
  }
}
