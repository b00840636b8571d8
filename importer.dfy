/**
 * The importer: replaces the entries of one language pair in the store by
 * the entries of a parsed dictionary file, inside one managed session.
 */
module Importer {
  import opened Wrappers
  import opened Seqs
  import opened Parser
  import opened Models

  /** `new_word`: a word row for `text` in `language`, if the text validator accepts it. */
  function NewWord(id: Id, text: string, language: Language): (r: Result<Word, ValidationError>)
    ensures r.Success? <==> text != []
    ensures r.Success? ==> r.value.id == id && r.value.text == text && r.value.languageId == language.id
    ensures r.Failure? ==> r.error == EmptyText
  {
    match ValidateText(text)
    case Success(t) => Success(Word(id, t, language.id))
    case Failure(e) => Failure(e)
  }

  /** `new_translation`: the row stating that `word1` translates to `word2`. */
  function NewTranslation(word1: Word, word2: Word): (t: Translation)
    ensures TranslationKey(t) == (word1.id, word2.id)
  {
    Translation(word1.id, word2.id)
  }

  /** The rows `get_model_objects` yields for one entry. */
  datatype EntryObjects = EntryObjects(source: Word, target: Word, translation: Translation)

  /** The entries whose words both pass the text validator, in input order. */
  function KeptEntries(entries: seq<Pair>): seq<Pair>
  {
    Filter(entries, BothNonEmpty)
  }

  /**
   * How many ids the construction of `entries` draws: one for the source
   * word of every entry, and one more for the target word when the source
   * word was accepted.
   */
  function IdsConsumed(entries: seq<Pair>): nat
  {
    if entries == [] then 0
    else (if entries[0].0 == [] then 1 else 2) + IdsConsumed(entries[1..])
  }

  /**
   * The rows of entry `e`: a source word in `src`, a target word in `tgt`
   * with the next id, and the translation from the one to the other.
   */
  predicate ObjectsFor(o: EntryObjects, e: Pair, src: Language, tgt: Language)
  {
    && o.source == Word(o.source.id, e.0, src.id)
    && o.target == Word(o.source.id + 1, e.1, tgt.id)
    && o.translation == Translation(o.source.id, o.target.id)
  }

  /**
   * The rows' ids lie in `[lo, hi)` and grow from one entry to the next:
   * each group takes two ids, and the next group starts above them.
   */
  predicate WellNumbered(objs: seq<EntryObjects>, lo: nat, hi: nat)
  {
    objs == [] ||
    (lo <= objs[0].source.id && objs[0].source.id + 2 <= hi && WellNumbered(objs[1..], objs[0].source.id + 2, hi))
  }

  /**
   * `get_model_objects`: the rows of every entry, in order, where an entry
   * whose source or target word the validator refuses is skipped. The ids
   * are drawn from `firstId` on.
   */
  function GetModelObjects(entries: seq<Pair>, src: Language, tgt: Language, firstId: Id): seq<EntryObjects>
  {
    if entries == [] then []
    else
      var rest := GetModelObjects(entries[1..], src, tgt, firstId + (if entries[0].0 == [] then 1 else 2));
      match NewWord(firstId, entries[0].0, src)
      case Failure(_) => rest
      case Success(sourceWord) =>
        match NewWord(firstId + 1, entries[0].1, tgt)
        case Failure(_) => rest
        case Success(targetWord) =>
          [EntryObjects(sourceWord, targetWord, NewTranslation(sourceWord, targetWord))] + rest
  }

  /** The rows of an entry both of whose words are present, with ids `id` and `id + 1`. */
  function EntryRows(e: Pair, src: Language, tgt: Language, id: Id): EntryObjects
  {
    EntryObjects(Word(id, e.0, src.id), Word(id + 1, e.1, tgt.id), Translation(id, id + 1))
  }

  /**
   * One step of `get_model_objects`: the first entry contributes its rows
   * exactly when both its words are present, and the rest continues with
   * the ids the first entry left.
   */
  lemma GetModelObjectsStep(entries: seq<Pair>, src: Language, tgt: Language, firstId: Id)
    requires entries != []
    ensures GetModelObjects(entries, src, tgt, firstId) ==
      (if BothNonEmpty(entries[0]) then [EntryRows(entries[0], src, tgt, firstId)] else []) +
      GetModelObjects(entries[1..], src, tgt, firstId + (if entries[0].0 == [] then 1 else 2))
    ensures KeptEntries(entries) == (if BothNonEmpty(entries[0]) then [entries[0]] else []) + KeptEntries(entries[1..])
  {
  }

  /**
   * What `get_model_objects` yields: one group of rows per kept entry, in
   * the entries' order, each holding that entry's words in the source and
   * target language and the translation between them.
   */
  lemma {:induction false} GetModelObjectsMatch(entries: seq<Pair>, src: Language, tgt: Language, firstId: Id)
    ensures var objs := GetModelObjects(entries, src, tgt, firstId);
      && |objs| == |KeptEntries(entries)|
      && (forall k :: 0 <= k < |objs| ==> ObjectsFor(objs[k], KeptEntries(entries)[k], src, tgt))
  {
    if entries != [] {
      var e := entries[0];
      var c := if e.0 == [] then 1 else 2;
      GetModelObjectsStep(entries, src, tgt, firstId);
      GetModelObjectsMatch(entries[1..], src, tgt, firstId + c);
      var rest := GetModelObjects(entries[1..], src, tgt, firstId + c);
      var kept := KeptEntries(entries[1..]);
      if BothNonEmpty(e) {
        var objs := [EntryRows(e, src, tgt, firstId)] + rest;
        forall k | 0 < k < |objs|
          ensures objs[k] == rest[k - 1] && KeptEntries(entries)[k] == kept[k - 1]
        {
        }
      }
    }
  }

  /** A narrower id range is contained in a wider one. */
  lemma WellNumberedWiden(objs: seq<EntryObjects>, lo: nat, lo': nat, hi: nat)
    requires WellNumbered(objs, lo', hi) && lo <= lo'
    ensures WellNumbered(objs, lo, hi)
  {
  }

  /**
   * The ids of the rows lie among the ids the construction consumed and
   * increase from one group to the next.
   */
  lemma {:induction false} GetModelObjectsNumbered(entries: seq<Pair>, src: Language, tgt: Language, firstId: Id)
    ensures WellNumbered(GetModelObjects(entries, src, tgt, firstId), firstId, firstId + IdsConsumed(entries))
  {
    if entries != [] {
      var e := entries[0];
      var c := if e.0 == [] then 1 else 2;
      GetModelObjectsStep(entries, src, tgt, firstId);
      GetModelObjectsNumbered(entries[1..], src, tgt, firstId + c);
      var rest := GetModelObjects(entries[1..], src, tgt, firstId + c);
      var hi := firstId + IdsConsumed(entries);
      assert hi == firstId + c + IdsConsumed(entries[1..]);
      if BothNonEmpty(e) {
        assert ([EntryRows(e, src, tgt, firstId)] + rest)[1..] == rest;
      } else {
        WellNumberedWiden(rest, firstId, firstId + c, hi);
      }
    }
  }

  /** The words of the rows, source before target, entry by entry. */
  function WordsOf(objs: seq<EntryObjects>): (words: seq<Word>)
    ensures |words| == 2 * |objs|
  {
    if objs == [] then [] else [objs[0].source, objs[0].target] + WordsOf(objs[1..])
  }

  /** The source word of group `k` sits at position `2k`, its target word right after it. */
  lemma {:induction false} WordsOfAt(objs: seq<EntryObjects>, k: nat)
    requires k < |objs|
    ensures WordsOf(objs)[2 * k] == objs[k].source && WordsOf(objs)[2 * k + 1] == objs[k].target
  {
    if k > 0 {
      WordsOfAt(objs[1..], k - 1);
    }
  }

  /** Every word of the rows is the source or the target word of one group. */
  lemma {:induction false} WordsOfMember(objs: seq<EntryObjects>, w: Word) returns (k: nat)
    requires w in WordsOf(objs)
    ensures k < |objs| && (w == objs[k].source || w == objs[k].target)
  {
    if w == objs[0].source || w == objs[0].target {
      k := 0;
    } else {
      var k' := WordsOfMember(objs[1..], w);
      k := k' + 1;
    }
  }

  /** The translations of the rows, entry by entry. */
  function TranslationsOf(objs: seq<EntryObjects>): seq<Translation>
  {
    seq(|objs|, k requires 0 <= k < |objs| => objs[k].translation)
  }

  lemma {:induction false} WordsOfAppend(a: seq<EntryObjects>, b: seq<EntryObjects>)
    ensures WordsOf(a + b) == WordsOf(a) + WordsOf(b)
  {
    if a == [] {
      assert a + b == b;
    } else {
      var ab := a + b;
      assert ab[0] == a[0] && ab[1..] == a[1..] + b;
      WordsOfAppend(a[1..], b);
      var head := [a[0].source, a[0].target];
      assert WordsOf(ab) == head + (WordsOf(a[1..]) + WordsOf(b));
      assert WordsOf(a) == head + WordsOf(a[1..]);
    }
  }

  /**
   * Constructing the rows of two batches one after the other gives the rows
   * of the whole: the ids of the second batch continue where the first
   * stopped.
   */
  lemma {:induction false} GetModelObjectsAppend(a: seq<Pair>, b: seq<Pair>, src: Language, tgt: Language, firstId: Id)
    ensures IdsConsumed(a + b) == IdsConsumed(a) + IdsConsumed(b)
    ensures GetModelObjects(a + b, src, tgt, firstId) ==
      GetModelObjects(a, src, tgt, firstId) + GetModelObjects(b, src, tgt, firstId + IdsConsumed(a))
  {
    if a == [] {
      assert a + b == b;
    } else {
      assert (a + b)[1..] == a[1..] + b;
      assert (a + b)[0] == a[0];
      GetModelObjectsAppend(a[1..], b, src, tgt, firstId + (if a[0].0 == [] then 1 else 2));
    }
  }

  /** The store after inserting the rows: words and translations appended. */
  function InsertedDb(db: Db, objs: seq<EntryObjects>): Db
  {
    db.(words := db.words + WordsOf(objs), translations := db.translations + TranslationsOf(objs))
  }

  /** Inserting two batches one after the other inserts their concatenation. */
  lemma InsertedDbAppend(db: Db, a: seq<EntryObjects>, b: seq<EntryObjects>)
    ensures InsertedDb(InsertedDb(db, a), b) == InsertedDb(db, a + b)
  {
    WordsOfAppend(a, b);
    assert TranslationsOf(a + b) == TranslationsOf(a) + TranslationsOf(b);
    var wa, wb, ta, tb := WordsOf(a), WordsOf(b), TranslationsOf(a), TranslationsOf(b);
    assert db.words + wa + wb == db.words + (wa + wb);
    assert db.translations + ta + tb == db.translations + (ta + tb);
  }

  /**
   * The shape of every group of rows `get_model_objects` builds: a
   * non-empty source word in `src`, a non-empty target word in `tgt` with
   * the next id, and the translation from the one to the other.
   */
  predicate Shaped(objs: seq<EntryObjects>, src: Language, tgt: Language)
  {
    forall k :: 0 <= k < |objs| ==>
      && objs[k].source.languageId == src.id && objs[k].target.languageId == tgt.id
      && objs[k].target.id == objs[k].source.id + 1
      && objs[k].translation == Translation(objs[k].source.id, objs[k].target.id)
      && objs[k].source.text != [] && objs[k].target.text != []
  }

  /** Every group of rows `get_model_objects` yields has that shape. */
  lemma GetModelObjectsShaped(entries: seq<Pair>, src: Language, tgt: Language, firstId: Id)
    ensures Shaped(GetModelObjects(entries, src, tgt, firstId), src, tgt)
  {
    GetModelObjectsMatch(entries, src, tgt, firstId);
  }

  /** The ids of `words` lie in `[lo, hi)` and increase strictly along the sequence. */
  predicate IdsAscending(words: seq<Word>, lo: nat, hi: nat)
  {
    && (forall i :: 0 <= i < |words| ==> lo <= words[i].id < hi)
    && (forall i, j :: 0 <= i < j < |words| ==> words[i].id < words[j].id)
  }

  /** The groups after the first keep the shape. */
  lemma ShapedTail(objs: seq<EntryObjects>, src: Language, tgt: Language)
    requires objs != [] && Shaped(objs, src, tgt)
    ensures Shaped(objs[1..], src, tgt)
  {
    forall k | 0 <= k < |objs[1..]| ensures objs[1..][k] == objs[k + 1] { }
  }

  /** The words of well-numbered rows carry strictly increasing ids from the rows' range. */
  lemma {:induction false} WordsOfAscending(objs: seq<EntryObjects>, src: Language, tgt: Language, lo: nat, hi: nat)
    requires Shaped(objs, src, tgt) && WellNumbered(objs, lo, hi)
    ensures IdsAscending(WordsOf(objs), lo, hi)
  {
    if objs != [] {
      var o := objs[0];
      ShapedTail(objs, src, tgt);
      WordsOfAscending(objs[1..], src, tgt, o.source.id + 2, hi);
      var tail := WordsOf(objs[1..]);
      var ws := [o.source, o.target] + tail;
      assert WordsOf(objs) == ws;
      forall i | 2 <= i < |ws| ensures ws[i] == tail[i - 2] && o.source.id + 2 <= ws[i].id < hi { }
    }
  }

  /** Strictly increasing ids are unique ids. */
  lemma AscendingKeysUnique(words: seq<Word>, lo: nat, hi: nat)
    requires IdsAscending(words, lo, hi)
    ensures KeysUnique(words, WordKey)
  {
  }

  /** Every word of the rows has the source or the target language. */
  lemma WordsOfLanguages(objs: seq<EntryObjects>, src: Language, tgt: Language, w: Word)
    requires Shaped(objs, src, tgt) && w in WordsOf(objs)
    ensures w.languageId == src.id || w.languageId == tgt.id
    ensures w.text != []
  {
    var k := WordsOfMember(objs, w);
  }

  /**
   * Storing the words of well-numbered rows whose ids are all fresh keeps
   * every constraint exactly when the rows reference languages that exist:
   * there is nothing to store, or both languages are in the store.
   */
  lemma InsertWordsConstraints(db: Db, objs: seq<EntryObjects>, src: Language, tgt: Language, lo: nat, hi: nat)
    requires Constraints(db) && IdsBelow(db, lo)
    requires Shaped(objs, src, tgt) && IdsAscending(WordsOf(objs), lo, hi)
    ensures Constraints(db.(words := db.words + WordsOf(objs))) <==>
      objs == [] || (src.id in LanguageIds(db) && tgt.id in LanguageIds(db))
  {
    var ws := WordsOf(objs);
    var next := db.(words := db.words + ws);
    assert LanguageIds(next) == LanguageIds(db);
    if objs == [] || (src.id in LanguageIds(db) && tgt.id in LanguageIds(db)) {
      AscendingKeysUnique(ws, lo, hi);
      KeysUniqueAppend(db.words, ws, WordKey);
      forall w | w in ws ensures w.languageId in LanguageIds(db) {
        WordsOfLanguages(objs, src, tgt, w);
      }
      assert WordIds(db) <= WordIds(next);
    } else {
      WordsOfAt(objs, 0);
      assert ws[0] in next.words && ws[1] in next.words;
      assert !(ws[0].languageId in LanguageIds(next) && ws[1].languageId in LanguageIds(next));
    }
  }

  /**
   * Once the words of the rows are stored, storing their translations keeps
   * every constraint: the new translations reference the new words and no
   * two of them, old or new, share a key.
   */
  lemma InsertTranslationsConstraints(db: Db, objs: seq<EntryObjects>, src: Language, tgt: Language, lo: nat, hi: nat)
    requires Constraints(db) && IdsBelow(db, lo)
    requires Shaped(objs, src, tgt) && IdsAscending(WordsOf(objs), lo, hi)
    requires Constraints(db.(words := db.words + WordsOf(objs)))
    ensures Constraints(InsertedDb(db, objs))
  {
    var ws := WordsOf(objs);
    var ts := TranslationsOf(objs);
    var r := InsertedDb(db, objs);
    forall k, l | 0 <= k < l < |ts| ensures TranslationKey(ts[k]) != TranslationKey(ts[l]) {
      TranslationsOfAt(objs, src, tgt, k);
      TranslationsOfAt(objs, src, tgt, l);
    }
    forall x, y | x in db.translations && y in ts ensures TranslationKey(x) != TranslationKey(y) {
      assert x.word1Id in WordIds(db);
      var k :| 0 <= k < |ts| && ts[k] == y;
      TranslationsOfAt(objs, src, tgt, k);
    }
    KeysUniqueAppend(db.translations, ts, TranslationKey);
    forall t | t in r.translations ensures t.word1Id in WordIds(r) && t.word2Id in WordIds(r) {
      if t in ts {
        var k :| 0 <= k < |ts| && ts[k] == t;
        TranslationsOfAt(objs, src, tgt, k);
        assert ws[2 * k] in r.words && ws[2 * k + 1] in r.words;
      } else {
        assert WordIds(db) <= WordIds(r);
      }
    }
  }

  /** The translation of group `k` links the words at positions `2k` and `2k + 1`. */
  lemma TranslationsOfAt(objs: seq<EntryObjects>, src: Language, tgt: Language, k: nat)
    requires Shaped(objs, src, tgt) && k < |objs|
    ensures TranslationsOf(objs)[k] == Translation(WordsOf(objs)[2 * k].id, WordsOf(objs)[2 * k + 1].id)
  {
    WordsOfAt(objs, k);
  }

  /**
   * Inserting the rows of `get_model_objects` into a valid store that holds
   * both languages and no id from `lo` on leaves it valid, with every id
   * below the end of the rows' range.
   */
  lemma InsertedDbValid(db: Db, objs: seq<EntryObjects>, src: Language, tgt: Language, lo: nat, hi: nat, isoCodes: set<string>)
    requires ValidDb(db, isoCodes) && IdsBelow(db, lo)
    requires src.id in LanguageIds(db) && tgt.id in LanguageIds(db)
    requires Shaped(objs, src, tgt) && WellNumbered(objs, lo, hi) && lo <= hi
    ensures ValidDb(InsertedDb(db, objs), isoCodes) && IdsBelow(InsertedDb(db, objs), hi)
  {
    WordsOfAscending(objs, src, tgt, lo, hi);
    InsertWordsConstraints(db, objs, src, tgt, lo, hi);
    InsertTranslationsConstraints(db, objs, src, tgt, lo, hi);
    var r := InsertedDb(db, objs);
    forall w | w in r.words ensures ValidateText(w.text).Success? && w.id < hi {
      if w in WordsOf(objs) {
        WordsOfLanguages(objs, src, tgt, w);
        var i :| 0 <= i < |WordsOf(objs)| && WordsOf(objs)[i] == w;
      }
    }
  }

  /**
   * Taking one more entry into account: its ids follow those the earlier
   * entries consumed, and it adds its rows exactly when both its words are
   * present.
   */
  lemma EntryStep(entries: seq<Pair>, i: nat, src: Language, tgt: Language, firstId: Id)
    requires i < |entries|
    ensures IdsConsumed(entries[..i + 1]) == IdsConsumed(entries[..i]) + (if entries[i].0 == [] then 1 else 2)
    ensures GetModelObjects(entries[..i + 1], src, tgt, firstId) ==
      GetModelObjects(entries[..i], src, tgt, firstId) +
      (if BothNonEmpty(entries[i]) then [EntryRows(entries[i], src, tgt, firstId + IdsConsumed(entries[..i]))] else [])
  {
    var e := entries[i];
    assert entries[..i + 1] == entries[..i] + [e];
    GetModelObjectsAppend(entries[..i], [e], src, tgt, firstId);
    GetModelObjectsStep([e], src, tgt, firstId + IdsConsumed(entries[..i]));
    assert [e][1..] == [];
  }

  /**
   * One step of the loop of `insert_entries`, stated on the words and the
   * translations collected so far: a kept entry adds its two words and its
   * translation, any other entry adds nothing.
   */
  lemma CollectStep(entries: seq<Pair>, i: nat, src: Language, tgt: Language, firstId: Id, id: Id)
    requires i < |entries| && id == firstId + IdsConsumed(entries[..i])
    ensures var e := entries[i];
      && IdsConsumed(entries[..i + 1]) == IdsConsumed(entries[..i]) + (if e.0 == [] then 1 else 2)
      && WordsOf(GetModelObjects(entries[..i + 1], src, tgt, firstId)) ==
         WordsOf(GetModelObjects(entries[..i], src, tgt, firstId)) +
         (if BothNonEmpty(e) then [Word(id, e.0, src.id), Word(id + 1, e.1, tgt.id)] else [])
      && TranslationsOf(GetModelObjects(entries[..i + 1], src, tgt, firstId)) ==
         TranslationsOf(GetModelObjects(entries[..i], src, tgt, firstId)) +
         (if BothNonEmpty(e) then [Translation(id, id + 1)] else [])
  {
    var e := entries[i];
    EntryStep(entries, i, src, tgt, firstId);
    var before := GetModelObjects(entries[..i], src, tgt, firstId);
    if BothNonEmpty(e) {
      var o := EntryRows(e, src, tgt, id);
      WordsOfAppend(before, [o]);
      assert TranslationsOf(before + [o]) == TranslationsOf(before) + [o.translation];
    } else {
      assert before + [] == before;
    }
  }

  /**
   * What the bulk saves of `insert_entries` meet when the rows of `entries`
   * are drawn from `firstId` on and the store holds no id from there: valid
   * words with fresh ids, whose save succeeds exactly when there is nothing
   * to save or both languages are stored, and whose translations can then
   * always be saved.
   */
  lemma RowsInsertable(db: Db, entries: seq<Pair>, src: Language, tgt: Language, firstId: Id)
    requires Constraints(db) && IdsBelow(db, firstId)
    ensures var objs := GetModelObjects(entries, src, tgt, firstId);
      && |WordsOf(objs)| == 2 * |KeptEntries(entries)|
      && (forall w :: w in WordsOf(objs) ==> ValidateText(w.text).Success? && w.id < firstId + IdsConsumed(entries))
      && (Constraints(db.(words := db.words + WordsOf(objs))) <==>
            objs == [] || (src.id in LanguageIds(db) && tgt.id in LanguageIds(db)))
      && (Constraints(db.(words := db.words + WordsOf(objs))) ==> Constraints(InsertedDb(db, objs)))
  {
    var objs := GetModelObjects(entries, src, tgt, firstId);
    var hi := firstId + IdsConsumed(entries);
    GetModelObjectsRows(entries, src, tgt, firstId);
    InsertWordsConstraints(db, objs, src, tgt, firstId, hi);
    if Constraints(db.(words := db.words + WordsOf(objs))) {
      InsertTranslationsConstraints(db, objs, src, tgt, firstId, hi);
    }
  }

  /**
   * The words `get_model_objects` yields: two per kept entry, each with a
   * non-empty text, and with strictly increasing ids among those the
   * construction consumed.
   */
  lemma GetModelObjectsRows(entries: seq<Pair>, src: Language, tgt: Language, firstId: Id)
    ensures var objs := GetModelObjects(entries, src, tgt, firstId);
      var hi := firstId + IdsConsumed(entries);
      && Shaped(objs, src, tgt)
      && IdsAscending(WordsOf(objs), firstId, hi)
      && |WordsOf(objs)| == 2 * |KeptEntries(entries)|
      && (forall w :: w in WordsOf(objs) ==> ValidateText(w.text).Success? && w.id < hi)
  {
    var objs := GetModelObjects(entries, src, tgt, firstId);
    var hi: nat := firstId + IdsConsumed(entries);
    GetModelObjectsMatch(entries, src, tgt, firstId);
    GetModelObjectsShaped(entries, src, tgt, firstId);
    GetModelObjectsAscending(entries, src, tgt, firstId);
    forall w | w in WordsOf(objs) ensures ValidateText(w.text).Success? && w.id < hi {
      WordsOfLanguages(objs, src, tgt, w);
    }
  }

  /** The words `get_model_objects` yields carry strictly increasing ids among those it consumed. */
  lemma GetModelObjectsAscending(entries: seq<Pair>, src: Language, tgt: Language, firstId: Id)
    ensures IdsAscending(WordsOf(GetModelObjects(entries, src, tgt, firstId)), firstId, firstId + IdsConsumed(entries))
  {
    GetModelObjectsShaped(entries, src, tgt, firstId);
    GetModelObjectsNumbered(entries, src, tgt, firstId);
    WordsOfAscending(GetModelObjects(entries, src, tgt, firstId), src, tgt, firstId, firstId + IdsConsumed(entries));
  }

  /**
   * The first half of `insert_entries`: runs `get_model_objects` over the
   * entries, drawing ids from the engine as it goes, and collects the words
   * (source before target) and the translations of every kept entry.
   */
  method CollectRows(session: Session, entries: seq<Pair>, src: Language, tgt: Language)
    returns (newWords: seq<Word>, newTranslations: seq<Translation>)
    requires session.Valid()
    modifies session.engine`nextId
    ensures session.Valid()
    ensures session.engine.nextId == old(session.engine.nextId) + IdsConsumed(entries)
    ensures newWords == WordsOf(GetModelObjects(entries, src, tgt, old(session.engine.nextId)))
    ensures newTranslations == TranslationsOf(GetModelObjects(entries, src, tgt, old(session.engine.nextId)))
  {
    var first := session.engine.nextId;
    newWords, newTranslations := [], [];
    var i := 0;
    while i < |entries|
      invariant 0 <= i <= |entries|
      invariant session.engine.nextId == first + IdsConsumed(entries[..i])
      invariant newWords == WordsOf(GetModelObjects(entries[..i], src, tgt, first))
      invariant newTranslations == TranslationsOf(GetModelObjects(entries[..i], src, tgt, first))
    {
      var e := entries[i];
      var sourceId := session.engine.NewObjectId();
      CollectStep(entries, i, src, tgt, first, sourceId);
      match NewWord(sourceId, e.0, src) {
        case Success(sourceWord) =>
          var targetId := session.engine.NewObjectId();
          match NewWord(targetId, e.1, tgt) {
            case Success(targetWord) =>
              newWords := newWords + [sourceWord, targetWord];
              newTranslations := newTranslations + [NewTranslation(sourceWord, targetWord)];
            case Failure(_) =>
          }
        case Failure(_) =>
      }
      i := i + 1;
    }
    assert entries[..i] == entries;
    IdsBelowRaise(session.db, first, session.engine.nextId);
    IdsBelowRaise(session.engine.committed, first, session.engine.nextId);
  }

  /**
   * `insert_entries`: collects the rows of `entries`, bulk-saves the words
   * and after them the translations, and returns how many entries were
   * stored. The save fails with an integrity error, and stores nothing,
   * exactly when there are rows and one of the two languages is not in the
   * store.
   */
  method InsertEntries(session: Session, entries: seq<Pair>, src: Language, tgt: Language) returns (r: Result<nat, Error>)
    requires session.Valid() && !session.closed
    modifies session`db, session.engine`nextId
    ensures session.Valid()
    ensures session.engine.nextId == old(session.engine.nextId) + IdsConsumed(entries)
    ensures var objs := GetModelObjects(entries, src, tgt, old(session.engine.nextId));
      && (r.Success? <==> objs == [] || (src.id in LanguageIds(old(session.db)) && tgt.id in LanguageIds(old(session.db))))
      && (r.Success? ==> r.value == |KeptEntries(entries)| && session.db == InsertedDb(old(session.db), objs))
      && (r.Failure? ==> r.error == IntegrityError && session.db == old(session.db))
    ensures src in old(session.db).languages && tgt in old(session.db).languages ==> r.Success?
  {
    var first := session.engine.nextId;
    var newWords, newTranslations := CollectRows(session, entries, src, tgt);
    RowsInsertable(session.db, entries, src, tgt, first);
    var saved := session.BulkSaveWords(newWords);
    if saved.Fail? {
      return Failure(IntegrityError);
    }
    saved := session.BulkSaveTranslations(newTranslations);
    assert saved.Pass?;
    r := Success(|newWords| / 2);
  }

  /** `get_words_in_languages`: the stored words whose language is one of `langIds`. */
  function GetWordsInLanguages(db: Db, langIds: set<Id>): (words: seq<Word>)
    ensures forall w :: w in words <==> w in db.words && w.languageId in langIds
    ensures |words| == WordCount(db, langIds)
  {
    var p := (w: Word) => w.languageId in langIds;
    assert forall w :: w in Filter(db.words, p) <==> w in db.words && p(w) by {
      forall w { FilterMember(db.words, p, w); }
    }
    Filter(db.words, p)
  }

  /** `delete_entries`' count: half the words stored in the languages with the two codes. */
  function DeletedCount(db: Db, srcCode: string, tgtCode: string): nat
  {
    |GetWordsInLanguages(db, LanguageIdsWithCodes(db, {srcCode, tgtCode}))| / 2
  }

  /**
   * `delete_entries`: deletes the languages with the two codes, and with
   * them their words and every translation touching those words, and
   * returns half the number of words that went.
   */
  method DeleteEntries(session: Session, srcCode: string, tgtCode: string) returns (numDeleted: nat)
    requires session.Valid() && !session.closed
    modifies session`db
    ensures session.Valid()
    ensures session.db == CascadeDelete(old(session.db), LanguageIdsWithCodes(old(session.db), {srcCode, tgtCode}))
    ensures numDeleted == DeletedCount(old(session.db), srcCode, tgtCode)
    ensures numDeleted == (|old(session.db).words| - |session.db.words|) / 2
    ensures forall l :: l in session.db.languages ==> l.code != srcCode && l.code != tgtCode
    ensures forall l :: l in old(session.db).languages && l.code != srcCode && l.code != tgtCode ==> l in session.db.languages
  {
    var languageIds := LanguageIdsWithCodes(session.db, {srcCode, tgtCode});
    var numWords := |GetWordsInLanguages(session.db, languageIds)|;
    CascadeDeleteWordCount(session.db, languageIds);
    CascadeDeleteRemovesCodes(session.db, {srcCode, tgtCode});
    session.DeleteLanguages(languageIds);
    numDeleted := numWords / 2;
  }

  /** The first code the validator refuses: its position and the reason. */
  function FirstInvalidCode(codes: seq<string>, isoCodes: set<string>): (r: Option<(nat, ValidationError)>)
    ensures r.None? <==> forall k :: 0 <= k < |codes| ==> ValidateCode(codes[k], isoCodes).Success?
    ensures r.Some? ==>
      && r.value.0 < |codes|
      && ValidateCode(codes[r.value.0], isoCodes) == Failure(r.value.1)
      && forall k :: 0 <= k < r.value.0 ==> ValidateCode(codes[k], isoCodes).Success?
  {
    if codes == [] then None
    else match ValidateCode(codes[0], isoCodes)
      case Failure(e) => Some((0, e))
      case Success(_) =>
        match FirstInvalidCode(codes[1..], isoCodes)
        case None => None
        case Some((k, e)) => Some((k + 1, e))
  }

  /** The language rows for `codes`, with ids drawn in order from `base`. */
  function NewLanguages(codes: seq<string>, base: nat): (languages: seq<Language>)
  {
    seq(|codes|, k requires 0 <= k < |codes| => Language(base + k, codes[k]))
  }

  /**
   * Adding the rows of `codes` with fresh ids to a store that holds none of
   * those codes keeps every constraint exactly when no code is repeated.
   */
  lemma NewLanguagesConstraints(db: Db, codes: seq<string>, base: nat)
    requires Constraints(db) && IdsBelow(db, base)
    requires forall l :: l in db.languages ==> l.code !in codes
    ensures Constraints(db.(languages := db.languages + NewLanguages(codes, base))) <==>
      forall i, j :: 0 <= i < j < |codes| ==> codes[i] != codes[j]
  {
    var ls := NewLanguages(codes, base);
    var next := db.(languages := db.languages + ls);
    assert LanguageIds(db) <= LanguageIds(next);
    if forall i, j :: 0 <= i < j < |codes| ==> codes[i] != codes[j] {
      KeysUniqueAppend(db.languages, ls, LanguageKey);
      forall x, y | x in db.languages && y in ls ensures CodeKey(x) != CodeKey(y) {
        var k :| 0 <= k < |ls| && ls[k] == y;
      }
      KeysUniqueAppend(db.languages, ls, CodeKey);
    } else {
      var i, j :| 0 <= i < j < |codes| && codes[i] == codes[j];
      var n := |db.languages|;
      assert next.languages[n + i] == ls[i] && next.languages[n + j] == ls[j];
    }
  }

  /**
   * `create_languages`: a language row per code, each with an id drawn from
   * the engine; the first code the validator refuses ends the call with its
   * error, after the ids drawn so far. The rows are then bulk-saved, which
   * fails with an integrity error, storing nothing, when a key or the unique
   * code would be repeated.
   */
  method CreateLanguages(session: Session, codes: seq<string>) returns (r: Result<seq<Language>, Error>)
    requires session.Valid() && !session.closed
    modifies session`db, session.engine`nextId
    ensures session.Valid()
    ensures FirstInvalidCode(codes, session.engine.isoCodes).Some? ==>
      var (k, e) := FirstInvalidCode(codes, session.engine.isoCodes).value;
      && r == Failure(Invalid(e))
      && session.engine.nextId == old(session.engine.nextId) + k + 1
      && session.db == old(session.db)
    ensures FirstInvalidCode(codes, session.engine.isoCodes).None? ==>
      var languages := NewLanguages(codes, old(session.engine.nextId));
      var next := old(session.db).(languages := old(session.db).languages + languages);
      && session.engine.nextId == old(session.engine.nextId) + |codes|
      && (r.Success? <==> Constraints(next))
      && (r.Success? ==> r.value == languages && session.db == next)
      && (r.Failure? ==> r == Failure(IntegrityError) && session.db == old(session.db))
  {
    var base := session.engine.nextId;
    var newLanguages: seq<Language> := [];
    var i := 0;
    while i < |codes|
      invariant 0 <= i <= |codes|
      invariant session.db == old(session.db)
      invariant session.engine.nextId == base + i
      invariant newLanguages == NewLanguages(codes[..i], base)
      invariant forall k :: 0 <= k < i ==> ValidateCode(codes[k], session.engine.isoCodes).Success?
    {
      var id := session.engine.NewObjectId();
      match ValidateCode(codes[i], session.engine.isoCodes) {
        case Failure(e) =>
          IdsBelowRaise(session.db, base, session.engine.nextId);
          IdsBelowRaise(session.engine.committed, base, session.engine.nextId);
          return Failure(Invalid(e));
        case Success(code) =>
          newLanguages := newLanguages + [Language(id, code)];
      }
      i := i + 1;
    }
    assert codes[..i] == codes;
    IdsBelowRaise(session.db, base, session.engine.nextId);
    IdsBelowRaise(session.engine.committed, base, session.engine.nextId);
    var saved := session.BulkSaveLanguages(newLanguages);
    if saved.Fail? {
      return Failure(IntegrityError);
    }
    r := Success(newLanguages);
  }

  /**
   * `more_itertools.chunked`: the entries cut into consecutive chunks of
   * `n`, the last one possibly shorter. A size of 0 yields no chunk at all:
   * `take(0, …)` returns the empty list that ends the iteration.
   */
  function Chunked<T>(s: seq<T>, n: nat): (chunks: seq<seq<T>>)
    ensures Flatten(chunks) == if n == 0 then [] else s
    ensures forall k :: 0 <= k < |chunks| ==> 1 <= |chunks[k]| <= n
    ensures forall k :: 0 <= k < |chunks| - 1 ==> |chunks[k]| == n
    decreases |s|
  {
    if n == 0 || s == [] then []
    else if |s| <= n then
      assert Flatten([s]) == s + Flatten([s][1..]);
      [s]
    else
      var rest := Chunked(s[n..], n);
      assert ([s[..n]] + rest)[1..] == rest;
      assert s[..n] + s[n..] == s;
      [s[..n]] + rest
  }

  /**
   * The entries the loop over `chunked(entries, chunk_size)` reaches: all of
   * them for a positive chunk size, none for 0.
   */
  function ChunkedEntries(entries: seq<Pair>, chunkSize: int): seq<Pair>
  {
    if chunkSize > 0 then entries else []
  }

  /**
   * Inserting a further chunk after the entries done so far: its ids
   * continue where they stopped, and the store, the kept count and the ids
   * consumed are those of the entries taken together.
   */
  lemma ChunkStep(done: seq<Pair>, chunk: seq<Pair>, src: Language, tgt: Language, base: Id)
    ensures IdsConsumed(done + chunk) == IdsConsumed(done) + IdsConsumed(chunk)
    ensures |KeptEntries(done + chunk)| == |KeptEntries(done)| + |KeptEntries(chunk)|
    ensures GetModelObjects(done + chunk, src, tgt, base) ==
      GetModelObjects(done, src, tgt, base) + GetModelObjects(chunk, src, tgt, base + IdsConsumed(done))
  {
    GetModelObjectsAppend(done, chunk, src, tgt, base);
    FilterAppend(done, chunk, BothNonEmpty);
  }

  /** A stored language's id is among the stored language ids. */
  lemma LanguageIdsMember(db: Db, l: Language)
    requires l in db.languages
    ensures l.id in LanguageIds(db)
  {
  }

  /**
   * One more chunk: the entries done so far grow by the chunk, and
   * inserting the chunk's rows, with ids continuing where the entries done
   * stopped, gives the store of the grown entries.
   */
  lemma ChunkAdvance(db0: Db, db: Db, chunks: seq<seq<Pair>>, i: nat, src: Language, tgt: Language, base: Id, id: Id)
    requires i < |chunks|
    requires id == base + IdsConsumed(Flatten(chunks[..i]))
    requires db == InsertedDb(db0, GetModelObjects(Flatten(chunks[..i]), src, tgt, base))
    ensures var next := Flatten(chunks[..i + 1]);
      && id + IdsConsumed(chunks[i]) == base + IdsConsumed(next)
      && |KeptEntries(next)| == |KeptEntries(Flatten(chunks[..i]))| + |KeptEntries(chunks[i])|
      && InsertedDb(db, GetModelObjects(chunks[i], src, tgt, id)) == InsertedDb(db0, GetModelObjects(next, src, tgt, base))
  {
    var done := Flatten(chunks[..i]);
    FlattenPrefix(chunks, i);
    ChunkStep(done, chunks[i], src, tgt, base);
    InsertedDbAppend(db0, GetModelObjects(done, src, tgt, base), GetModelObjects(chunks[i], src, tgt, id));
  }

  /**
   * The loop of `import_entries` over `chunked(entries, chunk_size)`: each
   * chunk goes through `insert_entries`, and the counts add up. Chunking
   * changes nothing: the store ends as if all the entries the chunks hold
   * were inserted at once, which is every entry for a positive chunk size
   * and none for 0.
   */
  method InsertChunks(session: Session, entries: seq<Pair>, chunkSize: nat, src: Language, tgt: Language) returns (numAdded: nat)
    requires session.Valid() && !session.closed
    requires src in session.db.languages && tgt in session.db.languages
    modifies session`db, session.engine`nextId
    ensures session.Valid()
    ensures var inserted := ChunkedEntries(entries, chunkSize);
      && session.engine.nextId == old(session.engine.nextId) + IdsConsumed(inserted)
      && numAdded == |KeptEntries(inserted)|
      && session.db == InsertedDb(old(session.db), GetModelObjects(inserted, src, tgt, old(session.engine.nextId)))
  {
    var base := session.engine.nextId;
    ghost var db0 := session.db;
    var chunks := Chunked(entries, chunkSize);
    numAdded := 0;
    var i := 0;
    while i < |chunks|
      invariant 0 <= i <= |chunks|
      invariant session.Valid()
      invariant !session.closed
      invariant src in session.db.languages && tgt in session.db.languages
      invariant session.engine.nextId == base + IdsConsumed(Flatten(chunks[..i]))
      invariant numAdded == |KeptEntries(Flatten(chunks[..i]))|
      invariant session.db == InsertedDb(db0, GetModelObjects(Flatten(chunks[..i]), src, tgt, base))
    {
      ghost var before := session.db;
      ghost var id := session.engine.nextId;
      ChunkAdvance(db0, before, chunks, i, src, tgt, base, id);
      var added := InsertEntries(session, chunks[i], src, tgt);
      assert added.Success?;
      assert session.db == InsertedDb(before, GetModelObjects(chunks[i], src, tgt, id));
      assert session.db.languages == before.languages;
      numAdded := numAdded + added.value;
      i := i + 1;
    }
    assert chunks[..i] == chunks;
    assert Flatten(chunks) == ChunkedEntries(entries, chunkSize);
  }

  /**
   * How the replacement of the two languages ends: the source code, then
   * the target code, must pass the validator, and the two new languages
   * must not share their code.
   */
  function LanguagesCheck(isoCodes: set<string>, srcCode: string, tgtCode: string): Outcome<Error>
  {
    if ValidateCode(srcCode, isoCodes).Failure? then Fail(Invalid(ValidateCode(srcCode, isoCodes).error))
    else if ValidateCode(tgtCode, isoCodes).Failure? then Fail(Invalid(ValidateCode(tgtCode, isoCodes).error))
    else if srcCode == tgtCode then Fail(IntegrityError)
    else Pass
  }

  /**
   * How the body of `import_entries`' managed session ends: the languages
   * must be replaced, the chunk size must not be negative (`chunked` raises
   * on the loop's first step), and at least `min_entries` entries must have
   * been added when that minimum is given and not zero.
   */
  function ImportCheck(isoCodes: set<string>, entries: seq<Pair>, srcCode: string, tgtCode: string,
                       chunkSize: int, minEntries: Option<int>): Outcome<Error>
  {
    match LanguagesCheck(isoCodes, srcCode, tgtCode)
    case Fail(e) => Fail(e)
    case Pass =>
      var added := |KeptEntries(ChunkedEntries(entries, chunkSize))|;
      if chunkSize < 0 then Fail(NegativeChunkSize(chunkSize))
      else if minEntries.Some? && minEntries.value != 0 && added < minEntries.value then
        Fail(NotEnoughEntries(minEntries.value, added))
      else Pass
  }

  /**
   * What `import_entries` returns: the body's error, a refused commit, or
   * the numbers of entries added and deleted.
   */
  function ImportOutcome(db: Db, isoCodes: set<string>, entries: seq<Pair>, srcCode: string, tgtCode: string,
                         chunkSize: int, minEntries: Option<int>, commitAccepted: bool): Result<(nat, nat), Error>
  {
    match ImportCheck(isoCodes, entries, srcCode, tgtCode, chunkSize, minEntries)
    case Fail(e) => Failure(e)
    case Pass =>
      if commitAccepted then
        Success((|KeptEntries(ChunkedEntries(entries, chunkSize))|, DeletedCount(db, srcCode, tgtCode)))
      else Failure(CommitFailed)
  }

  /**
   * The store once the two languages are replaced: the languages with the
   * two codes and everything hanging off them are gone, and the two
   * languages are back with the ids `base` and `base + 1`.
   */
  function PreparedDb(db: Db, srcCode: string, tgtCode: string, base: nat): Db
  {
    var cleared := CascadeDelete(db, LanguageIdsWithCodes(db, {srcCode, tgtCode}));
    cleared.(languages := cleared.languages + [Language(base, srcCode), Language(base + 1, tgtCode)])
  }

  /**
   * The store a successful import leaves: the two languages replaced, and
   * the rows of the entries added with ids from `base + 2` on.
   */
  function ImportedDb(db: Db, entries: seq<Pair>, srcCode: string, tgtCode: string, base: nat): Db
  {
    InsertedDb(PreparedDb(db, srcCode, tgtCode, base),
               GetModelObjects(entries, Language(base, srcCode), Language(base + 1, tgtCode), base + 2))
  }

  /** The rows for a source and a target code, with consecutive ids. */
  lemma NewLanguagesPair(srcCode: string, tgtCode: string, base: nat)
    ensures NewLanguages([srcCode, tgtCode], base) == [Language(base, srcCode), Language(base + 1, tgtCode)]
  {
  }

  /** The first refused code of a source and a target code. */
  lemma FirstInvalidPair(srcCode: string, tgtCode: string, isoCodes: set<string>)
    ensures FirstInvalidCode([srcCode, tgtCode], isoCodes) ==
      if ValidateCode(srcCode, isoCodes).Failure? then Some((0, ValidateCode(srcCode, isoCodes).error))
      else if ValidateCode(tgtCode, isoCodes).Failure? then Some((1, ValidateCode(tgtCode, isoCodes).error))
      else None
  {
    assert [srcCode, tgtCode][1..] == [tgtCode];
  }

  /**
   * `create_languages` for a source and a target code on a store that holds
   * neither code ends as the language check says: with the first refused
   * code's error, with an integrity error when the codes are equal, and
   * otherwise with the two new rows stored.
   */
  lemma CreatedPair(cleared: Db, isoCodes: set<string>, srcCode: string, tgtCode: string, base: nat)
    requires Constraints(cleared) && IdsBelow(cleared, base)
    requires forall l :: l in cleared.languages ==> l.code != srcCode && l.code != tgtCode
    ensures NewLanguages([srcCode, tgtCode], base) == [Language(base, srcCode), Language(base + 1, tgtCode)]
    ensures FirstInvalidCode([srcCode, tgtCode], isoCodes).Some? ==>
      LanguagesCheck(isoCodes, srcCode, tgtCode) == Fail(Invalid(FirstInvalidCode([srcCode, tgtCode], isoCodes).value.1))
    ensures FirstInvalidCode([srcCode, tgtCode], isoCodes).None? ==>
      var next := cleared.(languages := cleared.languages + NewLanguages([srcCode, tgtCode], base));
      (Constraints(next) <==> LanguagesCheck(isoCodes, srcCode, tgtCode).Pass?) &&
      (!Constraints(next) ==> LanguagesCheck(isoCodes, srcCode, tgtCode) == Fail(IntegrityError))
  {
    FirstInvalidPair(srcCode, tgtCode, isoCodes);
    NewLanguagesPair(srcCode, tgtCode, base);
    if FirstInvalidCode([srcCode, tgtCode], isoCodes).None? {
      NewLanguagesConstraints(cleared, [srcCode, tgtCode], base);
    }
  }

  /**
   * The first part of `import_entries`' body: `delete_entries`, then
   * `create_languages` for the two codes. On success the two new languages
   * are returned and the store is the prepared one.
   */
  method ReplaceLanguages(session: Session, srcCode: string, tgtCode: string)
    returns (r: Result<(Language, Language), Error>, numDeleted: nat)
    requires session.Valid() && !session.closed
    modifies session`db, session.engine`nextId
    ensures session.Valid()
    ensures numDeleted == DeletedCount(old(session.db), srcCode, tgtCode)
    ensures r.Failure? <==> LanguagesCheck(session.engine.isoCodes, srcCode, tgtCode).Fail?
    ensures r.Failure? ==> Fail(r.error) == LanguagesCheck(session.engine.isoCodes, srcCode, tgtCode)
    ensures r.Success? ==>
      && r.value == (Language(old(session.engine.nextId), srcCode), Language(old(session.engine.nextId) + 1, tgtCode))
      && session.engine.nextId == old(session.engine.nextId) + 2
      && session.db == PreparedDb(old(session.db), srcCode, tgtCode, old(session.engine.nextId))
  {
    var base := session.engine.nextId;
    numDeleted := DeleteEntries(session, srcCode, tgtCode);
    CreatedPair(session.db, session.engine.isoCodes, srcCode, tgtCode, base);
    var created := CreateLanguages(session, [srcCode, tgtCode]);
    if created.Failure? {
      return Failure(created.error), numDeleted;
    }
    r := Success((created.value[0], created.value[1]));
  }

  /**
   * The second part of `import_entries`' body: the chunked insertion into
   * the two new languages, then the check of the minimum number of entries.
   */
  method InsertAndCount(session: Session, entries: seq<Pair>, src: Language, tgt: Language, chunkSize: nat,
                        minEntries: Option<int>) returns (body: Outcome<Error>, numAdded: nat)
    requires session.Valid() && !session.closed
    requires src in session.db.languages && tgt in session.db.languages
    modifies session`db, session.engine`nextId
    ensures session.Valid()
    ensures numAdded == |KeptEntries(ChunkedEntries(entries, chunkSize))|
    ensures body.Pass? <==> !(minEntries.Some? && minEntries.value != 0 && numAdded < minEntries.value)
    ensures body.Fail? ==> body.error == NotEnoughEntries(minEntries.value, numAdded)
    ensures session.db ==
      InsertedDb(old(session.db), GetModelObjects(ChunkedEntries(entries, chunkSize), src, tgt, old(session.engine.nextId)))
  {
    numAdded := InsertChunks(session, entries, chunkSize, src, tgt);
    if minEntries.Some? && minEntries.value != 0 && numAdded < minEntries.value {
      return Fail(NotEnoughEntries(minEntries.value, numAdded)), numAdded;
    }
    body := Pass;
  }

  /**
   * The body of `import_entries`' managed session: replace the two
   * languages, insert the entries chunk by chunk, and enforce the minimum.
   * A negative chunk size raises when the loop asks `chunked` for its first
   * chunk, after the languages were replaced.
   */
  method ImportBody(session: Session, entries: seq<Pair>, srcCode: string, tgtCode: string, chunkSize: int,
                    minEntries: Option<int>) returns (body: Outcome<Error>, numAdded: nat, numDeleted: nat)
    requires session.Valid() && !session.closed
    modifies session`db, session.engine`nextId
    ensures session.Valid()
    ensures body == ImportCheck(session.engine.isoCodes, entries, srcCode, tgtCode, chunkSize, minEntries)
    ensures body.Pass? ==>
      && numAdded == |KeptEntries(ChunkedEntries(entries, chunkSize))|
      && numDeleted == DeletedCount(old(session.db), srcCode, tgtCode)
      && session.db ==
        ImportedDb(old(session.db), ChunkedEntries(entries, chunkSize), srcCode, tgtCode, old(session.engine.nextId))
  {
    var languages;
    languages, numDeleted := ReplaceLanguages(session, srcCode, tgtCode);
    if languages.Failure? {
      return Fail(languages.error), 0, numDeleted;
    }
    if chunkSize < 0 {
      return Fail(NegativeChunkSize(chunkSize)), 0, numDeleted;
    }
    var (src, tgt) := languages.value;
    body, numAdded := InsertAndCount(session, entries, src, tgt, chunkSize, minEntries);
  }

  /**
   * `import_entries`: runs the body in a managed session on a fresh session
   * of `engine`; the engine keeps the new store only when the body ended
   * normally and the commit was accepted.
   */
  method ImportEntries(engine: Engine, entries: seq<Pair>, srcCode: string, tgtCode: string, chunkSize: int,
                       minEntries: Option<int>, commitAccepted: bool) returns (r: Result<(nat, nat), Error>)
    requires engine.Valid()
    modifies engine
    ensures engine.Valid()
    ensures r == ImportOutcome(old(engine.committed), engine.isoCodes, entries, srcCode, tgtCode, chunkSize, minEntries,
                               commitAccepted)
    ensures engine.committed ==
      if r.Success? then
        ImportedDb(old(engine.committed), ChunkedEntries(entries, chunkSize), srcCode, tgtCode, old(engine.nextId))
      else old(engine.committed)
  {
    var session := new Session(engine);
    var body, numAdded, numDeleted := ImportBody(session, entries, srcCode, tgtCode, chunkSize, minEntries);
    var exit := session.ExitManaged(body, commitAccepted);
    if exit.Pass? {
      r := Success((numAdded, numDeleted));
    } else {
      r := Failure(exit.error);
    }
  }

  /**
   * Importing the same language pair again reports as deleted exactly the
   * entries this import added: the words in the two languages are then the
   * two words of every kept entry.
   */
  lemma ReimportDeletesImported(db: Db, entries: seq<Pair>, srcCode: string, tgtCode: string, base: nat)
    requires Constraints(db) && IdsBelow(db, base)
    ensures DeletedCount(ImportedDb(db, entries, srcCode, tgtCode, base), srcCode, tgtCode) == |KeptEntries(entries)|
  {
    var r := ImportedDb(db, entries, srcCode, tgtCode, base);
    ImportedLanguageIds(db, entries, srcCode, tgtCode, base);
    ImportedWordsInPair(db, entries, srcCode, tgtCode, base);
    GetModelObjectsMatch(entries, Language(base, srcCode), Language(base + 1, tgtCode), base + 2);
  }

  /** After an import, the languages with the two codes are exactly the two new ones. */
  lemma ImportedLanguageIds(db: Db, entries: seq<Pair>, srcCode: string, tgtCode: string, base: nat)
    ensures LanguageIdsWithCodes(ImportedDb(db, entries, srcCode, tgtCode, base), {srcCode, tgtCode}) == {base, base + 1}
  {
    var codes := {srcCode, tgtCode};
    var r := ImportedDb(db, entries, srcCode, tgtCode, base);
    CascadeDeleteRemovesCodes(db, codes);
    assert Language(base, srcCode) in r.languages && Language(base + 1, tgtCode) in r.languages;
  }

  /**
   * After an import, the words in the two new languages are the two words
   * of every entry the import kept; no older word is in them.
   */
  lemma ImportedWordsInPair(db: Db, entries: seq<Pair>, srcCode: string, tgtCode: string, base: nat)
    requires Constraints(db) && IdsBelow(db, base)
    ensures WordCount(ImportedDb(db, entries, srcCode, tgtCode, base), {base, base + 1}) ==
      |WordsOf(GetModelObjects(entries, Language(base, srcCode), Language(base + 1, tgtCode), base + 2))|
  {
    var cleared := CascadeDelete(db, LanguageIdsWithCodes(db, {srcCode, tgtCode}));
    var src, tgt := Language(base, srcCode), Language(base + 1, tgtCode);
    var objs := GetModelObjects(entries, src, tgt, base + 2);
    var ids := {base, base + 1};
    forall w | w in cleared.words ensures w.languageId !in ids {
      var l :| l in db.languages && l.id == w.languageId;
    }
    GetModelObjectsShaped(entries, src, tgt, base + 2);
    forall w | w in WordsOf(objs) ensures w.languageId in ids {
      WordsOfLanguages(objs, src, tgt, w);
    }
    WordCountAppended(cleared.words, WordsOf(objs), ids);
  }

  /** Words appended in the counted languages after words outside them: only the appended ones count. */
  lemma WordCountAppended(before: seq<Word>, added: seq<Word>, ids: set<Id>)
    requires forall w :: w in before ==> w.languageId !in ids
    requires forall w :: w in added ==> w.languageId in ids
    ensures |Filter(before + added, (w: Word) => w.languageId in ids)| == |added|
  {
    var p := (w: Word) => w.languageId in ids;
    FilterNone(before, p);
    FilterKeepsAll(added, p);
    FilterAppend(before, added, p);
  }

  /**
   * An import touches nothing outside the two languages: every other
   * language, every word of another language and every translation between
   * such words is still there afterwards.
   */
  lemma ImportedDbKeepsOthers(db: Db, entries: seq<Pair>, srcCode: string, tgtCode: string, base: nat)
    requires Constraints(db)
    ensures var r := ImportedDb(db, entries, srcCode, tgtCode, base);
      var ids := LanguageIdsWithCodes(db, {srcCode, tgtCode});
      && (forall l :: l in db.languages && l.code != srcCode && l.code != tgtCode ==> l in r.languages)
      && (forall w :: w in db.words && w.languageId !in ids ==> w in r.words)
      && (forall t :: t in db.translations && t.word1Id !in WordIdsIn(db, ids) && t.word2Id !in WordIdsIn(db, ids) ==>
            t in r.translations)
  {
    var codes := {srcCode, tgtCode};
    var ids := LanguageIdsWithCodes(db, codes);
    var cleared := CascadeDelete(db, ids);
    forall l | l in db.languages && l.code !in codes ensures l in cleared.languages {
      assert l.id !in ids;
    }
  }

  /** The entries of the importer's test fixture: four good entries and one with an empty target word. */
  const TestEntries: seq<Pair> := [
    ("Wörterbuch", "dictionary"),
    ("Etage {f}; Stock {m}; Stockwerk {n}", "floor /fl./"),
    ("Chiasma {n} [biol.]", "chiasma; chiasm"),
    ("Chiasmata {pl}", "chiasmata"),
    ("stumm", "")]

  /** The entry with the empty target word is the only one dropped. */
  lemma TestEntriesKept()
    ensures KeptEntries(TestEntries) == TestEntries[..4]
  {
    var e := TestEntries;
    assert e == e[..4] + [e[4]];
    FilterKeepsAll(e[..4], BothNonEmpty);
    FilterAppend(e[..4], [e[4]], BothNonEmpty);
    assert Filter([e[4]], BothNonEmpty) == [];
  }

  /** Importing the fixture entries as German to English, in the default chunks of 1, adds four entries. */
  lemma TestImportAddsFour(db: Db, isoCodes: set<string>)
    requires "deu" in isoCodes && "eng" in isoCodes
    ensures ImportOutcome(db, isoCodes, TestEntries, "deu", "eng", 1, None, true) ==
      Success((4, DeletedCount(db, "deu", "eng")))
  {
    TestEntriesKept();
  }

  /**
   * A chunk size of 0 inserts nothing, yet the import goes on: the two
   * languages are replaced, no entry is reported added, the commit goes
   * through unless a minimum is demanded, and the pair is left without any
   * word.
   */
  lemma ZeroChunkSizeClearsPair(db: Db, isoCodes: set<string>, entries: seq<Pair>, srcCode: string, tgtCode: string,
                                base: nat)
    requires Constraints(db) && IdsBelow(db, base)
    requires LanguagesCheck(isoCodes, srcCode, tgtCode).Pass?
    ensures ImportOutcome(db, isoCodes, entries, srcCode, tgtCode, 0, None, true) ==
      Success((0, DeletedCount(db, srcCode, tgtCode)))
    ensures ImportedDb(db, ChunkedEntries(entries, 0), srcCode, tgtCode, base) == PreparedDb(db, srcCode, tgtCode, base)
    ensures DeletedCount(ImportedDb(db, ChunkedEntries(entries, 0), srcCode, tgtCode, base), srcCode, tgtCode) == 0
  {
    assert ChunkedEntries(entries, 0) == [];
    assert |KeptEntries([])| == 0;
    ImportedNothing(db, srcCode, tgtCode, base);
    ReimportDeletesImported(db, [], srcCode, tgtCode, base);
  }

  /** Importing no entries leaves the prepared store. */
  lemma ImportedNothing(db: Db, srcCode: string, tgtCode: string, base: nat)
    ensures ImportedDb(db, [], srcCode, tgtCode, base) == PreparedDb(db, srcCode, tgtCode, base)
  {
    var prepared := PreparedDb(db, srcCode, tgtCode, base);
    var objs := GetModelObjects([], Language(base, srcCode), Language(base + 1, tgtCode), base + 2);
    assert objs == [];
    assert WordsOf(objs) == [] && TranslationsOf(objs) == [];
    assert prepared.words + [] == prepared.words;
    assert prepared.translations + [] == prepared.translations;
  }

  /**
   * A negative chunk size fails the import once the languages pass the
   * check, whatever the entries and the minimum.
   */
  lemma NegativeChunkSizeFails(db: Db, isoCodes: set<string>, entries: seq<Pair>, srcCode: string, tgtCode: string,
                               chunkSize: int, minEntries: Option<int>, commitAccepted: bool)
    requires chunkSize < 0 && LanguagesCheck(isoCodes, srcCode, tgtCode).Pass?
    ensures ImportOutcome(db, isoCodes, entries, srcCode, tgtCode, chunkSize, minEntries, commitAccepted) ==
      Failure(NegativeChunkSize(chunkSize))
  {
  }

  /** Python's `sys.maxsize` on a 64-bit platform. */
  const MaxSize: int := 0x7FFF_FFFF_FFFF_FFFF

  /**
   * Importing no entries with `min_entries=sys.maxsize` fails with "not
   * enough entries" (and the engine keeps its rows, as `ImportEntries`
   * states for every failure).
   */
  lemma EmptyImportTooFew(db: Db, isoCodes: set<string>, commitAccepted: bool)
    requires "deu" in isoCodes && "eng" in isoCodes
    ensures ImportOutcome(db, isoCodes, [], "deu", "eng", 1, Some(MaxSize), commitAccepted) ==
      Failure(NotEnoughEntries(MaxSize, 0))
  {
  }

  /**
   * Every pair the parser loads passes both text validators, so the
   * importer keeps all of them: nothing loaded from a file is dropped.
   */
  lemma LoadedEntriesAllKept(lines: seq<string>)
    ensures KeptEntries(LoadEntries(lines)) == LoadEntries(lines)
  {
    var entries := LoadEntries(lines);
    forall e | e in entries ensures BothNonEmpty(e) {
      var i :| 0 <= i < |entries| && entries[i] == e;
    }
    FilterKeepsAll(entries, BothNonEmpty);
  }
}
