/**
 * The dictionary's database model: the three tables with their validators,
 * key and cascade rules, the engine that holds the committed rows, and the
 * session whose transaction `managed_session` drives through commit,
 * rollback and close.
 */
module Models {
  import opened Wrappers
  import opened Seqs

  /**
   * An object id. The source draws a random uuid4 for every new row; here an
   * id is a number handed out by the engine's counter, so a new id is
   * distinct from every id already stored.
   */
  type Id = nat

  /** A row of the `language` table; `code` is an ISO-639-3 code. */
  datatype Language = Language(id: Id, code: string)

  /** A row of the `word` table. */
  datatype Word = Word(id: Id, text: string, languageId: Id)

  /** A row of the `word_translates_to_word` table: `word1Id` translates to `word2Id`. */
  datatype Translation = Translation(word1Id: Id, word2Id: Id)

  /** Why a validator refused a value (the source raises `ValueError`). */
  datatype ValidationError =
    | WrongCodeLength   // "must be exactly 3 characters"
    | UnknownIsoCode    // "invalid ISO-639-3 code"
    | EmptyText         // "must be at least 1 character"

  /**
   * The errors that can leave the body of a managed session: a refused
   * value, a violated constraint, too few imported entries (`EOFError`), a
   * negative chunk size (the `ValueError` of `islice` inside `chunked`) and
   * a commit the database did not accept.
   */
  datatype Error =
    | Invalid(reason: ValidationError)
    | IntegrityError
    | NotEnoughEntries(expected: int, got: nat)
    | NegativeChunkSize(size: int)
    | CommitFailed

  /** The length every language code must have. */
  const CodeLength: nat := 3

  /**
   * `Language.validate_code`: a code is kept unchanged when it has three
   * characters and the ISO-639-3 table knows it. The length is checked first.
   */
  function ValidateCode(code: string, isoCodes: set<string>): (r: Result<string, ValidationError>)
    ensures r.Success? <==> |code| == CodeLength && code in isoCodes
    ensures r.Success? ==> r.value == code
    ensures |code| != CodeLength ==> r == Failure(WrongCodeLength)
    ensures |code| == CodeLength && code !in isoCodes ==> r == Failure(UnknownIsoCode)
  {
    if |code| != CodeLength then Failure(WrongCodeLength)
    else if code !in isoCodes then Failure(UnknownIsoCode)
    else Success(code)
  }

  /** `Word.validate_text`: a text is kept unchanged when it has at least one character. */
  function ValidateText(text: string): (r: Result<string, ValidationError>)
    ensures r.Success? <==> |text| >= 1
    ensures r.Success? ==> r.value == text
    ensures r.Failure? ==> r.error == EmptyText
  {
    if |text| < 1 then Failure(EmptyText) else Success(text)
  }

  /** The key of each table, as a function for the uniqueness predicate. */
  function LanguageKey(l: Language): Id { l.id }
  function CodeKey(l: Language): string { l.code }
  function WordKey(w: Word): Id { w.id }
  function TranslationKey(t: Translation): (Id, Id) { (t.word1Id, t.word2Id) }

  /** The rows of the three tables. */
  datatype Db = Db(languages: seq<Language>, words: seq<Word>, translations: seq<Translation>)

  /** The tables as `create_all` leaves them: empty. */
  const EmptyDb: Db := Db([], [], [])

  /** The ids of the stored languages. */
  function LanguageIds(db: Db): set<Id>
  {
    set l | l in db.languages :: l.id
  }

  /** The ids of the stored words. */
  function WordIds(db: Db): set<Id>
  {
    set w | w in db.words :: w.id
  }

  /**
   * What the database itself enforces: the primary keys of the three
   * tables, the unique language code, and the foreign keys from a word to
   * its language and from a translation to both of its words.
   */
  predicate Constraints(db: Db)
  {
    && KeysUnique(db.languages, LanguageKey)
    && KeysUnique(db.languages, CodeKey)
    && KeysUnique(db.words, WordKey)
    && KeysUnique(db.translations, TranslationKey)
    && (forall w :: w in db.words ==> w.languageId in LanguageIds(db))
    && (forall t :: t in db.translations ==> t.word1Id in WordIds(db) && t.word2Id in WordIds(db))
  }

  /** What the validators guarantee of every stored row. */
  predicate Validated(db: Db, isoCodes: set<string>)
  {
    && (forall l :: l in db.languages ==> ValidateCode(l.code, isoCodes).Success?)
    && (forall w :: w in db.words ==> ValidateText(w.text).Success?)
  }

  /** A store the application can reach: constrained and validated. */
  predicate ValidDb(db: Db, isoCodes: set<string>)
  {
    Constraints(db) && Validated(db, isoCodes)
  }

  /** Every stored id is below `n`: `n` and above are fresh. */
  predicate IdsBelow(db: Db, n: nat)
  {
    && (forall l :: l in db.languages ==> l.id < n)
    && (forall w :: w in db.words ==> w.id < n)
  }

  /** A bound on the stored ids stays a bound when it is raised. */
  lemma IdsBelowRaise(db: Db, n: nat, m: nat)
    requires IdsBelow(db, n) && n <= m
    ensures IdsBelow(db, m)
  {
  }

  /** The ids of the languages whose code is one of `codes`. */
  function LanguageIdsWithCodes(db: Db, codes: set<string>): set<Id>
  {
    set l | l in db.languages && l.code in codes :: l.id
  }

  /** The ids of the words whose language is one of `langIds`. */
  function WordIdsIn(db: Db, langIds: set<Id>): set<Id>
  {
    set w | w in db.words && w.languageId in langIds :: w.id
  }

  /** The number of words whose language is one of `langIds`. */
  function WordCount(db: Db, langIds: set<Id>): nat
  {
    |Filter(db.words, (w: Word) => w.languageId in langIds)|
  }

  /**
   * Deleting the languages `langIds` with the schema's `ON DELETE CASCADE`
   * rules: their words go with them, and so does every translation that
   * references one of those words on either side.
   */
  function CascadeDelete(db: Db, langIds: set<Id>): (r: Db)
    ensures forall l :: l in r.languages <==> l in db.languages && l.id !in langIds
    ensures forall w :: w in r.words <==> w in db.words && w.languageId !in langIds
    ensures forall t :: t in r.translations <==>
      t in db.translations && t.word1Id !in WordIdsIn(db, langIds) && t.word2Id !in WordIdsIn(db, langIds)
  {
    var gone := WordIdsIn(db, langIds);
    var p := (l: Language) => l.id !in langIds;
    var q := (w: Word) => w.languageId !in langIds;
    var u := (t: Translation) => t.word1Id !in gone && t.word2Id !in gone;
    assert forall l :: l in Filter(db.languages, p) <==> l in db.languages && p(l) by {
      forall l { FilterMember(db.languages, p, l); }
    }
    assert forall w :: w in Filter(db.words, q) <==> w in db.words && q(w) by {
      forall w { FilterMember(db.words, q, w); }
    }
    assert forall t :: t in Filter(db.translations, u) <==> t in db.translations && u(t) by {
      forall t { FilterMember(db.translations, u, t); }
    }
    Db(Filter(db.languages, p), Filter(db.words, q), Filter(db.translations, u))
  }

  /** The cascade keeps the store valid and keeps every id it leaves below the same bound. */
  lemma CascadeDeleteValid(db: Db, langIds: set<Id>, isoCodes: set<string>, n: nat)
    requires ValidDb(db, isoCodes) && IdsBelow(db, n)
    ensures ValidDb(CascadeDelete(db, langIds), isoCodes) && IdsBelow(CascadeDelete(db, langIds), n)
  {
    var r := CascadeDelete(db, langIds);
    var gone := WordIdsIn(db, langIds);
    FilterKeysUnique(db.languages, (l: Language) => l.id !in langIds, LanguageKey);
    FilterKeysUnique(db.languages, (l: Language) => l.id !in langIds, CodeKey);
    FilterKeysUnique(db.words, (w: Word) => w.languageId !in langIds, WordKey);
    FilterKeysUnique(db.translations, (t: Translation) => t.word1Id !in gone && t.word2Id !in gone, TranslationKey);
    forall w | w in r.words
      ensures w.languageId in LanguageIds(r)
    {
      var l :| l in db.languages && l.id == w.languageId;
      assert l in r.languages;
    }
    forall t | t in r.translations
      ensures t.word1Id in WordIds(r) && t.word2Id in WordIds(r)
    {
      var w1 :| w1 in db.words && w1.id == t.word1Id;
      var w2 :| w2 in db.words && w2.id == t.word2Id;
      assert w1.languageId !in langIds && w2.languageId !in langIds;
      assert w1 in r.words && w2 in r.words;
    }
  }

  /** Exactly the words of the deleted languages are removed: the store loses `WordCount` words. */
  lemma {:induction false} CascadeDeleteWordCount(db: Db, langIds: set<Id>)
    ensures |db.words| - |CascadeDelete(db, langIds).words| == WordCount(db, langIds)
  {
    FilterComplementLength(db.words, (w: Word) => w.languageId in langIds, (w: Word) => w.languageId !in langIds);
  }

  /** After deleting the languages with the given codes, no language with those codes is left. */
  lemma CascadeDeleteRemovesCodes(db: Db, codes: set<string>)
    ensures forall l :: l in CascadeDelete(db, LanguageIdsWithCodes(db, codes)).languages ==> l.code !in codes
    ensures forall w :: w in CascadeDelete(db, LanguageIdsWithCodes(db, codes)).words ==>
      w.languageId !in LanguageIdsWithCodes(db, codes)
  {
    var ids := LanguageIdsWithCodes(db, codes);
    forall l | l in CascadeDelete(db, ids).languages
      ensures l.code !in codes
    {
      assert l in db.languages && l.id !in ids;
    }
  }

  /**
   * The engine: the rows its transactions have committed, the ISO-639-3
   * table its validator consults, and the counter that stands for uuid4.
   */
  class Engine {
    var committed: Db
    var nextId: nat
    const isoCodes: set<string>

    ghost predicate Valid()
      reads this
    {
      ValidDb(committed, isoCodes) && IdsBelow(committed, nextId)
    }

    /** `setup_database`: the tables exist and hold nothing. */
    constructor (isoCodes: set<string>)
      ensures Valid()
      ensures committed == EmptyDb && this.isoCodes == isoCodes
    {
      committed := EmptyDb;
      nextId := 0;
      this.isoCodes := isoCodes;
    }

    /**
     * `new_object_id`: the next id of the counter. Every id the counter
     * has not yet reached is fresh, since the committed rows use ids below it.
     */
    method NewObjectId() returns (id: Id)
      modifies this`nextId
      ensures id == old(nextId) && nextId == id + 1
    {
      id := nextId;
      nextId := nextId + 1;
    }
  }

  /** The calls a session receives from `managed_session`, in order. */
  datatype SessionCall = CommitCall | RollbackCall | CloseCall

  /**
   * A session: the store as its open transaction sees it, and the record of
   * the commit, rollback and close calls it has received.
   */
  class Session {
    const engine: Engine
    var db: Db
    var calls: seq<SessionCall>
    var closed: bool

    ghost predicate Valid()
      reads this, engine
    {
      engine.Valid() && ValidDb(db, engine.isoCodes) && IdsBelow(db, engine.nextId)
    }

    /** `prepare_session`: a new transaction sees what the engine has committed. */
    constructor (engine: Engine)
      requires engine.Valid()
      ensures Valid()
      ensures this.engine == engine && db == engine.committed && calls == [] && !closed
    {
      this.engine := engine;
      db := engine.committed;
      calls := [];
      closed := false;
    }


    /** `session.commit()`: the engine keeps the transaction's rows, unless it refuses the commit. */
    method Commit(accepted: bool) returns (ok: bool)
      requires Valid()
      modifies engine`committed, this`calls
      ensures Valid()
      ensures ok == accepted
      ensures engine.committed == if accepted then db else old(engine.committed)
      ensures calls == old(calls) + [CommitCall]
    {
      if accepted {
        engine.committed := db;
      }
      ok := accepted;
      calls := calls + [CommitCall];
    }

    /** `session.rollback()`: the transaction's changes are dropped. */
    method Rollback()
      requires Valid()
      modifies this`db, this`calls
      ensures Valid()
      ensures db == engine.committed
      ensures calls == old(calls) + [RollbackCall]
    {
      db := engine.committed;
      calls := calls + [RollbackCall];
    }

    /** `session.close()`. */
    method Close()
      modifies this`closed, this`calls
      ensures closed
      ensures calls == old(calls) + [CloseCall]
    {
      closed := true;
      calls := calls + [CloseCall];
    }

    /**
     * The exit of `managed_session`, given how its body ended: commit after a
     * body that ended normally; roll back after a body that raised or a
     * commit that failed, and pass that same error on; close in every case.
     */
    method ExitManaged(body: Outcome<Error>, commitAccepted: bool) returns (r: Outcome<Error>)
      requires Valid() && !closed
      modifies this, engine`committed
      ensures Valid() && closed
      ensures body.Pass? && commitAccepted ==>
        r == Pass && engine.committed == old(db) && calls == old(calls) + [CommitCall, CloseCall]
      ensures body.Pass? && !commitAccepted ==>
        r == Fail(CommitFailed) && engine.committed == old(engine.committed) &&
        calls == old(calls) + [CommitCall, RollbackCall, CloseCall]
      ensures body.Fail? ==>
        r == body && engine.committed == old(engine.committed) &&
        calls == old(calls) + [RollbackCall, CloseCall]
    {
      r := body;
      if body.Pass? {
        var ok := Commit(commitAccepted);
        if !ok {
          r := Fail(CommitFailed);
        }
      }
      if r.Fail? {
        Rollback();
      }
      Close();
    }

    /**
     * `session.bulk_save_objects` for new languages: the rows are inserted
     * when no key or unique constraint objects, otherwise the insert raises
     * `IntegrityError` and nothing is stored.
     */
    method BulkSaveLanguages(languages: seq<Language>) returns (r: Outcome<Error>)
      requires Valid() && !closed
      requires forall l :: l in languages ==> ValidateCode(l.code, engine.isoCodes).Success? && l.id < engine.nextId
      modifies this`db
      ensures Valid()
      ensures r.Pass? <==> Constraints(old(db).(languages := old(db).languages + languages))
      ensures r.Fail? ==> r == Fail(IntegrityError)
      ensures db == if r.Pass? then old(db).(languages := old(db).languages + languages) else old(db)
    {
      var next := db.(languages := db.languages + languages);
      if Constraints(next) {
        assert LanguageIds(db) <= LanguageIds(next);
        db := next;
        r := Pass;
      } else {
        r := Fail(IntegrityError);
      }
    }

    /** `session.bulk_save_objects` for new words, with the same all-or-nothing rule. */
    method BulkSaveWords(words: seq<Word>) returns (r: Outcome<Error>)
      requires Valid() && !closed
      requires forall w :: w in words ==> ValidateText(w.text).Success? && w.id < engine.nextId
      modifies this`db
      ensures Valid()
      ensures r.Pass? <==> Constraints(old(db).(words := old(db).words + words))
      ensures r.Fail? ==> r == Fail(IntegrityError)
      ensures db == if r.Pass? then old(db).(words := old(db).words + words) else old(db)
    {
      var next := db.(words := db.words + words);
      if Constraints(next) {
        db := next;
        r := Pass;
      } else {
        r := Fail(IntegrityError);
      }
    }

    /** `session.bulk_save_objects` for new translations, with the same all-or-nothing rule. */
    method BulkSaveTranslations(translations: seq<Translation>) returns (r: Outcome<Error>)
      requires Valid() && !closed
      modifies this`db
      ensures Valid()
      ensures r.Pass? <==> Constraints(old(db).(translations := old(db).translations + translations))
      ensures r.Fail? ==> r == Fail(IntegrityError)
      ensures db == if r.Pass? then old(db).(translations := old(db).translations + translations) else old(db)
    {
      var next := db.(translations := db.translations + translations);
      if Constraints(next) {
        db := next;
        r := Pass;
      } else {
        r := Fail(IntegrityError);
      }
    }

    /** A bulk `DELETE` of languages; the database cascades it to words and translations. */
    method DeleteLanguages(langIds: set<Id>)
      requires Valid() && !closed
      modifies this`db
      ensures Valid()
      ensures db == CascadeDelete(old(db), langIds)
    {
      CascadeDeleteValid(db, langIds, engine.isoCodes, engine.nextId);
      db := CascadeDelete(db, langIds);
    }
  }
}
