# dictionarydb: the parser, the importer and the store model in Dafny

`dictionarydb` loads a bilingual dictionary file into a relational database. It has three parts, and each is modelled here.

- **Parser** (`dictionarydb/parser.py`). It turns the lines of the file into `(source word, target word)` pairs.
  - Comment lines and lines without `::` are skipped.
  - An entry line is stripped and split on `::` into exactly two sides. Each side is split on `|` into its words, and every piece is stripped.
  - A line whose two sides have different numbers of words is rejected with a `ValueError`, and the stream skips it.
  - The other lines yield their words paired by position. A pair with an empty side is dropped.
- **Models** (`dictionarydb/models.py`). These are the three tables: `language`, `word` and `word_translates_to_word`.
  - The validators refuse a language code that is not three characters long or is not an ISO-639-3 code, and a word text that is empty.
  - The keys and the unique code are the store's constraints.
  - A language's words, and every translation touching those words, go with the language when it is deleted.
  - `managed_session` commits the session when its body ends normally. On any error, or on a refused commit, it rolls back. It always closes the session.
- **Importer** (`dictionarydb/importer.py`). It replaces the two languages of a dictionary and inserts the entries in chunks, all in one managed session.
  - `delete_entries` removes the two languages and with them everything that hangs off them.
  - `create_languages` stores the two languages again with fresh ids.
  - `insert_entries` makes a word for each side of every entry, and a translation between them. An entry whose words the validator refuses is skipped.
  - The import fails if fewer than `min_entries` entries were kept.

## How the model is laid out

- `wrappers.dfy` (`Wrappers`): `Option`, `Result` and `Outcome`.
- `seqs.dfy` (`Seqs`): filtering, flattening and key uniqueness on sequences.
- `text.dfy` (`Text`): Python's `str.strip`, `str.lstrip`, `str.split(sep)` and `sep.join` on `seq<char>`, with their laws.
  - Whitespace is the set of characters Python's `str.isspace` accepts, listed by code point.
- `parser.dfy` (`Parser`): the functions of `parser.py`. `load_entries`, a generator over the lines of a file, is a function from the file's lines to the pairs it yields.
- `parser_examples.dfy` (`ParserExamples`): the entry lines of the parser's test fixture, worked through the model.
- `models.dfy` (`Models`):
  - the rows and the validators;
  - the store (`Db`) with its constraints and the cascading delete;
  - class `Engine`, which holds the committed store and the id counter;
  - class `Session`, which holds the working copy of the store and the log of its commit, rollback and close calls.
- `importer.dfy` (`Importer`): the importer's functions as methods on a `Session`. Each method is proved against a specification function:
  - `GetModelObjects` for the rows an entry list produces;
  - `InsertedDb` for the store after they are saved;
  - `ImportedDb` and `ImportOutcome` for a whole import.

Some behaviours follow from details of the code:
- `new_object_id()` is drawn before the validator runs. An entry therefore consumes one id when its source word is refused, and two ids otherwise, whether or not it is kept (`IdsConsumed`).
- `create_languages` draws one id for each code up to and including the first refused code.
- A `min_entries` of zero counts as absent (`if min_entries and …`).
- `more_itertools.chunked` yields no chunk for a size of 0, and raises `ValueError` (from `islice`) for a negative size when the loop asks for its first chunk.
  - With a chunk size of 0 an import therefore still deletes and re-creates the two languages, adds nothing, and commits unless a minimum is demanded (`ZeroChunkSizeClearsPair`).
  - A negative chunk size fails after the languages were replaced, so the session rolls back (`NegativeChunkSizeFails`).
- `tests/test_parser.py:12` expects the source word `"WÃ¶rterbuch"`, a mis-decoded form of the fixture's `"Wörterbuch"` (`tests/conftest.py:12`). The model parses the fixture line to `"Wörterbuch"` (`WoerterbuchLineParsed`), and the whole fixture to the expected five pairs with that spelling (`FixtureLoaded`).

## Model

| member | source | states |
|---|---|---|
| Text.StripSpec | dictionarydb/parser.py:49 | about `Strip`, the model of `str.strip()`: it gives a stripped slice of its input, and every character outside that slice is whitespace |
| Text.StripDecompose | dictionarydb/parser.py:54 | about `Strip`: any text is whitespace, then its stripped form, then whitespace |
| Text.StripIgnoresPadding | dictionarydb/parser.py:54 | about `Strip`: adding whitespace to either end of a text leaves its stripped form unchanged |
| Text.JoinSplit | dictionarydb/parser.py:49 | about `Split`, the model of `str.split(sep)`, and `Join`, the model of `sep.join`: joining the pieces of a split with `sep` gives back the text |
| Text.SplitJoin | dictionarydb/parser.py:49 | about `Split` and `Join`: splitting the joined pieces gives them back when no piece contains the separator's first character |
| Text.SplitSingleIff | dictionarydb/parser.py:55 | about `Split`: it gives a single piece exactly when the text does not contain `sep` |
| Text.SplitCharCount | dictionarydb/parser.py:56-57 | about `Split`: splitting on one character gives one piece more than the character's occurrences |
| Text.SplitPiecesAvoidSep | dictionarydb/parser.py:49 | about `Split`: no piece contains `sep` |
| Text.SplitFirstIsPrefix | dictionarydb/parser.py:49 | about `Split`: the first piece is a prefix of the text |
| Text.SplitAtFirst | dictionarydb/parser.py:55 | about `Split`: splitting `a + sep + b`, where `a` has no separator character, gives `a` followed by the pieces of `b` |
| Text.ContainsSurvivesStrip | dictionarydb/parser.py:54-55 | about `Strip` and `Contains`, the model of `sub in s`: an occurrence of a separator with no whitespace at its ends is still there after stripping |
| Text.SplitPadLeft | dictionarydb/parser.py:54-55 | about `Split`: leading whitespace ends up on the first piece |
| Text.SplitPadRight | dictionarydb/parser.py:54-55 | about `Split`: trailing whitespace ends up on the last piece |
| Parser.SplitAndStrip | dictionarydb/parser.py:48-49 | `split_and_strip` gives as many pieces as `split`, and each piece is stripped |
| Parser.SplitAndStripPieces | dictionarydb/parser.py:48-49 | splitting on one character gives its occurrences plus one pieces, and piece `i` is the stripped `i`-th segment |
| Parser.SplitAndStripUnpadded | dictionarydb/parser.py:54-55 | stripping a line before `split_and_strip` changes none of the pieces |
| Parser.SplitAndStripJoin | dictionarydb/parser.py:48-49 | `split_and_strip` of words joined by the separator gives back the stripped words |
| Parser.PairUpIsFilteredZip | dictionarydb/parser.py:62-68 | about `PairUp`, the generator loop of `parse_entry_line`: the yielded pairs are the positional zip of the two sides, without the pairs that have an empty side |
| Parser.PairUpAllPresent | dictionarydb/parser.py:62-68 | about `PairUp`: when no word is empty, every zipped pair is yielded |
| Parser.ParseEntryLine | dictionarydb/parser.py:52-68 | every pair a line yields has two non-empty, stripped words, and neither `\|` nor `::` occurs in them |
| Parser.ParseEntryLineOutcome | dictionarydb/parser.py:55-68 | about `ParseEntryLine`: a line is accepted exactly when it has two sides with equally many words. Its pairs are then the filtered zip of the words |
| Parser.ParseEntryLinePadding | dictionarydb/parser.py:54 | about `ParseEntryLine`: whitespace around a line does not change what it parses to |
| Parser.ParseJoinedLine | dictionarydb/parser.py:52-68 | about `ParseEntryLine`: a line written from two word lists parses to their stripped, filtered pairs when the lists have equal length. Otherwise it is `Unbalanced` with the two counts |
| Parser.UnbalancedLineRejected | dictionarydb/parser.py:58-61 | about `ParseEntryLine`: sides with different numbers of `\|` are rejected as unbalanced |
| Parser.EntryLineHasTwoSides | dictionarydb/parser.py:52-55 | about `IsEntryLine` and `ParseEntryLine`: an entry line has at least two sides, so the only unpack error is "too many values" |
| Parser.ThreeSidedLineRejected | dictionarydb/parser.py:55 | about `ParseEntryLine`: a line `a::b::c` whose parts hold no colon has exactly three sides, fails the unpack and yields nothing |
| Parser.ManySidedLineRejected | dictionarydb/parser.py:55 | about `ParseEntryLine` and `LineEntries`: any line in which `::` occurs twice without overlap has three sides or more, fails the unpack and yields nothing |
| Parser.IsCommentIff | dictionarydb/parser.py:71-72 | about `IsComment`, the model of `is_comment`: a line is a comment exactly when a `#` is preceded only by whitespace |
| Parser.IsEntryLineIff | dictionarydb/parser.py:71-76 | about `IsEntryLine`, the model of `is_entry_line`: a line is an entry line exactly when `::` occurs in it and no `#` is preceded only by whitespace |
| Parser.JoinedLineIsEntryLine | dictionarydb/parser.py:75-76 | about `IsEntryLine`, the model of `is_entry_line`: a line built from sides joined with `::`, preceded by whitespace, whose first non-space character is not `#`, is an entry line |
| Parser.LineEntries | dictionarydb/parser.py:80-87 | the pairs one line adds to the stream are all valid pairs |
| Parser.LoadEntries | dictionarydb/parser.py:79-87 | every pair `load_entries` yields is a valid pair: non-empty, stripped, and free of both separators |
| Parser.LoadEntriesAppend | dictionarydb/parser.py:79-87 | about `LoadEntries`: loading two parts of a file gives the two parts' pairs in order, so a bad line does not stop the stream |
| Parser.LoadEntriesSkipsLine | dictionarydb/parser.py:80-87 | about `LoadEntries`: a comment line, a line without `::` and a line that fails to parse add nothing |
| Parser.LoadEntriesByLine | dictionarydb/parser.py:79-87 | about `LoadEntries`: when each line is known to add a given list of pairs, the file yields those lists concatenated in line order |
| ParserExamples.ElefantLineRejected | tests/conftest.py:24 | the fixture's `Elefant \| Giraffe :: monkey` line is rejected as unbalanced, 2 against 1 |
| ParserExamples.ElefantLineSkipped | tests/test_parser.py:10-20 | that line is an entry line, and the stream skips it |
| ParserExamples.WoerterbuchLineParsed | tests/conftest.py:12 | the single-word line yields its one pair |
| ParserExamples.EtageLineParsed | tests/test_parser.py:13-14 | synonyms separated by `;` stay one word |
| ParserExamples.ChiasmaLineParsed | tests/test_parser.py:15-17 | a two-word line yields both pairs, in order |
| ParserExamples.GeratewohlLineParsed | tests/test_parser.py:18-19 | the pair with an empty target is dropped and the other pair is kept |
| ParserExamples.CommentLineSkipped | tests/conftest.py:6-11 | an indented `#` line is a comment and yields nothing, even with `::` in it |
| ParserExamples.HeaderLineSkipped | tests/conftest.py:6 | the unindented `# Version :: …` header is a comment and yields nothing |
| ParserExamples.BlankLineSkipped | dictionarydb/parser.py:75-76 | about `LineEntries`: a blank line, or the closing indent of the fixture, holds no `::` and yields nothing |
| ParserExamples.CommentLinesSkipped | tests/conftest.py:7-11 | about `LoadEntries`: a run of indented comment lines yields nothing |
| ParserExamples.SectionLoads | tests/conftest.py:13-15 | about `LoadEntries`: a blank line, a comment and an entry line yield what the entry line yields |
| ParserExamples.EntryLineKept | dictionarydb/parser.py:79-87 | about `LineEntries`: an indented entry line not starting with `#` adds exactly the pairs it parses to |
| ParserExamples.WoerterbuchLineKept | tests/test_parser.py:12 | the `Wörterbuch` line adds its one pair to the stream |
| ParserExamples.EtageLineKept | tests/test_parser.py:13-14 | the `Etage` line adds its one pair to the stream |
| ParserExamples.ChiasmaLineKept | tests/test_parser.py:15-17 | the `Chiasma` line adds its two pairs, in order |
| ParserExamples.GeratewohlLineKept | tests/test_parser.py:18-19 | the `Geratewohl` line adds only its complete pair |
| ParserExamples.FixtureShapeLoads | tests/conftest.py:6-25 | about `LoadEntries`: a file laid out like the fixture yields its five entry lines' pairs, in order, and nothing from its header, comments, blank lines or closing indent |
| ParserExamples.FixtureLoaded | tests/test_parser.py:6-20 | about `LoadEntries`: the whole fixture loads to exactly the five pairs the test lists, in order |
| Models.ValidateCode | dictionarydb/models.py:88-94 | a code is accepted unchanged exactly when it has three characters and is in the ISO table. A wrong length is reported before an unknown code |
| Models.ValidateText | dictionarydb/models.py:107-111 | a text is accepted unchanged exactly when it is non-empty |
| Models.CascadeDelete | dictionarydb/models.py:100-126 | deleting languages removes exactly those languages, their words, and every translation touching a removed word |
| Models.CascadeDeleteValid | dictionarydb/models.py:81-132 | about `CascadeDelete`: the delete keeps every key, uniqueness and foreign-key constraint (`Constraints`), and every validated value |
| Models.CascadeDeleteWordCount | dictionarydb/importer.py:63-68 | about `CascadeDelete`: the number of words the delete removes is the number of words counted in those languages |
| Models.CascadeDeleteRemovesCodes | dictionarydb/importer.py:60-68 | about `CascadeDelete`: after deleting the languages with the given codes, no language with one of those codes is left, and no word belongs to a deleted language |
| Models.Engine.constructor | dictionarydb/models.py:68-71 | a new database starts with empty tables |
| Models.Engine.NewObjectId | dictionarydb/models.py:74-75 | each new id is the current counter, which then moves on, so an id is never handed out twice |
| Models.Session.constructor | dictionarydb/models.py:47-50 | a new session sees the committed store and has made no calls |
| Models.Session.Commit | dictionarydb/models.py:59 | an accepted commit makes the session's store the committed one. A refused commit leaves the committed store as it was |
| Models.Session.Rollback | dictionarydb/models.py:62 | rolling back returns the session to the committed store |
| Models.Session.Close | dictionarydb/models.py:65 | the session is closed |
| Models.Session.ExitManaged | dictionarydb/models.py:53-65 | a normal body is committed. A failed body or commit rolls back and re-raises its error. The session is closed in every case, and the call log is commit/close, commit/rollback/close or rollback/close |
| Models.Session.BulkSaveLanguages | dictionarydb/importer.py:80 | the save succeeds and appends the rows exactly when the constraints still hold. Otherwise it is an integrity error and nothing is stored |
| Models.Session.BulkSaveWords | dictionarydb/importer.py:47 | the same, for words |
| Models.Session.BulkSaveTranslations | dictionarydb/importer.py:48 | the same, for translations |
| Models.Session.DeleteLanguages | dictionarydb/importer.py:67-68 | the store becomes its cascading delete |
| Importer.NewWord | dictionarydb/importer.py:16-17 | a word is built with the given id and language exactly when its text is valid. Otherwise the validator's error is returned |
| Importer.GetModelObjectsStep | dictionarydb/importer.py:24-33 | about `GetModelObjects`, the model of `get_model_objects`: each entry consumes its ids and yields its rows exactly when both of its sides are non-empty |
| Importer.GetModelObjectsMatch | dictionarydb/importer.py:16-33 | about `GetModelObjects`, built from `NewWord` and `NewTranslation`: the rows correspond one to one to the kept entries. Each entry gives a source word in the source language, a target word with the next id in the target language, and the translation from the one to the other |
| Importer.GetModelObjectsNumbered | dictionarydb/importer.py:24-33 | about `GetModelObjects`: every id used lies in the range the entries consumed, and the ids increase |
| Importer.GetModelObjectsAppend | dictionarydb/importer.py:24-33 | about `GetModelObjects`: the rows of two entry lists are the first list's rows, then the second's with ids continuing |
| Importer.GetModelObjectsRows | dictionarydb/importer.py:24-33 | about `GetModelObjects`: the yielded words come two per kept entry, have valid texts, and carry increasing ids inside the range the entries consumed |
| Importer.InsertedDbValid | dictionarydb/importer.py:47-48 | about `InsertedDb`, the store after the bulk saves: adding the rows of entries to a valid store with both languages, using fresh ids, keeps every constraint |
| Importer.RowsInsertable | dictionarydb/importer.py:47-48 | about `GetModelObjects` and `Constraints`: saving the words keeps the constraints exactly when there is nothing to save or both languages are stored, and then saving the translations keeps them too |
| Importer.CollectRows | dictionarydb/importer.py:38-44 | the loop collects exactly the words and translations that `get_model_objects` specifies, and draws exactly the ids the entries consume |
| Importer.InsertEntries | dictionarydb/importer.py:36-51 | `insert_entries` returns the number of kept entries and stores their rows, or fails with an integrity error and changes nothing when a language is missing |
| Importer.GetWordsInLanguages | dictionarydb/importer.py:54-55 | the result holds exactly the stored words in the given languages |
| Importer.DeleteEntries | dictionarydb/importer.py:58-71 | the two codes' languages are cascade-deleted, other languages are kept, and the count is half the number of words removed |
| Importer.FirstInvalidCode | dictionarydb/importer.py:74-78 | finds the first code the validator refuses, with its error, or confirms that all codes pass |
| Importer.NewLanguagesConstraints | dictionarydb/importer.py:80 | fresh language rows keep the constraints exactly when no code is repeated |
| Importer.CreateLanguages | dictionarydb/importer.py:74-81 | a refused code stops the call after its id is drawn. Otherwise the rows are stored with consecutive ids, or an integrity error leaves the store unchanged |
| Importer.Chunked | dictionarydb/importer.py:103 | the chunks are non-empty and concatenate to the entries. All but the last have exactly the chunk size. A chunk size of 0 gives no chunks |
| Importer.ChunkStep | dictionarydb/importer.py:103-106 | inserting one more chunk continues the ids and counts of the entries inserted so far |
| Importer.InsertChunks | dictionarydb/importer.py:102-106 | inserting chunk by chunk gives the same count, ids and store as inserting at once the entries the chunks hold. That is every entry for a positive chunk size and none for 0 |
| Importer.CreatedPair | dictionarydb/importer.py:98-100 | re-creating the two languages fails with the first refused code's error, or with an integrity error when the codes are equal, and otherwise succeeds |
| Importer.ReplaceLanguages | dictionarydb/importer.py:94-100 | delete and re-create: on success the two languages get the next two ids and the store is the prepared one |
| Importer.InsertAndCount | dictionarydb/importer.py:102-113 | the entries the chunks hold are inserted, and the body fails with "not enough entries" exactly when a non-zero minimum is not reached |
| Importer.ImportBody | dictionarydb/importer.py:92-115 | the body ends as `ImportCheck` says: a refused code, equal codes, a negative chunk size or too few entries. On success it leaves the store `ImportedDb` describes |
| Importer.ImportEntries | dictionarydb/importer.py:84-115 | the result is `ImportOutcome` for the committed store, the entries, the chunk size and the minimum. The committed store becomes `ImportedDb` on success and is untouched otherwise |
| Importer.ZeroChunkSizeClearsPair | dictionarydb/importer.py:94-115 | about `ImportOutcome` and `ImportedDb`: with a chunk size of 0 and no minimum, the import reports no entry added, commits, and leaves the two languages without any word |
| Importer.NegativeChunkSizeFails | dictionarydb/importer.py:103 | about `ImportOutcome`: a negative chunk size fails the import once the two codes pass, whatever the entries and the minimum |
| Importer.ReimportDeletesImported | dictionarydb/importer.py:58-71 | about `ImportedDb` and `DeletedCount`: importing the same language pair again reports exactly the previously kept entries as deleted |
| Importer.ImportedDbKeepsOthers | dictionarydb/importer.py:58-68 | about `ImportedDb`: an import leaves the other languages, their words and their translations in place |
| Importer.LoadedEntriesAllKept | dictionarydb/importer.py:24-33 | about `KeptEntries` and `LoadEntries`: the importer keeps every entry the parser yields |
| Importer.TestEntriesKept | tests/test_importer.py:43-53 | about `KeptEntries`: of the five test entries, the four with two non-empty sides are kept |
| Importer.TestImportAddsFour | tests/test_importer.py:60-69 | about `ImportOutcome`: importing the test entries with the default chunk size of 1 reports four entries added |
| Importer.EmptyImportTooFew | tests/test_importer.py:88-97 | about `ImportOutcome`: an empty import with the largest `min_entries` fails with "not enough entries" |

## Left out

- The command-line interface, the HTTP lookup API, configuration, packaging and `prepare_engine`'s engine set-up (SQLite pragmas, connection URL). They are outside this model's core.
- Logging is left out. It has no effect on results.
- `language.py`'s ISO-639-3 table is left out. The set of known codes is a `set<string>` held by the engine.
- `new_object_id` draws a random uuid4. The model uses a counter instead, so ids are fresh by construction. Random collisions are not modelled.
- Text handling: only the whitespace set of Python's `str.isspace` is modelled. There is no Unicode normalisation, and there are no encodings.
- `split_and_strip` with no separator (whitespace splitting) is not modelled. Every caller passes a separator.
- Importer.DeleteEntries: `int(num_words / 2)` is computed in floating point. The model uses integer division, which agrees for counts below 2^53.
- Importer.ImportEntries: the commit's failure is an input (`commitAccepted`), not an event of the database.
  - `BaseException`s other than the modelled errors (interrupts, I/O errors inside the body) are not modelled.
- Models.Session.BulkSaveWords: a bulk save that breaks a constraint stores nothing. The database raises on the statement, and `managed_session` then rolls back the whole transaction anyway.
- Column widths (`String(32)`, `String(3)`), indexes, and SQLAlchemy's identity map, autoflush and `synchronize_session=False` bookkeeping are not modelled.
- Concurrent sessions are not modelled.
- `load_entries`, `get_model_objects` and `entries` itself are lazy iterators in the source. They are modelled as finite sequences computed in full, with the same order of id draws.
