# DonkeyCards core, modelled in Dafny

DonkeyCards is an iOS flashcard app for learning languages. A card holds a
word (`palavra`), its answer (`resposta`), a language (`idioma`) and a topic
(`tema`). Cards are read from a Firestore collection. They are grouped into
decks: one per (language, topic) and one "Todos" deck per language. The decks
are cached in the device's preferences for six hours. The user studies a deck
card by card, and every answer goes into a progress ledger keyed by the
deck's `storageId`. This project models that core:

- `Cards`, `Decks`, `Idiomas` (`cards.dfy`, `decks.dfy`, `idiomas.dfy`) cover
  the three model structs:
  - their progress keys;
  - their Codable decoders;
  - the deck encoder.
- `Json` (`json.dfy`) has the JSON values and the three field-reading modes
  (`decode`, `decodeIfPresent`, `try? decode`).
- `Text` (`text.dfy`) has ASCII case mapping, string order, sorting with
  duplicates removed, and decimal printing.
- `Progress` (`progress.dfy`) is `DeckProgress` and the `ProgressManager`
  class, whose dictionary is written back after every change.
- `Grouping` (`grouping.dfy`) is the nested deck-building loop shared by
  `DataService.createDecksFromCards` and
  `FirestoreService.getDecksFromFirestore`.
- `Remote` (`remote.dfy`) covers the Firestore document decoders and the
  branches of `fetchCards`, `fetchIdiomas` and `getDecksFromFirestore`.
- `Cache` (`cache.dfy`) is `DataService`: the six-hour refresh gate, the deck
  cache and `getDecks`.
- `Study` (`study.dfy`) is `MainViewModel`: selecting a deck, answering,
  advancing, resetting, the topic list and the refresh banner.
- `Login` (`login.dfy`) is `LoginViewModel`: the field validators, the e-mail
  pattern as an explicit matcher, the submit gates and the error messages.

The model's conventions:

- Times are whole seconds. `Date()` is a parameter `now`.
- `UUID()` is a caller-supplied `newId: nat -> Uuid`; the i-th deck built gets `newId(i)`.
- ISO-8601 parsing is a function inside `DecodeContext`.
- Swift `Set` iteration order is left unspecified with `:|`.
- A Firestore field value is a string, a boolean, a number, a Timestamp or something else (`FieldValue`).
- A Firestore query's outcome is an input `QueryResult`.
- `UserDefaults` is a map.
- `ProgressManager.shared` and `DataService.shared` are `const` references of `MainViewModel`.

Where the code and its description differ, the model follows the code:

- **Card dates after a cache round trip.** JSONEncoder writes a `Date` as
  seconds since 2001. `Card.init(from:)` reads a number as seconds since 1970.
  So a card comes back from the cache with its date moved by 978307200 seconds
  (`Cards.CardRoundTrip`, `Cache.SaveThenLoad`).
- **Tallies can run ahead of the answered-card count.** Re-answering a card
  overwrites its map entry but still bumps a tally. `totalAcertos + totalErros`
  can therefore exceed `totalRespondidas`, and `percentualAcertos` can exceed
  100 (`Progress.TallyMatchesCountIff`, `Progress.RepeatedHitExceedsHundred`).
- **A topic named "Todos" shares a ledger record.** Its deck gets the same
  `storageId` as the language's "Todos" deck (`Grouping.TodosTopicSharesKey`).
- **The nil-decks fallback in `getDecks` never runs.** `getDecksFromFirestore`
  never answers with no decks and no error. An empty or missing snapshot
  delivers `[]`, which also replaces the cache (`Cache.DataService.GetDecks`).
- **Advancing from the last card does not leave it.** The cursor is set past
  the end, then reloaded from the ledger, which holds the last card's index. So
  `isLastCard` is never true after an advance (`Study.NextCardNeverPastEnd`,
  `Study.NextCardStaysOnLast`).
- **A completed deck's cursor may be clamped from a stale record.**
  `selectDeck` clamps the cursor only if the deck was already complete before
  its own `verificarConclusao` call. It reads the record loaded just before.

## Model

| member | source | states |
|---|---|---|
| Cards.CardRoundTrip | DonkeyCards/Models/CardModel.swift:20-36 | decoding an encoded card gives the same card, with its date moved back by the 2001 reference offset |
| Cards.StorageIdIgnoresOtherFields | DonkeyCards/Models/CardModel.swift:12-14 | the card key depends only on language, topic and word |
| Cards.StorageIdInjective | DonkeyCards/Models/CardModel.swift:12-14 | with no `_` in language and topic, equal keys mean equal language, topic and word |
| Cards.StorageId | DonkeyCards/Models/CardModel.swift:12-14 | the key is the language, `_`, the topic, `_` and the word, in that order |
| Cards.EncodeCard | DonkeyCards/Models/CardModel.swift:3-18 | an object with the four texts, the date in seconds since 2001, and `id` only when present |
| Cards.DecodeCard | DonkeyCards/Models/CardModel.swift:20-36 | decoding succeeds iff the object has the four text fields as strings, an absent/null/string `id` and a decodable date; the texts are copied, the date is the one `DecodeDate` reads, a string `id` is kept and an absent or null one gives none |
| Json.DecodeDate | DonkeyCards/Models/CardModel.swift:27-35 | a number is taken as seconds since 1970; a parsable ISO-8601 string gives the parsed time; a missing or null date is `now`; it fails iff the value is present, not null, not a number and not a parsable ISO-8601 string |
| Json.OptionalString | DonkeyCards/Models/CardModel.swift:22 | `decodeIfPresent`: absent or null gives none, a string gives the string, anything else fails |
| Json.RequiredString | DonkeyCards/Models/CardModel.swift:23-26 | `decode`: succeeds iff the key holds a string, and yields it |
| Json.RequiredBool | DonkeyCards/Models/IdiomaModel.swift:22 | `decode`: succeeds iff the key holds a bool, and yields it |
| Json.PutOptionalString | DonkeyCards/Models/CardModel.swift:3-18 | writing an optional id lets `decodeIfPresent` read it back exactly, and no other key changes |
| Decks.ParseUuid | DonkeyCards/Models/DeckModel.swift:28 | a text reads as a UUID iff it has the 8-4-4-4-12 hex form; a canonical `uuidString` reads back as itself |
| Decks.StorageId | DonkeyCards/Models/DeckModel.swift:11-13 | the key is the language, `_` and the topic |
| Decks.StorageIdIgnoresIdAndCards | DonkeyCards/Models/DeckModel.swift:11-13 | decks with the same language and topic share a progress key, whatever their id, name or cards |
| Decks.NewDeck | DonkeyCards/Models/DeckModel.swift:19-24 | the initializer stores its arguments; the key is `idioma_tema` |
| Decks.DecodeCards | DonkeyCards/Models/DeckModel.swift:32 | an array of cards decodes iff every element does, element by element |
| Decks.DecodeDeckFields | DonkeyCards/Models/DeckModel.swift:26-33 | a deck decodes iff the object has a UUID string `id`, string `nome`, `idioma` and `tema`, and a `cards` array that decodes; the deck holds exactly those values |
| Decks.EncodeDeck | DonkeyCards/Models/DeckModel.swift:35-42 | an object with exactly the five keys, the texts as strings and every card through Card's encoder, in order |
| Decks.EncodeCards | DonkeyCards/Models/DeckModel.swift:41 | one encoding per card, in order |
| Decks.CardsRoundTrip | DonkeyCards/Models/DeckModel.swift:35-42 | decoding encoded cards gives them back with shifted dates |
| Decks.DeckRoundTrip | DonkeyCards/Models/DeckModel.swift:26-42 | decoding an encoded deck restores id, name, language, topic and every card except the card dates |
| Decks.ShiftKeepsAllButDates | DonkeyCards/Models/DeckModel.swift:35-42 | a deck with shifted card dates agrees with the original on everything else |
| Idiomas.StorageId | DonkeyCards/Models/IdiomaModel.swift:10-12 | the key is the name with every capital letter lowered: a case variant of it with no capital |
| Idiomas.StorageIdIgnoresCase | DonkeyCards/Models/IdiomaModel.swift:10-12 | two languages share a key iff their names differ only in letter case |
| Idiomas.NewIdioma | DonkeyCards/Models/IdiomaModel.swift:35-40 | defaults: no id, active, created now; the fields are as given |
| Idiomas.DecodeIdioma | DonkeyCards/Models/IdiomaModel.swift:18-33 | decoding succeeds iff `nome` is a string, `ativo` a bool, `id` absent/null/string and the date decodable; name, flag, date and a string `id` are copied, an absent or null `id` gives none |
| Idiomas.MinimalIdiomaDecodes | DonkeyCards/Models/IdiomaModel.swift:18-33 | an object with just `nome` and `ativo` decodes to the initializer's defaults with date `now` |
| Text.SortedDistinct | DonkeyCards/ViewModels/MainViewModel.swift:419 | `Array(Set(xs)).sorted()`: strictly sorted, with exactly the elements of the input |
| Text.NatToStringRoundTrip | DonkeyCards/ViewModels/MainViewModel.swift:599 | the decimal string interpolation of a count reads back as that count |
| Text.LowerEqualIffCaseVariants | DonkeyCards/Models/IdiomaModel.swift:10-12 | lower-casing makes two strings equal iff they differ only in letter case |
| Progress.NewDeckProgress | DonkeyCards/Services/ProgressManager.swift:15-24 | a fresh record: empty answer map, zero tallies, not complete, no date, cursor 0 |
| Progress.TotalRespondidas | DonkeyCards/Services/ProgressManager.swift:49-51 | the number of distinct cards answered; zero iff none is |
| Progress.RegisterAnswer | DonkeyCards/Services/ProgressManager.swift:27-35 | the card's entry becomes the outcome; exactly the matching tally grows by one; nothing else but the time changes |
| Progress.RegisterAnswerExcess | DonkeyCards/Services/ProgressManager.swift:27-51 | a new card raises count and tallies together; a repeated card raises only the tally |
| Progress.UpdateLastCard | DonkeyCards/Services/ProgressManager.swift:37-40 | only the cursor and time change |
| Progress.MarkCompleted | DonkeyCards/Services/ProgressManager.swift:42-47 | complete afterwards; the date is written only when it was none |
| Progress.MarkCompletedIdempotent | DonkeyCards/Services/ProgressManager.swift:42-47 | marking twice equals marking once |
| Progress.PercentualAcertos | DonkeyCards/Services/ProgressManager.swift:53-56 | 0 when nothing is answered, otherwise hits × 100 divided by answered cards |
| Progress.RepeatedHitExceedsHundred | DonkeyCards/Services/ProgressManager.swift:27-56 | one card answered right twice reads as 200 percent |
| Progress.ApplyAnswersTallies | DonkeyCards/Services/ProgressManager.swift:27-35 | a sequence of answers raises the tally sum by its length; the answered set becomes old plus answered cards |
| Progress.NewCardsBound | DonkeyCards/Services/ProgressManager.swift:49-51 | at most one new card per answer, exactly one each iff no card repeats or was answered before |
| Progress.ApplyAnswersExcess | DonkeyCards/Services/ProgressManager.swift:27-51 | the excess grows by the number of repeated answers, stays put iff all are first answers |
| Progress.TallyMatchesCountIff | DonkeyCards/Services/ProgressManager.swift:27-51 | from a fresh record, tally sum = answered count iff no card is answered twice; otherwise the sum exceeds it |
| Progress.Lookup | DonkeyCards/Services/ProgressManager.swift:120-130 | the stored record, or a fresh one for an absent key |
| Progress.Ensure | DonkeyCards/Services/ProgressManager.swift:120-130 | afterwards the key is present with the looked-up record; every other record is kept |
| Progress.RecordAnswerIn | DonkeyCards/Services/ProgressManager.swift:133-138 | only that deck's record changes, to the looked-up record with the answer registered |
| Progress.SaveLastCardIn | DonkeyCards/Services/ProgressManager.swift:141-146 | only that deck's record changes, and it holds the new cursor |
| Progress.CheckCompletionIn | DonkeyCards/Services/ProgressManager.swift:149-156 | marks complete iff answered ≥ total cards, otherwise only inserts the fresh record; complete afterwards iff that or already complete |
| Progress.EmptyDeckCompletes | DonkeyCards/Services/ProgressManager.swift:149-156 | a check against zero cards always completes and dates the deck |
| Progress.ResetIn | DonkeyCards/Services/ProgressManager.swift:159-162 | that deck's record becomes a fresh one; the others are kept |
| Progress.ResetThenLookup | DonkeyCards/Services/ProgressManager.swift:159-162 | after a reset, lookups return the fresh record and insert nothing |
| Progress.CompletedDecks | DonkeyCards/Services/ProgressManager.swift:171-173 | exactly the keys whose record is complete |
| Progress.Step | DonkeyCards/Services/ProgressManager.swift:120-156 | each non-reset ledger operation touches only its own deck's record |
| Progress.StepKeepsCompletion | DonkeyCards/Services/ProgressManager.swift:120-156 | no operation other than a reset un-completes a deck or moves a written completion date |
| Progress.RunKeepsCompletion | DonkeyCards/Services/ProgressManager.swift:120-156 | over any run without resets the completed set only grows and completion dates never change |
| Progress.ProgressManager.constructor | DonkeyCards/Services/ProgressManager.swift:97-109 | starts from the stored dictionary, or an empty one when nothing readable is stored |
| Progress.ProgressManager.GetProgress | DonkeyCards/Services/ProgressManager.swift:120-130 | returns the looked-up record; an absent key is inserted and written back |
| Progress.ProgressManager.RegistrarResposta | DonkeyCards/Services/ProgressManager.swift:133-138 | the dictionary becomes `RecordAnswerIn` of the old one, written back |
| Progress.ProgressManager.SalvarUltimoCardIndex | DonkeyCards/Services/ProgressManager.swift:141-146 | the dictionary becomes `SaveLastCardIn` of the old one, written back |
| Progress.ProgressManager.VerificarConclusao | DonkeyCards/Services/ProgressManager.swift:149-156 | the dictionary becomes `CheckCompletionIn` of the old one; written back when it completes or a record was inserted |
| Progress.ProgressManager.ResetarProgresso | DonkeyCards/Services/ProgressManager.swift:159-162 | the dictionary becomes `ResetIn` of the old one, written back |
| Progress.ProgressManager.ResetarTodoProgresso | DonkeyCards/Services/ProgressManager.swift:165-168 | the dictionary is emptied and written back |
| Progress.ProgressManager.GetDecksConcluidos | DonkeyCards/Services/ProgressManager.swift:171-173 | each completed key exactly once, and nothing else |
| Grouping.LangCards | DonkeyCards/Services/DataService.swift:142 | the cards of one language, no more |
| Grouping.TopicCards | DonkeyCards/Services/DataService.swift:146 | the cards of one topic, no more |
| Grouping.LangCardsAppend | DonkeyCards/Services/DataService.swift:142 | the filter keeps input order (distributes over concatenation) |
| Grouping.TopicCardsAppend | DonkeyCards/Services/DataService.swift:146 | the filter keeps input order (distributes over concatenation) |
| Grouping.DeckForCards | DonkeyCards/Services/DataService.swift:145-154 | a topic deck holds exactly its pair's cards and is named "tema (idioma)"; a Todos deck holds its language's cards |
| Grouping.GroupIntoDecks | DonkeyCards/Services/DataService.swift:137-157 | decks in one-to-one correspondence with the distinct (language, topic) pairs and languages, each language's decks contiguous and ending with its Todos deck |
| Grouping.AddTopicDecks | DonkeyCards/Services/DataService.swift:142-150 | the inner loop appends, after the decks already built, one deck per topic of the language, each topic once, in the order the topic set is walked |
| Grouping.LanguageDone | DonkeyCards/Services/DataService.swift:141-155 | after a language's topic decks and its Todos deck, the decks so far are exactly the expected ones of the languages handled, distinct and in language blocks |
| Grouping.DeckCount | DonkeyCards/Services/DataService.swift:137-157 | number of decks = distinct languages + distinct (language, topic) pairs |
| Grouping.CardPlacement | DonkeyCards/Services/DataService.swift:137-157 | each card is in exactly one topic deck (its own) and in its language's Todos deck, and in no deck of another language |
| Grouping.DeckContents | DonkeyCards/Services/DataService.swift:137-157 | a deck holds exactly the input cards of its language (and topic) |
| Grouping.TodosTopicSharesKey | DonkeyCards/Services/DataService.swift:145-154 | a card whose topic is "Todos" makes two decks with one progress key |
| Remote.StringField | DonkeyCards/Services/FirestoreService.swift:294-297 | `as? String`: a value iff the field holds a string |
| Remote.BoolField | DonkeyCards/Services/FirestoreService.swift:237-238 | `as? Bool`: a value iff the field holds a bool, or a number 0 or 1 (false and true), which Foundation bridges without loss |
| Remote.DecodeCardDocument | DonkeyCards/Services/FirestoreService.swift:290-312 | a card iff the four text fields are strings; the id is the document id and the date is now |
| Remote.DecodeCardDocuments | DonkeyCards/Services/FirestoreService.swift:290-312 | never more cards than documents |
| Remote.DecodedCardsAreTheDecodable | DonkeyCards/Services/FirestoreService.swift:290-312 | every decodable document's card is kept, and nothing else |
| Remote.DecodeCardDocumentsAppend | DonkeyCards/Services/FirestoreService.swift:290-312 | decoding keeps document order |
| Remote.DecodeCardDocumentsSingle | DonkeyCards/Services/FirestoreService.swift:290-312 | a malformed document is dropped alone |
| Remote.FetchCards | DonkeyCards/Services/FirestoreService.swift:271-317 | an error passes through; no snapshot gives neither value nor error; a snapshot gives exactly its decodable documents' cards, in order, and no error |
| Remote.DecodeIdiomaDocument | DonkeyCards/Services/FirestoreService.swift:233-258 | a language iff `nome` is a string and `ativo` reads as a bool; the id is the document id, the date is the Timestamp, else now |
| Remote.DecodeIdiomaDocuments | DonkeyCards/Services/FirestoreService.swift:233-258 | never more languages than documents |
| Remote.DecodedIdiomasAreTheDecodable | DonkeyCards/Services/FirestoreService.swift:233-258 | every decodable document's language is kept, and nothing else |
| Remote.DecodeIdiomaDocumentsAppend | DonkeyCards/Services/FirestoreService.swift:233-258 | decoding keeps document order |
| Remote.FetchIdiomas | DonkeyCards/Services/FirestoreService.swift:197-263 | no project id gives the configuration error; a query error gives [] with the error; nothing found gives []; a snapshot gives its decodable documents' languages in order and no error |
| Remote.ConfigErrorIgnoresQuery | DonkeyCards/Services/FirestoreService.swift:201-205 | without a project id the outcome does not depend on the collection |
| Remote.GetDecksFromFirestore | DonkeyCards/Services/FirestoreService.swift:325-364 | an error gives no decks; no cards gives []; otherwise the decks grouped as `GroupIntoDecks` states |
| Cache.LastUpdate | DonkeyCards/Services/DataService.swift:14 | present iff a date is stored under the key |
| Cache.ShouldUpdate | DonkeyCards/Services/DataService.swift:13-19 | true iff never updated or six hours or more have passed |
| Cache.TimeUntilNextUpdate | DonkeyCards/Services/DataService.swift:47-54 | none without a stored date, otherwise the rest of six hours, never negative |
| Cache.ShouldUpdateIffNoTimeLeft | DonkeyCards/Services/DataService.swift:47-54 | the gate is open iff no time is left or none is known |
| Cache.EncodeDecks | DonkeyCards/Services/DataService.swift:22-31 | the array of the decks' encodings, in order |
| Cache.DecodeDecks | DonkeyCards/Services/DataService.swift:34-44 | an array of decks decodes iff every element does |
| Cache.SaveDecksToCache | DonkeyCards/Services/DataService.swift:22-31 | the encoded decks and the time are stored under their keys; nothing else changes |
| Cache.LoadDecksFromCache | DonkeyCards/Services/DataService.swift:34-44 | decks iff data is stored and decodes as a deck array, and then exactly the decoded decks |
| Cache.DecksRoundTrip | DonkeyCards/Services/DataService.swift:22-44 | decoding encoded decks gives them back with shifted card dates |
| Cache.SaveThenLoad | DonkeyCards/Services/DataService.swift:22-44 | loading right after saving gives the saved decks with shifted card dates |
| Cache.SaveClosesGate | DonkeyCards/Services/DataService.swift:13-31 | after a save the gate stays closed for exactly six hours |
| Cache.ShiftedDecksKeepAllButDates | DonkeyCards/Services/DataService.swift:22-44 | the cached decks agree with the saved ones on everything but card dates |
| Cache.LoadCards | DonkeyCards/Services/DataService.swift:79-89 | the fetched cards, or none on an error or a missing value |
| Cache.LoadCardsFromQuery | DonkeyCards/Services/DataService.swift:79-89 | cards from a snapshot are its decodable documents; otherwise none |
| Cache.DataService.constructor | DonkeyCards/Services/DataService.swift:3-10 | the service reads and writes the preferences it is given |
| Cache.DataService.GetDecks | DonkeyCards/Services/DataService.swift:96-134 | fetches iff forced, no cache or gate open; early cached delivery first; remote decks replace the cache; on an error the cache (or []) is delivered and kept |
| Study.CurrentCard | DonkeyCards/ViewModels/MainViewModel.swift:277-282 | the card under the cursor iff the deck is non-empty and the cursor on it |
| Study.IsLastCard | DonkeyCards/ViewModels/MainViewModel.swift:284-287 | the cursor is past a non-empty deck, so no card is shown |
| Study.RestoredIndex | DonkeyCards/ViewModels/MainViewModel.swift:180-185 | the saved cursor, or 0 when it is past the deck; on a card of a non-empty deck when the saved one is non-negative |
| Study.ClampIndex | DonkeyCards/ViewModels/MainViewModel.swift:165 | a cursor on the deck (0 for an empty deck), unchanged when already on it |
| Study.NextCard | DonkeyCards/ViewModels/MainViewModel.swift:337-360 | only the deck's record changes; it holds the new cursor; one step forward before the last card; always on the deck; tallies untouched |
| Study.NextCardNeverPastEnd | DonkeyCards/ViewModels/MainViewModel.swift:337-360 | after an advance a card is shown and `isLastCard` is false |
| Study.NextCardStaysOnLast | DonkeyCards/ViewModels/MainViewModel.swift:337-360 | from the last card, with the ledger holding it, the cursor stays there and completion is checked |
| Study.LanguageTopics | DonkeyCards/ViewModels/MainViewModel.swift:413-416 | exactly the non-"Todos" topics of the language's decks |
| Study.ThemesForLanguage | DonkeyCards/ViewModels/MainViewModel.swift:411-425 | strictly sorted distinct non-"Todos" topics of the language, then one "Todos" |
| Study.ShouldUpdateTheme | DonkeyCards/ViewModels/MainViewModel.swift:612-619 | true when never updated, otherwise iff more than three hours have passed |
| Study.ThemeGateIsStrict | DonkeyCards/ViewModels/MainViewModel.swift:612-619 | exactly three hours is not enough, one second more is |
| Study.WaitMessage | DonkeyCards/ViewModels/MainViewModel.swift:597-599 | the wait text starts with the fixed phrase and ends in `min` |
| Study.RefreshStatus | DonkeyCards/ViewModels/MainViewModel.swift:594-609 | refresh enabled iff no time is left or none is known, with the matching message |
| Study.WaitMessageParts | DonkeyCards/ViewModels/MainViewModel.swift:597-598 | the hours and minutes shown are the time left rounded down to the minute |
| Study.RefreshEnabledIffGateOpen | DonkeyCards/ViewModels/MainViewModel.swift:594-609 | the refresh button is enabled iff the six-hour deck gate is open |
| Study.CheckAfterEnsure | DonkeyCards/ViewModels/MainViewModel.swift:156-159 | checking completion right after `getProgress` equals checking alone |
| Study.SaveZeroAfterReset | DonkeyCards/ViewModels/MainViewModel.swift:390-402 | saving cursor 0 after a reset leaves the fresh record unchanged |
| Study.MainViewModel.constructor | DonkeyCards/ViewModels/MainViewModel.swift:6-21 | the stored properties' initial values |
| Study.MainViewModel.LoadDeckProgress | DonkeyCards/ViewModels/MainViewModel.swift:172-190 | shows the deck's record (inserted if absent), restores its cursor and copies its tallies |
| Study.MainViewModel.SelectDeck | DonkeyCards/ViewModels/MainViewModel.swift:135-170 | same key changes nothing; otherwise the outgoing cursor is saved, the new record loaded and checked, a completed deck's cursor clamped, and the menu closed; the ledger is written back whenever a write happened (outgoing save, inserted record or completion) and is otherwise left as stored |
| Study.MainViewModel.UpdateSelectedDeck | DonkeyCards/ViewModels/MainViewModel.swift:265-275 | with decks, leaves exactly the state `SelectDeck` of the first deck leaves (cursor, counters, shown record, ledger, menu); without, clears the session and keeps the ledger |
| Study.MainViewModel.MarkAnswer | DonkeyCards/ViewModels/MainViewModel.swift:289-335 | without a card nothing changes; otherwise register, check, reload and advance, ending with counters equal to the ledger's tallies and the shown record the last one reloaded |
| Study.MainViewModel.MarkCorrect | DonkeyCards/ViewModels/MainViewModel.swift:289-311 | the whole answer step of `MarkAnswer` with a hit: cursor advanced, record reloaded, ledger written back; the card is recorded as a hit and the hit tally grows by one |
| Study.MainViewModel.MarkIncorrect | DonkeyCards/ViewModels/MainViewModel.swift:313-335 | the whole answer step of `MarkAnswer` with a miss: cursor advanced, record reloaded, ledger written back; the card is recorded as a miss and the miss tally grows by one |
| Study.MainViewModel.RecordAndReload | DonkeyCards/ViewModels/MainViewModel.swift:292-309 | the answer is registered, completion checked and the progress reloaded: cursor restored from the record, counters equal to its tallies |
| Study.MainViewModel.FinishPass | DonkeyCards/ViewModels/MainViewModel.swift:343-354 | past the last card: completion checked, then the progress reloaded, which puts the cursor at the saved index or back at zero and the counters at the record's tallies |
| Study.MainViewModel.MoveToNextCard | DonkeyCards/ViewModels/MainViewModel.swift:337-360 | moves as `NextCard` states; the ledger ends holding the cursor; the shown record is kept before the last card and reloaded after the completion check at it |
| Study.MainViewModel.ResetDeck | DonkeyCards/ViewModels/MainViewModel.swift:387-404 | the deck's record becomes fresh, cursor and counters zero, the rest of the ledger kept |
| Study.MainViewModel.RestartCurrentDeck | DonkeyCards/ViewModels/MainViewModel.swift:391-403 | the body of `resetDeck()` past its guard: fresh record, cursor and counters zero |
| Study.MainViewModel.RestartLedgerRecord | DonkeyCards/ViewModels/MainViewModel.swift:390-399 | the deck's record becomes fresh (saving cursor 0 leaves it so) and the ledger is written back |
| Study.MainViewModel.UpdateRefreshStatus | DonkeyCards/ViewModels/MainViewModel.swift:594-609 | message and flag from the time left; the flag is on iff the deck gate is open |
| Login.FirstIndex | DonkeyCards/ViewModels/LoginViewModel.swift:27 | the first position of a character, or none when absent |
| Login.LastIndex | DonkeyCards/ViewModels/LoginViewModel.swift:27 | the last position of a character, or none when absent |
| Login.MatchFixesSplit | DonkeyCards/ViewModels/LoginViewModel.swift:26-30 | any matching split is at the first `@` and the last dot |
| Login.IsEmailValid | DonkeyCards/ViewModels/LoginViewModel.swift:26-30 | the scanner accepts iff the whole string matches `[A-Z0-9a-z._%+-]+@[A-Za-z0-9.-]+\.[A-Za-z]{2,}` |
| Login.ValidEmailHasOneAt | DonkeyCards/ViewModels/LoginViewModel.swift:26-30 | a valid e-mail has exactly one `@` |
| Login.ValidEmailBounds | DonkeyCards/ViewModels/LoginViewModel.swift:26-30 | a valid e-mail has at least six characters, does not start with `@`, and ends in two letters |
| Login.ShortestEmailMatches | DonkeyCards/ViewModels/LoginViewModel.swift:26-30 | `a@b.co` is accepted |
| Login.IsPasswordValid | DonkeyCards/ViewModels/LoginViewModel.swift:32-34 | at least six characters |
| Login.IsUsernameValid | DonkeyCards/ViewModels/LoginViewModel.swift:36-38 | at least three characters |
| Login.IsConfirmPasswordValid | DonkeyCards/ViewModels/LoginViewModel.swift:40-42 | iff the confirmation equals the password |
| Login.CanSubmitLogin | DonkeyCards/ViewModels/LoginViewModel.swift:44-46 | iff the e-mail matches the pattern and the password has six or more characters |
| Login.CanSubmitRegister | DonkeyCards/ViewModels/LoginViewModel.swift:48-50 | iff login is allowed, the username has three or more characters and the confirmation matches |
| Login.RegisterImpliesLogin | DonkeyCards/ViewModels/LoginViewModel.swift:44-50 | a form that may register may sign in |
| Login.FieldError | DonkeyCards/ViewModels/LoginViewModel.swift:53-71 | no message iff the field is empty or valid; otherwise the given message |
| Login.EmailErrorMessage | DonkeyCards/ViewModels/LoginViewModel.swift:53-56 | no message iff empty or matching the pattern, else "Email inválido" |
| Login.PasswordErrorMessage | DonkeyCards/ViewModels/LoginViewModel.swift:58-61 | no message iff empty or six or more characters |
| Login.UsernameErrorMessage | DonkeyCards/ViewModels/LoginViewModel.swift:63-66 | no message iff empty or three or more characters |
| Login.ConfirmPasswordErrorMessage | DonkeyCards/ViewModels/LoginViewModel.swift:68-71 | no message iff empty or equal to the password |
| Login.ErrorsAndGates | DonkeyCards/ViewModels/LoginViewModel.swift:44-71 | a shown error blocks submit; a registrable form shows no error; non-empty fields without errors may sign in |
| Login.EmptyFormIsSilentAndBlocked | DonkeyCards/ViewModels/LoginViewModel.swift:44-71 | an empty form shows no error and allows neither submit |
| Login.LoginViewModel.constructor | DonkeyCards/ViewModels/LoginViewModel.swift:6-12 | all fields empty, sign-in mode |
| Login.LoginViewModel.ToggleRegisterMode | DonkeyCards/ViewModels/LoginViewModel.swift:132-134 | the mode flips (two calls restore it); the fields stay |
| Login.LoginViewModel.ResetForm | DonkeyCards/ViewModels/LoginViewModel.swift:136-142 | all four fields emptied, sign-in mode, and submit blocked |

## Left out

- User interface: SwiftUI views, styling, drag and swipe handling (`handleCardDrag`, `handleCardDragEnded`, `cardOffset`), animations and Combine scheduling.
- Authentication: `login`, `register` and `resetPassword` in `LoginViewModel` are callbacks into Firebase Auth. The alert and loading fields they set are not modelled.
- Networking and asynchrony: Firestore queries are inputs. Each completion handler's arguments are the method's results. `forceRefresh` only picks the Firestore client's read source (`.server`, or `.default`, which may answer from the SDK's local cache); that choice is folded into the query outcome, so it is not modelled in `fetchCards` or `fetchIdiomas`.
- `getIdiomas` and `getDecksForLanguage` are called by `MainViewModel` but are not part of this model. The methods that depend on them are left out for that reason: `loadIdiomas`, `selectIdioma`, `loadDecksForCurrentIdioma`, `refreshDecks`, `filterDecks`, `applyThemeFilter`, `resetFilters`, `ensureFullLanguageList` and `continueReviewingDeck`.
- Floating point and date formatting: `getProgressForDeck`, `deckPercentualAcertos`, `formatarDataConclusao`, `tempoDesdeConclusao`, `textoConclusao` and `dataConclusao` text. `Progress.PercentualAcertos` is on reals. Times are whole seconds, so `Int(remainingTime)` loses no fraction.
- Study.MainViewModel.UpdateRefreshStatus: reads the remaining time as a whole number of seconds, without its fractional part.
- Study.ShouldUpdateTheme: takes the stored date as a parameter instead of reading it from the preferences, because its only callers are left out.
- Decks.DecodeDeck: its own ensures gives only the number of cards; what it accepts and the values it reads are stated by the lemma `Decks.DecodeDeckFields`, because as ensures they make every decoder over deck arrays too costly to verify.
- Byte-level JSON: JSONEncoder and JSONDecoder are replaced by the `Json` value type. Numbers in it are whole numbers, and a value that does not parse is a decode failure. `loadCardsFromJson` (a bundled file) is left out.
- The persisted progress dictionary is modelled as a copy of the map (`saved`). Its JSON form is left out because the dictionary is always written whole.
- Integer overflow: tallies and indices are unbounded; the 64-bit `Int` limits are never near.
- Text: case mapping, letter classes and the ICU regular expression are ASCII-only. Swift's `sorted()` on strings is modelled as code-point order, and `count` as the number of code points, not grapheme clusters. String equality, `Set` membership and dictionary keys compare code points, so canonically equivalent spellings (a precomposed `ç` against `c` plus a combining cedilla) are distinct in the model: such topics, languages or ledger keys, which Swift merges, give separate decks and records here, and such a password and confirmation do not match.
- Debug logging (`print`), and the computed properties `availableLanguages`, `deckTotalCards`, `deckTotalRespondidas`, `isDeckConcluido` and `mostrarTelaConclusao`, which no core code reads (except `isDeckConcluido`, whose test `SelectDeck` repeats).
- `UserModel`, `UserPreferences`, `AuthService`, `AuthViewModel` and `ProfileViewModel` are plumbing or plain records.
