# Cardify flashcards: a Dafny model of the scheduling, study-session and deck-editing core

Cardify is a browser flashcard application. A user keeps decks of two-sided cards.
A study session shows cards that are new or due, and a spaced-repetition scheduler
decides, from a four-level rating (`again`, `hard`, `good`, `easy`), when each card
comes back. Decks are created from a text area, imported from a `.csv`/`.txt`
file, or edited as text. The home screen counts the cards due today.

This project models that core and proves properties of it:

- `types.dfy` (`Types`): cards with optional `due`/`interval`/`state`, and decks.
- `srs.dfy` (`Srs`): the scheduler. It covers the constants, the day and minute
  arithmetic, the two-decimal rounding, and the state/rating transition.
- `session.dfy` (`Session`): the study session.
  - Queue construction: new cards are shuffled and capped at 20, due cards are
    added, and the result is shuffled.
  - The answer transition, the graded-card map, ending, and the keyboard.
  - Each handler reads the state as it was before the event, and its updates
    all take effect together when it returns. `Session.Answered` is the answer
    handler under that rule, as written; `Session.AnsweredIntended` is the
    corrected transition (see Findings).
  - The `StudySession` class holds the component's six state fields. Its
    answer and keyboard methods apply the corrected transition.
- `decks.dfy` (`Decks`): the application's deck list and its handlers, as the
  class `App`. This includes merging a finished session's cards into their deck.
- `card_text.dfy` (`CardText`) is shared by the three deck forms:
  - reading a `front;back` line;
  - the non-blank lines of a text area;
  - the `c-<time>-<index>` and `d-<time>` ids;
  - the colour palette.
- `create_deck.dfy` (`CreateDeck`), `edit_deck.dfy` (`EditDeck`) and
  `import_deck.dfy` (`ImportDeck`): the create, edit and import forms. Edit has a
  proved serialise/parse round trip. Import covers LF/CRLF line splitting, the
  delimiter choice, malformed-line skipping, the error paths and the
  disabled-button logic.
- `home.dfy` (`Home`): the due-card count, the greeting, the banner and the
  recent-decks list.
- `text.dfy` (`Text`) and `seqs.dfy` (`Seqs`) model the JavaScript built-ins
  the core relies on: `trim`, `split` and `join` on one character, the decimal
  rendering of integers, and `filter`/`map`.

Time is an integer count of milliseconds since the epoch. Intervals are exact
`real` day counts. The current instant, the end of the current day, the hour of
the day and each random draw are parameters of the operations that read them.

Behaviours of the code that are easy to miss, and that the model keeps:

- **An empty queue.** The code marks a session with an empty queue as complete
  at once (`isComplete` is set from the queue's emptiness). It does not
  distinguish "nothing to study" from "finished"
  (`Session.StudySession.constructor`).
- **Due dates.** Review due dates are not always `interval` days after grading.
  The date arithmetic drops the fraction of a day, and it uses the interval
  before rounding. So a stored interval of 3.0 days can come with a due date
  2 days away (`Srs.DueMayTrailInterval`).
- **Card states.** The scheduler's state switch has no default case. The card
  type allows only the three states, so the model has exactly those three.
- **The previous due date.** The fallback for a missing due date is never read,
  because every branch overwrites `due` (`Srs.PriorDueIgnored`).

## Model

| member | source | states |
|---|---|---|
| Srs.AddDays | services/srsService.ts:15-19 | Moves an instant forward by the whole days of `days`, dropping the fraction: the shift is a multiple of a day, no more than `days` days and less than one day short of it |
| Srs.Round2 | services/srsService.ts:93-94 | The result is a whole number of hundredths, within half a hundredth of the input (a tie rounds up) |
| Srs.AddMinutes | services/srsService.ts:21-25 | Moves an instant by exactly `minutes` whole minutes; a positive count moves it later |
| Srs.UpdateCardSchedule | services/srsService.ts:27-97 | id, front and back are kept. The state is learning or review, and interval and due are always set. The interval is non-negative and already rounded. The result is learning exactly when the rating is `again`, or `hard` on a card not in review. A learning card has interval 0 and is due within 15 minutes. A review card has interval ≥ 1 and is due a whole number of days, at least one, ahead |
| Srs.Round2Idempotent | services/srsService.ts:93-94 | Rounding a rounded interval changes nothing |
| Srs.Round2NonNegative | services/srsService.ts:93-94 | Rounding keeps a non-negative interval non-negative |
| Srs.AgainRelearns | services/srsService.ts:38-91 | `again` in any state gives learning, interval 0, due in 10 minutes |
| Srs.HardWhileLearning | services/srsService.ts:48-53 | `hard` on a new or learning card gives learning, interval 0, due in 15 minutes |
| Srs.Graduates | services/srsService.ts:54-65 | `good` graduates a new or learning card to review for 1 day, `easy` for 4 days, whatever its old interval |
| Srs.ReviewGrows | services/srsService.ts:77-88 | A review card rated hard/good/easy stays in review. Its interval becomes max(1, old × 1.2/2.5/3.0), rounded, and its due date comes from the unrounded value |
| Srs.MissingStateIsNew | services/srsService.ts:30-35 | A card without a state is scheduled exactly like a `new` card |
| Srs.MissingIntervalIsZero | services/srsService.ts:30-35 | A card without an interval is scheduled exactly like one with interval 0 |
| Srs.PriorDueIgnored | services/srsService.ts:30-35 | The previous due date has no effect on the result |
| Srs.EasyTriplesTenDays | services/srsService.ts:85-88 | A 10-day review card rated `easy` gets 30 days, due in 30 days |
| Srs.DueMayTrailInterval | services/srsService.ts:81-94 | An interval of 1.1984 rated `good` is stored as 3.0, but the card is due only 2 days later |
| Session.BuildQueue | components/StudySession.tsx:47-63 | The picked new cards are a shuffle of the deck's `new` cards, cut to min(20, their number). The queue is a permutation of those picked cards plus every non-new card due by the end of today |
| Session.QueueCapsNewCards | components/StudySession.tsx:51-54 | A queue holds at most 20 `new` cards |
| Session.QueueWithinDeck | components/StudySession.tsx:51-62 | Each card occurs in the queue no more often than in the deck |
| Session.DueCardEnters | components/StudySession.tsx:56-59 | A card that is not `new` is in the queue if and only if its due date (missing read as the epoch) is at or before the end of today |
| Session.QueueDistinct | components/StudySession.tsx:51-62 | When the deck's ids are distinct, so are the queue's |
| Session.Upsert | components/StudySession.tsx:85 | Setting a map entry: the key set gains the card's id and the card is present. A new key is appended and an existing key keeps the length |
| Session.UpsertDistinct | components/StudySession.tsx:85 | Map keys stay unique |
| Session.UpsertInPlace | components/StudySession.tsx:85 | An existing key's entry is replaced where it stands and every other entry is kept |
| Session.UpsertRecords | components/StudySession.tsx:85 | After setting, the card is the only entry under its id, and every entry under another id remains |
| Session.Answered | components/StudySession.tsx:80-105 | The handler as written. With no current card nothing changes. Otherwise the rescheduled card is among the graded cards, and the session completes only on the last card of a pass |
| Session.AnsweredIntended | components/StudySession.tsx:80-105 | The corrected transition, with the same three promises: nothing changes without a current card, the rescheduled card is among the graded cards, and completion happens only on the last card of a pass |
| Session.AnsweredKeepsConsistent | components/StudySession.tsx:80-105 | Answering keeps the session invariant: an active session points into its queue, graded ids are distinct, and every card comes from the deck. The graded ids grow by exactly the answered card's id, and with no current card nothing changes |
| Session.AnsweredIntendedKeepsConsistent | components/StudySession.tsx:80-105 | The corrected transition keeps the same invariant. The graded ids grow by exactly the answered card's id, and with no current card nothing changes |
| Session.AnswerRecordsLatest | components/StudySession.tsx:84-85 | As written: the rescheduled card is recorded under its id, replacing an earlier grading, and other gradings are kept |
| Session.AnsweredAdvances | components/StudySession.tsx:87-103 | How the handler as written moves on. Mid-pass: same queue, index up by one, card unflipped, completion unchanged, and the relearning queue gains the graded card exactly when the rating is `again`. At the end of a pass with a non-empty relearning queue from before the answer: that queue becomes the next pass from index 0, unflipped, and the relearning queue is emptied. At the end of a pass with none: the session completes. The graded cards are upserted in every case |
| Session.AnsweredIntendedAdvances | components/StudySession.tsx:87-103 | The same advance rule for the corrected transition, except at the end of a pass, where the relearning queue after the answer decides: it becomes the next pass when non-empty, and the session completes (with an empty relearning queue) only when it is empty |
| Session.IntendedAgreesUnlessAgain | components/StudySession.tsx:80-105 | For every rating other than `again`, the corrected transition equals the handler as written |
| Session.IntendedAgreesMidPass | components/StudySession.tsx:91-93 | Before the last card of a pass, the corrected transition equals the handler as written for every rating |
| Session.AnsweredIntendedRecordsLatest | components/StudySession.tsx:84-85 | The same recording under the corrected transition: the rescheduled card is recorded under its id, replacing an earlier grading, and other gradings are kept |
| Session.LastOfPassFailureDropped | components/StudySession.tsx:87-104 | As written: when the last card of a pass is rated `again`, the session either completes or starts the old relearning queue with the relearning queue emptied. The failed card is never queued again |
| Session.OneCardAgainCompletes | components/StudySession.tsx:80-105 | As written: a one-card session rated `again` completes at once |
| Session.IntendedRequeuesFailure | components/StudySession.tsx:94-103 | Corrected transition: a card rated `again` is always still ahead in the session, and the session completes only with nothing left to relearn |
| Session.IntendedOneCardScenario | components/StudySession.tsx:94-103 | Corrected transition: a one-card session rated `again` and then `good` completes with that single card in review for 1 day |
| Session.StudySession.constructor | components/StudySession.tsx:40-68 | The initial state: the queue is a possible queue for the deck, nothing is graded, the index is 0, the card is unflipped, and the session is complete exactly when the queue is empty |
| Session.StudySession.Flip | components/StudySession.tsx:75-78 | Toggles `isFlipped` unless the session is complete, and keeps the invariant |
| Session.StudySession.Answer | components/StudySession.tsx:80-105 | The new state is the corrected answer transition applied to the state before the answer. Mid-pass the queue is kept, the index goes up by one, the card is unflipped and completion is unchanged; on the last card of a pass the session either completes or restarts at index 0, unflipped, with the relearning queue emptied. The graded ids gain the answered card's id, or stay the same when there is no current card, and the invariant is kept |
| Session.StudySession.End | components/StudySession.tsx:70-73 | Emits the deck id and exactly the graded cards: distinct ids, one per card answered, all from the deck |
| Session.StudySession.KeyDown | components/StudySession.tsx:107-127 | Space flips. Home emits the deck id with the graded cards, as ending does. End rates `good`, through the corrected answer transition, only when the card is flipped; since the rating is not `again`, this is also the handler as written (Session.IntendedAgreesUnlessAgain). Other keys, and every key once the session is complete, change nothing |
| Decks.AddDeck | App.tsx:54-56 | The new deck is appended and the others keep their places |
| Decks.UpdateDeck | App.tsx:58-60 | Every deck with the updated id is replaced, every other deck is kept, and the ids are unchanged |
| Decks.UpdateDeckIdempotent | App.tsx:58-60 | Updating twice with the same deck equals updating once |
| Decks.DeleteDeck | App.tsx:62-66 | Unconfirmed: no change. Confirmed: exactly the decks with other ids remain |
| Decks.DeleteDeckKeepsOrder | App.tsx:62-66 | Deleting from a concatenation deletes from each part, so the order is kept |
| Decks.DeleteAbsentDeck | App.tsx:62-66 | Deleting an id no deck has changes nothing |
| Decks.LastWithId | App.tsx:76 | The map lookup finds the last card with the id, and finds none exactly when no card has it |
| Decks.MergeCards | App.tsx:76-77 | Same length and ids. A card whose id was graded is replaced by the last graded entry with that id, and every other card is kept |
| Decks.MergeCardsIdempotent | App.tsx:76-77 | Merging the same cards twice equals merging once |
| Decks.MergeCardsDistinct | App.tsx:76-77 | With distinct graded ids, each card is replaced by exactly its own grading |
| Decks.MergeSession | App.tsx:72-84 | Only the session's deck gets its cards merged. The number of decks and their ids are unchanged |
| Decks.App.constructor | App.tsx:34-44 | Starts from the loaded decks with no active study deck |
| Decks.App.HandleAddDeck | App.tsx:54-56 | The deck list becomes the list with the deck appended |
| Decks.App.HandleUpdateDeck | App.tsx:58-60 | The deck list becomes the updated list |
| Decks.App.HandleDeleteDeck | App.tsx:62-66 | The deck list becomes the list after deletion, if confirmed |
| Decks.App.HandleStartStudy | App.tsx:68-70 | The deck becomes the active study deck and the list is unchanged |
| Decks.App.HandleSessionComplete | App.tsx:72-84 | The session's cards are merged into their deck and the study view closes |
| Decks.App.HandleCloseSession | App.tsx:86-88 | The study view closes and the list is unchanged |
| CardText.CardLines | components/EditDeckModal.tsx:30 | Every kept line is non-blank and holds no line feed |
| CardText.CardLinesAfterLine | components/StudyScreen.tsx:39 | A line ended by a line feed comes first when it is not blank, followed by the kept lines of the rest: every non-blank line is kept, in order |
| CardText.CardLinesLastLine | components/EditDeckModal.tsx:30 | The last line, with no line feed after it, is kept exactly when it is not blank |
| CardText.ParseCardLine | components/EditDeckModal.tsx:33-35 | The front and back come out trimmed: trimming them again changes nothing |
| CardText.ParseCardLineAtFirst | components/EditDeckModal.tsx:33-35 | A line is cut at its first `;`: the front is the trimmed text before it and the back the trimmed text after it. With no `;`, the back is empty |
| CardText.ParseJoinedLine | components/EditDeckModal.tsx:33-35 | A front without the delimiter, the delimiter, then a back, reads back as the trimmed front and back |
| CardText.CardIdInjective | components/EditDeckModal.tsx:42 | An id determines both its clock reading and its position. So ids for different positions differ, whatever the clock reads for each |
| CardText.RandomColor | components/StudyScreen.tsx:12-18 | For a draw in [0, 1) the colour is one of the 17 palette entries |
| CreateDeck.CreatedCards | components/StudyScreen.tsx:39-50 | One card per non-blank line, in order: id `c-<reading>-<index>` from the clock reading taken for that card, front and back parsed from the line, state `new`, no due date or interval |
| CreateDeck.CreatedCardsDistinct | components/StudyScreen.tsx:40-50 | The new cards' ids are distinct, whatever the clock reads for each card |
| CreateDeck.SaveDeck | components/StudyScreen.tsx:34-56 | Refused exactly when the name is blank. Otherwise id `d-<reading>` from a clock reading of its own, the entered name, the parsed cards and a palette colour |
| CreateDeck.Close | components/StudyScreen.tsx:78-84 | Closing clears the name, the card text and the topic, and turns off the generating flag |
| CreateDeck.HandleSave | components/StudyScreen.tsx:34-83 | A successful save clears the form, and a refused one leaves it unchanged |
| EditDeck.Serialise | components/EditDeckModal.tsx:19 | No cards give the empty text. When no front or back holds a line break, cutting the text at its line breaks gives exactly one `front;back` line per card, in order |
| EditDeck.FindByContent | components/EditDeckModal.tsx:39 | Finds the first card with exactly that front and back, and finds none exactly when no card has them |
| EditDeck.Reconcile | components/EditDeckModal.tsx:39-48 | The card takes the line's front and back, and its state is always set |
| EditDeck.ReconcileInherits | components/EditDeckModal.tsx:39-48 | A matched line inherits the original's due date, interval, state (missing read as `new`) and id, and gets the fresh id when the original's id is empty. An unmatched line gets a fresh id, state `new` and no scheduling data |
| EditDeck.ParsedLines | components/EditDeckModal.tsx:30-35 | One front/back pair per non-blank line: pair i is the `;` reading of non-blank line i |
| EditDeck.EditedCards | components/EditDeckModal.tsx:30-49 | One card per non-blank line: card i is the reading of non-blank line i reconciled with the original cards, with index i and the clock reading taken for it |
| EditDeck.SameFacesShareId | components/EditDeckModal.tsx:39-42 | Two lines with the same front and back that match an original with an id get the same id, so the ids are not distinct |
| EditDeck.SaveEdit | components/EditDeckModal.tsx:25-56 | Refused exactly when the name is blank. Otherwise the deck keeps its id and colour and takes the new name and the edited cards |
| EditDeck.SerialisedLines | components/EditDeckModal.tsx:19-30 | The non-blank lines of the serialised text are exactly the cards' `front;back` lines |
| EditDeck.CardLineNonBlank | components/EditDeckModal.tsx:19 | A serialisable card's line is non-blank and holds no line feed |
| EditDeck.ParseOwnLine | components/EditDeckModal.tsx:19-35 | A card's own line reads back as its front and back |
| EditDeck.ReconcileOwnFaces | components/EditDeckModal.tsx:39-48 | A card's own front and back find the card itself when no earlier card has them |
| EditDeck.RoundTrip | components/EditDeckModal.tsx:19-49 | Saving the text exactly as the form shows it gives back every card with its id, front, back, due date and interval, with a missing state read as `new`. This holds when no front has `;`, no field has a line break or surrounding whitespace, no id is empty, and no two cards share both front and back |
| ImportDeck.DropCR | components/ImportDeckModal.tsx:53 | Drops at most one carriage return, at the end |
| ImportDeck.SplitLines | components/ImportDeckModal.tsx:53 | At least one line, and no line holds a line feed |
| ImportDeck.SplitLinesAfterLine | components/ImportDeckModal.tsx:53 | A line ended by LF comes off first, without a carriage return that ends it |
| ImportDeck.CrLfAsLf | components/ImportDeckModal.tsx:53 | A line ended by CR LF reads the same as one ended by LF |
| ImportDeck.ImportLines | components/ImportDeckModal.tsx:53 | Only non-blank lines are kept, and none holds a line feed |
| ImportDeck.ImportLinesAfterLine | components/ImportDeckModal.tsx:53 | A line ended by a line feed, less a carriage return ending it, comes first when it is not blank, followed by the kept lines of the rest: every non-blank line is kept, in order |
| ImportDeck.ImportLinesLastLine | components/ImportDeckModal.tsx:53 | The last line is kept as it is exactly when it is not blank |
| ImportDeck.SplitLinesAllWhitespace | components/ImportDeckModal.tsx:53 | The text is all whitespace exactly when every line is |
| ImportDeck.Delimiter | components/ImportDeckModal.tsx:58 | `;` exactly when the first non-blank line contains `;`, otherwise `,` |
| ImportDeck.ParseWith | components/ImportDeckModal.tsx:60-69 | Never more cards than lines |
| ImportDeck.ParseWithConcat | components/ImportDeckModal.tsx:60-69 | Line order is kept: the cards of two blocks are the first block's cards followed by the second's |
| ImportDeck.ParseWithCards | components/ImportDeckModal.tsx:60-69 | Each card comes from a line that contains the delimiter. Its front is the trimmed text before the first delimiter and its back the trimmed rest |
| ImportDeck.KeptLineFields | components/ImportDeckModal.tsx:61-67 | A line with at least two fields contains the delimiter and reads as the trimmed text on either side of its first one |
| ImportDeck.ParseWithEmpty | components/ImportDeckModal.tsx:60-69 | No card is read exactly when no line contains the delimiter |
| ImportDeck.ParseImport | components/ImportDeckModal.tsx:50-75 | "Empty file" exactly when no line is non-blank. "No valid cards" exactly when there are lines but none parses. Otherwise the cards of the lines holding the delimiter, between 1 and the number of lines |
| ImportDeck.EmptyFileIffBlank | components/ImportDeckModal.tsx:53-56 | The file is refused as empty exactly when it holds only whitespace and line breaks |
| ImportDeck.NoDelimiterNoCards | components/ImportDeckModal.tsx:58-73 | Non-blank lines none of which holds the delimiter give "no valid cards" |
| ImportDeck.FileChosen | components/ImportDeckModal.tsx:39-47 | No file: no change. Otherwise parsing starts with the name set and the error and cards cleared |
| ImportDeck.Loaded | components/ImportDeckModal.tsx:50-82 | Parsing is over. On success the cards are kept. On failure the error message is shown and the file name cleared |
| ImportDeck.ReadFailed | components/ImportDeckModal.tsx:84-88 | The read-error message is shown, parsing stops and the file name is cleared |
| ImportDeck.LoadedFormConsistent | components/ImportDeckModal.tsx:39-82 | After a file is picked and read: either an error with no file name, or a non-empty card list with the file's name |
| ImportDeck.ImportedCards | components/ImportDeckModal.tsx:103-107 | Each parsed pair becomes a `new` card with id `c-<reading>-<index>`, from the clock reading taken for it, and no due date or interval |
| ImportDeck.ImportedCardsDistinct | components/ImportDeckModal.tsx:103-107 | Imported ids are distinct, whatever the clock reads for each card |
| ImportDeck.ImportSave | components/ImportDeckModal.tsx:93-114 | A blank name is refused first, then an empty card list. Otherwise id `d-<reading>` from a clock reading of its own, the name, the imported cards and a palette colour |
| ImportDeck.ImportDisabled | components/ImportDeckModal.tsx:169 | The button is always disabled while the file is being read. When enabled, the name is non-blank and there is at least one card |
| ImportDeck.DisabledIffRefused | components/ImportDeckModal.tsx:169 | When not parsing, the button is disabled exactly when saving would be refused |
| ImportDeck.HandleSave | components/ImportDeckModal.tsx:93-118 | A successful save resets the form, and a refused one leaves it unchanged |
| Home.TotalDueCards | components/HomeScreen.tsx:220-228 | The count never exceeds the total number of cards |
| Home.TotalDueCardsConcat | components/HomeScreen.tsx:223-227 | The count over a list of decks is the sum of the counts over its parts |
| Home.DueCountSplits | components/HomeScreen.tsx:224-227 | A deck's count is its `new` cards plus its other cards due by the end of today, with no cap |
| Home.SessionWithinDueCount | components/HomeScreen.tsx:220-228 | A session's queue is no longer than its deck's count, and equal to it when the deck has at most 20 `new` cards |
| Home.Greeting | components/HomeScreen.tsx:213-218 | "Good Morning" exactly for hours < 12, "Good Afternoon" for 12–17, "Good Evening" for ≥ 18 |
| Home.DueBanner | components/HomeScreen.tsx:236-238 | Shown exactly when the count is > 0. It says "1 card" for exactly one and "<n> cards" otherwise |
| Home.RecentDecks | components/HomeScreen.tsx:247 | The first min(4, n) decks, in order |

## Left out

- Reading from and writing to `localStorage`, and the `FileReader`, are I/O. The model starts from the loaded deck list and from the file's text.
- The sample decks used when storage is empty are not modelled.
- Rendering, `alert` and `window.confirm` are presentation. Alerts become error results and confirmation is a boolean parameter.
- The AI card generator (the `generateCardsFromTopic` call and `handleGenerate`) is a network call to an external service.
- The heatmap, the calendar week view and the session progress percentage are display code over random placeholder data, locale dates and floating point.
- `Date.now()`, `new Date()`, the hour of the day and `Math.random` are supplied values, and the shuffles are arbitrary permutations. The forms call `Date.now()` once per card id (components/StudyScreen.tsx:45, components/EditDeckModal.tsx:42, components/ImportDeckModal.tsx:105) and once more for the deck id (components/StudyScreen.tsx:52, components/ImportDeckModal.tsx:110). The model takes these readings as a `CardText.Clock`, which gives a reading per card position, and a separate deck reading. Nothing relates the readings to each other, so the readings of one save may all differ.
- Due dates are integer milliseconds, not ISO strings. Invalid date strings and NaN are not represented.
- Srs.AddDays: does not model time zones or daylight-saving changes; a day is exactly 86 400 000 ms. Dropping the fraction is modelled as rounding down, which matches JavaScript's truncation for the non-negative intervals the scheduler produces.
- Srs.AddMinutes: a minute is exactly 60 000 ms; time zones and daylight-saving changes in the local-time minute setter are not modelled.
- Srs.UpdateCardSchedule: the interval arithmetic is exact rational arithmetic, not IEEE doubles. Card states other than the three declared ones cannot be represented.
- Session.StudySession.constructor: the session is built once, when it is opened. Rebuilding it when the deck prop changes is not modelled.
- Session.StudySession.Answer: follows the corrected transition (Session.AnsweredIntended), not the handler as written, which is Session.Answered (see Findings). The two agree except when the last card of a pass is rated `again` (Session.IntendedAgreesUnlessAgain, Session.IntendedAgreesMidPass). Rating through the on-screen buttons is the same transition, and the rendering that gates those buttons is not modelled.
- Session.StudySession.End: closing the view after emitting is the application's `HandleSessionComplete`, which is modelled separately.
- `handleClose` in the import form (`resetState`) is modelled as the constant `ImportDeck.ResetForm`, which `ImportDeck.HandleSave` reaches on success.
- `console.warn` for skipped import lines is logging and is not modelled.

## Findings

| source | as written | input that shows it | evidently intended | confidence | as-written member | corrected member |
|---|---|---|---|---|---|---|
| components/StudySession.tsx:87-103 | At the end of a pass the handler reads the relearning queue as it was before the answer, and then clears it. A card rated `again` as the last card of a pass is either dropped when the session completes, or wiped by the clear while the old relearning queue starts | A one-card session whose card is rated `again`: the session completes at once, and the failed card is never shown again | A failed card is re-presented. The next pass is the relearning queue including the card just failed, and the session completes only when nothing is left to relearn | not executed | Session.LastOfPassFailureDropped, Session.OneCardAgainCompletes | Session.AnsweredIntended, with Session.IntendedRequeuesFailure and Session.IntendedOneCardScenario; Session.StudySession.Answer applies it |
