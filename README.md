# CapellaNotes client core, modelled in Dafny

CapellaNotes is a single-page notes client. Its logic is small: an in-memory note store
(`mockNotes` with `addNote`, `updateNote`, `deleteNote`), three text helpers (relative
time, truncation, markup stripping), the search filter and delete confirmation of the note
list, the draft state of the editor page (load, edit, tags, save, delete, close), and the
rules a note card uses to preview a note. This project models that core and proves what it
promises.

Layout, one module per source file plus two of shared helpers:

- `note_store.dfy`, module `NoteStore`: the `Note` record, the `Store` class whose
  `notes: seq<Note>` field stands for the module-level array, and the functions
  `FirstMatch`, `Lookup`, `Updated`, `Deleted`, `NewNote`, `Merge` that specify its methods.
- `formatting.dfy`, module `Formatting`: `StripHtmlTags`, `TruncateText`,
  `FormatDistanceToNow` and its rendering.
- `home.dfy`, module `Home`: the search predicate, `FilteredNotes`, query precedence and the
  `HomePage` class (list, local query, pending delete).
- `editor.dfy`, module `Editor`: the tag rules, `FormatLastSaved` and the `EditorPage`
  class with one method per handler.
- `note_card.dfy`, module `NoteCard`: preview text, tag badges, title fallback.
- `text.dfy`, module `Text`: the JavaScript string built-ins used (`trim`, ASCII
  `toLowerCase`, `includes`, decimal `toString`), plus `IndexOf`, a helper the regex scan of
  `StripHtmlTags` uses to find the closing '>' (the source itself does not call `indexOf`); `collections.dfy`, module
  `Collections`: `Array.prototype.filter` and subsequence/duplicate facts;
  `wrappers.dfy`: `Option`.

Conventions. Instants are integer milliseconds. Every clock reading (`Date.now()`,
`new Date()`) is a parameter `now`. A note id is `IdFromClock(now)`, the decimal rendering
of the reading, so ids are NOT assumed unique. `window.confirm` is a parameter, and a
navigation to the list (`setLocation("/")`) is the `leave` result of the method that
performs it. The redirect to `/editor/<id>` after the first save rebinds the editor's `id`
field; the load effect that the route change triggers is the separate `Load` method.
JavaScript's `Math.floor(a / b)` with a positive divisor is Dafny's `a / b`.
`@shared/schema` is not part of this model: the `Note` fields are those the core reads and
writes, with `tags` optional.

## Model

| member | source | states |
|---|---|---|
| `NoteStore.Store.constructor` | CapellaNotes/CapellaNotes/client/src/lib/mock-data.ts:4 | the store starts empty |
| `NoteStore.FirstMatch` | CapellaNotes/CapellaNotes/client/src/lib/mock-data.ts:8 | `findIndex` by id: a position holding the id with no earlier one holding it, or none when no record holds it |
| `NoteStore.Store.FindIndex` | CapellaNotes/CapellaNotes/client/src/lib/mock-data.ts:19 | the linear scan returns -1 exactly when no record has the id, otherwise the first index holding it |
| `NoteStore.Store.Find` | CapellaNotes/CapellaNotes/client/src/pages/editor.tsx:31 | `mockNotes.find`: a record of the store carrying the id (the first), or none exactly when no record carries it |
| `NoteStore.Store.Add` | CapellaNotes/CapellaNotes/client/src/lib/mock-data.ts:25-35 | the new record is inserted at index 0 and returned; every old record moves up one position unchanged; length grows by one |
| `NoteStore.NewNoteFields` | CapellaNotes/CapellaNotes/client/src/lib/mock-data.ts:26-32 | id from the clock reading, createdAt = updatedAt = the reading, draft title/content kept, absent tags become `[]` |
| `NoteStore.ClockDeterminesId` | CapellaNotes/CapellaNotes/client/src/lib/mock-data.ts:28 | two adds get equal ids exactly when they read the same clock value |
| `NoteStore.AddedNoteIsFound` | CapellaNotes/CapellaNotes/client/src/lib/mock-data.ts:33-34 | a lookup of the new id finds the record just added, even if an older record shares its id |
| `NoteStore.AddKeepsIdsDistinct` | CapellaNotes/CapellaNotes/client/src/lib/mock-data.ts:28-33 | distinct ids stay distinct after an add whose clock reading is not already an id |
| `NoteStore.Store.Update` | CapellaNotes/CapellaNotes/client/src/lib/mock-data.ts:7-16 | the new array is `Updated(old array, id, patch, now)` |
| `NoteStore.MergeFields` | CapellaNotes/CapellaNotes/client/src/lib/mock-data.ts:10-14 | every supplied patch field (id, title, content, tags, createdAt) overwrites, every omitted one is kept, and updatedAt is always the clock reading even if the patch gives one |
| `NoteStore.UpdateChangesOnlyFirstMatch` | CapellaNotes/CapellaNotes/client/src/lib/mock-data.ts:8-15 | an update keeps the length, changes only the first record with the id, and is a no-op on a missing id |
| `NoteStore.Store.Delete` | CapellaNotes/CapellaNotes/client/src/lib/mock-data.ts:18-23 | the new array is `Deleted(old array, id)` |
| `NoteStore.DeleteRemovesFirstMatch` | CapellaNotes/CapellaNotes/client/src/lib/mock-data.ts:19-22 | a delete drops exactly the first record with the id (length minus one, order kept, one fewer record with that id), and is a no-op on a missing id |
| `NoteStore.DeleteWithDistinctIdsRemovesId` | CapellaNotes/CapellaNotes/client/src/lib/mock-data.ts:19-22 | when ids are distinct, the deleted id is no longer found |
| `NoteStore.DuplicateIdSurvivesDelete` | CapellaNotes/CapellaNotes/client/src/lib/mock-data.ts:19-22 | two notes added in the same millisecond share an id, and after deleting it the older one is still found |
| `Text.DecimalString` | CapellaNotes/CapellaNotes/client/src/lib/mock-data.ts:28 | `toString` of the clock reading: non-empty decimal digits without a leading zero |
| `Text.DecimalRoundTrip` | CapellaNotes/CapellaNotes/client/src/lib/mock-data.ts:28 | reading the decimal rendering back gives the number |
| `Text.DecimalStringInjective` | CapellaNotes/CapellaNotes/client/src/lib/mock-data.ts:28 | different readings give different id strings |
| `Formatting.StripHtmlTags` | CapellaNotes/CapellaNotes/client/src/lib/formatting.ts:23-25 | the regex replace as a left-to-right scan; the output is never longer than the input |
| `Formatting.StripLeavesNoTag` | CapellaNotes/CapellaNotes/client/src/lib/formatting.ts:24 | the output has no '<' followed later by a '>' |
| `Formatting.StripKeepsTagless` | CapellaNotes/CapellaNotes/client/src/lib/formatting.ts:24 | a string with no such '<'…'>' pair is returned unchanged |
| `Formatting.StripKeepsTextWithoutLt` | CapellaNotes/CapellaNotes/client/src/lib/formatting.ts:24 | a string with no '<' is returned unchanged |
| `Formatting.StripRemovesOneTag` | CapellaNotes/CapellaNotes/client/src/lib/formatting.ts:24 | text before a tag that holds no '<' is kept, the tag ('<', text free of '>', '>') is removed, and stripping continues after it |
| `Formatting.StripIsSubsequence` | CapellaNotes/CapellaNotes/client/src/lib/formatting.ts:24 | stripping only deletes characters: the output is an order-preserving subsequence of the input |
| `Formatting.StripIdempotent` | CapellaNotes/CapellaNotes/client/src/lib/formatting.ts:24 | stripping twice equals stripping once |
| `Formatting.TruncateText` | CapellaNotes/CapellaNotes/client/src/lib/formatting.ts:18-21 | unchanged when it fits; otherwise length maxLength+3, the input's first maxLength characters, then "..." |
| `Formatting.FormatDistanceToNow` | CapellaNotes/CapellaNotes/client/src/lib/formatting.ts:1-16 | "just now" exactly when less than a minute has elapsed (future dates included); otherwise the first unit whose count is below its limit, with count = floor(elapsed / unit) in [1, limit); the locale date from four weeks on |
| `Formatting.WeeksFromDays` | CapellaNotes/CapellaNotes/client/src/lib/formatting.ts:6 | whole weeks from whole days equal whole weeks from milliseconds |
| `Formatting.RenderDistance` | CapellaNotes/CapellaNotes/client/src/lib/formatting.ts:10-15 | "just now" for the first case; a count phrase starts with the decimal count, a space and the unit word, and ends in " ago"; the locale case is the host's date string |
| `Formatting.PluralExactlyWhenNotOne` | CapellaNotes/CapellaNotes/client/src/lib/formatting.ts:10-13 | the phrase ends in "s ago" exactly when the count is not 1, and in "<unit> ago" when it is 1 |
| `Collections.Filter` | CapellaNotes/CapellaNotes/client/src/pages/editor.tsx:139 | `filter`: every kept element is an input element satisfying the predicate, and each value's number of occurrences is its count in the input when it satisfies the predicate and 0 otherwise |
| `Collections.FilterIsSubsequence` | CapellaNotes/CapellaNotes/client/src/pages/home.tsx:21 | `filter` keeps relative order: the result is a subsequence of the input |
| `Collections.FilterKeepsAll` | CapellaNotes/CapellaNotes/client/src/pages/home.tsx:22 | a filter that keeps every element returns the input itself |
| `Collections.FilterKeepsNoDuplicates` | CapellaNotes/CapellaNotes/client/src/pages/editor.tsx:139 | filtering a duplicate-free list leaves it duplicate-free |
| `Text.TrimEmptyIffBlank` | CapellaNotes/CapellaNotes/client/src/pages/home.tsx:22 | `trim()` gives "" exactly when every character is whitespace |
| `Text.Trim` | CapellaNotes/CapellaNotes/client/src/pages/home.tsx:22 | `trim()`: never longer than the input, and neither starts nor ends with a JavaScript WhiteSpace or LineTerminator character |
| `Text.TrimIsWhitespaceStripped` | CapellaNotes/CapellaNotes/client/src/pages/editor.tsx:130 | what `trim()` keeps is a slice of the input with only whitespace before and after it |
| `Text.Lower` | CapellaNotes/CapellaNotes/client/src/pages/home.tsx:24-27 | `toLowerCase()`: same length, each character lowered on its own (ASCII letters only) |
| `Text.Contains` | CapellaNotes/CapellaNotes/client/src/pages/home.tsx:25-27 | `includes()`: true exactly when the needle equals some slice of the haystack |
| `Text.TrimIdempotent` | CapellaNotes/CapellaNotes/client/src/pages/editor.tsx:130-131 | trimming a trimmed string changes nothing |
| `Home.SearchQuery` | CapellaNotes/CapellaNotes/client/src/pages/home.tsx:19 | a non-empty external query wins; an absent or empty one falls back to the local query |
| `Home.Passes` | CapellaNotes/CapellaNotes/client/src/pages/home.tsx:21-30 | the filter callback: for a non-blank query, a note passes exactly when the lowered query occurs in its lowered title, lowered stripped content or some lowered tag; an empty query lets every note through, as do a query whose lower-case form starts the lower-cased title and a query equal to one of the note's tags |
| `Home.FilteredNotes` | CapellaNotes/CapellaNotes/client/src/pages/home.tsx:21-30 | exactly the notes that pass are listed, each as often as it occurs in the list and none that fails, as an order-preserving subsequence of the list |
| `Home.BlankQueryKeepsAll` | CapellaNotes/CapellaNotes/client/src/pages/home.tsx:22 | a query that trims to empty lists every note, in order |
| `Home.NonBlankQueryMatchesFields` | CapellaNotes/CapellaNotes/client/src/pages/home.tsx:24-29 | for a non-blank query a note is listed iff the lowered query occurs in its lowered title, lowered stripped content or some lowered tag |
| `Home.AbsentTagsMatchOnlyTitleOrContent` | CapellaNotes/CapellaNotes/client/src/pages/home.tsx:27 | a note without tags passes only through title or content |
| `Home.PaddedQueryMisses` | CapellaNotes/CapellaNotes/client/src/pages/home.tsx:22-25 | " work" is not blank, yet misses a note titled "work": the query's spaces take part in the match |
| `Home.UnpaddedQueryFinds` | CapellaNotes/CapellaNotes/client/src/pages/home.tsx:22-25 | "work" finds that same note |
| `Home.HomePage.constructor` | CapellaNotes/CapellaNotes/client/src/pages/home.tsx:14-16 | empty local query, the list is the store's contents, nothing pending |
| `Home.HomePage.Shown` | CapellaNotes/CapellaNotes/client/src/pages/home.tsx:19-30 | `filteredNotes` under the effective query: an order-preserving subsequence of the list holding every passing note as often as it occurs and no failing one, and the whole list when the query trims to empty |
| `Home.HomePage.SetLocalSearchQuery` | CapellaNotes/CapellaNotes/client/src/pages/home.tsx:85 | the local query becomes the typed text |
| `Home.HomePage.HandleDeleteNote` | CapellaNotes/CapellaNotes/client/src/pages/home.tsx:40-42 | the note becomes the pending deletion |
| `Home.HomePage.CancelDelete` | CapellaNotes/CapellaNotes/client/src/pages/home.tsx:52-54 | nothing is pending afterwards |
| `Home.HomePage.ConfirmDelete` | CapellaNotes/CapellaNotes/client/src/pages/home.tsx:44-50 | with a pending note: the store loses that id's first record, the list becomes the store's contents, nothing is pending; with none: nothing changes |
| `NoteCard.PreviewText` | CapellaNotes/CapellaNotes/client/src/components/note-card.tsx:16-20 | the stripped content when at most 150 characters, else its first 150 plus "..."; never longer than 153 and free of tags |
| `NoteCard.PreviewIsTruncatedStrip` | CapellaNotes/CapellaNotes/client/src/components/note-card.tsx:16-20 | the preview equals `truncateText(stripHtmlTags(content))` at the default length |
| `NoteCard.TagDisplay` | CapellaNotes/CapellaNotes/client/src/components/note-card.tsx:48-65 | no tag block for absent or empty tags; otherwise exactly the first min(3, n) of the n tags in order, tag i with colour i mod 6, and a "+k" badge exactly when n > 3, with k = n - 3 |
| `NoteCard.DisplayTitle` | CapellaNotes/CapellaNotes/client/src/components/note-card.tsx:70 | never empty; the title itself when it is non-empty, and "Untitled Note" when it is empty |
| `Editor.TagsAfterAdd` | CapellaNotes/CapellaNotes/client/src/pages/editor.tsx:130-131 | the old tags are kept as a prefix and at most one tag is added; an added tag is the non-empty trimmed input, not already present; duplicate-free tags stay duplicate-free |
| `Editor.AddTagAppendsTrimmed` | CapellaNotes/CapellaNotes/client/src/pages/editor.tsx:129-136 | an accepted input is appended trimmed at the end; a blank, whitespace-only or present one leaves the tags unchanged |
| `Editor.AddTagKeepsNoDuplicates` | CapellaNotes/CapellaNotes/client/src/pages/editor.tsx:130-131 | adding a tag to duplicate-free tags keeps them duplicate-free |
| `Editor.AddTagTwiceIsOnce` | CapellaNotes/CapellaNotes/client/src/pages/editor.tsx:130-131 | adding the same input twice equals adding it once |
| `Editor.TagsAfterRemove` | CapellaNotes/CapellaNotes/client/src/pages/editor.tsx:139 | the tag no longer occurs, and every other tag occurs as often as before |
| `Editor.RemoveTagDeletesEveryCopy` | CapellaNotes/CapellaNotes/client/src/pages/editor.tsx:138-141 | every copy of the tag is gone, every other tag keeps all its occurrences in order, and an absent tag changes nothing |
| `Editor.FormatLastSaved` | CapellaNotes/CapellaNotes/client/src/pages/editor.tsx:221-232 | "just now" exactly under a minute; otherwise whole minutes in [1, 60), then whole hours of the elapsed time in [1, 24); the locale date of the saved instant exactly from one day on |
| `Editor.RenderLastSaved` | CapellaNotes/CapellaNotes/client/src/pages/editor.tsx:226-229 | "just now" for the first case; a count phrase starts with the decimal count, a space and the unit word, and always ends in "s ago"; the locale case is the host's date string |
| `Editor.LastSavedAgreesWithDistance` | CapellaNotes/CapellaNotes/client/src/pages/editor.tsx:221-232 | under a day the footer's time agrees with `formatDistanceToNow`; from a day on it is the locale date |
| `Editor.LastSavedPluralAfterOneMinute` | CapellaNotes/CapellaNotes/client/src/pages/editor.tsx:226 | the footer always pluralises: one minute after saving it reads "1 minutes ago" |
| `Editor.EditorPage.constructor` | CapellaNotes/CapellaNotes/client/src/pages/editor.tsx:13-27 | the initial draft is blank, unbound, saved "now", with no pending deletion |
| `Editor.EditorPage.Load` | CapellaNotes/CapellaNotes/client/src/pages/editor.tsx:29-48 | a found id hydrates title/content/tags (absent tags as `[]`) and lastSaved from the record; a missing id leaves the draft; no id blanks it; every load clears the unsaved flag |
| `Editor.EditorPage.HandleTitleChange` | CapellaNotes/CapellaNotes/client/src/pages/editor.tsx:119-122 | the title is set and the draft is unsaved |
| `Editor.EditorPage.HandleContentChange` | CapellaNotes/CapellaNotes/client/src/pages/editor.tsx:124-127 | the content is set and the draft is unsaved |
| `Editor.EditorPage.OpenTagInput` | CapellaNotes/CapellaNotes/client/src/pages/editor.tsx:499 | the tag box is shown |
| `Editor.EditorPage.SetNewTag` | CapellaNotes/CapellaNotes/client/src/pages/editor.tsx:486 | the tag box holds the typed text |
| `Editor.EditorPage.HandleAddTag` | CapellaNotes/CapellaNotes/client/src/pages/editor.tsx:129-136 | an accepted tag is appended, the box cleared and hidden, the draft unsaved; otherwise tags, box and flag are untouched; no duplicate is introduced |
| `Editor.EditorPage.HandleTagInputBlur` | CapellaNotes/CapellaNotes/client/src/pages/editor.tsx:488-491 | a blank box is just hidden; a non-blank one goes through add-tag |
| `Editor.EditorPage.HandleRemoveTag` | CapellaNotes/CapellaNotes/client/src/pages/editor.tsx:138-141 | tags become the filtered list and the draft is unsaved even if the tag was absent |
| `Editor.EditorPage.HandleSave` | CapellaNotes/CapellaNotes/client/src/pages/editor.tsx:68-82 | with id and bound note: the store updates that id and keeps its length; otherwise the draft is added at the store's head and id is rebound to it; either way saved at now and not unsaved |
| `Editor.EditorPage.HandleDelete` | CapellaNotes/CapellaNotes/client/src/pages/editor.tsx:84-88 | a bound note becomes the pending deletion |
| `Editor.EditorPage.CancelDelete` | CapellaNotes/CapellaNotes/client/src/pages/editor.tsx:98-100 | nothing is pending afterwards |
| `Editor.EditorPage.ConfirmDelete` | CapellaNotes/CapellaNotes/client/src/pages/editor.tsx:90-96 | deletes the id from the store and leaves exactly when a deletion is pending and an id exists; always clears the dialog |
| `Editor.EditorPage.HandleClose` | CapellaNotes/CapellaNotes/client/src/pages/editor.tsx:61-66 | the page is left unless the draft is unsaved and the user declines |
| `Editor.NewNoteSavedTwice` | CapellaNotes/CapellaNotes/client/src/pages/editor.tsx:68-82 | a new note saved, reloaded through its new route and saved again adds exactly one record, which the second save updates |

## Left out

- Rich-text surface and format tracking (`rich-text-editor.tsx`, `executeCommand`, `updateActiveFormats`, the toolbar): a wrapper over the browser's editing commands with no data of its own.
- The auto-save timer (editor.tsx:51-59): `setTimeout`/`clearTimeout` scheduling. `HandleSave` is the save it fires. Its dependency list omits `tags`, so a tag edit alone schedules a save only through the `hasUnsavedChanges` change.
- Sharing, clipboard and in-note search (`handleShare`, `handleShareNote`, `handleSearchInNote`): browser I/O and logging.
- Routing and the other components (App.tsx, top-navigation.tsx, ai-assistant.tsx, delete-confirm-modal.tsx, the AI dialogs): navigation is the `leave` result or the `id` field.
- `toLocaleDateString`: the `LocaleDate` case, rendered by a function parameter. The card's "last edited" text calls date-fns' `formatDistanceToNow` (note-card.tsx:22-24), which is not part of this model.
- Unicode: `toLowerCase` maps ASCII letters only; lengths count `char`s, not UTF-16 code units.
- React batching: state setters are immediate assignments within one handler call.
- Clock readings: one `now` per handler. The source reads the clock separately for the id, `createdAt` and `updatedAt` in `addNote`, and in `handleSave` and `updateNote`, so real values can differ by a millisecond.
- Home.HomePage.constructor: copies the store's contents, where `useState(mockNotes)` holds the store's array itself; within the page's lifetime only `confirmDelete` changes the store, and it then takes a fresh copy.
- NoteStore.Store.Update: a patch that explicitly sets a field to `undefined` is not modelled; a `Patch` field is either supplied or omitted.
- Formatting.TruncateText: `maxLength` is a natural number; negative or fractional lengths are not modelled.
- NoteStore.IdFromClock: the clock reading is non-negative, so ids of dates before 1970 are not modelled.

## Behaviour worth knowing

- Ids are `Date.now()` strings, so two notes created in the same millisecond share an id. Update and delete then act on the newer one only (`DuplicateIdSurvivesDelete`). Uniqueness holds only under the hypothesis of `AddKeepsIdsDistinct`.
- Remove-tag deletes every equal tag, not just the first (`RemoveTagDeletesEveryCopy`). Tags added through the editor have no duplicates anyway (`AddTagKeepsNoDuplicates`).
- `updatedAt >= createdAt` is not enforced by the store. A patch may overwrite `createdAt`, and the clock reading is not assumed to increase.
- Saving selects its path on `id && note` (editor.tsx:70), not on whether the store holds the id. With no note bound, a save adds a record and rebinds the route to it. A load of an id that the store does not hold keeps whatever note was bound (editor.tsx:31-38). With a note still bound, the save therefore calls `updateNote` on a missing id: the store is unchanged and the draft is not stored, yet the unsaved flag is cleared and `lastSaved` moves to now.
