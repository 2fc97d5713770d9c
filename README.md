# Student records manager — a Dafny model

The application is a single-page student-records manager: a form, a sortable
table and four summary cards over a list of student records. The records live
either behind an HTTP backend or, when no endpoint is configured, in one
array stored in the browser's local storage under `sms_students_v1`. This
project models the local-storage mode of the persistence layer and the
record-handling logic of the views:

- `Records` (records.dfy): the student record, the field-wise object spread
  `{ ...base, ...patch }` and removal by id, shared by the store and the view.
- `SheetsService` (sheets_service.dfy): `join`, the `withId` normalisation,
  `lsRead`'s "missing or corrupt reads as empty", and the local-mode
  `listStudents`, `createStudent`, `updateStudent` and `deleteStudent` as
  methods of a `LocalStore` class whose one field is the storage slot.
- `App` (app.dfy): the search filter, the reconciliation of the in-memory
  list after each settled call, and the `students` / `editing` / `error` /
  `loading` / `query` state as an `AppState` class. Two client methods show
  that with unique ids the view's list keeps mirroring the local store.
- `StudentTable` (student_table.dfy): the comparator, a stable insertion sort
  standing in for `Array.prototype.sort` on a fresh copy, the `setSort` state
  machine and the status badge.
- `StatsCards` (stats_cards.dfy): the total and the per-status counts.
- `StudentForm` (student_form.dfy): the form values, defaults from a record,
  single-input edits and the two halves of a submit.
- `Text`, `Seqs`, `Wrappers`: `trim`, `toLowerCase`, `includes`, string `<`,
  order-preserving filtering, and Option/Result.

Time and randomness are inputs: `now` stands for `new Date().toISOString()`,
`stamp` for `Date.now()` and `suffix` for the random base-36 digits. Every
awaited call is replaced by its settled outcome, passed to the method that
continues after it.

Notes on the code's behaviour:
- A local delete removes every record with the id, not just one record. It
  shrinks the list by exactly one only when ids are unique
  (`Records.RemovePresentId`).
- A stored value that parses to something other than an array is handed to
  the view by `listStudents`, which turns it into `[]`. The local create,
  update and delete then throw a `TypeError` (`SheetsService.Slot.NotAList`).
- `withId` reads the clock twice (once for `createdAt`, once for `updatedAt`).
  The model takes one `now` for both.

Put together, the form and the page reset the form even after a failed save.
`App.handleSubmit` catches the error and resolves normally, so
`StudentForm.FormState.FinishSubmit` is always reached with success
(`App.SubmitFromForm`).

## Model

| member | source | states |
|---|---|---|
| `Records.Merge` | src/lib/googleSheetsService.js:76 | every property the payload carries overrides the stored one; every other property keeps the stored value |
| `Records.MergeLaws` | src/lib/googleSheetsService.js:76 | merging an empty payload is the identity; merging the same payload twice equals merging it once |
| `Records.RemoveId` | src/lib/googleSheetsService.js:89 | the result has no record with the id and is an order-preserving subsequence of the input; every record without the id occurs in it exactly as often as in the input, and every record with the id not at all |
| `Records.RemoveAbsentId` | src/lib/googleSheetsService.js:88-91 | deleting an id no record carries leaves the list unchanged |
| `Records.RemovePresentId` | src/lib/googleSheetsService.js:88-91 | with unique ids, deleting a present id shortens the list by exactly one |
| `Records.RemoveKeepsUnique` | src/lib/googleSheetsService.js:89 | removal by id never creates duplicate ids |
| `Seqs.Keep` | src/App.jsx:23 | `filter` returns an order-preserving subsequence of the input; every kept element passes and every passing element is kept |
| `Seqs.KeepCounts` | src/App.jsx:23 | every passing element occurs in the filtered list exactly as often as in the input, and every failing element not at all |
| `Seqs.KeepAll` | src/App.jsx:23 | filtering returns the list itself if and only if every element passes |
| `Text.Trim` | src/lib/googleSheetsService.js:40-43 | the trimmed string is a slice of the input with only white space cut off before and after it; it has no white space at either end; it is empty iff the input is blank; an already-trimmed string is unchanged |
| `Text.TrimIdempotent` | src/lib/googleSheetsService.js:40-43 | trimming twice is trimming once |
| `Text.Lower` | src/App.jsx:21 | lowering keeps the length, leaves no ASCII capital, keeps every other character and maps each capital to its small letter |
| `Text.TrimLower` | src/App.jsx:21 | trimming then lowering equals lowering then trimming |
| `Text.LexLess` | src/components/StudentTable.jsx:29-30 | a proper prefix is below the string, and no string is below itself |
| `Text.LexLessFirstDifference` | src/components/StudentTable.jsx:29-30 | `a < b` holds iff at the first position where the strings differ `b` still has a character and `a` has none or a smaller one |
| `Text.Contains` | src/App.jsx:26 | `includes` holds iff the needle is a contiguous piece of the string; the empty string and the string itself are always included |
| `Text.LexTrichotomy` | src/components/StudentTable.jsx:29-30 | for any two strings exactly one of `a < b`, `a == b`, `b < a` holds |
| `Text.LexTransitive` | src/components/StudentTable.jsx:29-30 | string `<` is transitive |
| `SheetsService.Join` | src/lib/googleSheetsService.js:17-20 | an empty path returns the base unchanged; otherwise the result is the base without one trailing slash, a slash, and the path without one leading slash |
| `SheetsService.DropTrailingSlash` | src/lib/googleSheetsService.js:19 | removes a trailing slash when there is one and otherwise returns the string unchanged |
| `SheetsService.DropLeadingSlash` | src/lib/googleSheetsService.js:19 | removes a leading slash when there is one and otherwise returns the string unchanged |
| `SheetsService.JoinOneSlash` | src/lib/googleSheetsService.js:19 | with or without a trailing slash on the base and a leading slash on the path, the joined address has exactly one slash at the seam |
| `SheetsService.JoinDropsOnlyOneSlash` | src/lib/googleSheetsService.js:19 | for every base and path, only one slash is removed from each side: joining `b/` and `/p` gives `b/p`, so any further slashes in `b` or `p` survive |
| `SheetsService.TrimOr` | src/lib/googleSheetsService.js:40-43 | a present, non-blank value becomes its trimmed form; a missing or blank one becomes the fallback |
| `SheetsService.WithId` | src/lib/googleSheetsService.js:37-47 | keeps a truthy id and otherwise generates `stamp_suffix`, so the id is always non-empty. Trims name, email and course, with a missing one becoming `''`. Trims status, with a missing or blank one becoming "Active". Keeps a truthy `createdAt`, else uses now. `updatedAt` is now |
| `SheetsService.WithIdStable` | src/lib/googleSheetsService.js:37-47 | normalising a normalised record changes only `updatedAt` |
| `SheetsService.FindIndex` | src/lib/googleSheetsService.js:74 | returns the first index holding the id, or None iff no record holds it |
| `SheetsService.LocalStore.ListStudents` | src/lib/googleSheetsService.js:24-31 | a saved array is returned as stored; a missing or unparseable item reads as the empty array; a non-array value is passed on |
| `SheetsService.LocalStore.CreateStudent` | src/lib/googleSheetsService.js:58-65 | returns the normalised record, and the store becomes that record followed by the old records in their old order; a stored non-array rejects and nothing is written |
| `SheetsService.LocalStore.UpdateStudent` | src/lib/googleSheetsService.js:70-80 | an absent id rejects with Not found and nothing is written. For a present id only the first matching index changes, to the old record overlaid with the payload and stamped with now |
| `SheetsService.LocalStore.DeleteStudent` | src/lib/googleSheetsService.js:85-92 | the store becomes the old records without that id, in order, and the result is success whether or not the id was present |
| `SheetsService.UpdateTouchesOneRecord` | src/lib/googleSheetsService.js:74-79 | an update keeps the length and every other index, overwrites the fields the payload carries, keeps the rest and sets `updatedAt` to now |
| `SheetsService.CreateThenFind` | src/lib/googleSheetsService.js:61-64 | after a create, a lookup by the new record's id finds index 0, the new record |
| `SheetsService.Walkthrough` | src/lib/googleSheetsService.js:58-92 | creating Jane Doe without a status gives status Active, a generated id and equal timestamps. Updating her to Graduated keeps id, `createdAt`, name, email and course. Deleting her leaves an empty list |
| `App.Search` | src/App.jsx:20-28 | a blank query returns the list itself. Otherwise the result is an order-preserving subsequence in which each record occurs as often as in the list when it has a truthy name, email, course or status whose lowercased text includes the trimmed, lowercased query, and not at all otherwise |
| `App.SearchIgnoresQueryCase` | src/App.jsx:21 | the query's letter case does not change the result |
| `App.AppState.Filtered` | src/App.jsx:20-28 | the shown list is a subsequence of the state's list, and the whole list when the query is blank |
| `App.ReplaceById` | src/App.jsx:51 | keeps the length; every entry with the returned record's id becomes that record; every other entry is unchanged |
| `App.ReplaceMirrorsStoreUpdate` | src/App.jsx:50-51 | with unique ids, replacing by id equals the store's write at the first matching index, and ids stay unique |
| `App.AppState.constructor` | src/App.jsx:14-18 | starts with an empty list, loading, no error, nothing edited and an empty query |
| `App.AppState.SetQuery` | src/App.jsx:90 | only the query changes |
| `App.AppState.BeginLoad` | src/App.jsx:31-32 | loading becomes true and the error is cleared |
| `App.AppState.FinishLoad` | src/App.jsx:33-40 | an array result becomes the list and a non-array result becomes `[]`. A rejection keeps the list and sets "Failed to load students". Loading ends either way |
| `App.AppState.HandleEdit` | src/App.jsx:62 | only `editing` changes, to the chosen record |
| `App.AppState.HandleCancelEdit` | src/App.jsx:74 | only `editing` changes, to none |
| `App.AppState.HandleSubmit` | src/App.jsx:47-60 | issues an update for the edited id, or a create when nothing is being edited. On success it replaces by id or prepends the new record, and `editing` becomes null. On failure the list and `editing` are unchanged and the error is "Save failed" |
| `App.AppState.HandleDelete` | src/App.jsx:64-72 | on success every entry with the id is removed, and `editing` is cleared iff it held that id. On failure the list and `editing` are unchanged and the error is "Delete failed" |
| `App.MirroredSubmit` | src/App.jsx:47-56 | a list equal to what the local store lists (`[]` for a store never written), with unique ids, still equals it, with unique ids, after a save through the store |
| `App.SubmitFromForm` | src/App.jsx:47-60 | with `handleSubmit` as the form's `onSubmit`, the form is cleared and leaves the submitting state after every save; a failed save also sets "Save failed" and keeps the list and `editing` |
| `App.MirroredDelete` | src/App.jsx:64-68 | a list equal to what the local store lists (`[]` for a store never written), with unique ids, still equals it after a delete through the store |
| `StudentTable.Flip` | src/components/StudentTable.jsx:37 | flipping always changes the direction |
| `StudentTable.Compare` | src/components/StudentTable.jsx:26-32 | the comparator is 0 iff the lowercased sort texts are equal. Ascending, it is negative iff a's text is below b's; descending, iff it is above |
| `StudentTable.ComparePrecedes` | src/components/StudentTable.jsx:26-32 | a non-positive comparison means a may stand before b, and a positive one means b may stand before a |
| `StudentTable.PrecedesTransitive` | src/components/StudentTable.jsx:26-32 | the order the comparator induces is transitive |
| `StudentTable.SortInPlace` | src/components/StudentTable.jsx:26 | the array ends up ordered pairwise and is a permutation of what it held |
| `StudentTable.Insert` | src/components/StudentTable.jsx:26 | one insertion step extends the ordered prefix by one element and keeps the multiset |
| `StudentTable.TableState.constructor` | src/components/StudentTable.jsx:21-22 | the initial sort is `createdAt`, descending |
| `StudentTable.TableState.SetSort` | src/components/StudentTable.jsx:36-42 | the same key flips the direction; another key becomes current with direction ascending |
| `StudentTable.TableState.Sorted` | src/components/StudentTable.jsx:24-34 | returns a new list that is a permutation of the input and in order by the current key and direction |
| `StudentTable.OrderedAscending` | src/components/StudentTable.jsx:29-30 | in ascending order each row's lowercased sort text (missing as `''`) is equal to or above the previous row's |
| `StudentTable.OrderedDescending` | src/components/StudentTable.jsx:29-30 | in descending order each row's sort text is equal to or below the previous row's |
| `StudentTable.BadgeClass` | src/components/StudentTable.jsx:5-12 | active, graduated and pending (any case) get their own colour; every other or missing status gets the neutral colour |
| `StudentTable.BadgeLabel` | src/components/StudentTable.jsx:15 | the label is the status, or a dash when it is missing or empty |
| `StudentTable.BadgeIgnoresCase` | src/components/StudentTable.jsx:5 | the badge colour does not depend on the status's case |
| `StudentTable.ReadTable` | src/components/StudentTable.jsx:6-12 | reading the plain-object table finds the own entries, then inherited `Object.prototype` members, else undefined |
| `StudentTable.BadgeClassAsWritten` | src/components/StudentTable.jsx:12 | as written, the lookup agrees with `BadgeClass` on the table's keys and on names that are not inherited members |
| `StudentTable.BadgeAsWrittenMissesFallback` | src/components/StudentTable.jsx:12 | the statuses "Constructor" and "__proto__" read an inherited member instead of falling back to neutral |
| `StatsCards.CountStatus` | src/components/StatsCards.jsx:5-7 | the count is the number of positions whose record's status, missing as `''` and lowercased, equals the word; so it is at most the total, and zero iff no record matches |
| `StatsCards.Stats` | src/components/StatsCards.jsx:4-7 | total is the number of records; active, graduated and pending are the numbers of records whose lowercased status is that word; the three together are at most the total |
| `Seqs.Count` | src/components/StatsCards.jsx:5-7 | `filter(p).length` is the number of positions whose element passes; at most the length, and zero iff nothing passes |
| `StatsCards.ThreeStatusesFit` | src/components/StatsCards.jsx:5-7 | the three status counts together never exceed the number of records |
| `StatsCards.MissingStatusUncounted` | src/components/StatsCards.jsx:5-7 | a record with a missing or empty status raises the total only |
| `StatsCards.CountIgnoresCase` | src/components/StatsCards.jsx:5-7 | lowercasing one record's status changes no count |
| `StudentForm.BlankForm` | src/components/StudentForm.jsx:3 | the blank form is what a record with no values fills in, and its own payload fills it back unchanged |
| `Records.Or` | src/components/StudentForm.jsx:11-14 | `v \|\| fallback` on a property: a present, non-empty value is kept, and a missing or empty one becomes the fallback |
| `StudentForm.Form.With` | src/components/StudentForm.jsx:20 | the named input takes the value and the other inputs keep theirs |
| `StudentForm.Form.ToPayload` | src/components/StudentForm.jsx:27 | the payload copies the four form values and carries no id or timestamps |
| `StudentForm.FromRecord` | src/components/StudentForm.jsx:10-15 | truthy record fields are taken as they are. A missing or empty name, email or course becomes `''`, and a missing or empty status becomes "Active" |
| `StudentForm.FormRoundTrip` | src/components/StudentForm.jsx:10-15 | filling the form from its own payload gives back the same values when none is empty |
| `StudentForm.IsEdit` | src/components/StudentForm.jsx:34 | the form is in edit mode iff it was given a record with a truthy id |
| `StudentForm.FormState.constructor` | src/components/StudentForm.jsx:3-7 | the form starts empty with status Active and not submitting |
| `StudentForm.FormState.ApplyDefaults` | src/components/StudentForm.jsx:9-16 | a given record fills the form; none leaves it unchanged |
| `StudentForm.FormState.HandleChange` | src/components/StudentForm.jsx:18-21 | only the named input changes |
| `StudentForm.FormState.BeginSubmit` | src/components/StudentForm.jsx:23-27 | `submitting` becomes true and a copy of the form is sent |
| `StudentForm.FormState.FinishSubmit` | src/components/StudentForm.jsx:28-31 | success resets the form to empty and failure keeps it; `submitting` becomes false either way |

## Findings

| source | as written | input that shows it | evidently intended | confidence | as-written member | corrected member |
|---|---|---|---|---|---|---|
| src/components/StudentTable.jsx:6-12 | `map[s] \|\| neutral` reads a plain object, so lowercased statuses that name inherited `Object.prototype` members return that member | status "Constructor" or "__proto__" | every status outside the table gets the neutral colour | high on JavaScript lookup rules; not executed | `StudentTable.BadgeClassAsWritten` | `StudentTable.BadgeClass` |

## Left out

- Remote mode: `http`, `fetch`, the GET/POST/PUT/DELETE branches, `encodeURIComponent` and the response handling are network I/O against a backend that is not part of this model. `join` is modelled on its own.
- Storage and serialisation: `localStorage.getItem`/`setItem` and `JSON.parse`/`stringify` are replaced by the `Slot` datatype. A stored JSON string, which is iterable although it is not an array, is not distinguished from the other non-array values.
- Property values: record properties are strings or absent. Numbers, booleans, nested objects, `null` versus `undefined`, extra properties and a payload property explicitly set to `undefined` (which the spread would copy) are not modelled.
- SheetsService.WithId: uses one `now` for `createdAt` and `updatedAt`, whereas the source reads the clock twice and the two readings can differ by a millisecond.
- SheetsService.WithId: the generated id is `stamp_suffix` built from inputs. The source does not make it unique, so `App.MirroredSubmit` requires that it is fresh.
- Text.Lower: lowers ASCII letters only; `toLowerCase` also lowers the rest of Unicode.
- Text.LexLess: compares Unicode scalar values; JavaScript compares UTF-16 code units, which orders characters outside the Basic Multilingual Plane differently.
- StudentTable.TableState.Sorted: states permutation and order, but not that rows with equal sort text keep their input order. The insertion sort keeps that order, as `Array.prototype.sort` does.
- `formatDate` is display only: a present timestamp goes through the locale-dependent `toLocaleDateString`, and a missing one shows a dash.
- The ordering of timestamps (`updatedAt` not before `createdAt`) is not stated, because the clock is an input.
- Delays (`delay`, `setTimeout`), the async sequencing itself, and overlapping calls are not modelled. Each call is taken to settle before the next begins.
- Rendering: JSX markup, styling beyond the badge colours, icons, the `Th` header cell, the loading placeholder of the cards and the `HeroCover` scene.
