# Notes (DynamoDB backend and React client), modelled in Dafny

This project models the two pieces of logic in the notes application.

The first is the backend's note store. The five HTTP handlers in `backend/routes.py` become methods of a
`NoteTable` class. The DynamoDB table is a map from primary key `(userId, noteId)` to the stored item. Every
request acts for the fixed user `user123`. Listing is a pipeline of functions:

- a partition query;
- a case-insensitive substring filter on title or content;
- a stable sort by `updatedAt`, newest first.

A partial update builds a DynamoDB `SET` expression clause by clause. The store then applies that expression.

The second is the client's coordination logic. Three React components become classes whose fields are the
components' state:

- `App` holds the selected note and the refresh counter;
- `NoteEditor` holds the editable title and content and the saving and deleting flags;
- `NotesList` holds the fetched notes, the search term and the loading flag.

A fourth class, `Screen`, models what `App` renders. The editor receives App's selection. The list is
re-created whenever the refresh counter changes, because the counter is the list's `key`.

Each network call is represented by two parameters. The request a handler issues is an out-parameter. The
outcome the network delivers (success with a value, or failure) is an in-parameter. The id of a new note
and the clock reading are parameters as well. The user's answer to the delete confirmation is a boolean
parameter.

Files:

- `common.dfy`: an `Option` type.
- `text.dfy`: ASCII lower-casing, the substring test, JavaScript `trim`, and Python's string order.
- `models.dfy`: the request and item shapes.
- `routes.dfy`: the backend handlers.
- `api.dfy`: the client's notes, requests and call outcomes.
- `note_editor.dfy`, `notes_list.dfy`, `app.dfy`: the three components and the page.

The backend's `update_note` is a partial update: a field the request leaves out keeps its value. The client
always sends both fields. A listing is ordered by `updatedAt`, newest first.

## Model

| member | source | states |
|---|---|---|
| Text.LowerChar | backend/routes.py:53 | an upper-case ASCII letter becomes the lower-case letter at the same place in the alphabet; every other character passes through unchanged |
| Text.Lower | backend/routes.py:53 | the result has the input's length, is lower-cased position by position, and holds no upper-case letter |
| Text.LowerIdempotent | backend/routes.py:53 | lower-casing twice gives the same string as lower-casing once |
| Text.ContainsIff | backend/routes.py:56-57 | the left-to-right scan behind `term in text` succeeds exactly when the term occurs at some position of the text |
| Text.TrimStart | frontend/src/NoteEditor.jsx:21 | the result is a suffix of the input; what was dropped is all whitespace; the result does not start with whitespace |
| Text.TrimEnd | frontend/src/NoteEditor.jsx:21 | the result is a prefix of the input; what was dropped is all whitespace; the result does not end with whitespace |
| Text.TrimEmptyIffBlank | frontend/src/NoteEditor.jsx:21 | `s.trim()` is empty exactly when every character of `s` is ECMAScript whitespace |
| Text.LexLeTotal | backend/routes.py:61 | any two `updatedAt` strings are comparable under Python's string order |
| Text.LexLeTransitive | backend/routes.py:61 | Python's string order is transitive |
| Text.LexLeAntisymmetric | backend/routes.py:61 | two strings that are each at most the other are equal |
| Routes.Filter | backend/routes.py:52-58 | a note is kept exactly when it is in the input and the lower-cased term occurs in its lower-cased title or content; nothing is added |
| Routes.FilterEmptyKeepsAll | backend/routes.py:52 | filtering with the empty term would keep every note, so skipping the filter for an empty term loses nothing |
| Routes.FilterKeepsIdsDistinct | backend/routes.py:54-58 | filtering never introduces two notes with the same id |
| Routes.InsertByUpdatedDesc | backend/routes.py:61 | inserting a note adds exactly that note to the multiset of notes |
| Routes.InsertKeepsOrder | backend/routes.py:61 | inserting into a newest-first list keeps it newest first |
| Routes.InsertInFront | backend/routes.py:61 | a note no older than the head of a newest-first list can go in front of it |
| Routes.InsertBehind | backend/routes.py:61 | when the head is newer, keeping the head in front of the rest with the note inserted keeps the list newest first |
| Routes.PrependKeepsOrder | backend/routes.py:61 | a note no older than every note of a newest-first list can go in front of it |
| Routes.SortByUpdatedDesc | backend/routes.py:61 | the result is a permutation of the input, and no note in it is followed by one with a later `updatedAt` |
| Routes.SortKeepsMembers | backend/routes.py:61 | sorting neither adds nor drops a note |
| Routes.SortKeepsIdsDistinct | backend/routes.py:61 | sorting never introduces two notes with the same id |
| Routes.InsertKeepsIdsDistinct | backend/routes.py:61 | inserting a note whose id is new keeps the ids distinct |
| Routes.Assign | backend/routes.py:123-131 | one `SET` clause gives its attribute the clause's value and leaves the other attributes, the key and `createdAt` alone |
| Routes.ApplyAll | backend/routes.py:123-131 | applying an update expression never changes `userId`, `noteId` or `createdAt` |
| Routes.ApplyAllValue | backend/routes.py:109-131 | after an expression that names each attribute at most once, an attribute holds the value the expression gives it, or its old value when the expression does not name it |
| Routes.NotAssigned | backend/routes.py:114-120 | an expression without a clause for an attribute gives that attribute no value |
| Routes.AssignedAppend | backend/routes.py:114-120 | appending a clause can only give a value to an attribute the expression did not yet name |
| Routes.BuildUpdate | backend/routes.py:109-120 | the expression names no attribute twice, starts with `updatedAt = now`, and sets `title` or `content` exactly when the request supplies it, to the supplied value |
| Routes.NoteTable.CreateNote | backend/routes.py:13-31 | the stored and returned item has user `user123`, the given id, title and content, and `createdAt == updatedAt == now`; only that key changes; with a fresh id the table grows by exactly one item |
| Routes.NoteTable.Query | backend/routes.py:42-49 | every item of the user's partition is returned exactly once, and nothing else |
| Routes.NoteTable.GetAllNotes | backend/routes.py:36-63 | only stored notes of `user123` are returned, with no id twice; with a non-empty term every returned note matches and every stored matching note is returned; with no term or an empty one all of the user's notes are returned; the list is newest first |
| Routes.NoteTable.GetNote | backend/routes.py:68-84 | the stored note of `user123` under the id is returned, and the call fails with 404 exactly when there is none |
| Routes.NoteTable.UpdateNote | backend/routes.py:91-141 | a missing id fails with 404 and changes nothing; otherwise only that item changes: `updatedAt` becomes `now`, `title` and `content` change only when supplied, the key and `createdAt` stay, and the updated item is returned |
| Routes.NoteTable.DeleteNote | backend/routes.py:148-173 | a missing id fails with 404 and changes nothing; otherwise exactly that key is removed, the table shrinks by one, and the success message is returned |
| NoteEditorView.ShownTitle | frontend/src/NoteEditor.jsx:10-18 | the reset effect shows the selected note's title, or `""` when the title is missing or nothing is selected |
| NoteEditorView.ShownContent | frontend/src/NoteEditor.jsx:10-18 | the reset effect shows the selected note's content, or `""` when the content is missing or nothing is selected |
| NoteEditorView.SaveRequest | frontend/src/NoteEditor.jsx:28-32 | a save sends an update of the selected note's id exactly when a note is selected, and a create otherwise, carrying the typed title and content |
| NoteEditorView.NoteEditor.constructor | frontend/src/NoteEditor.jsx:5-18 | a mounted editor is idle and shows its first selection |
| NoteEditorView.NoteEditor.SelectedNoteChanged | frontend/src/NoteEditor.jsx:10-18 | after a selection change the fields show the new selection; the busy flags do not change |
| NoteEditorView.NoteEditor.EditTitle | frontend/src/NoteEditor.jsx:107 | typing replaces the title and nothing else |
| NoteEditorView.NoteEditor.EditContent | frontend/src/NoteEditor.jsx:116 | typing replaces the content and nothing else |
| NoteEditorView.NoteEditor.Save | frontend/src/NoteEditor.jsx:20-40 | when both fields are whitespace only, no request is sent, no callback runs and nothing changes; otherwise the request from `SaveRequest` is sent, `onNoteSaved` runs once with the returned note only on success, the fields never change, and `saving` ends false |
| NoteEditorView.NoteEditor.Delete | frontend/src/NoteEditor.jsx:42-61 | with no selection or a declined confirmation, no request is sent and nothing changes; otherwise a delete of the selected id is sent, `onNoteDeleted` runs only on success, and `deleting` ends false |
| NoteEditorView.NoteEditor.NewNote | frontend/src/NoteEditor.jsx:63-67 | the fields are cleared and `onNewNote` runs; no request is sent |
| NoteEditorView.SaveEnabledSends | frontend/src/NoteEditor.jsx:95 | while the Save button is enabled, a click sends a request |
| NotesListView.SearchArgument | frontend/src/NotesList.jsx:12 | the list call gets no search argument exactly when the search term is empty, and the term itself otherwise |
| NotesListView.RowLabel | frontend/src/NotesList.jsx:67 | a row shows the note's title, or "Untitled" when the title is missing or empty; the label is never empty |
| NotesListView.RenderRows | frontend/src/NotesList.jsx:58-71 | one row per note, in order; each row carries its own note object and label; a row is highlighted exactly when its id is the selected id |
| NotesListView.Render | frontend/src/NotesList.jsx:50-75 | the loading indicator shows exactly while loading, whatever the notes; the empty message shows exactly when not loading with no notes, and reads "No notes found" with a search term and "No notes yet" without; otherwise the rows show |
| NotesListView.AtMostOneHighlighted | frontend/src/NotesList.jsx:60-63 | when the ids are distinct, at most one row is highlighted |
| NotesListView.NotesList.constructor | frontend/src/NotesList.jsx:5-7 | a mounted list has no notes and no search term, and shows the loading indicator |
| NotesListView.NotesList.StartFetch | frontend/src/NotesList.jsx:9-12 | `loading` is raised and the list call is sent with the search argument; notes and term stay |
| NotesListView.NotesList.FinishFetch | frontend/src/NotesList.jsx:12-18 | `loading` ends false either way; a failed call keeps the old notes, and a successful one replaces them with the returned data |
| NotesListView.NotesList.ChangeSearchTerm | frontend/src/NotesList.jsx:21-23 | the term is replaced; a changed term starts exactly one fetch with the new argument, and an unchanged term starts none |
| NotesListView.NotesList.ClickRow | frontend/src/NotesList.jsx:61 | a click on a row reports that row's own note object |
| RootView.App.constructor | frontend/src/App.jsx:6-7 | nothing is selected and the refresh counter starts at 0 |
| RootView.App.HandleSelectNote | frontend/src/App.jsx:9-11 | the clicked note becomes the selection; the counter does not change |
| RootView.App.HandleNoteSaved | frontend/src/App.jsx:13-18 | a returned note becomes the selection, and a null one leaves the selection alone; the counter goes up by exactly 1 either way |
| RootView.App.HandleNoteDeleted | frontend/src/App.jsx:20-23 | the selection is cleared and the counter goes up by exactly 1 |
| RootView.App.HandleNewNote | frontend/src/App.jsx:25-27 | the selection is cleared and the counter does not change |
| RootView.App.SelectedNoteId | frontend/src/App.jsx:35 | the highlighted id is the selected note's id, or none when nothing is selected |
| RootView.Screen.constructor | frontend/src/App.jsx:5-47 | the page starts with no selection, counter 0, blank editor fields and a loading list with an empty search term; the list's first call is sent by `MountList` |
| RootView.Screen.ListPane | frontend/src/App.jsx:32-36 | a row is highlighted exactly when a note is selected and the row's note has the selected note's id |
| RootView.Screen.MountList | frontend/src/NotesList.jsx:21-23 | the list's mount effect raises `loading` and sends one list call with the list's search argument; on page load that is the unfiltered call |
| RootView.Screen.RemountList | frontend/src/App.jsx:33 | a changed key replaces the list with a fresh one that has an empty search term; its mount effect sends one unfiltered list call |
| RootView.Screen.Save | frontend/src/App.jsx:13-18 | a save whose fields are not both blank sends the editor's request; a save that the server accepts refreshes the list exactly once and selects and shows the returned note; a blank or failed save changes no state anywhere |
| RootView.Screen.Delete | frontend/src/App.jsx:20-23 | a confirmed delete with a selection sends a delete of the selected id; an accepted delete clears the selection and the editor and refreshes the list exactly once; otherwise nothing changes |
| RootView.Screen.NewNote | frontend/src/App.jsx:25-27 | the selection and the editor fields are cleared, and the list is not refreshed |
| RootView.Screen.SelectRow | frontend/src/App.jsx:9-11 | the clicked row's note becomes the selection and the editor shows it; the list is not refreshed |

## Left out

- Store failures: the 500 responses on any exception from the store are not modelled. Every store call succeeds.
- Query pagination: the partition query returns the whole partition.
- Routes.NoteTable.Query: DynamoDB returns a partition in ascending `noteId` order, and Python's stable sort keeps that order among notes with equal `updatedAt`. `Query` leaves its order open, so the model drops the `noteId` order, and with it the order of notes with equal `updatedAt` in a listing.
- Sort stability: `SortByUpdatedDesc` is a stable insertion sort, as Python's sort is. The order of notes with equal `updatedAt` is not stated.
- Lower-casing: `Text.Lower` lower-cases ASCII letters only, whereas Python's `str.lower` covers all of Unicode.
- Random ids and the clock: `uuid4` and `utcnow` are parameters. `CreateNote` does not require a fresh id. Like `put_item`, it overwrites an existing item, and its "grows by one" clause assumes a fresh id.
- Atomicity: the get-then-update and get-then-delete sequences are not atomic on the real store. The model runs each handler as one step.
- Framework plumbing: the DynamoDB client and table creation (`backend/database.py`), the FastAPI wiring and CORS (`backend/main.py`), and the HTTP and JSON layer of `frontend/src/api.js` are not part of this model. `encodeURIComponent` is not modelled either.
- Client-side get-by-id: `getNoteById` is defined in `frontend/src/api.js` but no component calls it.
- Dates: `formatDate` formats with the locale's `Date`, so the row's date line is not modelled.
- Notifications and markup: `alert` and `console.error` are dropped, and so are the JSX markup and CSS. `window.confirm` is the boolean `confirmed`.
- Editor requests in flight: `NoteEditor.Save` and `NoteEditor.Delete` run from the click to the settled outcome in one step. A render while `saving` or `deleting` is true is not modelled. The list's fetch is split at its `await`.
- Concurrency: stale search responses that arrive out of order, and the scheduling of effects and re-renders.
- Object identity: `Screen.SelectRow` re-runs the editor's reset effect when the clicked note differs in value from the current selection. React compares object identity instead, so a different object with equal fields would also reset the fields in the source. A saved note from the server is always a new object, and `Screen.Save` always resets for it.
