# MyOwnBookmark: folder and bookmark store, and the client's view state

This project models the core of MyOwnBookmark, a personal bookmark manager for
social-media post links. It has three parts.

- **The server's store** (`Store.Storage`). It holds two lists and two id counters: folders, bookmarks, the next folder id and the next bookmark id. The folder and bookmark routes change them in place.
  - A folder is created, renamed, or deleted in one of two modes. In `keep` mode the bookmarks stay and lose that folder. In `delete` mode every bookmark in the folder is removed.
  - A bookmark is created, listed (newest first, optionally filtered by folder), given a new set of folders, or deleted.
  - Each route is a method whose contract gives the whole new state and the error it answers with: the HTTP status, plus the detail as an enumeration (`Store.Detail`) whose text is `Store.DetailText`.
  - Every method keeps the store invariant: ids are unique, every id is below its counter, and a default folder exists.
- **The value-level rules of the routes** (`Entities`, `FolderRules`, `BookmarkRules`). These are the default-folder fallback, the two delete modes as functions on the bookmark list, and the listing order. The properties are proved as lemmas:
  - the listing is a sorted permutation;
  - the sort is stable;
  - filtering commutes with the sort;
  - `delete` mode keeps the other bookmarks in order.
- **The single-page client** (`Client.App`). Its state variables and refs are fields, and each event handler is a method. The calls a handler makes to the server are returned as a list of `Client.Request` values, in order. The server's answers come back through `ReceiveBookmarks` and `ReceiveFolders`. The pure parts are functions:
  - the clipboard auto-paste policy (`AutoPaste`), with its offer-once and never-overwrite lemmas over arbitrary event runs;
  - the checkbox toggles;
  - the list of bookmarks missing a preview, and the merge of fetched previews into the cache;
  - the query string of a listing, with a parse-back lemma (`View`).

The current time (`Date.now()`, `datetime.utcnow()`), the clipboard contents
and the server's link preview of a url are parameters of the operations that
use them. A failed clipboard read is `None`.

Behaviour worth knowing, as the code does it:

- `delete` mode removes every bookmark that lists the folder, including bookmarks that are also in other folders.
- In `keep` mode, a bookmark left with no folders gets the default folders' ids.
- Updating a bookmark with an absent or empty folder list assigns the default folders. So no bookmark ends up with an empty list unless the store has no default folder.
- Requested folder ids are not checked against the existing folders.
- The client has no search text and no set of previews "currently requested".
- The client merges a whole preview batch at once. It does nothing with a batch that did not fully arrive.
- Saving a bookmark does not re-arm the auto-paste policy. Only a new clipboard text does.

## Model

| member | source | states |
|---|---|---|
| Text.Trim | backend/app/routers/folders.py:15 | the result is a slice of the input with only whitespace before it and only whitespace after it, and it neither starts nor ends with whitespace; it is empty exactly when the input is all whitespace |
| Text.TrimIdempotent | frontend/src/App.jsx:79 | trimming twice with the model's trim equals trimming once |
| Seqs.FirstIndexBy | backend/app/routers/folders.py:46 | the result is the first position holding the key, and None exactly when no position holds it |
| Entities.DefaultIds | backend/app/routers/folders.py:61 | an id is in the result exactly when a default folder has it; the result is non-empty when a default folder exists |
| Entities.EffectiveFolderIds | backend/app/routers/bookmarks.py:12 | a non-empty request is kept as sent; an absent or empty one becomes exactly the default folders' ids |
| FolderRules.Unfiled | backend/app/routers/folders.py:58-67 | a bookmark in the folder loses that id when it has another folder, and otherwise gets the default ids |
| FolderRules.KeepMode | backend/app/routers/folders.py:56-67 | same count; each bookmark keeps its id, url and time; untouched bookmarks stay equal; other memberships are kept; the emptied-list fallback applies; no bookmark lists a non-default deleted folder afterwards |
| FolderRules.DeleteMode | backend/app/routers/folders.py:54-55 | no survivor lists the folder; every bookmark outside it survives; ids stay unique |
| FolderRules.DeleteModeSurvivors | backend/app/routers/folders.py:55 | every bookmark outside the folder keeps its multiplicity, and the result of a concatenation is the concatenation of the results, so the survivors keep their order |
| FolderRules.WithoutFolder | backend/app/routers/folders.py:69 | exactly the folders with another id remain, and ids stay unique |
| FolderRules.WithoutFolderKeepsOthers | backend/app/routers/folders.py:69 | every other folder keeps its multiplicity, and the result of a concatenation is the concatenation of the results, so the other folders keep their order |
| BookmarkRules.NewestFirstHead | backend/app/routers/bookmarks.py:25 | the head of a newest-first list is at least as new as every bookmark in it |
| BookmarkRules.NewestFirstPairs | backend/app/routers/bookmarks.py:25 | in a newest-first list, every earlier position is at least as new as every later one |
| BookmarkRules.Insert | backend/app/routers/bookmarks.py:25 | inserting adds exactly the new bookmark to the members and keeps a newest-first list newest-first |
| BookmarkRules.InsertMultiset | backend/app/routers/bookmarks.py:25 | inserting adds one occurrence of the bookmark and loses nothing |
| BookmarkRules.SortNewestFirst | backend/app/routers/bookmarks.py:25 | the sort is newest-first and has the same members as its input |
| BookmarkRules.SortMultiset | backend/app/routers/bookmarks.py:25 | the sort is a permutation of its input |
| BookmarkRules.FilterInsert | backend/app/routers/bookmarks.py:25-28 | filtering after an insertion equals inserting into the filtered list, or the filtered list when the inserted bookmark fails the filter |
| BookmarkRules.FilterSort | backend/app/routers/bookmarks.py:25-28 | filtering the sorted list equals sorting the filtered list |
| BookmarkRules.SortSameTime | backend/app/routers/bookmarks.py:25 | the sort leaves a list of bookmarks with one creation time as it is |
| BookmarkRules.SortIsStable | backend/app/routers/bookmarks.py:25 | bookmarks with the same creation time keep their relative order through the sort |
| BookmarkRules.ListBookmarks | backend/app/routers/bookmarks.py:23-28 | the listing is newest-first and equals the sort of the selected bookmarks; without a folder it is a permutation of the store; with one it holds exactly the bookmarks listing it |
| BookmarkRules.WithoutBookmark | backend/app/routers/bookmarks.py:52 | exactly the bookmarks with another id remain, and ids stay unique |
| BookmarkRules.WithoutBookmarkKeepsOthers | backend/app/routers/bookmarks.py:52 | every other bookmark keeps its multiplicity, and the result of a concatenation is the concatenation of the results, so the other bookmarks keep their order |
| Store.Storage.CreateFolder | backend/app/routers/folders.py:13-23 | a blank name gives 400 and a taken name gives 409, each with no change; otherwise a non-default folder with the trimmed name and the old counter as its id is appended and the counter goes up by one; the invariant holds |
| Store.Storage.UpdateFolder | backend/app/routers/folders.py:25-38 | checks in order: blank name 400, a name held by another folder 409, default folder 400, missing id 404, none of them changing anything; on success only the first folder with the id changes, to the trimmed name |
| Store.Storage.RenameFirst | backend/app/routers/folders.py:32-38 | the scan refuses the default folder (400), renames the first folder with the id in place keeping its id and default flag, or answers 404 |
| Store.Storage.DeleteFolder | backend/app/routers/folders.py:40-70 | refuses, with no change, in order: missing folder 404, default folder 400, unknown mode 400; otherwise the folders lose the deleted one and the bookmarks are the delete-mode or keep-mode result; counters unchanged; invariant kept; after a successful delete in either mode no bookmark lists the deleted id |
| Store.Storage.UnfileAll | backend/app/routers/folders.py:56-67 | the in-place loop leaves exactly the keep-mode result, with the default ids computed from the folders before the delete; for a folder that is not a default one, no bookmark lists it afterwards |
| Store.Storage.CreateBookmark | backend/app/routers/bookmarks.py:10-21 | the new bookmark has the old counter as id, the url, the time `now` and the effective folder ids; it is appended and the counter goes up by one |
| Store.Storage.UpdateBookmark | backend/app/routers/bookmarks.py:30-46 | a missing id gives 404 with no change; otherwise only the first bookmark with the id changes, getting the effective folder ids and keeping id, url and time |
| Store.Storage.DeleteBookmark | backend/app/routers/bookmarks.py:48-53 | a missing id gives 404 with no change; otherwise the bookmarks become WithoutBookmark of the old list, which keeps exactly the other bookmarks, in order (BookmarkRules.WithoutBookmarkKeepsOthers) |
| Store.RenamePreservesInvariant | backend/app/routers/folders.py:36 | renaming in place keeps ids unique, bounded, and a default folder present |
| Store.DeletedFolderIsNotDefault | backend/app/routers/folders.py:49-50 | with unique ids, the id of a non-default folder is not a default id, so keep mode never re-files a bookmark into the deleted folder |
| Store.WithoutFolderKeepsDefault | backend/app/routers/folders.py:69 | deleting a non-default folder leaves a default folder in place |
| Store.KeepModeKeepsIds | backend/app/routers/folders.py:62-67 | the keep-mode rewrite keeps bookmark ids unique and below the counter |
| Store.ReplaceKeepsIds | backend/app/routers/bookmarks.py:38-44 | replacing a bookmark by a copy with its id keeps ids unique and below the counter |
| Store.AppendFreshId | backend/app/routers/bookmarks.py:14-20 | appending a bookmark that has the counter as its id keeps ids unique |
| AutoPaste.Focus | frontend/src/App.jsx:142-159 | inside the cooldown, or on a failed read, nothing changes; a non-empty url is never replaced; the url is filled exactly when the read text is non-empty, the url is empty and the text was not already pasted, and filling sets the pasted and used flags; a new text is recorded and re-arms the policy |
| AutoPaste.Edit | frontend/src/App.jsx:229-232 | typing sets the url and clears the pasted flag, leaving the refs alone |
| AutoPaste.Clear | frontend/src/App.jsx:238-241 | Clear empties the url and clears the pasted flag, leaving the refs alone |
| AutoPaste.Save | frontend/src/App.jsx:35 | a blank url changes nothing; otherwise the url empties, the pasted flag clears and the last save time becomes `now`; the used flag is kept |
| AutoPaste.CooldownAfterSave | frontend/src/App.jsx:144 | within the cooldown after a save, an attempt changes nothing |
| AutoPaste.UsedStaysUsed | frontend/src/App.jsx:146-150 | once a text is used, no run in which the clipboard keeps holding it fills again, whatever is typed, cleared or saved |
| AutoPaste.OfferOnce | frontend/src/App.jsx:146-155 | while the clipboard holds one text, at most one attempt along any run pastes it |
| AutoPaste.NeverOverwrites | frontend/src/App.jsx:151 | a run of attempts never changes a non-empty url |
| View.Toggle | frontend/src/App.jsx:254-256 | the id's membership flips; an absent id is appended to the unchanged list; removing keeps every other id's multiplicity, and in a duplicate-free list removes exactly the id's one position, leaving the rest in order; no duplicates are introduced |
| View.ToggleTwice | frontend/src/App.jsx:446-448 | two toggles restore the membership, and the exact list when the id was not selected |
| View.Missing | frontend/src/App.jsx:176-177 | exactly the bookmarks without a cached preview; empty exactly when every bookmark has one |
| View.Merge | frontend/src/App.jsx:186-190 | the keys are the old keys plus the fetched ones; entries nobody fetched are kept; the last entry fetched for a key wins |
| View.Entries | frontend/src/App.jsx:178-184 | one entry per missing bookmark, in order: its id and the preview of its url |
| View.MergeFillsMissing | frontend/src/App.jsx:176-190 | after merging the batch for the missing bookmarks, none is missing and no cached preview changed |
| View.QueryRoundTrip | frontend/src/App.jsx:28 | the listing route reads back the folder id the client wrote, except that id 0 sends no filter |
| Client.App.constructor | frontend/src/App.jsx:4-20 | the initial values of every state variable and ref |
| Client.App.Mount | frontend/src/App.jsx:136-139 | the first render asks for the folders, then for the listing with an empty query, which the listing route reads as no folder filter |
| Client.App.ReceiveBookmarks | frontend/src/App.jsx:29-30 | a listing answer replaces the bookmarks and nothing else |
| Client.App.ReceiveFolders | frontend/src/App.jsx:23-24 | a folder answer replaces the folders and nothing else |
| Client.App.TryPasteFromClipboard | frontend/src/App.jsx:142-159 | the five auto-paste fields change exactly as the policy function says |
| Client.App.TypeUrl | frontend/src/App.jsx:229-232 | the url and pasted flag change as Edit says |
| Client.App.ClearUrl | frontend/src/App.jsx:238-241 | the url and pasted flag change as Clear says |
| Client.App.AddBookmark | frontend/src/App.jsx:33-49 | a blank url sends nothing; otherwise the untrimmed url is posted with the selection, or with no folder list when nothing is selected; the form changes as Save says, the selection empties, and the current listing is reloaded |
| Client.App.ToggleSelected | frontend/src/App.jsx:253-257 | the selection is toggled and stays free of duplicates |
| Client.App.DeleteBookmark | frontend/src/App.jsx:51-54 | the delete is sent first, then a listing whose query the listing route reads back as the active folder filter (no filter for folder id 0) |
| Client.App.OpenFolderModal | frontend/src/App.jsx:56-59 | the dialog opens on the bookmark with its folders checked |
| Client.App.CloseFolderModal | frontend/src/App.jsx:61-64 | the dialog closes and its checks clear |
| Client.App.ToggleModalFolder | frontend/src/App.jsx:445-449 | the dialog's checks are toggled |
| Client.App.SaveFolderModal | frontend/src/App.jsx:66-75 | without a bookmark nothing happens; otherwise its new folders are sent, the dialog closes and the listing is reloaded |
| Client.App.TypeNewFolderName | frontend/src/App.jsx:273 | the new-folder input holds what was typed |
| Client.App.AddFolder | frontend/src/App.jsx:77-88 | a blank name sends nothing; otherwise the trimmed name is posted, the input empties and the folders are reloaded |
| Client.App.StartEditFolder | frontend/src/App.jsx:90-93 | editing starts on the folder's id and name |
| Client.App.TypeEditFolderName | frontend/src/App.jsx:307 | the rename input holds what was typed |
| Client.App.SaveEditFolder | frontend/src/App.jsx:95-107 | a blank name or no folder in edit sends nothing; otherwise the trimmed name is sent, editing ends and the folders are reloaded |
| Client.App.CancelEditFolder | frontend/src/App.jsx:109-112 | editing ends |
| Client.App.OpenDeleteModal | frontend/src/App.jsx:114-117 | the delete dialog opens on the folder with "keep" chosen |
| Client.App.CloseDeleteModal | frontend/src/App.jsx:119-121 | the delete dialog closes |
| Client.App.SetDeleteMode | frontend/src/App.jsx:398-411 | the chosen mode is recorded |
| Client.App.ConfirmDeleteFolder | frontend/src/App.jsx:123-134 | with no folder id, or id 0, nothing happens; otherwise the delete is sent with the mode, a filter on that folder is dropped, the dialog closes, and the folders and the listing under the new filter are reloaded |
| Client.App.ShowAll | frontend/src/App.jsx:279 | the filter is dropped and the unfiltered listing is requested |
| Client.App.ShowFolder | frontend/src/App.jsx:286 | the filter is set to the folder and its listing is requested |
| Client.App.LoadPreviews | frontend/src/App.jsx:173-196 | one preview request per missing bookmark and none when nothing is missing; the cache becomes the merge of the batch; afterwards every shown bookmark has a preview and no cached preview changed |

## Left out

- `GET /api/folders` (backend/app/routers/folders.py:9-11) only returns the folder list. It is not modelled as an operation.
- backend/app/storage.py is not part of this model. The store constructor takes any state that satisfies the invariant, so that a default folder exists is an assumption. The start-up hook in backend/app/main.py:9-19 creates a default folder in the database, not in this in-memory store, and is not modelled.
- backend/app/routers/preview.py is not modelled. It makes network calls and scrapes HTML. The client takes the preview of a url as a function parameter.
- backend/app/models.py and backend/app/schemas.py have no behaviour. The uniqueness constraints of the database tables are not what the in-memory routes enforce. Pydantic's url validation is not modelled: urls are plain strings.
- The HTTP layer (routing, JSON, query parsing by the framework) is not modelled. View.ParseQuery reads back only the well-formed integer queries the client writes.
- Text.Trim removes only the ASCII whitespace characters (space, tab, line feed, carriage return, vertical tab, form feed). Python's `strip()` and JavaScript's `trim()` also remove Unicode spaces and line terminators. They also differ from each other: Python strips U+001C to U+001F and U+0085, which JavaScript keeps, and JavaScript strips U+FEFF, which Python keeps. So a name the client trimmed can still lose characters to the server's trim. The model has one trim for both sides, and Text.TrimIdempotent is about that trim only.
- Creation times are integers. A later time is larger.
- Client.App methods run each handler as one step. Other events that interleave at the handler's `await` points are not modelled. The `cancelled` flag of the preview effect is not modelled either. Neither is a batch whose fetch fails: the code then merges nothing.
- Client.App.TryPasteFromClipboard reads the current url. The source compares against the url captured when the focus listener was registered. The listener is re-registered on every url change, so the two agree whenever the effect has run.
- The focus listener registration, the Twitter widget script, the JSX rendering and the url encoding of the preview request are not modelled. The exception is the Clear button: AutoPaste.Step takes a click on it only when the button is shown.
- Client.App.LoadPreviews counts a cached preview as present whatever its content. The source tests it for truthiness, so a JSON `null` preview would count as missing.
