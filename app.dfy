/** The single-page client: its state variables and refs as fields, each
    handler as a method. A handler's calls to the server are returned, in the
    order the handler issues them, as a list of requests; the answers come
    back through `ReceiveBookmarks` and `ReceiveFolders`. The current time
    and the clipboard are inputs of the handlers that read them. */
module Client {
  import opened Wrappers
  import opened Seqs
  import opened Text
  import opened Entities
  import opened AutoPaste
  import opened View

  /** A call to the server: method, path and body. */
  datatype Request =
    | GetFolders
    | GetBookmarks(query: string)
    | PostBookmark(url: string, folderIds: Option<seq<int>>)
    | PatchBookmark(bookmarkId: int, newFolderIds: seq<int>)
    | DeleteBookmarkRequest(bookmarkId: int)
    | PostFolder(name: string)
    | PatchFolder(folderId: int, name: string)
    | DeleteFolderRequest(folderId: int, mode: string)
    | GetPreview(url: string)

  /** The folder-delete dialog: open or not, and the folder it is about. */
  datatype DeleteDialog = DeleteDialog(open: bool, id: Option<int>, name: string)

  /** The membership dialog: open or not, and the bookmark it edits. */
  datatype FolderDialog = FolderDialog(open: bool, bookmark: Option<Bookmark>)

  const ClosedDeleteDialog := DeleteDialog(false, None, "")
  const ClosedFolderDialog := FolderDialog(false, None)

  class App {
    var url: string
    var autoPasted: bool
    var lastSaveAt: int
    var lastClipboard: string
    var autoPasteUsed: bool
    var bookmarks: seq<Bookmark>
    var folders: seq<Folder>
    var activeFolder: Option<int>
    var newFolderName: string
    var editFolderId: Option<int>
    var editFolderName: string
    var deleteModal: DeleteDialog
    var deleteMode: string
    var selectedFolderIds: seq<int>
    var folderModal: FolderDialog
    var folderModalIds: seq<int>
    var previews: map<int, Preview>

    function Paste(): PasteState
      reads this
    {
      PasteState(url, autoPasted, lastSaveAt, lastClipboard, autoPasteUsed)
    }

    /** The folder selection of the bookmark form never lists a folder
        twice. */
    ghost predicate Valid()
      reads this
    {
      NoDup(selectedFolderIds)
    }

    /** The initial values of the state variables and refs. */
    constructor()
      ensures Valid()
      ensures Paste() == Initial
      ensures bookmarks == [] && folders == [] && activeFolder == None
      ensures newFolderName == "" && editFolderId == None && editFolderName == ""
      ensures deleteModal == ClosedDeleteDialog && deleteMode == "keep" && selectedFolderIds == []
      ensures folderModal == ClosedFolderDialog && folderModalIds == [] && previews == map[]
    {
      url := "";
      bookmarks := [];
      folders := [];
      activeFolder := None;
      newFolderName := "";
      editFolderId := None;
      editFolderName := "";
      deleteModal := ClosedDeleteDialog;
      deleteMode := "keep";
      selectedFolderIds := [];
      folderModal := ClosedFolderDialog;
      folderModalIds := [];
      previews := map[];
      lastSaveAt := 0;
      lastClipboard := "";
      autoPasteUsed := false;
      autoPasted := false;
    }

    /** The first render loads the folders and every bookmark. */
    method Mount() returns (reqs: seq<Request>)
      ensures |reqs| == 2 && reqs[0] == GetFolders && reqs[1] == GetBookmarks("")
      ensures ParseQuery(reqs[1].query) == None
    {
      reqs := [GetFolders, GetBookmarks(QueryString(None))];
      QueryRoundTrip(None);
    }

    /** An answer to a bookmark listing replaces the shown bookmarks. */
    method ReceiveBookmarks(bs: seq<Bookmark>)
      modifies this`bookmarks
      ensures bookmarks == bs
    {
      bookmarks := bs;
    }

    /** An answer to the folder listing replaces the shown folders. */
    method ReceiveFolders(fs: seq<Folder>)
      modifies this`folders
      ensures folders == fs
    {
      folders := fs;
    }

    /** `tryPasteFromClipboard` at time `now`; `clip` is the text read, or
        None when the read failed (then nothing changes). */
    method TryPasteFromClipboard(now: int, clip: Option<string>)
      modifies this`url, this`autoPasted, this`lastClipboard, this`autoPasteUsed
      ensures Paste() == Focus(old(Paste()), now, clip)
    {
      if now - lastSaveAt < Cooldown {
        return;
      }
      if clip.None? {
        return;
      }
      var text := clip.value;
      if text != lastClipboard {
        lastClipboard := text;
        autoPasteUsed := false;
      }
      if autoPasteUsed {
        return;
      }
      if text != "" && text != url && url == "" {
        url := text;
        autoPasted := true;
        autoPasteUsed := true;
      }
    }

    /** The url input's change handler. */
    method TypeUrl(typed: string)
      modifies this`url, this`autoPasted
      ensures Paste() == Edit(old(Paste()), typed)
    {
      url := typed;
      autoPasted := false;
    }

    /** The Clear button next to a pasted url. */
    method ClearUrl()
      modifies this`url, this`autoPasted
      ensures Paste() == Clear(old(Paste()))
    {
      url := "";
      autoPasted := false;
    }

    /** `addBookmark` finishing at time `now`: a blank url sends nothing and
        changes nothing. Otherwise the url goes to the server as typed, with
        the selected folders or no folder list at all when none is selected;
        the form empties, the cooldown starts, the selection clears and the
        current listing is reloaded. */
    method AddBookmark(now: int) returns (reqs: seq<Request>)
      requires Valid()
      modifies this`url, this`autoPasted, this`lastSaveAt, this`selectedFolderIds
      ensures Valid()
      ensures Paste() == Save(old(Paste()), now)
      ensures Trim(old(url)) == "" ==> reqs == [] && selectedFolderIds == old(selectedFolderIds)
      ensures Trim(old(url)) != "" ==>
        && reqs == [PostBookmark(old(url), if old(selectedFolderIds) == [] then None else Some(old(selectedFolderIds))),
                    GetBookmarks(QueryString(activeFolder))]
        && selectedFolderIds == []
    {
      ghost var before := Paste();
      if Trim(url) == "" {
        return [];
      }
      assert Save(before, now) == before.(url := "", autoPasted := false, lastSaveAt := now);
      var post := PostBookmark(url, if |selectedFolderIds| > 0 then Some(selectedFolderIds) else None);
      url := "";
      autoPasted := false;
      lastSaveAt := now;
      selectedFolderIds := [];
      reqs := [post, GetBookmarks(QueryString(activeFolder))];
    }

    /** A folder checkbox of the bookmark form. */
    method ToggleSelected(folderId: int)
      requires Valid()
      modifies this`selectedFolderIds
      ensures Valid()
      ensures selectedFolderIds == Toggle(old(selectedFolderIds), folderId)
    {
      selectedFolderIds := Toggle(selectedFolderIds, folderId);
    }

    /** `deleteBookmark`: delete, then reload the current listing. */
    method DeleteBookmark(bookmarkId: int) returns (reqs: seq<Request>)
      ensures |reqs| == 2 && reqs[0] == DeleteBookmarkRequest(bookmarkId) && reqs[1].GetBookmarks?
      ensures ParseQuery(reqs[1].query) == if activeFolder == Some(0) then None else activeFolder
    {
      reqs := [DeleteBookmarkRequest(bookmarkId), GetBookmarks(QueryString(activeFolder))];
      QueryRoundTrip(activeFolder);
    }

    /** `openFolderModal`: the dialog starts from the bookmark's folders. */
    method OpenFolderModal(b: Bookmark)
      modifies this`folderModal, this`folderModalIds
      ensures folderModal == FolderDialog(true, Some(b)) && folderModalIds == b.folderIds
    {
      folderModal := FolderDialog(true, Some(b));
      folderModalIds := b.folderIds;
    }

    /** `closeFolderModal`. */
    method CloseFolderModal()
      modifies this`folderModal, this`folderModalIds
      ensures folderModal == ClosedFolderDialog && folderModalIds == []
    {
      folderModal := ClosedFolderDialog;
      folderModalIds := [];
    }

    /** A folder checkbox of the membership dialog. */
    method ToggleModalFolder(folderId: int)
      modifies this`folderModalIds
      ensures folderModalIds == Toggle(old(folderModalIds), folderId)
    {
      folderModalIds := Toggle(folderModalIds, folderId);
    }

    /** `saveFolderModal`: without a bookmark nothing happens; otherwise its
        membership becomes the checked folders (possibly none), the dialog
        closes and the current listing is reloaded. */
    method SaveFolderModal() returns (reqs: seq<Request>)
      modifies this`folderModal, this`folderModalIds
      ensures old(folderModal.bookmark).None? ==>
        reqs == [] && folderModal == old(folderModal) && folderModalIds == old(folderModalIds)
      ensures old(folderModal.bookmark).Some? ==>
        && reqs == [PatchBookmark(old(folderModal.bookmark).value.id, old(folderModalIds)),
                    GetBookmarks(QueryString(activeFolder))]
        && folderModal == ClosedFolderDialog && folderModalIds == []
    {
      if folderModal.bookmark.None? {
        return [];
      }
      var patch := PatchBookmark(folderModal.bookmark.value.id, folderModalIds);
      folderModal := ClosedFolderDialog;
      folderModalIds := [];
      reqs := [patch, GetBookmarks(QueryString(activeFolder))];
    }

    /** The new-folder input's change handler. */
    method TypeNewFolderName(typed: string)
      modifies this`newFolderName
      ensures newFolderName == typed
    {
      newFolderName := typed;
    }

    /** `addFolder`: a blank name sends nothing; otherwise the trimmed name is
        sent, the input empties and the folders are reloaded. */
    method AddFolder() returns (reqs: seq<Request>)
      modifies this`newFolderName
      ensures Trim(old(newFolderName)) == "" ==> reqs == [] && newFolderName == old(newFolderName)
      ensures Trim(old(newFolderName)) != "" ==>
        reqs == [PostFolder(Trim(old(newFolderName))), GetFolders] && newFolderName == ""
    {
      var name := Trim(newFolderName);
      if name == "" {
        return [];
      }
      newFolderName := "";
      reqs := [PostFolder(name), GetFolders];
    }

    /** `startEditFolder`. */
    method StartEditFolder(f: Folder)
      modifies this`editFolderId, this`editFolderName
      ensures editFolderId == Some(f.id) && editFolderName == f.name
    {
      editFolderId := Some(f.id);
      editFolderName := f.name;
    }

    /** The rename input's change handler. */
    method TypeEditFolderName(typed: string)
      modifies this`editFolderName
      ensures editFolderName == typed
    {
      editFolderName := typed;
    }

    /** `saveEditFolder`: nothing happens for a blank name or when no folder
        is being edited (id 0 is a folder being edited); otherwise the trimmed
        name is sent, editing ends and the folders are reloaded. */
    method SaveEditFolder() returns (reqs: seq<Request>)
      modifies this`editFolderId, this`editFolderName
      ensures Trim(old(editFolderName)) == "" || old(editFolderId).None? ==>
        reqs == [] && editFolderId == old(editFolderId) && editFolderName == old(editFolderName)
      ensures Trim(old(editFolderName)) != "" && old(editFolderId).Some? ==>
        && reqs == [PatchFolder(old(editFolderId).value, Trim(old(editFolderName))), GetFolders]
        && editFolderId == None && editFolderName == ""
    {
      var name := Trim(editFolderName);
      if name == "" || editFolderId.None? {
        return [];
      }
      var patch := PatchFolder(editFolderId.value, name);
      editFolderId := None;
      editFolderName := "";
      reqs := [patch, GetFolders];
    }

    /** `cancelEditFolder`. */
    method CancelEditFolder()
      modifies this`editFolderId, this`editFolderName
      ensures editFolderId == None && editFolderName == ""
    {
      editFolderId := None;
      editFolderName := "";
    }

    /** `openDeleteModal`: the dialog opens on the folder with "keep"
        preselected. */
    method OpenDeleteModal(f: Folder)
      modifies this`deleteMode, this`deleteModal
      ensures deleteMode == "keep" && deleteModal == DeleteDialog(true, Some(f.id), f.name)
    {
      deleteMode := "keep";
      deleteModal := DeleteDialog(true, Some(f.id), f.name);
    }

    /** `closeDeleteModal`. */
    method CloseDeleteModal()
      modifies this`deleteModal
      ensures deleteModal == ClosedDeleteDialog
    {
      deleteModal := ClosedDeleteDialog;
    }

    /** The two radio buttons of the delete dialog. */
    method SetDeleteMode(mode: string)
      requires mode == "keep" || mode == "delete"
      modifies this`deleteMode
      ensures deleteMode == mode
    {
      deleteMode := mode;
    }

    /** `confirmDeleteFolder`: without a folder (no id, or the falsy id 0)
        nothing happens. Otherwise the delete is sent with the chosen mode; a
        filter on the deleted folder is dropped; the dialog closes; and the
        folders and the listing under the new filter are reloaded. */
    method ConfirmDeleteFolder() returns (reqs: seq<Request>)
      modifies this`activeFolder, this`deleteModal
      ensures old(deleteModal.id).None? || old(deleteModal.id) == Some(0) ==>
        reqs == [] && activeFolder == old(activeFolder) && deleteModal == old(deleteModal)
      ensures old(deleteModal.id).Some? && old(deleteModal.id) != Some(0) ==>
        && activeFolder == (if old(activeFolder) == old(deleteModal.id) then None else old(activeFolder))
        && activeFolder != old(deleteModal.id)
        && reqs == [DeleteFolderRequest(old(deleteModal.id).value, deleteMode), GetFolders,
                    GetBookmarks(QueryString(activeFolder))]
        && deleteModal == ClosedDeleteDialog
    {
      if deleteModal.id.None? || deleteModal.id.value == 0 {
        return [];
      }
      var id := deleteModal.id.value;
      var shown := activeFolder;
      if shown == Some(id) {
        activeFolder := None;
      }
      deleteModal := ClosedDeleteDialog;
      reqs := [DeleteFolderRequest(id, deleteMode), GetFolders,
               GetBookmarks(QueryString(if shown == Some(id) then None else shown))];
    }

    /** The "All" button: no filter, every bookmark. */
    method ShowAll() returns (reqs: seq<Request>)
      modifies this`activeFolder
      ensures activeFolder == None
      ensures reqs == [GetBookmarks(QueryString(None))]
    {
      activeFolder := None;
      reqs := [GetBookmarks(QueryString(None))];
    }

    /** A folder button: filter on that folder and list it. */
    method ShowFolder(folderId: int) returns (reqs: seq<Request>)
      modifies this`activeFolder
      ensures activeFolder == Some(folderId)
      ensures reqs == [GetBookmarks(QueryString(Some(folderId)))]
    {
      activeFolder := Some(folderId);
      reqs := [GetBookmarks(QueryString(Some(folderId)))];
    }

    /** `loadPreviews`, with `fetch` standing for the server's preview of a
        url: nothing is requested when every shown bookmark has a cached
        preview; otherwise one request per missing bookmark, in list order,
        and the whole batch is merged into the cache at once. Afterwards
        every shown bookmark has a preview and no cached one was replaced. */
    method LoadPreviews(fetch: string -> Preview) returns (reqs: seq<Request>)
      modifies this`previews
      ensures var missing := Missing(bookmarks, old(previews));
        && |reqs| == |missing|
        && (forall i :: 0 <= i < |reqs| ==> reqs[i] == GetPreview(missing[i].url))
        && previews == (if missing == [] then old(previews) else Merge(old(previews), Entries(missing, fetch)))
      ensures forall b :: b in bookmarks ==> b.id in previews
      ensures forall k :: k in old(previews) ==> k in previews && previews[k] == old(previews)[k]
    {
      var missing := Missing(bookmarks, previews);
      MergeFillsMissing(bookmarks, previews, fetch);
      if |missing| == 0 {
        return [];
      }
      reqs := seq(|missing|, i requires 0 <= i < |missing| => GetPreview(missing[i].url));
      previews := Merge(previews, Entries(missing, fetch));
    }
  }
}
