/** The in-memory store behind the folder and bookmark routers: two lists and
    two id counters, updated in place by the route handlers. An error response
    of a handler is an `Err` carrying the HTTP status and the detail text. */
module Store {
  import opened Wrappers
  import opened Seqs
  import opened Text
  import opened Entities
  import opened FolderRules
  import opened BookmarkRules

  /** The `detail` of each error a handler raises. */
  datatype Detail =
    | NameRequired | NameExists | DefaultNotRenamed | FolderNotFound
    | DefaultNotDeleted | BadMode | BookmarkNotFound

  function DetailText(d: Detail): string {
    match d
    case NameRequired => "Folder name is required"
    case NameExists => "Folder name already exists"
    case DefaultNotRenamed => "Default folder cannot be renamed"
    case FolderNotFound => "Folder not found"
    case DefaultNotDeleted => "Default folder cannot be deleted"
    case BadMode => "mode must be keep or delete"
    case BookmarkNotFound => "Bookmark not found"
  }

  datatype Response<T> = Ok(value: T) | Err(status: int, detail: Detail)

  /** What every handler keeps true of the store: ids are unique within each
      list, every id is below the counter that hands out the next one, and a
      default folder exists (the server creates one at start-up). */
  ghost predicate StoreInvariant(folders: seq<Folder>, bookmarks: seq<Bookmark>, nextFolderId: int, nextBookmarkId: int) {
    && DistinctBy(folders, FolderId)
    && DistinctBy(bookmarks, BookmarkId)
    && (forall f :: f in folders ==> f.id < nextFolderId)
    && (forall b :: b in bookmarks ==> b.id < nextBookmarkId)
    && HasDefault(folders)
  }

  class Storage {
    var folders: seq<Folder>
    var bookmarks: seq<Bookmark>
    var nextFolderId: int
    var nextBookmarkId: int

    ghost predicate Valid()
      reads this
    {
      StoreInvariant(folders, bookmarks, nextFolderId, nextBookmarkId)
    }

    constructor(folders0: seq<Folder>, bookmarks0: seq<Bookmark>, nextFolderId0: int, nextBookmarkId0: int)
      requires StoreInvariant(folders0, bookmarks0, nextFolderId0, nextBookmarkId0)
      ensures Valid()
      ensures folders == folders0 && bookmarks == bookmarks0
      ensures nextFolderId == nextFolderId0 && nextBookmarkId == nextBookmarkId0
    {
      folders := folders0;
      bookmarks := bookmarks0;
      nextFolderId := nextFolderId0;
      nextBookmarkId := nextBookmarkId0;
    }

    /** `POST /api/folders`: a blank name is refused with 400, a name some
        folder already has with 409; otherwise a non-default folder with the
        trimmed name and the next id is appended. */
    method CreateFolder(rawName: string) returns (res: Response<Folder>)
      requires Valid()
      modifies this
      ensures Valid()
      ensures bookmarks == old(bookmarks) && nextBookmarkId == old(nextBookmarkId)
      ensures Trim(rawName) == "" ==>
        res == Err(400, NameRequired) && folders == old(folders) && nextFolderId == old(nextFolderId)
      ensures Trim(rawName) != "" && NameTaken(old(folders), Trim(rawName), None) ==>
        res == Err(409, NameExists) && folders == old(folders) && nextFolderId == old(nextFolderId)
      ensures Trim(rawName) != "" && !NameTaken(old(folders), Trim(rawName), None) ==>
        && res == Ok(Folder(old(nextFolderId), Trim(rawName), false))
        && folders == old(folders) + [res.value]
        && nextFolderId == old(nextFolderId) + 1
    {
      var name := Trim(rawName);
      if name == "" {
        return Err(400, NameRequired);
      }
      if exists f :: f in folders && f.name == name {
        return Err(409, NameExists);
      }
      var folder := Folder(nextFolderId, name, false);
      nextFolderId := nextFolderId + 1;
      folders := folders + [folder];
      return Ok(folder);
    }

    /** `PATCH /api/folders/{id}`: the name checks come first (blank 400,
        held by another folder 409); then the scan for the folder refuses the
        default folder with 400, renames the first folder with that id in
        place, or ends with 404. */
    method UpdateFolder(folderId: int, rawName: string) returns (res: Response<Folder>)
      requires Valid()
      modifies this
      ensures Valid()
      ensures bookmarks == old(bookmarks)
      ensures nextFolderId == old(nextFolderId) && nextBookmarkId == old(nextBookmarkId)
      ensures Trim(rawName) == "" ==> res == Err(400, NameRequired) && folders == old(folders)
      ensures Trim(rawName) != "" && NameTaken(old(folders), Trim(rawName), Some(folderId)) ==>
        res == Err(409, NameExists) && folders == old(folders)
      ensures Trim(rawName) != "" && !NameTaken(old(folders), Trim(rawName), Some(folderId)) ==>
        match FirstIndexBy(old(folders), FolderId, folderId)
        case None => res == Err(404, FolderNotFound) && folders == old(folders)
        case Some(i) =>
          if old(folders)[i].isDefault then res == Err(400, DefaultNotRenamed) && folders == old(folders)
          else res == Ok(old(folders)[i].(name := Trim(rawName))) && folders == old(folders)[i := res.value]
    {
      var name := Trim(rawName);
      if name == "" {
        return Err(400, NameRequired);
      }
      if exists f :: f in folders && f.name == name && f.id != folderId {
        return Err(409, NameExists);
      }
      res := RenameFirst(folderId, name);
    }

    /** The `enumerate` scan of a rename: the first folder with id `folderId`
        is refused when it is the default folder and otherwise renamed in
        place; no such folder is 404. */
    method RenameFirst(folderId: int, name: string) returns (res: Response<Folder>)
      requires Valid()
      modifies this
      ensures Valid()
      ensures bookmarks == old(bookmarks)
      ensures nextFolderId == old(nextFolderId) && nextBookmarkId == old(nextBookmarkId)
      ensures match FirstIndexBy(old(folders), FolderId, folderId)
        case None => res == Err(404, FolderNotFound) && folders == old(folders)
        case Some(i) =>
          if old(folders)[i].isDefault then res == Err(400, DefaultNotRenamed) && folders == old(folders)
          else res == Ok(old(folders)[i].(name := name)) && folders == old(folders)[i := res.value]
    {
      var idx := 0;
      while idx < |folders|
        invariant 0 <= idx <= |folders|
        invariant folders == old(folders)
        invariant forall j :: 0 <= j < idx ==> folders[j].id != folderId
      {
        var f := folders[idx];
        if f.id == folderId {
          FirstIndexByIs(folders, FolderId, folderId, idx);
          if f.isDefault {
            return Err(400, DefaultNotRenamed);
          }
          folders := folders[idx := Folder(f.id, name, f.isDefault)];
          RenamePreservesInvariant(old(folders), idx, name, bookmarks, nextFolderId, nextBookmarkId);
          return Ok(folders[idx]);
        }
        idx := idx + 1;
      }
      return Err(404, FolderNotFound);
    }

    /** `DELETE /api/folders/{id}?mode=...`: refuses a missing folder (404),
        the default folder (400) and any mode but "keep" and "delete" (400),
        in that order. "delete" drops every bookmark listing the folder; "keep"
        rewrites each such bookmark's membership in place. Either way the
        folder then leaves the folder list. */
    method DeleteFolder(folderId: int, mode: string) returns (res: Response<string>)
      requires Valid()
      modifies this
      ensures Valid()
      ensures nextFolderId == old(nextFolderId) && nextBookmarkId == old(nextBookmarkId)
      ensures match FirstIndexBy(old(folders), FolderId, folderId)
        case None =>
          res == Err(404, FolderNotFound) && folders == old(folders) && bookmarks == old(bookmarks)
        case Some(i) =>
          if old(folders)[i].isDefault then
            res == Err(400, DefaultNotDeleted) && folders == old(folders) && bookmarks == old(bookmarks)
          else if mode != "keep" && mode != "delete" then
            res == Err(400, BadMode) && folders == old(folders) && bookmarks == old(bookmarks)
          else
            && res == Ok("ok")
            && folders == WithoutFolder(old(folders), folderId)
            && bookmarks == (if mode == "delete" then DeleteMode(old(bookmarks), folderId)
                             else KeepMode(old(bookmarks), folderId, DefaultIds(old(folders))))
      ensures res.Ok? ==> forall b :: b in bookmarks ==> folderId !in b.folderIds
    {
      var found := FirstIndexBy(folders, FolderId, folderId);
      if found.None? {
        return Err(404, FolderNotFound);
      }
      var folder := folders[found.value];
      if folder.isDefault {
        return Err(400, DefaultNotDeleted);
      }
      if mode != "keep" && mode != "delete" {
        return Err(400, BadMode);
      }
      DeletedFolderIsNotDefault(folders, found.value);
      if mode == "delete" {
        bookmarks := DeleteMode(bookmarks, folderId);
      } else {
        UnfileAll(folderId);
      }
      WithoutFolderKeepsDefault(folders, found.value);
      folders := WithoutFolder(folders, folderId);
      return Ok("ok");
    }

    /** The "keep" loop of a folder delete: each bookmark listing `folderId`
        is replaced, at its own index, by its rewritten copy. */
    method UnfileAll(folderId: int)
      requires Valid()
      requires folderId !in DefaultIds(folders)
      modifies this
      ensures Valid()
      ensures bookmarks == KeepMode(old(bookmarks), folderId, DefaultIds(folders))
      ensures forall b :: b in bookmarks ==> folderId !in b.folderIds
      ensures folders == old(folders)
      ensures nextFolderId == old(nextFolderId) && nextBookmarkId == old(nextBookmarkId)
    {
      var i := 0;
      while i < |bookmarks|
        invariant 0 <= i <= |bookmarks| == |old(bookmarks)|
        invariant folders == old(folders)
        invariant nextFolderId == old(nextFolderId) && nextBookmarkId == old(nextBookmarkId)
        invariant forall k :: 0 <= k < i ==> bookmarks[k] == Unfiled(old(bookmarks)[k], folderId, DefaultIds(folders))
        invariant forall k :: i <= k < |bookmarks| ==> bookmarks[k] == old(bookmarks)[k]
      {
        var b := bookmarks[i];
        if folderId in b.folderIds {
          var updated := Filter(b.folderIds, NotId(folderId));
          if |updated| == 0 {
            updated := DefaultIds(folders);
          }
          bookmarks := bookmarks[i := Bookmark(b.id, b.url, b.createdAt, updated)];
        }
        i := i + 1;
      }
      assert bookmarks == KeepMode(old(bookmarks), folderId, DefaultIds(folders));
      KeepModeKeepsIds(old(bookmarks), folderId, DefaultIds(folders), nextBookmarkId);
    }

    /** `POST /api/bookmarks`: a new bookmark with the next id, the given url,
        the creation time `now` and the requested folders, or the default
        folders when none were requested, appended at the end. */
    method CreateBookmark(url: string, folderIds: Option<seq<int>>, now: int) returns (b: Bookmark)
      requires Valid()
      modifies this
      ensures Valid()
      ensures b == Bookmark(old(nextBookmarkId), url, now, EffectiveFolderIds(folderIds, old(folders)))
      ensures bookmarks == old(bookmarks) + [b]
      ensures nextBookmarkId == old(nextBookmarkId) + 1
      ensures folders == old(folders) && nextFolderId == old(nextFolderId)
    {
      var ids := EffectiveFolderIds(folderIds, folders);
      b := Bookmark(nextBookmarkId, url, now, ids);
      nextBookmarkId := nextBookmarkId + 1;
      AppendFreshId(bookmarks, b, nextBookmarkId - 1);
      bookmarks := bookmarks + [b];
    }

    /** `PATCH /api/bookmarks/{id}`: the scan replaces the membership of the
        first bookmark with that id by the requested ids, or the default ids
        when none or an empty list was sent, keeping id, url and creation
        time; a missing id is 404. */
    method UpdateBookmark(bookmarkId: int, folderIds: Option<seq<int>>) returns (res: Response<Bookmark>)
      requires Valid()
      modifies this
      ensures Valid()
      ensures folders == old(folders)
      ensures nextFolderId == old(nextFolderId) && nextBookmarkId == old(nextBookmarkId)
      ensures match FirstIndexBy(old(bookmarks), BookmarkId, bookmarkId)
        case None => res == Err(404, BookmarkNotFound) && bookmarks == old(bookmarks)
        case Some(i) =>
          && res == Ok(old(bookmarks)[i].(folderIds := EffectiveFolderIds(folderIds, old(folders))))
          && bookmarks == old(bookmarks)[i := res.value]
    {
      var defaultIds := DefaultIds(folders);
      var ids := if folderIds.None? || |folderIds.value| == 0 then defaultIds else folderIds.value;
      var i := 0;
      while i < |bookmarks|
        invariant 0 <= i <= |bookmarks|
        invariant bookmarks == old(bookmarks)
        invariant forall j :: 0 <= j < i ==> bookmarks[j].id != bookmarkId
      {
        var b := bookmarks[i];
        if b.id == bookmarkId {
          FirstIndexByIs(bookmarks, BookmarkId, bookmarkId, i);
          var updated := Bookmark(b.id, b.url, b.createdAt, ids);
          bookmarks := bookmarks[i := updated];
          ReplaceKeepsIds(old(bookmarks), i, updated, nextBookmarkId);
          return Ok(updated);
        }
        i := i + 1;
      }
      return Err(404, BookmarkNotFound);
    }

    /** `DELETE /api/bookmarks/{id}`: 404 when no bookmark has that id,
        otherwise every bookmark with that id is dropped and the rest keep
        their order. */
    method DeleteBookmark(bookmarkId: int) returns (res: Response<string>)
      requires Valid()
      modifies this
      ensures Valid()
      ensures folders == old(folders)
      ensures nextFolderId == old(nextFolderId) && nextBookmarkId == old(nextBookmarkId)
      ensures (forall b :: b in old(bookmarks) ==> b.id != bookmarkId) ==>
        res == Err(404, BookmarkNotFound) && bookmarks == old(bookmarks)
      ensures (exists b :: b in old(bookmarks) && b.id == bookmarkId) ==>
        res == Ok("ok") && bookmarks == WithoutBookmark(old(bookmarks), bookmarkId)
    {
      if !exists b :: b in bookmarks && b.id == bookmarkId {
        return Err(404, BookmarkNotFound);
      }
      bookmarks := WithoutBookmark(bookmarks, bookmarkId);
      return Ok("ok");
    }
  }

  /** Renaming a non-default folder in place keeps the invariant: ids and
      default flags do not change. */
  lemma RenamePreservesInvariant(folders: seq<Folder>, i: nat, name: string,
                                 bookmarks: seq<Bookmark>, nextFolderId: int, nextBookmarkId: int)
    requires i < |folders|
    requires StoreInvariant(folders, bookmarks, nextFolderId, nextBookmarkId)
    ensures StoreInvariant(folders[i := Folder(folders[i].id, name, folders[i].isDefault)],
                           bookmarks, nextFolderId, nextBookmarkId)
  {
    var r := folders[i := Folder(folders[i].id, name, folders[i].isDefault)];
    var d :| d in folders && d.isDefault;
    var k :| 0 <= k < |folders| && folders[k] == d;
    assert r[k].isDefault;
    forall f | f in r ensures f.id < nextFolderId {
      var j :| 0 <= j < |r| && r[j] == f;
      assert folders[j].id == f.id;
    }
  }

  /** A folder found by the scan and refused as default by nothing is not one
      of the default folders, so its id is not a default id. */
  lemma DeletedFolderIsNotDefault(folders: seq<Folder>, i: nat)
    requires i < |folders| && !folders[i].isDefault
    requires DistinctBy(folders, FolderId)
    ensures folders[i].id !in DefaultIds(folders)
  {
    forall k | 0 <= k < |folders| && folders[k].isDefault ensures folders[k].id != folders[i].id {
      assert k != i;
      assert FolderId(folders[k]) != FolderId(folders[i]);
    }
  }

  /** Deleting a non-default folder leaves a default folder in place. */
  lemma WithoutFolderKeepsDefault(folders: seq<Folder>, i: nat)
    requires i < |folders| && !folders[i].isDefault
    requires DistinctBy(folders, FolderId) && HasDefault(folders)
    ensures HasDefault(WithoutFolder(folders, folders[i].id))
  {
    var d :| d in folders && d.isDefault;
    var k :| 0 <= k < |folders| && folders[k] == d;
    assert k != i;
    assert d in WithoutFolder(folders, folders[i].id);
  }

  /** The "keep" rewrite changes no id, so ids stay unique and below the
      counter. */
  lemma KeepModeKeepsIds(bs: seq<Bookmark>, folderId: int, defaults: seq<int>, next: int)
    requires DistinctBy(bs, BookmarkId)
    requires forall b :: b in bs ==> b.id < next
    ensures DistinctBy(KeepMode(bs, folderId, defaults), BookmarkId)
    ensures forall b :: b in KeepMode(bs, folderId, defaults) ==> b.id < next
  {
    var r := KeepMode(bs, folderId, defaults);
    forall b | b in r ensures b.id < next {
      var j :| 0 <= j < |r| && r[j] == b;
      assert bs[j] in bs;
    }
  }

  /** Replacing one bookmark by a copy with the same id keeps ids unique and
      below the counter. */
  lemma ReplaceKeepsIds(bs: seq<Bookmark>, i: nat, b: Bookmark, next: int)
    requires i < |bs| && b.id == bs[i].id
    requires DistinctBy(bs, BookmarkId)
    requires forall x :: x in bs ==> x.id < next
    ensures DistinctBy(bs[i := b], BookmarkId)
    ensures forall x :: x in bs[i := b] ==> x.id < next
  {
    var r := bs[i := b];
    forall x | x in r ensures x.id < next {
      var j :| 0 <= j < |r| && r[j] == x;
      assert bs[j] in bs;
    }
  }

  /** Appending a bookmark whose id is the counter keeps ids unique. */
  lemma AppendFreshId(bs: seq<Bookmark>, b: Bookmark, next: int)
    requires DistinctBy(bs, BookmarkId)
    requires forall x :: x in bs ==> x.id < next
    requires b.id == next
    ensures DistinctBy(bs + [b], BookmarkId)
  {
    var r := bs + [b];
    forall i, j | 0 <= i < j < |r| ensures BookmarkId(r[i]) != BookmarkId(r[j]) {
      if j == |bs| {
        assert r[i] in bs;
      }
    }
  }
}
