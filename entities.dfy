/** The records the store keeps and the client mirrors: folders, bookmarks
    and link previews, with the default-folder fallback both routers share. */
module Entities {
  import opened Wrappers
  import opened Seqs

  datatype Folder = Folder(id: int, name: string, isDefault: bool)

  /** `createdAt` is the creation timestamp as a number (later is larger);
      `url` is kept as an uninterpreted string. */
  datatype Bookmark = Bookmark(id: int, url: string, createdAt: int, folderIds: seq<int>)

  /** Link-preview metadata as the client receives it; absent fields are None. */
  datatype Preview = Preview(
    url: string,
    title: Option<string>,
    description: Option<string>,
    image: Option<string>,
    html: Option<string>,
    provider: Option<string>)

  function FolderId(f: Folder): int { f.id }

  function BookmarkId(b: Bookmark): int { b.id }

  predicate HasDefault(folders: seq<Folder>) {
    exists f :: f in folders && f.isDefault
  }

  /** The ids of the default folders, in folder order. */
  function DefaultIds(folders: seq<Folder>): (r: seq<int>)
    ensures |r| <= |folders|
    ensures forall id :: id in r <==> exists f :: f in folders && f.isDefault && f.id == id
    ensures HasDefault(folders) ==> r != []
  {
    if folders == [] then []
    else
      assert forall f :: f in folders ==> f == folders[0] || f in folders[1..];
      (if folders[0].isDefault then [folders[0].id] else []) + DefaultIds(folders[1..])
  }

  /** The membership a bookmark receives on create or update: the requested
      ids when some were given, otherwise the default folders' ids. */
  function EffectiveFolderIds(requested: Option<seq<int>>, folders: seq<Folder>): (r: seq<int>)
    ensures requested.Some? && requested.value != [] ==> r == requested.value
    ensures requested.None? || requested.value == [] ==>
      forall id :: id in r <==> exists f :: f in folders && f.isDefault && f.id == id
    ensures HasDefault(folders) ==> r != []
  {
    if requested.Some? && requested.value != [] then requested.value else DefaultIds(folders)
  }
}
