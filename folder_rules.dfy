/** The value-level rules of the folder router: name validation, the
    membership rewrite of a "keep" delete and the filters of a "delete" one. */
module FolderRules {
  import opened Wrappers
  import opened Seqs
  import opened Entities

  /** Some folder other than `exceptId` is already called `name`. */
  predicate NameTaken(folders: seq<Folder>, name: string, exceptId: Option<int>) {
    exists f :: f in folders && f.name == name && (exceptId.None? || f.id != exceptId.value)
  }

  function NotId(x: int): int -> bool {
    y => y != x
  }

  function NotFolder(folderId: int): Folder -> bool {
    (f: Folder) => f.id != folderId
  }

  function NotInFolder(folderId: int): Bookmark -> bool {
    (b: Bookmark) => folderId !in b.folderIds
  }

  /** One bookmark after its folder `folderId` was deleted in "keep" mode: the
      id is dropped from its membership, and a membership left empty falls back
      to `defaults`. A bookmark outside the folder is not touched. */
  function Unfiled(b: Bookmark, folderId: int, defaults: seq<int>): (r: Bookmark)
    ensures folderId in b.folderIds ==>
      if exists x :: x in b.folderIds && x != folderId
      then r.folderIds == Filter(b.folderIds, NotId(folderId))
      else r.folderIds == defaults
  {
    if folderId in b.folderIds then
      var kept := Filter(b.folderIds, NotId(folderId));
      assert (exists x :: x in b.folderIds && x != folderId) <==> |kept| != 0 by {
        if |kept| != 0 {
          assert kept[0] in kept;
        }
        forall x | x in b.folderIds && x != folderId ensures x in kept {
          assert NotId(folderId)(x);
        }
      }
      Bookmark(b.id, b.url, b.createdAt, if |kept| == 0 then defaults else kept)
    else b
  }

  /** All bookmarks after a "keep" delete of `folderId`. */
  function KeepMode(bs: seq<Bookmark>, folderId: int, defaults: seq<int>): (r: seq<Bookmark>)
    ensures |r| == |bs|
    ensures forall i :: 0 <= i < |bs| ==>
      r[i].id == bs[i].id && r[i].url == bs[i].url && r[i].createdAt == bs[i].createdAt
    ensures forall i :: 0 <= i < |bs| && folderId !in bs[i].folderIds ==> r[i] == bs[i]
    ensures forall i, x :: 0 <= i < |bs| && x in bs[i].folderIds && x != folderId ==> x in r[i].folderIds
    ensures forall i :: 0 <= i < |bs| && folderId in bs[i].folderIds ==>
      if exists x :: x in bs[i].folderIds && x != folderId
      then r[i].folderIds == Filter(bs[i].folderIds, NotId(folderId))
      else r[i].folderIds == defaults
    ensures folderId !in defaults ==> forall b :: b in r ==> folderId !in b.folderIds
  {
    seq(|bs|, i requires 0 <= i < |bs| => Unfiled(bs[i], folderId, defaults))
  }

  /** All bookmarks after a "delete" delete of `folderId`: every bookmark that
      lists the folder is gone, whatever other folders it also belongs to. */
  function DeleteMode(bs: seq<Bookmark>, folderId: int): (r: seq<Bookmark>)
    ensures forall b :: b in r ==> folderId !in b.folderIds
    ensures forall b :: b in bs && folderId !in b.folderIds ==> b in r
    ensures (forall b :: b in bs ==> folderId !in b.folderIds) ==> r == bs
    ensures DistinctBy(bs, BookmarkId) ==> DistinctBy(r, BookmarkId)
  {
    assert DistinctBy(bs, BookmarkId) ==> DistinctBy(Filter(bs, NotInFolder(folderId)), BookmarkId) by {
      if DistinctBy(bs, BookmarkId) {
        FilterDistinctBy(bs, NotInFolder(folderId), BookmarkId);
      }
    }
    Filter(bs, NotInFolder(folderId))
  }

  /** What "delete" mode keeps: the bookmarks outside the folder, each as often
      as before, and in their original order (the result of a concatenation is
      the concatenation of the results). */
  lemma DeleteModeSurvivors(a: seq<Bookmark>, c: seq<Bookmark>, folderId: int, b: Bookmark)
    ensures multiset(DeleteMode(a, folderId))[b] == if folderId in b.folderIds then 0 else multiset(a)[b]
    ensures DeleteMode(a + c, folderId) == DeleteMode(a, folderId) + DeleteMode(c, folderId)
  {
    FilterMultiset(a, NotInFolder(folderId), b);
    FilterConcat(a, c, NotInFolder(folderId));
  }

  /** The folder list after deleting `folderId`: every other folder, in order. */
  function WithoutFolder(folders: seq<Folder>, folderId: int): (r: seq<Folder>)
    ensures forall f :: f in r <==> f in folders && f.id != folderId
    ensures DistinctBy(folders, FolderId) ==> DistinctBy(r, FolderId)
  {
    assert DistinctBy(folders, FolderId) ==> DistinctBy(Filter(folders, NotFolder(folderId)), FolderId) by {
      if DistinctBy(folders, FolderId) {
        FilterDistinctBy(folders, NotFolder(folderId), FolderId);
      }
    }
    Filter(folders, NotFolder(folderId))
  }

  /** What a folder delete keeps: every other folder, each as often as before,
      and in its original order (the result of a concatenation is the
      concatenation of the results). */
  lemma WithoutFolderKeepsOthers(a: seq<Folder>, c: seq<Folder>, folderId: int, f: Folder)
    ensures multiset(WithoutFolder(a, folderId))[f] == if f.id == folderId then 0 else multiset(a)[f]
    ensures WithoutFolder(a + c, folderId) == WithoutFolder(a, folderId) + WithoutFolder(c, folderId)
  {
    FilterMultiset(a, NotFolder(folderId), f);
    FilterConcat(a, c, NotFolder(folderId));
  }
}
