/** The value-level rules of the bookmark router: the newest-first listing
    with its optional folder filter, and the filter of a bookmark delete. */
module BookmarkRules {
  import opened Wrappers
  import opened Seqs
  import opened Entities

  /** Ordered by creation time, newest first: each bookmark is at least as
      new as the one after it (ties in any order). */
  predicate NewestFirst(bs: seq<Bookmark>) {
    |bs| <= 1 || (bs[0].createdAt >= bs[1].createdAt && NewestFirst(bs[1..]))
  }

  /** The head of a newest-first list is the newest bookmark in it. */
  lemma {:induction false} NewestFirstHead(bs: seq<Bookmark>)
    requires NewestFirst(bs) && bs != []
    ensures forall x :: x in bs ==> x.createdAt <= bs[0].createdAt
  {
    if |bs| > 1 {
      NewestFirstHead(bs[1..]);
      assert forall x :: x in bs ==> x == bs[0] || x in bs[1..];
    }
  }

  /** Newest-first, stated for every pair of positions. */
  lemma {:induction false} NewestFirstPairs(bs: seq<Bookmark>)
    requires NewestFirst(bs)
    ensures forall i, j :: 0 <= i < j < |bs| ==> bs[i].createdAt >= bs[j].createdAt
  {
    if bs != [] {
      NewestFirstHead(bs);
      NewestFirstPairs(bs[1..]);
      forall i, j | 0 <= i < j < |bs| ensures bs[i].createdAt >= bs[j].createdAt {
        assert bs[j] == bs[1..][j - 1];
        assert bs[j] in bs;
        if i > 0 {
          assert bs[i] == bs[1..][i - 1];
        }
      }
    }
  }

  /** Puts `b` into a newest-first list after every strictly newer bookmark and
      before every bookmark of the same or an earlier time. */
  function Insert(b: Bookmark, bs: seq<Bookmark>): (r: seq<Bookmark>)
    ensures |r| == |bs| + 1 && (r[0] == b || (bs != [] && r[0] == bs[0]))
    ensures forall x :: x in r <==> x == b || x in bs
    ensures NewestFirst(bs) ==> NewestFirst(r)
  {
    if bs == [] || bs[0].createdAt <= b.createdAt then
      assert ([b] + bs)[1..] == bs;
      [b] + bs
    else
      assert bs == [bs[0]] + bs[1..];
      var r := [bs[0]] + Insert(b, bs[1..]);
      assert r[1..] == Insert(b, bs[1..]);
      r
  }

  /** Inserting adds exactly one occurrence of `b` and loses nothing. */
  lemma {:induction false} InsertMultiset(b: Bookmark, bs: seq<Bookmark>)
    ensures multiset(Insert(b, bs)) == multiset(bs) + multiset{b}
  {
    if bs != [] && bs[0].createdAt > b.createdAt {
      InsertMultiset(b, bs[1..]);
      assert bs == [bs[0]] + bs[1..];
    }
  }

  /** The listing order: a stable sort on creation time, newest first, built
      by inserting each bookmark into the sorted rest. */
  function SortNewestFirst(bs: seq<Bookmark>): (r: seq<Bookmark>)
    ensures NewestFirst(r)
    ensures forall x :: x in r <==> x in bs
  {
    if bs == [] then []
    else
      assert forall x :: x in bs <==> x == bs[0] || x in bs[1..];
      Insert(bs[0], SortNewestFirst(bs[1..]))
  }

  /** The sort is a permutation: every bookmark keeps its multiplicity. */
  lemma {:induction false} SortMultiset(bs: seq<Bookmark>)
    ensures multiset(SortNewestFirst(bs)) == multiset(bs)
  {
    if bs != [] {
      SortMultiset(bs[1..]);
      InsertMultiset(bs[0], SortNewestFirst(bs[1..]));
      assert bs == [bs[0]] + bs[1..];
    }
  }

  lemma FilterCons(x: Bookmark, s: seq<Bookmark>, p: Bookmark -> bool)
    ensures Filter([x] + s, p) == (if p(x) then [x] else []) + Filter(s, p)
  {
    assert ([x] + s)[1..] == s;
  }

  /** Filtering commutes with inserting into a sorted list. */
  lemma {:induction false} FilterInsert(b: Bookmark, bs: seq<Bookmark>, p: Bookmark -> bool)
    requires NewestFirst(bs)
    ensures Filter(Insert(b, bs), p) == if p(b) then Insert(b, Filter(bs, p)) else Filter(bs, p)
  {
    if bs == [] || bs[0].createdAt <= b.createdAt {
      FilterInsertFront(b, bs, p);
    } else {
      assert NewestFirst(bs[1..]);
      FilterInsert(b, bs[1..], p);
      FilterInsertBehind(b, bs, p);
    }
  }

  /** The case where `b` goes in front of the whole list. */
  lemma FilterInsertFront(b: Bookmark, bs: seq<Bookmark>, p: Bookmark -> bool)
    requires NewestFirst(bs)
    requires bs == [] || bs[0].createdAt <= b.createdAt
    ensures Filter(Insert(b, bs), p) == if p(b) then Insert(b, Filter(bs, p)) else Filter(bs, p)
  {
    var fs := Filter(bs, p);
    assert Insert(b, bs) == [b] + bs;
    FilterCons(b, bs, p);
    if p(b) {
      if fs != [] {
        assert fs[0] in bs;
        NewestFirstHead(bs);
      }
      assert Insert(b, fs) == [b] + fs;
    } else {
      assert [] + fs == fs;
    }
  }

  /** Inserting behind a strictly newer head keeps that head in front. */
  lemma InsertBehindHead(b: Bookmark, head: Bookmark, s: seq<Bookmark>)
    requires head.createdAt > b.createdAt
    ensures Insert(b, [head] + s) == [head] + Insert(b, s)
  {
    assert ([head] + s)[1..] == s;
  }

  /** One step of the filter over a list that starts with `head`. */
  lemma FilterHead(bs: seq<Bookmark>, p: Bookmark -> bool)
    requires bs != []
    ensures Filter(bs, p) == (if p(bs[0]) then [bs[0]] else []) + Filter(bs[1..], p)
  {
  }

  /** The case where `b` goes behind the head of the list, given the result
      for the tail. */
  lemma FilterInsertBehind(b: Bookmark, bs: seq<Bookmark>, p: Bookmark -> bool)
    requires bs != [] && bs[0].createdAt > b.createdAt
    requires Filter(Insert(b, bs[1..]), p) ==
      if p(b) then Insert(b, Filter(bs[1..], p)) else Filter(bs[1..], p)
    ensures Filter(Insert(b, bs), p) == if p(b) then Insert(b, Filter(bs, p)) else Filter(bs, p)
  {
    var head := bs[0];
    var f1 := Filter(bs[1..], p);
    var fi := Filter(Insert(b, bs[1..]), p);
    FilterBehindHead(b, bs, p);
    FilterHead(bs, p);
    if p(head) {
      assert Filter(bs, p) == [head] + f1;
      if p(b) {
        InsertBehindHead(b, head, f1);
      }
    } else {
      assert Filter(Insert(b, bs), p) == fi;
      assert Filter(bs, p) == f1;
    }
  }

  /** Filtering an insertion behind the head: the head's fate, then the
      filtered insertion into the tail. */
  lemma FilterBehindHead(b: Bookmark, bs: seq<Bookmark>, p: Bookmark -> bool)
    requires bs != [] && bs[0].createdAt > b.createdAt
    ensures Filter(Insert(b, bs), p) ==
      (if p(bs[0]) then [bs[0]] else []) + Filter(Insert(b, bs[1..]), p)
  {
    var ins := Insert(b, bs[1..]);
    InsertBehindHead(b, bs[0], bs[1..]);
    assert bs == [bs[0]] + bs[1..];
    FilterHead([bs[0]] + ins, p);
    assert ([bs[0]] + ins)[1..] == ins;
  }

  /** Filtering a newest-first listing gives the newest-first listing of the
      filtered bookmarks. */
  lemma {:induction false} FilterSort(bs: seq<Bookmark>, p: Bookmark -> bool)
    ensures Filter(SortNewestFirst(bs), p) == SortNewestFirst(Filter(bs, p))
  {
    if bs != [] {
      var rest := bs[1..];
      var f1 := Filter(rest, p);
      FilterSort(rest, p);
      FilterInsert(bs[0], SortNewestFirst(rest), p);
      FilterHead(bs, p);
      if p(bs[0]) {
        assert ([bs[0]] + f1)[1..] == f1;
      } else {
        assert [] + f1 == f1;
      }
    }
  }

  function AtTime(t: int): Bookmark -> bool {
    (b: Bookmark) => b.createdAt == t
  }

  /** A list whose bookmarks share one creation time is already sorted and
      the sort leaves it as it is. */
  lemma {:induction false} SortSameTime(bs: seq<Bookmark>, t: int)
    requires forall b :: b in bs ==> b.createdAt == t
    ensures SortNewestFirst(bs) == bs
  {
    if bs != [] {
      SortSameTime(bs[1..], t);
      assert bs[1..] == [] || bs[1..][0] in bs;
    }
  }

  /** The sort is stable: bookmarks created at the same time keep their
      relative order. */
  lemma SortIsStable(bs: seq<Bookmark>, t: int)
    ensures Filter(SortNewestFirst(bs), AtTime(t)) == Filter(bs, AtTime(t))
  {
    FilterSort(bs, AtTime(t));
    SortSameTime(Filter(bs, AtTime(t)), t);
  }

  function InFolder(folderId: int): Bookmark -> bool {
    (b: Bookmark) => folderId in b.folderIds
  }

  /** The bookmarks a listing selects, in store order. */
  function Selected(bs: seq<Bookmark>, folderId: Option<int>): seq<Bookmark> {
    match folderId
    case None => bs
    case Some(f) => Filter(bs, InFolder(f))
  }

  /** `list_bookmarks`: every bookmark, or those that list `folderId`, newest
      first. */
  function ListBookmarks(bs: seq<Bookmark>, folderId: Option<int>): (r: seq<Bookmark>)
    ensures NewestFirst(r)
    ensures r == SortNewestFirst(Selected(bs, folderId))
    ensures folderId.None? ==> multiset(r) == multiset(bs)
    ensures forall b :: b in r <==> b in bs && (folderId.None? || folderId.value in b.folderIds)
  {
    var items := SortNewestFirst(bs);
    SortMultiset(bs);
    match folderId
    case None => items
    case Some(f) =>
      FilterSort(bs, InFolder(f));
      Filter(items, InFolder(f))
  }

  function NotBookmark(bookmarkId: int): Bookmark -> bool {
    (b: Bookmark) => b.id != bookmarkId
  }

  /** The bookmark list after deleting `bookmarkId`: every other bookmark, in
      order. */
  function WithoutBookmark(bs: seq<Bookmark>, bookmarkId: int): (r: seq<Bookmark>)
    ensures forall b :: b in r <==> b in bs && b.id != bookmarkId
    ensures DistinctBy(bs, BookmarkId) ==> DistinctBy(r, BookmarkId)
  {
    assert DistinctBy(bs, BookmarkId) ==> DistinctBy(Filter(bs, NotBookmark(bookmarkId)), BookmarkId) by {
      if DistinctBy(bs, BookmarkId) {
        FilterDistinctBy(bs, NotBookmark(bookmarkId), BookmarkId);
      }
    }
    Filter(bs, NotBookmark(bookmarkId))
  }

  /** What a bookmark delete keeps: every other bookmark, each as often as
      before, and in its original order (the result of a concatenation is the
      concatenation of the results). */
  lemma WithoutBookmarkKeepsOthers(a: seq<Bookmark>, c: seq<Bookmark>, bookmarkId: int, b: Bookmark)
    ensures multiset(WithoutBookmark(a, bookmarkId))[b] == if b.id == bookmarkId then 0 else multiset(a)[b]
    ensures WithoutBookmark(a + c, bookmarkId) == WithoutBookmark(a, bookmarkId) + WithoutBookmark(c, bookmarkId)
  {
    FilterMultiset(a, NotBookmark(bookmarkId), b);
    FilterConcat(a, c, NotBookmark(bookmarkId));
  }
}
