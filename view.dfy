/** The pure updaters of the client: the folder checkbox toggle, the list of
    bookmarks still lacking a preview, the merge of fetched previews into the
    cache, and the query string of a bookmark listing. */
module View {
  import opened Wrappers
  import opened Seqs
  import opened Text
  import opened Entities
  import opened FolderRules

  /** A checkbox updater: `id` leaves the selection when it is in it and is
      appended to the unchanged selection otherwise; every other id keeps its
      multiplicity and its place in the order. */
  function Toggle(prev: seq<int>, id: int): (r: seq<int>)
    ensures forall x :: x in r <==> if x == id then id !in prev else x in prev
    ensures id !in prev ==> r == prev + [id]
    ensures id in prev ==> |r| < |prev| && forall x :: x != id ==> multiset(r)[x] == multiset(prev)[x]
    ensures NoDup(prev) && id in prev ==>
      exists k :: 0 <= k < |prev| && prev[k] == id && r == prev[..k] + prev[k + 1..]
    ensures NoDup(prev) ==> NoDup(r)
  {
    if id in prev then
      assert NoDup(prev) ==> NoDup(Filter(prev, NotId(id))) by {
        if NoDup(prev) {
          FilterNoDup(prev, NotId(id));
        }
      }
      var k :| 0 <= k < |prev| && prev[k] == id;
      assert !NotId(id)(prev[k]);
      FilterDropsOne(prev, NotId(id), k);
      assert forall x :: x != id ==> multiset(Filter(prev, NotId(id)))[x] == multiset(prev)[x] by {
        forall x | x != id ensures multiset(Filter(prev, NotId(id)))[x] == multiset(prev)[x] {
          FilterMultiset(prev, NotId(id), x);
        }
      }
      assert NoDup(prev) ==> Filter(prev, NotId(id)) == prev[..k] + prev[k + 1..] by {
        if NoDup(prev) {
          assert forall j :: 0 <= j < |prev| && j != k ==> prev[j] != prev[k];
          FilterOutUnique(prev, k);
        }
      }
      Filter(prev, NotId(id))
    else
      prev + [id]
  }

  /** When `s[k]` occurs nowhere else in `s`, filtering it out removes
      exactly that position. */
  lemma {:induction false} FilterOutUnique(s: seq<int>, k: nat)
    requires k < |s| && forall j :: 0 <= j < |s| && j != k ==> s[j] != s[k]
    ensures Filter(s, NotId(s[k])) == s[..k] + s[k + 1..]
  {
    var t := s[1..];
    if k == 0 {
      FilterOutAbsent(t, s[0]);
    } else {
      assert t[k - 1] == s[k];
      FilterOutUnique(t, k - 1);
      assert s[..k] == [s[0]] + t[..k - 1];
      assert s[k + 1..] == t[k..];
    }
  }

  /** Filtering out an id the list does not hold leaves the list as it is. */
  lemma FilterOutAbsent(s: seq<int>, id: int)
    requires forall j :: 0 <= j < |s| ==> s[j] != id
    ensures Filter(s, NotId(id)) == s
  {
    forall x | x in s ensures NotId(id)(x) {
      var j :| 0 <= j < |s| && s[j] == x;
    }
  }

  /** Filtering out an element that fails the predicate shortens the list. */
  lemma {:induction false} FilterDropsOne(s: seq<int>, p: int -> bool, k: nat)
    requires k < |s| && !p(s[k])
    ensures |Filter(s, p)| < |s|
  {
    if k == 0 {
      assert Filter(s, p) == Filter(s[1..], p);
    } else {
      FilterDropsOne(s[1..], p, k - 1);
    }
  }

  /** Toggling the same id twice restores the membership, and restores the
      very list when the id was not selected before. */
  lemma ToggleTwice(prev: seq<int>, id: int)
    ensures forall x :: x in Toggle(Toggle(prev, id), id) <==> x in prev
    ensures id !in prev ==> Toggle(Toggle(prev, id), id) == prev
  {
    if id !in prev {
      FilterConcat(prev, [id], NotId(id));
      assert Filter([id], NotId(id)) == [];
    }
  }

  function NoPreview(previews: map<int, Preview>): Bookmark -> bool {
    (b: Bookmark) => b.id !in previews
  }

  /** The bookmarks whose preview is not cached yet, in list order. */
  function Missing(bookmarks: seq<Bookmark>, previews: map<int, Preview>): (r: seq<Bookmark>)
    ensures forall b :: b in r <==> b in bookmarks && b.id !in previews
    ensures r == [] <==> forall b :: b in bookmarks ==> b.id in previews
  {
    var r := Filter(bookmarks, NoPreview(previews));
    assert r != [] ==> r[0] in r;
    r
  }

  /** The keys an entry list assigns. */
  function EntryKeys(entries: seq<(int, Preview)>): (r: set<int>)
    ensures forall k :: k in r <==> exists i :: 0 <= i < |entries| && entries[i].0 == k
  {
    set i | 0 <= i < |entries| :: entries[i].0
  }

  /** A copy of the cache with each fetched entry written in turn: it grows by
      the fetched keys, a later entry for a key wins over an earlier one, and
      every entry no fetch touched is kept. */
  function Merge(prev: map<int, Preview>, entries: seq<(int, Preview)>): (r: map<int, Preview>)
    ensures r.Keys == prev.Keys + EntryKeys(entries)
    ensures forall k :: k in prev && k !in EntryKeys(entries) ==> r[k] == prev[k]
    ensures forall i :: 0 <= i < |entries| && (forall j :: i < j < |entries| ==> entries[j].0 != entries[i].0) ==>
      r[entries[i].0] == entries[i].1
    decreases |entries|
  {
    if entries == [] then prev
    else
      var rest := entries[1..];
      EntryKeysCons(entries);
      assert forall i :: 1 <= i < |entries| ==> entries[i] == rest[i - 1];
      Merge(prev[entries[0].0 := entries[0].1], rest)
  }

  lemma EntryKeysCons(entries: seq<(int, Preview)>)
    requires entries != []
    ensures EntryKeys(entries) == {entries[0].0} + EntryKeys(entries[1..])
  {
    var rest := entries[1..];
    forall k | k in EntryKeys(entries) ensures k in {entries[0].0} + EntryKeys(rest) {
      var i :| 0 <= i < |entries| && entries[i].0 == k;
      if i > 0 {
        assert rest[i - 1].0 == k;
      }
    }
    forall k | k in EntryKeys(rest) ensures k in EntryKeys(entries) {
      var i :| 0 <= i < |rest| && rest[i].0 == k;
      assert entries[i + 1].0 == k;
    }
  }

  /** One fetched entry per missing bookmark: its id and the preview fetched
      for its url. */
  function Entries(missing: seq<Bookmark>, fetch: string -> Preview): (r: seq<(int, Preview)>)
    ensures |r| == |missing|
    ensures forall i :: 0 <= i < |r| ==> r[i] == (missing[i].id, fetch(missing[i].url))
  {
    seq(|missing|, i requires 0 <= i < |missing| => (missing[i].id, fetch(missing[i].url)))
  }

  /** After the batch for the missing bookmarks is merged, no bookmark is
      missing any more and no previously cached preview was replaced. */
  lemma MergeFillsMissing(bookmarks: seq<Bookmark>, prev: map<int, Preview>, fetch: string -> Preview)
    ensures var next := Merge(prev, Entries(Missing(bookmarks, prev), fetch));
      && Missing(bookmarks, next) == []
      && (forall k :: k in prev ==> k in next && next[k] == prev[k])
  {
    var missing := Missing(bookmarks, prev);
    var entries := Entries(missing, fetch);
    var next := Merge(prev, entries);
    forall b | b in bookmarks ensures b.id in next {
      if b.id !in prev {
        assert b in missing;
        var i :| 0 <= i < |missing| && missing[i] == b;
        assert entries[i].0 == b.id;
      }
    }
    forall i | 0 <= i < |entries| ensures entries[i].0 !in prev {
      assert missing[i] in missing;
    }
  }

  const FolderParam := "?folder_id="

  /** The query of `loadBookmarks(folderId)`: no query for no folder and for
      the falsy id 0, otherwise the `folder_id` parameter. */
  function QueryString(folderId: Option<int>): string {
    if folderId.None? || folderId.value == 0 then ""
    else FolderParam + IntToDecimal(folderId.value)
  }

  /** How the listing route reads the query back into its optional
      `folder_id` (a well-formed integer, as the client writes it). */
  function ParseQuery(q: string): Option<int> {
    if |q| <= |FolderParam| || q[..|FolderParam|] != FolderParam then None
    else
      var v := q[|FolderParam|..];
      if v[0] == '-' then
        if |v| > 1 && forall i :: 1 <= i < |v| ==> IsDigit(v[i]) then
          assert forall i :: 0 <= i < |v[1..]| ==> v[1..][i] == v[i + 1];
          var m: int := ParseDecimal(v[1..]);
          Some(-m)
        else None
      else if forall i :: 0 <= i < |v| ==> IsDigit(v[i]) then Some(ParseDecimal(v))
      else None
  }

  /** The server reads back the folder the client meant, except that the
      client drops the filter for folder id 0. */
  lemma QueryRoundTrip(folderId: Option<int>)
    ensures ParseQuery(QueryString(folderId)) == if folderId == Some(0) then None else folderId
  {
    if folderId.Some? && folderId.value != 0 {
      var n := folderId.value;
      var q := QueryString(folderId);
      assert q[..|FolderParam|] == FolderParam;
      var v := q[|FolderParam|..];
      assert v == IntToDecimal(n);
      if n < 0 {
        assert v[1..] == NatToDecimal(-n);
        DecimalRoundTrip(-n);
      } else {
        DecimalRoundTrip(n);
      }
    }
  }
}
