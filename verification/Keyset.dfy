/**
 Keyset order and the paging query of PaginationService at the level of keys:
 `WHERE (created_at, id) > cursor ORDER BY created_at, id LIMIT limit + 1`.
 Walks over one table and over a table that changes between pages are related to sorting it.
 */
module Keyset {
  import opened JsText
  import opened Prelude

  /** `createdAt` in microseconds; UUIDs order like their canonical text. */
  datatype Key = Key(at: int, id: Text)

  predicate TextLess(a: Text, b: Text) {
    b != [] && (a == [] || a[0] < b[0] || (a[0] == b[0] && TextLess(a[1..], b[1..])))
  }

  predicate Less(a: Key, b: Key) {
    a.at < b.at || (a.at == b.at && TextLess(a.id, b.id))
  }

  lemma {:induction false} TextOrder(a: Text, b: Text)
    ensures !(TextLess(a, b) && TextLess(b, a))
    ensures !TextLess(a, a)
    ensures a == b || TextLess(a, b) || TextLess(b, a)
  {
    if a != [] && b != [] {
      TextOrder(a[1..], b[1..]);
      if a[0] == b[0] && a[1..] == b[1..] { assert a == [a[0]] + a[1..] == b; }
    }
    if a != [] { TextOrder(a[1..], []); TextIrreflexive(a); }
  }

  lemma {:induction false} TextIrreflexive(a: Text)
    ensures !TextLess(a, a)
  {
    if a != [] { TextIrreflexive(a[1..]); }
  }

  lemma {:induction false} TextTransitive(a: Text, b: Text, c: Text)
    requires TextLess(a, b) && TextLess(b, c)
    ensures TextLess(a, c)
  {
    if a != [] && a[0] == b[0] == c[0] { TextTransitive(a[1..], b[1..], c[1..]); }
  }

  /** Texts are ordered like in a dictionary: by the first unit that differs, or a proper prefix first. */
  lemma {:induction false} TextLessIff(a: Text, b: Text)
    ensures TextLess(a, b) <==> a < b || exists i :: FirstDifference(a, b, i) && a[i] < b[i]
  {
    if a != [] && b != [] && a[0] == b[0] {
      TextLessIff(a[1..], b[1..]);
      assert a < b <==> a[1..] < b[1..] by {
        assert a == [a[0]] + a[1..] && b == [b[0]] + b[1..];
      }
      if i :| FirstDifference(a[1..], b[1..], i) && a[1..][i] < b[1..][i] { DifferenceTail(a, b, i + 1); }
      if i :| FirstDifference(a, b, i) && a[i] < b[i] { DifferenceTail(a, b, i); }
    } else if a != [] && b != [] {
      assert FirstDifference(a, b, 0);
      forall i ensures FirstDifference(a, b, i) ==> i == 0 {
        SameHead(a, b, i);
      }
    }
  }

  predicate FirstDifference(a: Text, b: Text, i: int) {
    0 <= i < |a| && i < |b| && a[i] != b[i] && a[..i] == b[..i]
  }

  lemma SameHead(a: Text, b: Text, i: int)
    requires a != [] && b != []
    ensures FirstDifference(a, b, i) && i > 0 ==> a[0] == b[0]
  {
    if FirstDifference(a, b, i) && i > 0 { assert a[..i][0] == b[..i][0]; }
  }

  lemma DifferenceTail(a: Text, b: Text, i: int)
    requires a != [] && b != [] && a[0] == b[0] && i >= 1
    ensures FirstDifference(a, b, i) <==> FirstDifference(a[1..], b[1..], i - 1)
  {
    if i < |a| && i < |b| {
      assert a[..i] == [a[0]] + a[1..][..i - 1] && b[..i] == [b[0]] + b[1..][..i - 1];
    }
  }

  /** An ascending listing ascends in time, and among rows of the same instant in the id. */
  lemma AscendsInTime(s: seq<Key>, i: nat, j: nat)
    requires Ascending(s) && i < j < |s|
    ensures s[i].at <= s[j].at
    ensures s[i].at == s[j].at ==>
      s[i].id < s[j].id || exists d :: FirstDifference(s[i].id, s[j].id, d) && s[i].id[d] < s[j].id[d]
  {
    assert Less(s[i], s[j]);
    TextLessIff(s[i].id, s[j].id);
  }

  /** Keys are strictly and totally ordered. */
  lemma KeyOrder(a: Key, b: Key)
    ensures !Less(a, a) && !(Less(a, b) && Less(b, a))
    ensures a == b || Less(a, b) || Less(b, a)
  {
    TextOrder(a.id, b.id);
  }

  lemma KeyTransitive(a: Key, b: Key, c: Key)
    requires Less(a, b) && Less(b, c)
    ensures Less(a, c)
  {
    if a.at == b.at == c.at { TextTransitive(a.id, b.id, c.id); }
  }

  // ---------------------------------------------------------------- sorting

  ghost predicate Ascending(s: seq<Key>) {
    forall i, j :: 0 <= i < j < |s| ==> Less(s[i], s[j])
  }

  ghost predicate Lists(s: seq<Key>, ks: set<Key>) {
    Ascending(s) && |s| == |ks| && forall k :: k in s <==> k in ks
  }

  /** The keys of a set in ascending order. */
  ghost function Sort(ks: set<Key>): (s: seq<Key>)
    ensures Lists(s, ks)
  {
    SortExists(ks);
    var s :| Lists(s, ks);
    s
  }

  lemma {:induction false} SortExists(ks: set<Key>)
    ensures exists s :: Lists(s, ks)
  {
    if ks == {} {
      assert Lists([], ks);
    } else {
      LeastExists(ks);
      var m :| IsLeast(m, ks);
      SortExists(ks - {m});
      var s :| Lists(s, ks - {m});
      Join([m], s);
      assert Lists([m] + s, ks);
    }
  }

  ghost predicate IsLeast(m: Key, ks: set<Key>) {
    m in ks && forall k :: k in ks && k != m ==> Less(m, k)
  }

  lemma {:induction false} LeastExists(ks: set<Key>)
    requires ks != {}
    ensures exists m :: IsLeast(m, ks)
  {
    var k :| k in ks;
    if ks == {k} {
      assert IsLeast(k, ks);
    } else {
      LeastExists(ks - {k});
      var m :| IsLeast(m, ks - {k});
      KeyOrder(k, m);
      if Less(k, m) {
        forall x | x in ks && x != k ensures Less(k, x) {
          if x != m { KeyTransitive(k, m, x); }
        }
        assert IsLeast(k, ks);
      } else {
        assert IsLeast(m, ks);
      }
    }
  }

  /** Two ascending listings of the same keys are the same listing. */
  lemma {:induction false} ListingUnique(s: seq<Key>, t: seq<Key>)
    requires Ascending(s) && Ascending(t) && forall k :: k in s <==> k in t
    ensures s == t
  {
    EmptyIff(s);
    EmptyIff(t);
    if s != [] {
      FirstOf(s, t);
      forall k ensures k in s[1..] <==> k in t[1..] {
        RestOf(s, k);
        RestOf(t, k);
      }
      ListingUnique(s[1..], t[1..]);
      assert s == [s[0]] + s[1..] && t == [t[0]] + t[1..];
    }
  }

  lemma EmptyIff(s: seq<Key>)
    ensures s == [] <==> forall k :: k !in s
  {
    if s != [] { assert s[0] in s; }
  }

  lemma FirstOf(s: seq<Key>, t: seq<Key>)
    requires Ascending(s) && Ascending(t) && s != [] && t != [] && s[0] in t && t[0] in s
    ensures s[0] == t[0]
  {
    var i :| 0 <= i < |t| && t[i] == s[0];
    var j :| 0 <= j < |s| && s[j] == t[0];
    KeyOrder(s[0], t[0]);
  }

  lemma RestOf(s: seq<Key>, k: Key)
    requires Ascending(s) && s != []
    ensures k in s[1..] <==> k in s && k != s[0]
  {
    if k in s && k != s[0] {
      var i :| 0 <= i < |s| && s[i] == k;
      assert s[1..][i - 1] == k;
    }
    if k in s[1..] {
      var i :| 1 <= i < |s| && s[i] == k;
      KeyOrder(s[0], k);
    }
  }

  lemma SuffixMembers(s: seq<Key>, n: nat, k: Key)
    requires Ascending(s) && 1 <= n <= |s| && k in s
    ensures k in s[n..] <==> Less(s[n - 1], k)
  {
    var j :| 0 <= j < |s| && s[j] == k;
    KeyOrder(s[n - 1], k);
    if j >= n { assert s[n..][j - n] == k; }
    if k in s[n..] {
      var i :| n <= i < |s| && s[i] == k;
    }
  }

  lemma Join(head: seq<Key>, tail: seq<Key>)
    requires Ascending(head) && Ascending(tail)
    requires head != [] ==> forall k :: k in tail ==> Less(head[|head| - 1], k)
    ensures Ascending(head + tail)
  {
    forall i, j | 0 <= i < |head| && 0 <= j < |tail| ensures Less(head[i], tail[j]) {
      var last := head[|head| - 1];
      assert tail[j] in tail;
      if i < |head| - 1 { KeyTransitive(head[i], last, tail[j]); }
    }
  }

  // ------------------------------------------------------------------ paging

  function Beyond(ks: set<Key>, cursor: Option<Key>): set<Key> {
    set k | k in ks && (cursor.Some? ==> Less(cursor.value, k))
  }

  /** The query: the keys beyond the cursor, in order, at most `count` of them. */
  ghost function Query(ks: set<Key>, cursor: Option<Key>, count: nat): seq<Key> {
    var found := Sort(Beyond(ks, cursor));
    if |found| <= count then found else found[..count]
  }

  datatype KeyPage = KeyPage(keys: seq<Key>, hasNext: bool)

  /** Ask for one key more than the page holds; if it comes, drop it and announce a next page. */
  ghost function PageOf(ks: set<Key>, cursor: Option<Key>, limit: nat): (page: KeyPage)
    ensures page.hasNext ==> |page.keys| == limit
  {
    var rows := Query(ks, cursor, limit + 1);
    if |rows| > limit then KeyPage(rows[..|rows| - 1], true) else KeyPage(rows, false)
  }

  lemma BeyondLast(ks: set<Key>, cursor: Option<Key>, n: nat)
    requires 1 <= n <= |Sort(Beyond(ks, cursor))|
    ensures Sort(Beyond(ks, Some(Sort(Beyond(ks, cursor))[n - 1]))) == Sort(Beyond(ks, cursor))[n..]
  {
    var all := Sort(Beyond(ks, cursor));
    var last := all[n - 1];
    assert last in all;
    forall k ensures k in all[n..] <==> k in Beyond(ks, Some(last)) {
      if k in all {
        SuffixMembers(all, n, k);
      } else if cursor.Some? && k in ks && Less(last, k) {
        KeyTransitive(cursor.value, last, k);
      }
    }
    ListingUnique(all[n..], Sort(Beyond(ks, Some(last))));
  }

  /** What one page says about the whole listing beyond its cursor. */
  lemma PageSplits(ks: set<Key>, cursor: Option<Key>, limit: nat)
    requires limit >= 1
    ensures var page, all := PageOf(ks, cursor, limit), Sort(Beyond(ks, cursor));
      && page.keys <= all
      && (!page.hasNext ==> page.keys == all)
      && (page.hasNext ==>
            && |page.keys| == limit < |all|
            && all == page.keys + Sort(Beyond(ks, Some(page.keys[limit - 1]))))
  {
    var page, all := PageOf(ks, cursor, limit), Sort(Beyond(ks, cursor));
    if page.hasNext {
      assert page.keys == all[..limit];
      BeyondLast(ks, cursor, limit);
      assert all == all[..limit] + all[limit..];
    }
  }

  /** The keys of a page come from the table, from beyond the cursor, and in order. */
  lemma PageKeys(ks: set<Key>, cursor: Option<Key>, limit: nat, k: Key)
    requires limit >= 1 && k in PageOf(ks, cursor, limit).keys
    ensures k in ks && (cursor.Some? ==> Less(cursor.value, k))
    ensures Ascending(PageOf(ks, cursor, limit).keys)
  {
    PageSplits(ks, cursor, limit);
    assert k in Sort(Beyond(ks, cursor));
  }

  function Flatten(pages: seq<KeyPage>): seq<Key> {
    if pages == [] then [] else pages[0].keys + Flatten(pages[1..])
  }

  /** Following the last edge's cursor while there is a next page, on a table nobody changes. */
  ghost function Walk(ks: set<Key>, cursor: Option<Key>, limit: nat): seq<KeyPage>
    requires limit >= 1
    decreases |Sort(Beyond(ks, cursor))|
  {
    var page := PageOf(ks, cursor, limit);
    PageSplits(ks, cursor, limit);
    if page.hasNext then [page] + Walk(ks, Some(page.keys[limit - 1]), limit) else [page]
  }

  /** The walk ends, its pages are full up to the last one, and together they are the sorted table. */
  lemma {:induction false} WalkIsSortedTable(ks: set<Key>, cursor: Option<Key>, limit: nat)
    requires limit >= 1
    ensures var pages := Walk(ks, cursor, limit);
      Flatten(pages) == Sort(Beyond(ks, cursor)) && WellPaged(pages, limit)
    decreases |Sort(Beyond(ks, cursor))|
  {
    PageSplits(ks, cursor, limit);
    var page := PageOf(ks, cursor, limit);
    if page.hasNext {
      var next := Some(page.keys[limit - 1]);
      var rest := Walk(ks, next, limit);
      WalkIsSortedTable(ks, next, limit);
      WalkTail(ks, cursor, limit);
      PagesJoin(page, rest, limit);
    } else {
      assert Walk(ks, cursor, limit) == [page];
      assert Flatten([page]) == page.keys + Flatten([]);
    }
  }

  lemma WalkTail(ks: set<Key>, cursor: Option<Key>, limit: nat)
    requires limit >= 1 && PageOf(ks, cursor, limit).hasNext
    ensures var page := PageOf(ks, cursor, limit);
      Walk(ks, cursor, limit) == [page] + Walk(ks, Some(page.keys[limit - 1]), limit)
  {
  }

  /** The last page announces nothing, all before it are full and announce a next one. */
  ghost predicate WellPaged(pages: seq<KeyPage>, limit: nat) {
    && pages != [] && !pages[|pages| - 1].hasNext
    && forall i :: 0 <= i < |pages| - 1 ==> pages[i].hasNext && |pages[i].keys| == limit
  }

  lemma PagesJoin(page: KeyPage, rest: seq<KeyPage>, limit: nat)
    requires page.hasNext && |page.keys| == limit && WellPaged(rest, limit)
    ensures WellPaged([page] + rest, limit) && Flatten([page] + rest) == page.keys + Flatten(rest)
  {
    var pages := [page] + rest;
    assert pages[1..] == rest;
    forall i | 0 <= i < |pages| - 1 ensures pages[i].hasNext && |pages[i].keys| == limit {
      if i > 0 { assert pages[i] == rest[i - 1]; }
    }
  }

  // ---------------------------------------------------------- changing tables

  /** Page i of a walk is read from snapshot i; keys come and go between the snapshots. */
  ghost predicate LiveWalk(snaps: seq<set<Key>>, limits: seq<nat>, cursor: Option<Key>, pages: seq<KeyPage>) {
    && |snaps| == |limits| == |pages|
    && (pages != [] ==>
          && limits[0] >= 1
          && pages[0] == PageOf(snaps[0], cursor, limits[0])
          && (|pages| > 1 ==>
                && pages[0].hasNext
                && LiveWalk(snaps[1..], limits[1..], Some(pages[0].keys[limits[0] - 1]), pages[1..])))
  }

  lemma LiveWalkCons(snaps: seq<set<Key>>, limits: seq<nat>, cursor: Option<Key>, first: KeyPage, rest: seq<KeyPage>)
    requires |snaps| == |limits| == |rest| + 1 && rest != []
    requires limits[0] >= 1 && first == PageOf(snaps[0], cursor, limits[0]) && first.hasNext
    requires LiveWalk(snaps[1..], limits[1..], Some(first.keys[limits[0] - 1]), rest)
    ensures LiveWalk(snaps, limits, cursor, [first] + rest)
  {
    assert ([first] + rest)[1..] == rest;
  }

  /** A walk never goes back: every key is beyond the cursor and beyond the key before it. */
  lemma {:induction false} LiveWalkAscends(snaps: seq<set<Key>>, limits: seq<nat>, cursor: Option<Key>,
          pages: seq<KeyPage>)
    requires LiveWalk(snaps, limits, cursor, pages)
    ensures Ascending(Flatten(pages))
    ensures cursor.Some? ==> forall k :: k in Flatten(pages) ==> Less(cursor.value, k)
  {
    if pages != [] {
      var head := pages[0].keys;
      PageSplits(snaps[0], cursor, limits[0]);
      if |pages| > 1 {
        var last := head[limits[0] - 1];
        LiveWalkAscends(snaps[1..], limits[1..], Some(last), pages[1..]);
        Join(head, Flatten(pages[1..]));
        forall k | k in Flatten(pages) && cursor.Some? ensures Less(cursor.value, k) {
          PageKeys(snaps[0], cursor, limits[0], last);
          if k in head {
            PageKeys(snaps[0], cursor, limits[0], k);
          } else {
            KeyTransitive(cursor.value, last, k);
          }
        }
      } else {
        assert Flatten(pages) == head;
        forall k | k in head ensures cursor.Some? ==> Less(cursor.value, k) {
          PageKeys(snaps[0], cursor, limits[0], k);
        }
      }
    }
  }

  /** A finished walk has returned every key that was there all along. */
  lemma {:induction false} LiveWalkComplete(snaps: seq<set<Key>>, limits: seq<nat>, cursor: Option<Key>,
          pages: seq<KeyPage>, k: Key)
    requires LiveWalk(snaps, limits, cursor, pages) && pages != [] && !pages[|pages| - 1].hasNext
    requires forall i :: 0 <= i < |snaps| ==> k in snaps[i]
    requires cursor.Some? ==> Less(cursor.value, k)
    ensures k in Flatten(pages)
  {
    PageSplits(snaps[0], cursor, limits[0]);
    assert k in Beyond(snaps[0], cursor);
    assert k in Sort(Beyond(snaps[0], cursor));
    if |pages| > 1 && k !in pages[0].keys {
      var last := pages[0].keys[limits[0] - 1];
      assert k in Beyond(snaps[0], Some(last));
      LiveWalkComplete(snaps[1..], limits[1..], Some(last), pages[1..], k);
    }
  }

  // ------------------------------------------------------------------- tables

  datatype Row<T> = Row(id: Text, createdAt: int, data: T)

  type Table<T> = map<Text, Row<T>>

  function KeyOf<T>(row: Row<T>): Key {
    Key(row.createdAt, row.id)
  }

  ghost predicate WellKeyed<T>(table: Table<T>) {
    forall id :: id in table ==> table[id].id == id
  }

  function KeysOf<T>(table: Table<T>, filter: Row<T> -> bool): set<Key> {
    set id | id in table && filter(table[id]) :: KeyOf(table[id])
  }

  /** The keys that are paged through are the creation times and ids of the matching rows. */
  lemma KeysAreRows<T>(table: Table<T>, filter: Row<T> -> bool, k: Key)
    requires WellKeyed(table)
    ensures k in KeysOf(table, filter) <==> k.id in table && filter(table[k.id]) && table[k.id].createdAt == k.at
  {
    if k.id in table && filter(table[k.id]) && table[k.id].createdAt == k.at {
      assert KeyOf(table[k.id]) == k;
    }
  }

  /** A row keeps its creation time for as long as it lives, and its id is never given to another. */
  ghost predicate StableKeys<T(!new)>(tables: seq<Table<T>>) {
    && (forall i :: 0 <= i < |tables| ==> WellKeyed(tables[i]))
    && (forall i, j, id :: 0 <= i < |tables| && 0 <= j < |tables| && id in tables[i] && id in tables[j]
          ==> tables[i][id].createdAt == tables[j][id].createdAt)
  }

  ghost function Snapshots<T>(tables: seq<Table<T>>, filter: Row<T> -> bool): (snaps: seq<set<Key>>)
    ensures |snaps| == |tables| && forall i :: 0 <= i < |tables| ==> snaps[i] == KeysOf(tables[i], filter)
  {
    seq(|tables|, i requires 0 <= i < |tables| => KeysOf(tables[i], filter))
  }

  lemma {:induction false} FromSomeSnapshot(snaps: seq<set<Key>>, limits: seq<nat>, cursor: Option<Key>,
          pages: seq<KeyPage>, k: Key)
    requires LiveWalk(snaps, limits, cursor, pages) && k in Flatten(pages)
    ensures exists i :: 0 <= i < |snaps| && k in snaps[i]
  {
    if k in pages[0].keys {
      PageKeys(snaps[0], cursor, limits[0], k);
    } else if |pages| > 1 {
      FromSomeSnapshot(snaps[1..], limits[1..], Some(pages[0].keys[limits[0] - 1]), pages[1..], k);
      var i :| 0 <= i < |snaps[1..]| && k in snaps[1..][i];
      assert k in snaps[i + 1];
    }
  }

  lemma SameId<T(!new)>(tables: seq<Table<T>>, filter: Row<T> -> bool, a: nat, b: nat, j: Key, k: Key)
    requires StableKeys(tables) && a < |tables| && b < |tables|
    requires j in KeysOf(tables[a], filter) && k in KeysOf(tables[b], filter)
    ensures j.id == k.id ==> j == k
  {
  }

  /** The record is there and matches whenever a page is read, whatever else happens to it. */
  ghost predicate Throughout<T>(tables: seq<Table<T>>, filter: Row<T> -> bool, id: Text) {
    tables != [] && forall i :: 0 <= i < |tables| ==> id in tables[i] && filter(tables[i][id])
  }

  /**
   Walking the pages of a filtered table while rows are inserted and deleted: no record comes
   twice, the order is strict, and a record that matched in every snapshot is returned.
   */
  lemma WalkOverChanges<T(!new)>(tables: seq<Table<T>>, filter: Row<T> -> bool, limits: seq<nat>, pages: seq<KeyPage>)
    requires StableKeys(tables) && LiveWalk(Snapshots(tables, filter), limits, None, pages)
    ensures Ascending(Flatten(pages))
    ensures forall i, j :: 0 <= i < j < |Flatten(pages)| ==> Flatten(pages)[i].id != Flatten(pages)[j].id
    ensures pages != [] && !pages[|pages| - 1].hasNext ==>
      forall id :: Throughout(tables, filter, id) ==> Key(tables[0][id].createdAt, id) in Flatten(pages)
  {
    var snaps := Snapshots(tables, filter);
    var keys := Flatten(pages);
    LiveWalkAscends(snaps, limits, None, pages);
    forall i, j | 0 <= i < j < |keys| ensures keys[i].id != keys[j].id {
      FromSomeSnapshot(snaps, limits, None, pages, keys[i]);
      FromSomeSnapshot(snaps, limits, None, pages, keys[j]);
      var a :| 0 <= a < |snaps| && keys[i] in snaps[a];
      var b :| 0 <= b < |snaps| && keys[j] in snaps[b];
      KeyOrder(keys[i], keys[j]);
      SameId(tables, filter, a, b, keys[i], keys[j]);
    }
    if pages != [] && !pages[|pages| - 1].hasNext {
      forall id | Throughout(tables, filter, id) ensures KeyOf(tables[0][id]) in keys {
        forall i | 0 <= i < |snaps| ensures KeyOf(tables[0][id]) in snaps[i] {
          assert id in tables[i] && KeyOf(tables[i][id]) == KeyOf(tables[0][id]);
        }
        LiveWalkComplete(snaps, limits, None, pages, KeyOf(tables[0][id]));
      }
    }
  }
}
