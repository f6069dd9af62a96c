/**
 What clients see of PaginationService: the same page with and without the cache, and whole walks
 that follow the text cursor of the last edge until there is no next page. Every page of a walk may
 come from the cached or the uncached variant, and from any cache, coherent or not.
 */
module PageWalks {
  import opened JsText
  import opened Keyset
  import opened Pagination
  import opened Prelude

  // ------------------------------------------------ cached against uncached

  /** Every cache entry of a live row is that row. */
  ghost predicate Coherent<T>(cache: Table<T>, prefix: Text, db: Table<T>) {
    forall id :: id in db && prefix + id in cache ==> cache[prefix + id] == db[id]
  }

  ghost predicate SameRecord<T>(a: Slot<T>, b: Slot<T>) {
    a == b || ((a.Fresh? || a.Revived?) && (b.Fresh? || b.Revived?) && a.row == b.row)
  }

  /** Two pages with the same cursors, count and next-page flag. */
  ghost predicate SameFrame<T>(a: Page<T>, b: Page<T>) {
    && a.totalCount == b.totalCount && a.hasNextPage == b.hasNextPage
    && |a.edges| == |b.edges| && |a.nodes| == |b.nodes|
    && forall i :: 0 <= i < |a.edges| ==> a.edges[i].cursor == b.edges[i].cursor
  }

  ghost predicate SamePage<T>(a: Page<T>, b: Page<T>) {
    && SameFrame(a, b)
    && (forall i :: 0 <= i < |a.edges| ==> SameRecord(a.edges[i].node, b.edges[i].node))
    && (forall i :: 0 <= i < |a.nodes| ==> SameRecord(a.nodes[i], b.nodes[i]))
  }

  /** The entries of the page's records are the rows of the database. */
  ghost predicate ExactFor<T>(page: seq<PaginatedRecord>, db: Table<T>, cache: Table<T>, prefix: Text) {
    forall i :: 0 <= i < |page| && prefix + page[i].id in cache ==>
      page[i].id in db && cache[prefix + page[i].id] == db[page[i].id]
  }

  /** Both variants always agree on everything but the records. */
  lemma AnyCacheSameFrame<T>(rows: seq<PaginatedRecord>, limit: nat, totalCount: nat, db: Table<T>, later: Table<T>,
                             cache: Table<T>, prefix: Text)
    ensures SameFrame(CachedPage(rows, limit, totalCount, db, cache, prefix),
                      UncachedPage(rows, limit, totalCount, later))
  {
  }

  /**
   And they agree on the records, up to the form dates take in JSON, exactly if the page's cache
   entries are the rows.
   */
  lemma CachedIsUncachedIff<T>(rows: seq<PaginatedRecord>, limit: nat, totalCount: nat, db: Table<T>,
                               cache: Table<T>, prefix: Text)
    ensures SamePage(CachedPage(rows, limit, totalCount, db, cache, prefix), UncachedPage(rows, limit, totalCount, db))
      <==> ExactFor(Kept(rows, limit), db, cache, prefix)
  {
    var cached, page := CachedPage(rows, limit, totalCount, db, cache, prefix), Kept(rows, limit);
    forall i | 0 <= i < |page|
      ensures cached.nodes[i] == cached.edges[i].node == FromCache(cache, prefix, db, page[i].id)
      ensures SameRecord(cached.nodes[i], FromDb(db, page[i].id)) <==>
        (prefix + page[i].id in cache ==> page[i].id in db && cache[prefix + page[i].id] == db[page[i].id])
    {
    }
  }

  /** With a coherent cache that is so, and position i holds the record whose id the page query gave there. */
  lemma CachedRefinesUncached<T>(rows: seq<PaginatedRecord>, limit: nat, totalCount: nat, db: Table<T>,
                                 cache: Table<T>, prefix: Text)
    requires WellKeyed(db) && Coherent(cache, prefix, db)
    requires forall i :: 0 <= i < |rows| ==> rows[i].id in db
    ensures var cached := CachedPage(rows, limit, totalCount, db, cache, prefix);
      && SamePage(cached, UncachedPage(rows, limit, totalCount, db))
      && forall i :: 0 <= i < |cached.nodes| ==>
           && (cached.nodes[i].Fresh? || cached.nodes[i].Revived?)
           && cached.nodes[i].row == db[Kept(rows, limit)[i].id] && cached.nodes[i].row.id == Kept(rows, limit)[i].id
  {
    CachedIsUncachedIff(rows, limit, totalCount, db, cache, prefix);
  }

  /** A record is enqueued exactly if it was not cached and is in the database, and with the row the database gave. */
  lemma OnlyMissesEnqueued<T>(jobs: Table<T>, page: seq<PaginatedRecord>, cache: Table<T>, prefix: Text,
                              db: Table<T>, key: Text)
    ensures var after := Enqueued(jobs, MissedKeys(page, cache, prefix), prefix, db);
      if key in jobs then key in after && after[key] == jobs[key]
      else
        && (key in after <==>
              key !in cache && exists i :: 0 <= i < |page| && key == prefix + page[i].id && page[i].id in db)
        && (key in after ==>
              exists i ::
                0 <= i < |page| && key == prefix + page[i].id && page[i].id in db && after[key] == db[page[i].id])
  {
    EnqueuedExactly(jobs, page, cache, prefix, db);
  }

  // ----------------------------------------------------------- one request

  function Matching<T>(table: Table<T>, filter: Row<T> -> bool): set<Text> {
    set id | id in table && filter(table[id])
  }

  /** Where the records of a page come from: a later state of the table, or a cache before it. */
  datatype Source<T> = Uncached(db: Table<T>) | Cached(db: Table<T>, cache: Table<T>, prefix: Text)

  function PageFrom<T>(source: Source<T>, rows: seq<PaginatedRecord>, limit: nat, totalCount: nat): Page<T> {
    match source
    case Uncached(db) => UncachedPage(rows, limit, totalCount, db)
    case Cached(db, cache, prefix) => CachedPage(rows, limit, totalCount, db, cache, prefix)
  }

  lemma FrameOf<T>(source: Source<T>, rows: seq<PaginatedRecord>, limit: nat, totalCount: nat)
    ensures var page := PageFrom(source, rows, limit, totalCount);
      && page.totalCount == totalCount && page.hasNextPage == (|rows| > limit)
      && |page.edges| == |page.nodes| == |Kept(rows, limit)|
      && forall i :: 0 <= i < |page.edges| ==> page.edges[i].cursor == Kept(rows, limit)[i].cursor
  {
  }

  ghost function QueryRows<T>(c: Codec, table: Table<T>, filter: Row<T> -> bool, position: Option<Key>, limit: nat):
      seq<PaginatedRecord> {
    Records(c, Query(KeysOf(table, filter), position, limit + 1))
  }

  /** A request answered from `table`, its records taken from `source`. */
  ghost function Answer<T>(c: Codec, table: Table<T>, source: Source<T>, filter: Row<T> -> bool,
                           cursor: Option<Text>, limit: nat): Result<Page<T>, PageError> {
    match c.position(cursor)
    case Err(e) => Err(e)
    case Ok(position) =>
      Ok(PageFrom(source, QueryRows(c, table, filter, position, limit), limit, |Matching(table, filter)|))
  }

  /** The keys of a page, read off its edge cursors. */
  ghost predicate ShowsKeys<T>(c: Codec, page: Page<T>, keys: KeyPage) {
    && page.hasNextPage == keys.hasNext
    && |page.edges| == |keys.keys|
    && forall i :: 0 <= i < |keys.keys| ==> page.edges[i].cursor == c.cursorOf(keys.keys[i])
  }

  lemma RowsOfKeys<T>(c: Codec, table: Table<T>, filter: Row<T> -> bool, position: Option<Key>, limit: nat)
    ensures var rows := QueryRows(c, table, filter, position, limit);
      var keys := PageOf(KeysOf(table, filter), position, limit);
      && keys.hasNext == (|rows| > limit)
      && |Kept(rows, limit)| == |keys.keys|
      && forall i :: 0 <= i < |keys.keys| ==>
           Kept(rows, limit)[i] == PaginatedRecord(keys.keys[i].id, c.cursorOf(keys.keys[i]))
  {
    var query := Query(KeysOf(table, filter), position, limit + 1);
    var keys := PageOf(KeysOf(table, filter), position, limit);
    forall i | 0 <= i < |keys.keys| ensures keys.keys[i] == query[i] {
    }
  }

  lemma AnswerShowsPage<T>(c: Codec, table: Table<T>, source: Source<T>, filter: Row<T> -> bool,
                           cursor: Option<Text>, limit: nat)
    requires c.position(cursor).Ok?
    ensures Answer(c, table, source, filter, cursor, limit).Ok?
    ensures ShowsKeys(c, Answer(c, table, source, filter, cursor, limit).value,
                      PageOf(KeysOf(table, filter), c.position(cursor).value, limit))
  {
    var position := c.position(cursor).value;
    RowsOfKeys(c, table, filter, position, limit);
    FrameOf(source, QueryRows(c, table, filter, position, limit), limit, |Matching(table, filter)|);
  }

  /** The source is the table itself, through a cache that is coherent with it if there is one. */
  ghost predicate Faithful<T>(source: Source<T>, table: Table<T>) {
    source.db == table && (source.Cached? ==> Coherent(source.cache, source.prefix, table))
  }

  /** On one snapshot every position holds its record, and `totalCount` is the size of the filtered table. */
  lemma SnapshotAnswer<T>(c: Codec, table: Table<T>, source: Source<T>, filter: Row<T> -> bool,
                          cursor: Option<Text>, limit: nat)
    requires WellKeyed(table) && Faithful(source, table) && c.position(cursor).Ok? && limit >= 1
    ensures var page := Answer(c, table, source, filter, cursor, limit).value;
      var keys := PageOf(KeysOf(table, filter), c.position(cursor).value, limit).keys;
      && page.totalCount == |KeysOf(table, filter)|
      && |page.nodes| == |keys|
      && forall i :: 0 <= i < |keys| ==>
           && (page.nodes[i].Fresh? || page.nodes[i].Revived?)
           && Key(page.nodes[i].row.createdAt, page.nodes[i].row.id) == keys[i] && filter(page.nodes[i].row)
           && page.edges[i] == Edge(c.cursorOf(keys[i]), page.nodes[i])
  {
    CountIsKeys(table, filter);
    var position := c.position(cursor).value;
    var keys := PageOf(KeysOf(table, filter), position, limit).keys;
    RowsOfKeys(c, table, filter, position, limit);
    forall i | 0 <= i < |keys|
      ensures keys[i].id in table && KeyOf(table[keys[i].id]) == keys[i] && filter(table[keys[i].id])
    {
      PageKeys(KeysOf(table, filter), position, limit, keys[i]);
    }
  }

  lemma CountIsKeys<T>(table: Table<T>, filter: Row<T> -> bool)
    requires WellKeyed(table)
    ensures |Matching(table, filter)| == |KeysOf(table, filter)|
  {
    KeysCounted(table, filter, Matching(table, filter));
    assert (set id | id in Matching(table, filter) :: KeyOf(table[id])) == KeysOf(table, filter);
  }

  lemma {:induction false} KeysCounted<T>(table: Table<T>, filter: Row<T> -> bool, ids: set<Text>)
    requires WellKeyed(table) && ids <= table.Keys
    ensures |set id | id in ids :: KeyOf(table[id])| == |ids|
  {
    var keys := set id | id in ids :: KeyOf(table[id]);
    if ids != {} {
      var id :| id in ids;
      KeysCounted(table, filter, ids - {id});
      var rest := set x | x in ids - {id} :: KeyOf(table[x]);
      assert keys == rest + {KeyOf(table[id])};
      assert KeyOf(table[id]) !in rest;
    }
  }

  // ----------------------------------------------------------- whole walks

  /**
   A client reads page i from `tables[i]` (its records from `sources[i]`), starting at `cursor`, and
   passes the cursor of the last edge on as long as a next page is announced.
   */
  ghost predicate ClientWalk<T>(c: Codec, tables: seq<Table<T>>, sources: seq<Source<T>>, filter: Row<T> -> bool,
                                limits: seq<nat>, cursor: Option<Text>, pages: seq<Page<T>>) {
    && |tables| == |sources| == |limits| == |pages|
    && (pages != [] ==>
          && limits[0] >= 1
          && Answer(c, tables[0], sources[0], filter, cursor, limits[0]) == Ok(pages[0])
          && (|pages| > 1 ==>
                && pages[0].hasNextPage && pages[0].edges != []
                && ClientWalk(c, tables[1..], sources[1..], filter, limits[1..], LastCursor(pages[0]), pages[1..])))
  }

  function LastCursor<T>(page: Page<T>): Option<Text> {
    if page.edges == [] then None else Some(page.edges[|page.edges| - 1].cursor)
  }

  ghost function KeyPages<T>(tables: seq<Table<T>>, filter: Row<T> -> bool, limits: seq<nat>, cursor: Option<Key>):
      (keyPages: seq<KeyPage>)
    requires |tables| == |limits|
    ensures |keyPages| == |tables|
    decreases |tables|
  {
    if tables == [] then []
    else
      var page := PageOf(KeysOf(tables[0], filter), cursor, limits[0]);
      var next := if page.keys == [] then cursor else Some(page.keys[|page.keys| - 1]);
      [page] + KeyPages(tables[1..], filter, limits[1..], next)
  }

  ghost predicate AllCarried<T>(c: Codec, tables: seq<Table<T>>) {
    forall i :: 0 <= i < |tables| ==> WellKeyed(tables[i]) && Carries(c, tables[i])
  }

  ghost predicate ShowAllKeys<T>(c: Codec, pages: seq<Page<T>>, keyPages: seq<KeyPage>) {
    |pages| == |keyPages| && forall i :: 0 <= i < |pages| ==> ShowsKeys(c, pages[i], keyPages[i])
  }

  lemma ShowAllCons<T>(c: Codec, pages: seq<Page<T>>, keyPages: seq<KeyPage>)
    requires pages != [] && |pages| == |keyPages|
    ensures ShowAllKeys(c, pages, keyPages)
      <==> ShowsKeys(c, pages[0], keyPages[0]) && ShowAllKeys(c, pages[1..], keyPages[1..])
  {
    if ShowsKeys(c, pages[0], keyPages[0]) && ShowAllKeys(c, pages[1..], keyPages[1..]) {
      forall i | 0 <= i < |pages| ensures ShowsKeys(c, pages[i], keyPages[i]) {
        if i > 0 { assert pages[i] == pages[1..][i - 1] && keyPages[i] == keyPages[1..][i - 1]; }
      }
    }
    if ShowAllKeys(c, pages, keyPages) {
      forall i | 0 <= i < |pages[1..]| ensures ShowsKeys(c, pages[1..][i], keyPages[1..][i]) {
        assert ShowsKeys(c, pages[i + 1], keyPages[i + 1]);
      }
    }
  }

  lemma SnapshotsTail<T>(tables: seq<Table<T>>, filter: Row<T> -> bool)
    requires tables != []
    ensures Snapshots(tables, filter)[1..] == Snapshots(tables[1..], filter)
  {
  }

  lemma NextCursor<T>(c: Codec, table: Table<T>, source: Source<T>, filter: Row<T> -> bool,
                      cursor: Option<Text>, limit: nat)
    requires WellKeyed(table) && Carries(c, table) && limit >= 1
    requires c.position(cursor).Ok?
    ensures var page := Answer(c, table, source, filter, cursor, limit).value;
      var keys := PageOf(KeysOf(table, filter), c.position(cursor).value, limit);
      keys.hasNext ==>
        && |keys.keys| == limit == |page.edges|
        && c.position(LastCursor(page)) == Ok(Some(keys.keys[limit - 1]))
  {
    AnswerShowsPage(c, table, source, filter, cursor, limit);
    var keys := PageOf(KeysOf(table, filter), c.position(cursor).value, limit);
    if keys.hasNext {
      var last := keys.keys[limit - 1];
      PageKeys(KeysOf(table, filter), c.position(cursor).value, limit, last);
      KeyCarried(c, table, filter, last);
      LastShown(c, Answer(c, table, source, filter, cursor, limit).value, keys, limit);
    }
  }

  lemma KeyCarried<T>(c: Codec, table: Table<T>, filter: Row<T> -> bool, k: Key)
    requires WellKeyed(table) && Carries(c, table) && k in KeysOf(table, filter)
    ensures c.position(Some(c.cursorOf(k))) == Ok(Some(k))
  {
  }

  lemma LastShown<T>(c: Codec, page: Page<T>, keys: KeyPage, limit: nat)
    requires ShowsKeys(c, page, keys) && |keys.keys| == limit >= 1
    ensures LastCursor(page) == Some(c.cursorOf(keys.keys[limit - 1]))
  {
  }

  /** The head of a walk: its first page, and a walk from the next cursor. */
  lemma WalkHead<T>(c: Codec, tables: seq<Table<T>>, sources: seq<Source<T>>, filter: Row<T> -> bool,
                    limits: seq<nat>, cursor: Option<Text>, pages: seq<Page<T>>, start: Option<Key>)
    requires AllCarried(c, tables) && pages != []
    requires ClientWalk(c, tables, sources, filter, limits, cursor, pages) && c.position(cursor) == Ok(start)
    ensures limits[0] >= 1 && ShowsKeys(c, pages[0], PageOf(KeysOf(tables[0], filter), start, limits[0]))
    ensures |pages| > 1 ==>
      var keys := PageOf(KeysOf(tables[0], filter), start, limits[0]);
      && keys.hasNext
      && ClientWalk(c, tables[1..], sources[1..], filter, limits[1..], LastCursor(pages[0]), pages[1..])
      && c.position(LastCursor(pages[0])) == Ok(Some(keys.keys[limits[0] - 1]))
  {
    AnswerShowsPage(c, tables[0], sources[0], filter, cursor, limits[0]);
    NextCursor(c, tables[0], sources[0], filter, cursor, limits[0]);
  }

  /** Text cursors carry a walk exactly as the keys themselves would. */
  lemma {:induction false} ClientWalkIsLiveWalk<T>(c: Codec, tables: seq<Table<T>>, sources: seq<Source<T>>,
                                                   filter: Row<T> -> bool, limits: seq<nat>, cursor: Option<Text>,
                                                   pages: seq<Page<T>>, start: Option<Key>)
    requires AllCarried(c, tables)
    requires ClientWalk(c, tables, sources, filter, limits, cursor, pages)
    requires c.position(cursor) == Ok(start)
    ensures LiveWalk(Snapshots(tables, filter), limits, start, KeyPages(tables, filter, limits, start))
    ensures ShowAllKeys(c, pages, KeyPages(tables, filter, limits, start))
    decreases |pages|
  {
    if pages != [] {
      WalkHead(c, tables, sources, filter, limits, cursor, pages, start);
      if |pages| > 1 {
        var last := Some(PageOf(KeysOf(tables[0], filter), start, limits[0]).keys[limits[0] - 1]);
        ClientWalkIsLiveWalk(c, tables[1..], sources[1..], filter, limits[1..], LastCursor(pages[0]), pages[1..], last);
        KeyPagesTail(tables, filter, limits, start);
        KeyPagesWalk(tables, filter, limits, start);
      } else {
        OnePageWalk(tables, filter, limits, start);
      }
      ShowAllCons(c, pages, KeyPages(tables, filter, limits, start));
    }
  }

  lemma KeyPagesTail<T>(tables: seq<Table<T>>, filter: Row<T> -> bool, limits: seq<nat>, start: Option<Key>)
    requires |tables| == |limits| > 1 && limits[0] >= 1 && PageOf(KeysOf(tables[0], filter), start, limits[0]).hasNext
    ensures var first := PageOf(KeysOf(tables[0], filter), start, limits[0]);
      KeyPages(tables, filter, limits, start)
        == [first] + KeyPages(tables[1..], filter, limits[1..], Some(first.keys[limits[0] - 1]))
  {
  }

  lemma KeyPagesWalk<T>(tables: seq<Table<T>>, filter: Row<T> -> bool, limits: seq<nat>, start: Option<Key>)
    requires |tables| == |limits| > 1 && limits[0] >= 1 && PageOf(KeysOf(tables[0], filter), start, limits[0]).hasNext
    requires var last := Some(PageOf(KeysOf(tables[0], filter), start, limits[0]).keys[limits[0] - 1]);
      LiveWalk(Snapshots(tables[1..], filter), limits[1..], last, KeyPages(tables[1..], filter, limits[1..], last))
    ensures LiveWalk(Snapshots(tables, filter), limits, start, KeyPages(tables, filter, limits, start))
  {
    var first := PageOf(KeysOf(tables[0], filter), start, limits[0]);
    var rest := KeyPages(tables[1..], filter, limits[1..], Some(first.keys[limits[0] - 1]));
    KeyPagesTail(tables, filter, limits, start);
    SnapshotsTail(tables, filter);
    LiveWalkCons(Snapshots(tables, filter), limits, start, first, rest);
  }

  lemma OnePageWalk<T>(tables: seq<Table<T>>, filter: Row<T> -> bool, limits: seq<nat>, start: Option<Key>)
    requires |tables| == |limits| == 1 && limits[0] >= 1
    ensures LiveWalk(Snapshots(tables, filter), limits, start, KeyPages(tables, filter, limits, start))
    ensures KeyPages(tables, filter, limits, start) == [PageOf(KeysOf(tables[0], filter), start, limits[0])]
  {
  }

  /** The cursors a walk has shown, in order. */
  function CursorsOf<T>(pages: seq<Page<T>>): seq<Text> {
    if pages == [] then []
    else
      seq(|pages[0].edges|, i requires 0 <= i < |pages[0].edges| => pages[0].edges[i].cursor) + CursorsOf(pages[1..])
  }

  lemma {:induction false} CursorsAreKeys<T>(c: Codec, pages: seq<Page<T>>, keyPages: seq<KeyPage>)
    requires ShowAllKeys(c, pages, keyPages)
    ensures |CursorsOf(pages)| == |Flatten(keyPages)|
    ensures forall i :: 0 <= i < |CursorsOf(pages)| ==> CursorsOf(pages)[i] == c.cursorOf(Flatten(keyPages)[i])
  {
    if pages != [] {
      ShowAllCons(c, pages, keyPages);
      CursorsAreKeys(c, pages[1..], keyPages[1..]);
    }
  }

  /** The last page announces no other. */
  predicate Finished<T>(pages: seq<Page<T>>) {
    pages != [] && !pages[|pages| - 1].hasNextPage
  }

  lemma FinishedKeys<T>(c: Codec, pages: seq<Page<T>>, keyPages: seq<KeyPage>)
    requires ShowAllKeys(c, pages, keyPages) && Finished(pages)
    ensures keyPages != [] && !keyPages[|keyPages| - 1].hasNext
  {
    assert ShowsKeys(c, pages[|pages| - 1], keyPages[|pages| - 1]);
  }

  /**
   On a table nobody changes, a finished walk shows the cursors of exactly the matching rows, in
   order of creation time and id, each once.
   */
  lemma WalkListsTable<T>(c: Codec, table: Table<T>, tables: seq<Table<T>>, sources: seq<Source<T>>,
                          filter: Row<T> -> bool, limits: seq<nat>, pages: seq<Page<T>>)
    requires WellKeyed(table) && Carries(c, table)
    requires forall i :: 0 <= i < |tables| ==> tables[i] == table
    requires ClientWalk(c, tables, sources, filter, limits, None, pages) && Finished(pages)
    ensures var listing := Sort(KeysOf(table, filter));
      && |CursorsOf(pages)| == |listing|
      && forall i :: 0 <= i < |listing| ==> CursorsOf(pages)[i] == c.cursorOf(listing[i])
  {
    ClientWalkIsLiveWalk(c, tables, sources, filter, limits, None, pages, None);
    var keyPages := KeyPages(tables, filter, limits, None);
    CursorsAreKeys(c, pages, keyPages);
    FinishedKeys(c, pages, keyPages);
    FixedListing(KeysOf(table, filter), Snapshots(tables, filter), limits, keyPages);
  }

  lemma FixedListing(ks: set<Key>, snaps: seq<set<Key>>, limits: seq<nat>, keyPages: seq<KeyPage>)
    requires forall i :: 0 <= i < |snaps| ==> snaps[i] == ks
    requires LiveWalk(snaps, limits, None, keyPages) && keyPages != [] && !keyPages[|keyPages| - 1].hasNext
    ensures Flatten(keyPages) == Sort(ks)
  {
    LiveWalkAscends(snaps, limits, None, keyPages);
    forall k ensures k in Flatten(keyPages) <==> k in ks {
      if k in Flatten(keyPages) {
        FromSomeSnapshot(snaps, limits, None, keyPages, k);
      }
      if k in ks {
        LiveWalkComplete(snaps, limits, None, keyPages, k);
      }
    }
    ListingUnique(Flatten(keyPages), Sort(ks));
  }

  lemma {:induction false} AnnouncedPagesAreFull(snaps: seq<set<Key>>, limits: seq<nat>, cursor: Option<Key>,
          keyPages: seq<KeyPage>)
    requires LiveWalk(snaps, limits, cursor, keyPages) && keyPages != []
    ensures |keyPages| <= |Flatten(keyPages)| + 1
  {
    if |keyPages| > 1 {
      AnnouncedPagesAreFull(snaps[1..], limits[1..], Some(keyPages[0].keys[limits[0] - 1]), keyPages[1..]);
    }
  }

  lemma {:induction false} NoMoreThan(s: seq<Key>, ks: set<Key>)
    requires Ascending(s) && forall k :: k in s ==> k in ks
    ensures |s| <= |ks|
  {
    if s != [] {
      forall k | k in s[1..] ensures k in ks - {s[0]} { RestOf(s, k); }
      NoMoreThan(s[1..], ks - {s[0]});
    }
  }

  /**
   Nobody walks for ever on a table that stays as it is: after one request more than there are rows
   it is over.
   */
  lemma WalkEnds<T>(c: Codec, table: Table<T>, tables: seq<Table<T>>, sources: seq<Source<T>>,
                    filter: Row<T> -> bool, limits: seq<nat>, pages: seq<Page<T>>)
    requires WellKeyed(table) && Carries(c, table)
    requires forall i :: 0 <= i < |tables| ==> tables[i] == table
    requires ClientWalk(c, tables, sources, filter, limits, None, pages)
    ensures |pages| <= |Matching(table, filter)| + 1
  {
    ClientWalkIsLiveWalk(c, tables, sources, filter, limits, None, pages, None);
    CountIsKeys(table, filter);
    if pages != [] {
      FixedWalkEnds(KeysOf(table, filter), Snapshots(tables, filter), limits, KeyPages(tables, filter, limits, None));
    }
  }

  lemma FixedWalkEnds(ks: set<Key>, snaps: seq<set<Key>>, limits: seq<nat>, keyPages: seq<KeyPage>)
    requires forall i :: 0 <= i < |snaps| ==> snaps[i] == ks
    requires LiveWalk(snaps, limits, None, keyPages) && keyPages != []
    ensures |keyPages| <= |ks| + 1
  {
    AnnouncedPagesAreFull(snaps, limits, None, keyPages);
    LiveWalkAscends(snaps, limits, None, keyPages);
    forall k | k in Flatten(keyPages) ensures k in ks { FromSomeSnapshot(snaps, limits, None, keyPages, k); }
    NoMoreThan(Flatten(keyPages), ks);
  }

  function Copies<X>(x: X, n: nat): (xs: seq<X>)
    ensures |xs| == n && forall i :: 0 <= i < n ==> xs[i] == x
  {
    seq(n, i => x)
  }

  lemma FewerBeyond(ks: set<Key>, cursor: Option<Key>, limit: nat)
    requires limit >= 1 && PageOf(ks, cursor, limit).hasNext
    ensures |Sort(Beyond(ks, Some(PageOf(ks, cursor, limit).keys[limit - 1])))| < |Sort(Beyond(ks, cursor))|
  {
    PageSplits(ks, cursor, limit);
  }

  lemma WalkGrows<T>(c: Codec, table: Table<T>, source: Source<T>, filter: Row<T> -> bool, limit: nat,
                     cursor: Option<Text>, page: Page<T>, rest: seq<Page<T>>)
    requires limit >= 1 && Answer(c, table, source, filter, cursor, limit) == Ok(page)
    requires rest != [] ==> page.hasNextPage && page.edges != []
    requires var n := |rest|;
      ClientWalk(c, Copies(table, n), Copies(source, n), filter, Copies(limit, n), LastCursor(page), rest)
    ensures var n := |rest| + 1;
      ClientWalk(c, Copies(table, n), Copies(source, n), filter, Copies(limit, n), cursor, [page] + rest)
  {
    var n := |rest| + 1;
    assert Copies(table, n)[1..] == Copies(table, n - 1) && Copies(source, n)[1..] == Copies(source, n - 1);
    assert Copies(limit, n)[1..] == Copies(limit, n - 1) && ([page] + rest)[1..] == rest;
  }

  /** From any cursor of the table, or from the top, a client who keeps following reaches the end. */
  lemma {:induction false} WalkCanFinish<T>(c: Codec, table: Table<T>, source: Source<T>, filter: Row<T> -> bool,
                                            limit: nat, cursor: Option<Text>, start: Option<Key>)
    returns (pages: seq<Page<T>>)
    requires WellKeyed(table) && Carries(c, table) && limit >= 1 && c.position(cursor) == Ok(start)
    ensures var n := |pages|;
      && ClientWalk(c, Copies(table, n), Copies(source, n), filter, Copies(limit, n), cursor, pages)
      && Finished(pages)
    decreases |Sort(Beyond(KeysOf(table, filter), start))|
  {
    var page := Answer(c, table, source, filter, cursor, limit).value;
    AnswerShowsPage(c, table, source, filter, cursor, limit);
    var rest: seq<Page<T>> := [];
    if page.hasNextPage {
      NextCursor(c, table, source, filter, cursor, limit);
      FewerBeyond(KeysOf(table, filter), start, limit);
      var last := PageOf(KeysOf(table, filter), start, limit).keys[limit - 1];
      rest := WalkCanFinish(c, table, source, filter, limit, LastCursor(page), Some(last));
    }
    WalkGrows(c, table, source, filter, limit, cursor, page, rest);
    pages := [page] + rest;
  }

  /** The walk's cursors are those of these keys, in strict order and with no id twice. */
  ghost predicate ShowsAscending<T>(c: Codec, pages: seq<Page<T>>, keys: seq<Key>) {
    && |CursorsOf(pages)| == |keys|
    && (forall i :: 0 <= i < |keys| ==> CursorsOf(pages)[i] == c.cursorOf(keys[i]))
    && Ascending(keys)
    && (forall i, j :: 0 <= i < j < |keys| ==> keys[i].id != keys[j].id)
  }

  lemma WalkShowsAscending<T(!new)>(c: Codec, tables: seq<Table<T>>, filter: Row<T> -> bool, limits: seq<nat>,
                                    pages: seq<Page<T>>, keyPages: seq<KeyPage>)
    requires StableKeys(tables) && LiveWalk(Snapshots(tables, filter), limits, None, keyPages)
    requires ShowAllKeys(c, pages, keyPages)
    ensures ShowsAscending(c, pages, Flatten(keyPages))
  {
    CursorsAreKeys(c, pages, keyPages);
    WalkOverChanges(tables, filter, limits, keyPages);
  }

  lemma WalkMissesNone<T(!new)>(c: Codec, tables: seq<Table<T>>, filter: Row<T> -> bool, limits: seq<nat>,
                                pages: seq<Page<T>>, keyPages: seq<KeyPage>)
    requires StableKeys(tables) && LiveWalk(Snapshots(tables, filter), limits, None, keyPages)
    requires ShowAllKeys(c, pages, keyPages) && Finished(pages)
    ensures forall id :: Throughout(tables, filter, id) ==> Key(tables[0][id].createdAt, id) in Flatten(keyPages)
  {
    FinishedKeys(c, pages, keyPages);
    WalkOverChanges(tables, filter, limits, keyPages);
  }

  /**
   While rows come and go, a walk shows strictly ascending keys, no record twice, and at its end
   every record that matched all the way through.
   */
  lemma WalkOverChangingTable<T(!new)>(c: Codec, tables: seq<Table<T>>, sources: seq<Source<T>>,
                                       filter: Row<T> -> bool, limits: seq<nat>, pages: seq<Page<T>>)
    requires AllCarried(c, tables) && StableKeys(tables) && c.position(None) == Ok(None)
    requires ClientWalk(c, tables, sources, filter, limits, None, pages)
    ensures var keys := Flatten(KeyPages(tables, filter, limits, None));
      && ShowsAscending(c, pages, keys)
      && (Finished(pages) ==> forall id :: Throughout(tables, filter, id) ==> Key(tables[0][id].createdAt, id) in keys)
  {
    ClientWalkIsLiveWalk(c, tables, sources, filter, limits, None, pages, None);
    var keyPages := KeyPages(tables, filter, limits, None);
    WalkShowsAscending(c, tables, filter, limits, pages, keyPages);
    if Finished(pages) {
      WalkMissesNone(c, tables, filter, limits, pages, keyPages);
    }
  }
}
