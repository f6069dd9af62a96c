/**
 PaginationService: pages with text cursors, with and without the record cache. The database
 answers are inputs: the rows of the page query, the count, and the table the records are fetched
 from, which may have changed since.
 */
module Pagination {
  import opened Cursor
  import opened JsText
  import opened Keyset
  import opened Prelude
  import Base64
  import Json
  import Utf8

  /** How Postgres writes and reads timestamps and UUIDs; None is a value it refuses. */
  datatype Wire = Wire(printAt: int -> Text, parseAt: Text -> Option<int>, parseId: Text -> Option<Text>)

  ghost predicate Lossless(w: Wire) {
    forall at :: w.parseAt(w.printAt(at)) == Some(at)
  }

  ghost predicate Canonical<T>(w: Wire, table: Table<T>) {
    forall id :: id in table ==> w.parseId(id) == Some(id)
  }

  datatype PageError = BadJson | BadParameter

  datatype PaginatedRecord = PaginatedRecord(id: Text, cursor: Text)

  /**
   A position in `results`: a placeholder, a record the fetch did not find, or a record; `Revived`
   ones went through JSON.
   */
  datatype Slot<T> = Hole | Undefined | Fresh(row: Row<T>) | Revived(row: Row<T>)

  datatype Edge<T> = Edge(cursor: Text, node: Slot<T>)

  datatype Page<T> = Page(edges: seq<Edge<T>>, nodes: seq<Slot<T>>, totalCount: nat, hasNextPage: bool)

  function CursorOf(w: Wire, k: Key): Text {
    EncodeCursor(w.printAt(k.at), k.id)
  }

  /** What the query makes of a decoded cursor; a falsy value is no cursor. */
  function PositionIn(w: Wire, json: Json.Json): Result<Option<Key>, PageError> {
    if json.Null? || json == Json.Bool(false) || json == Json.String([]) then Ok(None)
    else
      var at, id := StringProperty(json, CREATED_AT), StringProperty(json, ID);
      if at.None? || id.None? || w.parseAt(at.value).None? || w.parseId(id.value).None? then Err(BadParameter)
      else Ok(Some(Key(w.parseAt(at.value).value, w.parseId(id.value).value)))
  }

  /** The place a request starts from; the empty string is falsy, too. */
  function Position(w: Wire, cursor: Option<Text>): Result<Option<Key>, PageError> {
    if cursor.None? || cursor.value == [] then Ok(None)
    else
      match DecodeCursor(cursor.value)
      case Err(_) => Err(BadJson)
      case Ok(json) => PositionIn(w, json)
  }

  /**
   What a request cursor is answered by: no cursor and the empty one start at the top, one that does
   not decode to JSON is an error of its own, a falsy value starts at the top, too, and anything but
   a time and an id the database reads is refused by it.
   */
  lemma PositionAnswers(w: Wire, cursor: Option<Text>)
    ensures cursor.None? || cursor.value == [] ==> Position(w, cursor) == Ok(None)
    ensures cursor.Some? && cursor.value != [] ==>
      var decoded := Json.Parse(Utf8.Decode(Base64.Decode(cursor.value)));
      if decoded.Err? then Position(w, cursor) == Err(BadJson)
      else if decoded.value in [Json.Null, Json.Bool(false), Json.String([])] then Position(w, cursor) == Ok(None)
      else
        var at, id := StringProperty(decoded.value, CREATED_AT), StringProperty(decoded.value, ID);
        match Position(w, cursor)
        case Err(e) =>
          && e == BadParameter
          && !(at.Some? && w.parseAt(at.value).Some? && id.Some? && w.parseId(id.value).Some?)
        case Ok(position) =>
          && position.Some? && at.Some? && id.Some?
          && w.parseAt(at.value) == Some(position.value.at) && w.parseId(id.value) == Some(position.value.id)
  {
  }

  lemma PositionInPair(w: Wire, k: Key, json: Json.Json)
    requires Lossless(w) && w.parseId(k.id) == Some(k.id)
    requires StringProperty(json, CREATED_AT) == Some(w.printAt(k.at)) && StringProperty(json, ID) == Some(k.id)
    ensures PositionIn(w, json) == Ok(Some(k))
  {
  }

  lemma PositionOfCursor(w: Wire, k: Key)
    requires Lossless(w) && w.parseId(k.id) == Some(k.id)
    ensures Position(w, Some(CursorOf(w, k))) == Ok(Some(k))
  {
    CursorRoundTrip(w.printAt(k.at), k.id);
    PositionInPair(w, k, DecodeCursor(CursorOf(w, k)).value);
    EmptyIsNoJson();
  }

  lemma EmptyIsNoJson()
    ensures DecodeCursor([]) == Err(Json.SyntaxError)
  {
    assert Json.Parse([]).Err?;
  }

  /** Cursors as clients use them: what a cursor stands for, and the cursor of a key. */
  datatype Codec = Codec(position: Option<Text> -> Result<Option<Key>, PageError>, cursorOf: Key -> Text)

  function ServiceCodec(w: Wire): Codec {
    Codec(cursor => Position(w, cursor), k => CursorOf(w, k))
  }

  /** No cursor means the top, and the cursors of the table's rows stand for those rows. */
  ghost predicate Carries<T>(c: Codec, table: Table<T>) {
    && c.position(None) == Ok(None)
    && forall id :: id in table ==> c.position(Some(c.cursorOf(KeyOf(table[id])))) == Ok(Some(KeyOf(table[id])))
  }

  /** The service's own cursors do, for every table. */
  lemma ServiceCursorsCarry<T>(w: Wire, table: Table<T>)
    requires Lossless(w) && WellKeyed(table) && Canonical(w, table)
    ensures Carries(ServiceCodec(w), table)
  {
    forall id | id in table
      ensures Position(w, Some(CursorOf(w, KeyOf(table[id])))) == Ok(Some(KeyOf(table[id])))
    {
      PositionOfCursor(w, KeyOf(table[id]));
    }
  }

  function Records(c: Codec, keys: seq<Key>): (records: seq<PaginatedRecord>)
    ensures |records| == |keys|
    ensures forall i :: 0 <= i < |keys| ==> records[i] == PaginatedRecord(keys[i].id, c.cursorOf(keys[i]))
  {
    seq(|keys|, i requires 0 <= i < |keys| => PaginatedRecord(keys[i].id, c.cursorOf(keys[i])))
  }

  // ------------------------------------------------------------- the answers

  function Kept(rows: seq<PaginatedRecord>, limit: nat): seq<PaginatedRecord> {
    if |rows| > limit then rows[..|rows| - 1] else rows
  }

  function FromDb<T>(db: Table<T>, id: Text): Slot<T> {
    if id in db then Fresh(db[id]) else Undefined
  }

  function FromCache<T>(cache: Table<T>, prefix: Text, db: Table<T>, id: Text): Slot<T> {
    if prefix + id in cache then Revived(cache[prefix + id]) else FromDb(db, id)
  }

  function NodesFromDb<T>(page: seq<PaginatedRecord>, db: Table<T>): (nodes: seq<Slot<T>>)
    ensures |nodes| == |page| && forall i :: 0 <= i < |page| ==> nodes[i] == FromDb(db, page[i].id)
  {
    seq(|page|, i requires 0 <= i < |page| => FromDb(db, page[i].id))
  }

  function NodesFromCache<T>(page: seq<PaginatedRecord>, cache: Table<T>, prefix: Text,
                             db: Table<T>): (nodes: seq<Slot<T>>)
    ensures |nodes| == |page| && forall i :: 0 <= i < |page| ==> nodes[i] == FromCache(cache, prefix, db, page[i].id)
  {
    seq(|page|, i requires 0 <= i < |page| => FromCache(cache, prefix, db, page[i].id))
  }

  function EdgesOf<T>(page: seq<PaginatedRecord>, nodes: seq<Slot<T>>): (edges: seq<Edge<T>>)
    requires |page| == |nodes|
    ensures |edges| == |page| && forall i :: 0 <= i < |page| ==> edges[i] == Edge(page[i].cursor, nodes[i])
  {
    seq(|page|, i requires 0 <= i < |page| => Edge(page[i].cursor, nodes[i]))
  }

  function UncachedPage<T>(rows: seq<PaginatedRecord>, limit: nat, totalCount: nat, db: Table<T>): Page<T> {
    var nodes := NodesFromDb(Kept(rows, limit), db);
    Page(EdgesOf(Kept(rows, limit), nodes), nodes, totalCount, |rows| > limit)
  }

  function CachedPage<T>(rows: seq<PaginatedRecord>, limit: nat, totalCount: nat, db: Table<T>,
                         cache: Table<T>, prefix: Text): Page<T> {
    var nodes := NodesFromCache(Kept(rows, limit), cache, prefix, db);
    Page(EdgesOf(Kept(rows, limit), nodes), nodes, totalCount, |rows| > limit)
  }

  function IdOf(prefix: Text, key: Text): Text {
    if |key| >= |prefix| then key[|prefix|..] else []
  }

  lemma IdOfKey(prefix: Text, id: Text)
    ensures IdOf(prefix, prefix + id) == id
  {
  }

  predicate IsKeyOf(prefix: Text, key: Text, ids: set<Text>) {
    |key| >= |prefix| && key == prefix + IdOf(prefix, key) && IdOf(prefix, key) in ids
  }

  /** The cache keys of the records on the page that have no cache entry. */
  function MissedKeys<T>(page: seq<PaginatedRecord>, cache: Table<T>, prefix: Text): set<Text> {
    set i | 0 <= i < |page| && prefix + page[i].id !in cache :: prefix + page[i].id
  }

  /** The queue once the records that were not cached are enqueued; a job already queued under a key stays. */
  function Enqueued<T>(jobs: Table<T>, keys: set<Text>, prefix: Text, db: Table<T>): Table<T> {
    (map k | k in keys && IdOf(prefix, k) in db :: db[IdOf(prefix, k)]) + jobs
  }

  /** `add` under a job id: a job that is queued stays. */
  function EnqueueOne<T>(jobs: Table<T>, key: Text, value: Row<T>): Table<T> {
    if key in jobs then jobs else jobs[key := value]
  }

  function EnqueueInTurn<T>(jobs: Table<T>, copies: seq<(Text, Row<T>)>): Table<T>
    decreases |copies|
  {
    if copies == [] then jobs else EnqueueInTurn(EnqueueOne(jobs, copies[0].0, copies[0].1), copies[1..])
  }

  predicate FirstUnder<T>(copies: seq<(Text, Row<T>)>, key: Text, i: nat)
    requires i < |copies|
  {
    copies[i].0 == key && forall j :: 0 <= j < i ==> copies[j].0 != key
  }

  /** However often and by whomever records are enqueued, each key keeps its first copy until its job is done. */
  lemma {:induction false} FirstCopyStays<T>(jobs: Table<T>, copies: seq<(Text, Row<T>)>, key: Text)
    ensures var after := EnqueueInTurn(jobs, copies);
      && (key in after <==> key in jobs || exists i :: 0 <= i < |copies| && copies[i].0 == key)
      && (key in jobs ==> after[key] == jobs[key])
      && (forall i :: 0 <= i < |copies| && FirstUnder(copies, key, i) && key !in jobs ==>
            key in after && after[key] == copies[i].1)
    decreases |copies|
  {
    if copies != [] {
      var next, rest := EnqueueOne(jobs, copies[0].0, copies[0].1), copies[1..];
      FirstCopyStays(next, rest, key);
      assert forall i :: 1 <= i < |copies| ==> copies[i] == rest[i - 1];
      if i :| 0 <= i < |rest| && rest[i].0 == key { assert copies[i + 1].0 == key; }
    }
  }

  lemma NothingMissed<T>(page: seq<PaginatedRecord>, cache: Table<T>, prefix: Text, ids: seq<Text>)
    requires ids == []
    requires forall id :: id in ids <==> exists i :: 0 <= i < |page| && page[i].id == id && prefix + id !in cache
    ensures MissedKeys(page, cache, prefix) == {}
  {
    forall i | 0 <= i < |page| ensures prefix + page[i].id in cache {
      assert page[i].id !in ids;
    }
  }

  lemma AllCached<T>(page: seq<PaginatedRecord>, cache: Table<T>, prefix: Text, db: Table<T>, results: seq<Slot<T>>)
    requires MissedKeys(page, cache, prefix) == {} && |results| == |page|
    requires forall i :: 0 <= i < |page| ==>
      results[i] == if prefix + page[i].id in cache then Revived(cache[prefix + page[i].id]) else Hole
    ensures results == NodesFromCache(page, cache, prefix, db)
  {
    forall i | 0 <= i < |page| ensures prefix + page[i].id in cache {
      assert prefix + page[i].id !in MissedKeys(page, cache, prefix);
    }
  }

  lemma FetchedAreMisses<T>(page: seq<PaginatedRecord>, cache: Table<T>, prefix: Text, ids: seq<Text>, db: Table<T>,
                            found: set<Text>)
    requires found == set id | id in ids && id in db
    requires forall id :: id in ids <==> exists i :: 0 <= i < |page| && page[i].id == id && prefix + id !in cache
    ensures forall k :: (k in MissedKeys(page, cache, prefix) && IdOf(prefix, k) in db) <==> IsKeyOf(prefix, k, found)
  {
    forall k ensures (k in MissedKeys(page, cache, prefix) && IdOf(prefix, k) in db) <==> IsKeyOf(prefix, k, found) {
      if k in MissedKeys(page, cache, prefix) {
        var i :| 0 <= i < |page| && prefix + page[i].id !in cache && k == prefix + page[i].id;
        IdOfKey(prefix, page[i].id);
        assert page[i].id in ids;
      }
    }
  }

  /** Every record of the page that was neither cached nor queued but is in the database is queued, and nothing else. */
  lemma EnqueuedExactly<T>(jobs: Table<T>, page: seq<PaginatedRecord>, cache: Table<T>, prefix: Text, db: Table<T>)
    ensures var after := Enqueued(jobs, MissedKeys(page, cache, prefix), prefix, db);
      && (forall k ::
            k in after <==>
              || k in jobs
              || exists i :: 0 <= i < |page| && k == prefix + page[i].id && k !in cache && page[i].id in db)
      && (forall k :: k in jobs ==> after[k] == jobs[k])
      && (forall i :: 0 <= i < |page| && prefix + page[i].id in after && prefix + page[i].id !in jobs ==>
            page[i].id in db && after[prefix + page[i].id] == db[page[i].id])
  {
    forall i | 0 <= i < |page| ensures IdOf(prefix, prefix + page[i].id) == page[i].id {
      IdOfKey(prefix, page[i].id);
    }
  }

  // ------------------------------------------------------------- the service

  class PaginationService<T(==)> {
    const keyPrefix: Text
    var cache: Table<T>
    var jobs: Table<T>

    constructor (prefix: Text)
      ensures keyPrefix == prefix && cache == map[] && jobs == map[]
    {
      keyPrefix := prefix;
      cache, jobs := map[], map[];
    }

    /** Add if absent: the job id is the cache key. */
    method EnqueueCacheData(key: Text, value: Row<T>)
      modifies this`jobs
      ensures jobs == EnqueueOne(old(jobs), key, value)
    {
      if key !in jobs {
        jobs := jobs[key := value];
      }
    }

    method FetchRecords(ids: seq<Text>, db: Table<T>) returns (found: Table<T>)
      ensures found.Keys == (set id | id in ids && id in db)
      ensures forall id :: id in found ==> found[id] == db[id]
    {
      found := map id | id in ids && id in db :: db[id];
    }

    method GetFromCache(page: seq<PaginatedRecord>) returns (results: seq<Slot<T>>, idsNotInCache: seq<Text>)
      ensures |results| == |page|
      ensures forall i :: 0 <= i < |page| ==>
        results[i] == if keyPrefix + page[i].id in cache then Revived(cache[keyPrefix + page[i].id]) else Hole
      ensures forall id ::
        id in idsNotInCache <==> exists i :: 0 <= i < |page| && page[i].id == id && keyPrefix + id !in cache
    {
      results, idsNotInCache := [], [];
      for i := 0 to |page|
        invariant |results| == i
        invariant forall j :: 0 <= j < i ==>
          results[j] == if keyPrefix + page[j].id in cache then Revived(cache[keyPrefix + page[j].id]) else Hole
        invariant forall id ::
          id in idsNotInCache <==> exists j :: 0 <= j < i && page[j].id == id && keyPrefix + id !in cache
      {
        var key := keyPrefix + page[i].id;
        if key !in cache {
          idsNotInCache := idsNotInCache + [page[i].id];
          results := results + [Hole];
        } else {
          results := results + [Revived(cache[key])];
        }
      }
    }

    method EnqueueAll(found: Table<T>)
      modifies this`jobs
      ensures forall k :: k in jobs <==> k in old(jobs) || IsKeyOf(keyPrefix, k, found.Keys)
      ensures forall k :: k in jobs ==>
        if k in old(jobs) then jobs[k] == old(jobs)[k]
        else IsKeyOf(keyPrefix, k, found.Keys) && jobs[k] == found[IdOf(keyPrefix, k)]
    {
      var rest := found.Keys;
      while rest != {}
        invariant rest <= found.Keys
        invariant forall k :: k in jobs <==> k in old(jobs) || IsKeyOf(keyPrefix, k, found.Keys - rest)
        invariant forall k :: k in jobs ==>
          if k in old(jobs) then jobs[k] == old(jobs)[k]
          else IsKeyOf(keyPrefix, k, found.Keys) && jobs[k] == found[IdOf(keyPrefix, k)]
      {
        var id :| id in rest;
        IdOfKey(keyPrefix, id);
        EnqueueCacheData(keyPrefix + id, found[id]);
        rest := rest - {id};
      }
    }

    /** Replace the placeholders by what was fetched; a record that has gone leaves `undefined`. */
    method FillHoles(page: seq<PaginatedRecord>, looked: seq<Slot<T>>, ids: seq<Text>, fetched: Table<T>, db: Table<T>)
      returns (results: seq<Slot<T>>)
      requires |looked| == |page|
      requires forall i :: 0 <= i < |page| ==>
        looked[i] == if keyPrefix + page[i].id in cache then Revived(cache[keyPrefix + page[i].id]) else Hole
      requires forall i :: 0 <= i < |page| && looked[i] == Hole ==> page[i].id in ids
      requires fetched.Keys == (set id | id in ids && id in db) && forall id :: id in fetched ==> fetched[id] == db[id]
      ensures results == NodesFromCache(page, cache, keyPrefix, db)
    {
      results := looked;
      for i := 0 to |results|
        invariant |results| == |page|
        invariant forall j :: 0 <= j < i ==> results[j] == FromCache(cache, keyPrefix, db, page[j].id)
        invariant forall j :: i <= j < |page| ==> results[j] == looked[j]
      {
        if results[i] == Hole {
          var id := page[i].id;
          results := results[i := if id in fetched then Fresh(fetched[id]) else Undefined];
        }
      }
    }

    method EnqueueMisses(page: seq<PaginatedRecord>, ids: seq<Text>, fetched: Table<T>, db: Table<T>)
      requires forall id :: id in ids <==> exists i :: 0 <= i < |page| && page[i].id == id && keyPrefix + id !in cache
      requires fetched.Keys == (set id | id in ids && id in db) && forall id :: id in fetched ==> fetched[id] == db[id]
      modifies this`jobs
      ensures jobs == Enqueued(old(jobs), MissedKeys(page, cache, keyPrefix), keyPrefix, db)
    {
      EnqueueAll(fetched);
      FetchedAreMisses(page, cache, keyPrefix, ids, db, fetched.Keys);
    }

    /** `rows` answers the page query for limit + 1 rows, `totalCount` the count query. */
    method CreatePaginationCached(limit: nat, rows: seq<PaginatedRecord>, totalCount: nat, db: Table<T>)
      returns (result: Page<T>)
      modifies this`jobs
      ensures result == CachedPage(rows, limit, totalCount, db, cache, keyPrefix)
      ensures jobs == Enqueued(old(jobs), MissedKeys(Kept(rows, limit), cache, keyPrefix), keyPrefix, db)
      ensures result.totalCount == totalCount && result.hasNextPage == (|rows| > limit)
      ensures |result.edges| == |result.nodes| == if |rows| > limit then |rows| - 1 else |rows|
      ensures forall i :: 0 <= i < |result.nodes| ==>
        var id, key := rows[i].id, keyPrefix + rows[i].id;
        && result.nodes[i] == (if key in cache then Revived(cache[key])
                               else if id in db then Fresh(db[id]) else Undefined)
        && result.edges[i] == Edge(rows[i].cursor, result.nodes[i])
      ensures forall k ::
        k in jobs <==>
          || k in old(jobs)
          || exists i :: 0 <= i < |result.nodes| && k == keyPrefix + rows[i].id && k !in cache && rows[i].id in db
      ensures forall k :: k in old(jobs) ==> jobs[k] == old(jobs)[k]
      ensures forall i :: 0 <= i < |result.nodes| ==>
        var id, key := rows[i].id, keyPrefix + rows[i].id;
        key in jobs && key !in old(jobs) ==> id in db && jobs[key] == db[id]
    {
      var page := rows;
      var hasNextPage := |page| > limit;
      if hasNextPage { page := page[..|page| - 1]; }
      var results, idsNotInCache := GetFromCache(page);
      if |idsNotInCache| > 0 {
        var fetched := FetchRecords(idsNotInCache, db);
        results := FillHoles(page, results, idsNotInCache, fetched, db);
        EnqueueMisses(page, idsNotInCache, fetched, db);
      } else {
        NothingMissed(page, cache, keyPrefix, idsNotInCache);
        AllCached(page, cache, keyPrefix, db, results);
        assert jobs == Enqueued(jobs, {}, keyPrefix, db);
      }
      result := Collect(page, results, totalCount, hasNextPage);
      EnqueuedExactly(old(jobs), page, cache, keyPrefix, db);
    }

    method Collect(page: seq<PaginatedRecord>, results: seq<Slot<T>>, totalCount: nat, hasNextPage: bool)
      returns (result: Page<T>)
      requires |page| == |results|
      ensures result == Page(EdgesOf(page, results), results, totalCount, hasNextPage)
    {
      var edges := seq(|results|, i requires 0 <= i < |results| => Edge(page[i].cursor, results[i]));
      var nodes := seq(|edges|, i requires 0 <= i < |edges| => edges[i].node);
      assert nodes == results && edges == EdgesOf(page, results);
      result := Page(edges, nodes, totalCount, hasNextPage);
    }

    method CreatePagination(limit: nat, rows: seq<PaginatedRecord>, totalCount: nat, db: Table<T>)
      returns (result: Page<T>)
      ensures result == UncachedPage(rows, limit, totalCount, db)
      ensures result.totalCount == totalCount && result.hasNextPage == (|rows| > limit)
      ensures |result.edges| == |result.nodes| == if |rows| > limit then |rows| - 1 else |rows|
      ensures forall i :: 0 <= i < |result.nodes| ==>
        && result.nodes[i] == (if rows[i].id in db then Fresh(db[rows[i].id]) else Undefined)
        && result.edges[i] == Edge(rows[i].cursor, result.nodes[i])
    {
      var page := rows;
      var hasNextPage := |page| > limit;
      if hasNextPage { page := page[..|page| - 1]; }
      var sortedIds := seq(|page|, i requires 0 <= i < |page| => page[i].id);
      assert forall i :: 0 <= i < |page| ==> sortedIds[i] == page[i].id && sortedIds[i] in sortedIds;
      var fetched := FetchRecords(sortedIds, db);
      var entities := seq(|page|, i requires 0 <= i < |page| =>
        if page[i].id in fetched then Fresh(fetched[page[i].id]) else Undefined);
      var edges := seq(|entities|, i requires 0 <= i < |entities| => Edge(page[i].cursor, entities[i]));
      result := Page(edges, entities, totalCount, hasNextPage);
      assert entities == NodesFromDb(page, db);
      assert edges == EdgesOf(page, entities);
    }
  }
}
