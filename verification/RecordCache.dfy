/**
 The record cache shared by `findOneByIdOrThrowCached` of users and items and by cached pages.
 A record is copied out of the database, the copy travels (with the request, or as a queued job)
 and lands in the cache later, where it is served until it expires or is evicted. Copies land after
 at most `delay`; an entry lives `ttl` after it was set. A hit is only ever served: it is neither
 set again nor enqueued, so no event turns an entry back into a travelling copy.
 */
module RecordCache {
  import opened JsText
  import opened Keyset
  import opened PageWalks
  import opened Pagination
  import opened Prelude

  datatype Config = Config(prefix: Text, ttl: nat, delay: nat)

  /** A record from instant `at` on; None is its absence. */
  datatype Version<T> = Version(at: nat, row: Option<Row<T>>)

  datatype Copy<T> = Copy(row: Row<T>, readAt: nat)

  datatype Entry<T> = Entry(copy: Copy<T>, setAt: nat)

  /** `past` is all the database ever held; `held` are the copies of requests, `jobs` those of the queue. */
  datatype State<T> = State(now: nat, past: map<Text, seq<Version<T>>>, cache: map<Text, Entry<T>>,
                            jobs: map<Text, Copy<T>>, held: map<nat, Copy<T>>)

  datatype Event<T> =
    | Tick(span: nat)
    | Save(row: Row<T>)
    | Remove(id: Text)
    | Read(request: nat, id: Text)
    | SetDirect(request: nat)
    | Enqueue(request: nat)
    | Process(key: Text)
    | Finish(key: Text)
    | Evict(key: Text)
    | Drop(request: nat)

  function Past<T>(s: State<T>, id: Text): seq<Version<T>> {
    if id in s.past then s.past[id] else []
  }

  function Current<T>(h: seq<Version<T>>): Option<Row<T>> {
    if h == [] then None else h[|h| - 1].row
  }

  /** The table as it is. */
  function Live<T>(past: map<Text, seq<Version<T>>>): Table<T> {
    map id | id in past && Current(past[id]).Some? :: Current(past[id]).value
  }

  /** What cache reads give: the entries that have not expired. */
  function Served<T>(c: Config, s: State<T>): Table<T> {
    map k | k in s.cache && s.now <= s.cache[k].setAt + c.ttl :: s.cache[k].copy.row
  }

  /** The row was the record's database value at instant `t`. */
  ghost predicate CurrentAt<T>(h: seq<Version<T>>, row: Row<T>, t: int) {
    exists i :: Reigns(h, i, row, t)
  }

  ghost predicate Reigns<T>(h: seq<Version<T>>, i: int, row: Row<T>, t: int) {
    0 <= i < |h| && h[i].row == Some(row) && h[i].at <= t && (i + 1 < |h| ==> t <= h[i + 1].at)
  }

  function Written<T>(s: State<T>, id: Text, row: Option<Row<T>>): State<T> {
    s.(past := s.past[id := Past(s, id) + [Version(s.now, row)]])
  }

  ghost predicate Enabled<T>(c: Config, s: State<T>, e: Event<T>) {
    match e
    case Tick(_) => true
    case Save(_) => true
    case Remove(id) => id in Live(s.past)
    case Read(request, id) => request !in s.held && id in Live(s.past)
    case SetDirect(request) => request in s.held && s.now <= s.held[request].readAt + c.delay
    case Enqueue(request) => request in s.held
    case Process(key) => key in s.jobs && s.now <= s.jobs[key].readAt + c.delay
    case Finish(key) => key in s.jobs
    case Evict(key) => true
    case Drop(request) => true
  }

  function Next<T>(c: Config, s: State<T>, e: Event<T>): State<T>
    requires Enabled(c, s, e)
  {
    match e
    case Tick(span) => s.(now := s.now + span)
    case Save(row) => Written(s, row.id, Some(row))
    case Remove(id) => Written(s, id, None)
    case Read(request, id) => s.(held := s.held[request := Copy(Live(s.past)[id], s.now)])
    case SetDirect(request) => s.(cache := s.cache[c.prefix + s.held[request].row.id := Entry(s.held[request], s.now)])
    case Enqueue(request) =>
      var key := c.prefix + s.held[request].row.id;
      if key in s.jobs then s else s.(jobs := s.jobs[key := s.held[request]])
    case Process(key) => s.(cache := s.cache[key := Entry(s.jobs[key], s.now)])
    case Finish(key) => s.(jobs := s.jobs - {key})
    case Evict(key) => s.(cache := s.cache - {key})
    case Drop(request) => s.(held := s.held - {request})
  }

  ghost predicate Legal<T>(c: Config, s: State<T>, es: seq<Event<T>>)
    decreases |es|
  {
    es == [] || (Enabled(c, s, es[0]) && Legal(c, Next(c, s, es[0]), es[1..]))
  }

  ghost function Run<T>(c: Config, s: State<T>, es: seq<Event<T>>): State<T>
    requires Legal(c, s, es)
    decreases |es|
  {
    if es == [] then s else Run(c, Next(c, s, es[0]), es[1..])
  }

  function Start<T>(): State<T> {
    State(0, map[], map[], map[], map[])
  }

  // --------------------------------------------------------- what runs keep

  ghost predicate Chronicle<T>(s: State<T>, id: Text) {
    var h := Past(s, id);
    forall i :: 0 <= i < |h| ==> h[i].at <= s.now && (h[i].row.Some? ==> h[i].row.value.id == id)
  }

  ghost predicate CopyOk<T>(s: State<T>, copy: Copy<T>) {
    copy.readAt <= s.now && CurrentAt(Past(s, copy.row.id), copy.row, copy.readAt)
  }

  ghost predicate EntryOk<T>(c: Config, s: State<T>, key: Text, entry: Entry<T>) {
    && key == c.prefix + entry.copy.row.id
    && CopyOk(s, entry.copy)
    && entry.copy.readAt <= entry.setAt <= s.now
    && entry.setAt <= entry.copy.readAt + c.delay
  }

  ghost predicate StateOk<T>(c: Config, s: State<T>) {
    && (forall id :: id in s.past ==> Chronicle(s, id))
    && (forall r :: r in s.held ==> CopyOk(s, s.held[r]))
    && (forall k :: k in s.jobs ==> k == c.prefix + s.jobs[k].row.id && CopyOk(s, s.jobs[k]))
    && (forall k :: k in s.cache ==> EntryOk(c, s, k, s.cache[k]))
  }

  /** A new version takes nothing from what was current before. */
  lemma PastStays<T>(h: seq<Version<T>>, v: Version<T>, row: Row<T>, t: int)
    requires CurrentAt(h, row, t) && t <= v.at
    ensures CurrentAt(h + [v], row, t)
  {
    var i :| Reigns(h, i, row, t);
    assert Reigns(h + [v], i, row, t);
  }

  lemma CurrentNow<T>(s: State<T>, id: Text)
    requires Chronicle(s, id) && id in Live(s.past)
    ensures CurrentAt(s.past[id], Live(s.past)[id], s.now) && Live(s.past)[id].id == id
  {
    var h := Past(s, id);
    assert h[|h| - 1].at <= s.now && h[|h| - 1].row.Some? && h[|h| - 1].row.value.id == id;
    assert Reigns(h, |h| - 1, Live(s.past)[id], s.now);
  }

  lemma WrittenKeeps<T>(c: Config, s: State<T>, id: Text, row: Option<Row<T>>)
    requires StateOk(c, s) && (row.Some? ==> row.value.id == id)
    ensures StateOk(c, Written(s, id, row))
  {
    var s' := Written(s, id, row);
    forall r | r in s.held ensures CopyOk(s', s.held[r]) { CopyStays(s, id, row, s.held[r]); }
    forall k | k in s.jobs ensures CopyOk(s', s.jobs[k]) { CopyStays(s, id, row, s.jobs[k]); }
    forall k | k in s.cache ensures EntryOk(c, s', k, s.cache[k]) { CopyStays(s, id, row, s.cache[k].copy); }
    forall k | k in s'.past ensures Chronicle(s', k) {
      if k in s.past { assert Chronicle(s, k); }
    }
  }

  lemma CopyStays<T>(s: State<T>, id: Text, row: Option<Row<T>>, copy: Copy<T>)
    requires CopyOk(s, copy)
    ensures CopyOk(Written(s, id, row), copy)
  {
    if copy.row.id == id { PastStays(Past(s, id), Version(s.now, row), copy.row, copy.readAt); }
  }

  lemma ChronicleStays<T>(s: State<T>, s': State<T>, id: Text)
    requires Chronicle(s, id) && Past(s', id) == Past(s, id) && s.now <= s'.now
    ensures Chronicle(s', id)
  {
    var h := Past(s, id);
    forall i | 0 <= i < |h| ensures h[i].at <= s'.now && (h[i].row.Some? ==> h[i].row.value.id == id) {
    }
  }

  lemma TimePasses<T>(c: Config, s: State<T>, span: nat)
    requires StateOk(c, s)
    ensures StateOk(c, s.(now := s.now + span))
  {
    var s' := s.(now := s.now + span);
    forall id | id in s.past ensures Chronicle(s', id) { ChronicleStays(s, s', id); }
    forall r | r in s.held ensures CopyOk(s', s.held[r]) { CopyAges(s, span, s.held[r]); }
    forall k | k in s.jobs ensures CopyOk(s', s.jobs[k]) { CopyAges(s, span, s.jobs[k]); }
    forall k | k in s.cache ensures EntryOk(c, s', k, s.cache[k]) {
      assert EntryOk(c, s, k, s.cache[k]);
      CopyAges(s, span, s.cache[k].copy);
    }
  }

  lemma CopyAges<T>(s: State<T>, span: nat, copy: Copy<T>)
    requires CopyOk(s, copy)
    ensures CopyOk(s.(now := s.now + span), copy)
  {
  }

  /** Copies may move, land or vanish as long as each is as good where it ends up. */
  lemma CopiesMove<T>(c: Config, s: State<T>, s': State<T>)
    requires StateOk(c, s) && s'.past == s.past && s'.now == s.now
    requires forall r :: r in s'.held ==> CopyOk(s, s'.held[r])
    requires forall k :: k in s'.jobs ==> k == c.prefix + s'.jobs[k].row.id && CopyOk(s, s'.jobs[k])
    requires forall k :: k in s'.cache ==> EntryOk(c, s, k, s'.cache[k])
    ensures StateOk(c, s')
  {
    forall id | id in s.past ensures Chronicle(s', id) { ChronicleStays(s, s', id); }
    forall k | k in s'.cache ensures EntryOk(c, s', k, s'.cache[k]) { assert EntryOk(c, s, k, s'.cache[k]); }
    forall k | k in s'.jobs ensures CopyOk(s', s'.jobs[k]) { assert CopyOk(s, s'.jobs[k]); }
    forall r | r in s'.held ensures CopyOk(s', s'.held[r]) { assert CopyOk(s, s'.held[r]); }
  }

  lemma ReadKeeps<T>(c: Config, s: State<T>, request: nat, id: Text)
    requires StateOk(c, s) && Enabled(c, s, Read(request, id))
    ensures StateOk(c, Next(c, s, Read(request, id)))
  {
    assert Chronicle(s, id);
    CurrentNow(s, id);
    CopiesMove(c, s, Next(c, s, Read(request, id)));
  }

  lemma LandingKeeps<T>(c: Config, s: State<T>, key: Text, copy: Copy<T>)
    requires StateOk(c, s) && CopyOk(s, copy) && key == c.prefix + copy.row.id && s.now <= copy.readAt + c.delay
    ensures StateOk(c, s.(cache := s.cache[key := Entry(copy, s.now)]))
  {
    CopiesMove(c, s, s.(cache := s.cache[key := Entry(copy, s.now)]));
  }

  lemma EnqueueKeeps<T>(c: Config, s: State<T>, request: nat)
    requires StateOk(c, s) && request in s.held
    ensures StateOk(c, Next(c, s, Enqueue(request)))
  {
    CopiesMove(c, s, Next(c, s, Enqueue(request)));
  }

  lemma LossKeeps<T>(c: Config, s: State<T>, request: nat, key: Text)
    requires StateOk(c, s)
    ensures StateOk(c, s.(jobs := s.jobs - {key}))
    ensures StateOk(c, s.(cache := s.cache - {key}))
    ensures StateOk(c, s.(held := s.held - {request}))
  {
    CopiesMove(c, s, s.(jobs := s.jobs - {key}));
    CopiesMove(c, s, s.(cache := s.cache - {key}));
    CopiesMove(c, s, s.(held := s.held - {request}));
  }

  lemma StepKeeps<T>(c: Config, s: State<T>, e: Event<T>)
    requires StateOk(c, s) && Enabled(c, s, e)
    ensures StateOk(c, Next(c, s, e))
  {
    match e
    case Tick(span) => TimePasses(c, s, span);
    case Save(row) => WrittenKeeps(c, s, row.id, Some(row));
    case Remove(id) => WrittenKeeps(c, s, id, None);
    case Read(request, id) => ReadKeeps(c, s, request, id);
    case SetDirect(request) => LandingKeeps(c, s, c.prefix + s.held[request].row.id, s.held[request]);
    case Process(key) => LandingKeeps(c, s, key, s.jobs[key]);
    case Enqueue(request) => EnqueueKeeps(c, s, request);
    case Finish(key) => LossKeeps(c, s, 0, key);
    case Evict(key) => LossKeeps(c, s, 0, key);
    case Drop(request) => LossKeeps(c, s, request, []);
  }

  lemma {:induction false} RunKeeps<T>(c: Config, s: State<T>, es: seq<Event<T>>)
    requires StateOk(c, s) && Legal(c, s, es)
    ensures StateOk(c, Run(c, s, es))
    decreases |es|
  {
    if es != [] {
      StepKeeps(c, s, es[0]);
      RunKeeps(c, Next(c, s, es[0]), es[1..]);
    }
  }

  // ------------------------------------------------------- what events do

  /** Saving and removing set the row the table has, reading copies it, evicting drops the entry. */
  lemma TableEvents<T>(c: Config, s: State<T>, row: Row<T>, id: Text, request: nat, key: Text)
    ensures Enabled(c, s, Save(row)) && Live(Next(c, s, Save(row)).past) == Live(s.past)[row.id := row]
    ensures id in Live(s.past) ==> Enabled(c, s, Remove(id)) && Live(Next(c, s, Remove(id)).past) == Live(s.past) - {id}
    ensures id in Live(s.past) && request !in s.held ==>
      Enabled(c, s, Read(request, id)) && Next(c, s, Read(request, id)).held[request] == Copy(Live(s.past)[id], s.now)
    ensures Enabled(c, s, Evict(key)) && Next(c, s, Evict(key)) == s.(cache := s.cache - {key})
  {
  }

  /** A miss of a cached page: the record is read and enqueued, and the worker sets it and forgets the job. */
  function Queued<T>(c: Config, request: nat, id: Text): seq<Event<T>> {
    [Read(request, id), Enqueue(request), Drop(request), Event.Process(c.prefix + id), Finish(c.prefix + id)]
  }

  /** It ends with the copy in the cache, the one queued before if there was one, and no job and no request left. */
  lemma QueuedIsCached<T>(c: Config, s: State<T>, request: nat, id: Text)
    requires Chronicle(s, id) && request !in s.held && id in Live(s.past)
    requires c.prefix + id in s.jobs ==> s.now <= s.jobs[c.prefix + id].readAt + c.delay
    ensures Legal(c, s, Queued(c, request, id))
    ensures var key := c.prefix + id;
      var copy := if key in s.jobs then s.jobs[key] else Copy(Live(s.past)[id], s.now);
      Run(c, s, Queued(c, request, id)) == s.(cache := s.cache[key := Entry(copy, s.now)], jobs := s.jobs - {key})
  {
    var key := c.prefix + id;
    var read := Copy(Live(s.past)[id], s.now);
    var copy := if key in s.jobs then s.jobs[key] else read;
    var s1 := s.(held := s.held[request := read]);
    var s3 := s.(jobs := s.jobs[key := copy]);
    var s2 := s1.(jobs := s3.jobs);
    var s4 := s3.(cache := s.cache[key := Entry(copy, s.now)]);
    var s5 := s4.(jobs := s.jobs - {key});
    CurrentNow(s, id);
    JobReplaced(s.jobs, key, copy);
    EnqueueLinks(c, s, request, id, s1, s2, s3);
    WorkLinks(c, s3, key, copy, s4, s5);
    FiveSteps(c, s, Queued(c, request, id), s1, s2, s3, s4, s5);
  }

  lemma EnqueueLinks<T>(c: Config, s: State<T>, request: nat, id: Text, s1: State<T>, s2: State<T>, s3: State<T>)
    requires request !in s.held && id in Live(s.past) && Live(s.past)[id].id == id
    requires s1 == s.(held := s.held[request := Copy(Live(s.past)[id], s.now)])
    requires var key := c.prefix + id;
      s3 == s.(jobs := s.jobs[key := if key in s.jobs then s.jobs[key] else Copy(Live(s.past)[id], s.now)])
    requires s2 == s1.(jobs := s3.jobs)
    ensures Link(c, s, Read(request, id), s1) && Link(c, s1, Enqueue(request), s2) && Link(c, s2, Drop(request), s3)
  {
    assert s.held[request := Copy(Live(s.past)[id], s.now)] - {request} == s.held;
    if c.prefix + id in s.jobs { assert s3.jobs == s.jobs; }
  }

  lemma JobReplaced<T>(jobs: map<Text, Copy<T>>, key: Text, copy: Copy<T>)
    ensures jobs[key := copy] - {key} == jobs - {key}
  {
  }

  lemma WorkLinks<T>(c: Config, s: State<T>, key: Text, copy: Copy<T>, s1: State<T>, s2: State<T>)
    requires key in s.jobs && s.jobs[key] == copy && s.now <= copy.readAt + c.delay
    requires s1 == s.(cache := s.cache[key := Entry(copy, s.now)]) && s2 == s1.(jobs := s.jobs - {key})
    ensures Link(c, s, Event.Process(key), s1) && Link(c, s1, Finish(key), s2)
  {
  }

  lemma FiveSteps<T>(c: Config, s0: State<T>, es: seq<Event<T>>, s1: State<T>, s2: State<T>, s3: State<T>,
                     s4: State<T>, s5: State<T>)
    requires |es| == 5
    requires Link(c, s0, es[0], s1) && Link(c, s1, es[1], s2) && Link(c, s2, es[2], s3)
    requires Link(c, s3, es[3], s4) && Link(c, s4, es[4], s5)
    ensures Legal(c, s0, es) && Run(c, s0, es) == s5
  {
    RunCons(c, s4, es[4..]);
    RunCons(c, s3, es[3..]);
    RunCons(c, s2, es[2..]);
    RunCons(c, s1, es[1..]);
  }

  // ------------------------------------------------------ bounded staleness

  /** Whatever the cache serves was the database value at some instant of the last ttl + delay. */
  lemma BoundedStaleness<T>(c: Config, es: seq<Event<T>>, key: Text)
    requires Legal(c, Start(), es) && key in Served(c, Run(c, Start(), es))
    ensures var end := Run(c, Start(), es);
      var row := Served(c, end)[key];
      && key == c.prefix + row.id
      && exists t: int :: end.now - (c.ttl + c.delay) <= t <= end.now && CurrentAt(Past(end, row.id), row, t)
  {
    RunKeeps(c, Start(), es);
    var end := Run(c, Start(), es);
    assert EntryOk(c, end, key, end.cache[key]);
    assert CurrentAt(Past(end, end.cache[key].copy.row.id), end.cache[key].copy.row, end.cache[key].copy.readAt);
  }

  /** A read starts, the record is saved and evicted, and only then does the copy land. */
  function LateLanding<T>(c: Config, before: Row<T>, after: Row<T>): seq<Event<T>> {
    [Save(before), Read(0, before.id), Save(after), Evict(c.prefix + after.id),
     Tick(c.delay), SetDirect(0), Tick(c.ttl)]
  }

  function AfterLateLanding<T>(c: Config, before: Row<T>, after: Row<T>): State<T> {
    State(c.delay + c.ttl, map[before.id := [Version(0, Some(before)), Version(0, Some(after))]],
          map[c.prefix + before.id := Entry(Copy(before, 0), c.delay)], map[], map[0 := Copy(before, 0)])
  }

  lemma SaveLink<T>(c: Config, s: State<T>, row: Row<T>, h: seq<Version<T>>)
    requires s.past == if h == [] then map[] else map[row.id := h]
    ensures Next(c, s, Save(row)) == s.(past := map[row.id := h + [Version(s.now, Some(row))]])
  {
  }

  ghost predicate Link<T>(c: Config, s: State<T>, e: Event<T>, s': State<T>) {
    Enabled(c, s, e) && s' == Next(c, s, e)
  }

  lemma WriteLinks<T>(c: Config, before: Row<T>, after: Row<T>, s1: State<T>, s2: State<T>, s3: State<T>)
    requires before.id == after.id
    requires s1 == State(0, map[before.id := [Version(0, Some(before))]], map[], map[], map[])
    requires s2 == s1.(held := map[0 := Copy(before, 0)])
    requires s3 == s2.(past := map[before.id := [Version(0, Some(before)), Version(0, Some(after))]])
    ensures Link(c, Start(), Save(before), s1) && Link(c, s1, Read(0, before.id), s2) && Link(c, s2, Save(after), s3)
  {
    var v, w := Version(0, Some(before)), Version(0, Some(after));
    SaveLink(c, Start(), before, []);
    SaveLink(c, s2, after, [v]);
    assert [] + [v] == [v] && [v] + [w] == [v, w];
  }

  lemma LandLinks<T>(c: Config, row: Row<T>, s3: State<T>, s5: State<T>, s6: State<T>, s7: State<T>)
    requires s3.now == 0 && s3.cache == map[] && s3.held == map[0 := Copy(row, 0)]
    requires s5 == s3.(now := c.delay)
    requires s6 == s5.(cache := map[c.prefix + row.id := Entry(Copy(row, 0), c.delay)])
    requires s7 == s6.(now := c.delay + c.ttl)
    ensures Link(c, s3, Evict(c.prefix + row.id), s3) && Link(c, s3, Tick(c.delay), s5)
    ensures Link(c, s5, SetDirect(0), s6) && Link(c, s6, Tick(c.ttl), s7)
  {
  }

  lemma LateLandingRuns<T>(c: Config, before: Row<T>, after: Row<T>)
    requires before.id == after.id
    ensures Legal(c, Start(), LateLanding(c, before, after))
    ensures Run(c, Start(), LateLanding(c, before, after)) == AfterLateLanding(c, before, after)
  {
    var s1: State<T> := State(0, map[before.id := [Version(0, Some(before))]], map[], map[], map[]);
    var s2 := s1.(held := map[0 := Copy(before, 0)]);
    var s3 := s2.(past := map[before.id := [Version(0, Some(before)), Version(0, Some(after))]]);
    var s5 := s3.(now := c.delay);
    var s6 := s5.(cache := map[c.prefix + before.id := Entry(Copy(before, 0), c.delay)]);
    var s7 := AfterLateLanding(c, before, after);
    WriteLinks(c, before, after, s1, s2, s3);
    LandLinks(c, before, s3, s5, s6, s7);
    SevenSteps(c, Start(), LateLanding(c, before, after), s1, s2, s3, s3, s5, s6, s7);
  }

  /** The bound is met: after `saveOne` the cache can serve the old row for ttl + delay. */
  lemma BoundIsMet<T>(c: Config, before: Row<T>, after: Row<T>)
    requires before.id == after.id && before != after
    ensures var es := LateLanding(c, before, after);
      && Legal(c, Start(), es)
      && var end := Run(c, Start(), es);
      && Current(Past(end, before.id)) == Some(after)
      && c.prefix + before.id in Served(c, end) && Served(c, end)[c.prefix + before.id] == before
      && forall t: int :: CurrentAt(Past(end, before.id), before, t) ==> t <= end.now - (c.ttl + c.delay)
  {
    LateLandingRuns(c, before, after);
    Superseded(before, after, [Version(0, Some(before)), Version(0, Some(after))]);
  }

  lemma Superseded<T>(before: Row<T>, after: Row<T>, h: seq<Version<T>>)
    requires before != after && h == [Version(0, Some(before)), Version(0, Some(after))]
    ensures forall t: int :: CurrentAt(h, before, t) ==> t <= 0
  {
  }

  lemma SevenSteps<T>(c: Config, s0: State<T>, es: seq<Event<T>>, s1: State<T>, s2: State<T>, s3: State<T>,
                      s4: State<T>, s5: State<T>, s6: State<T>, s7: State<T>)
    requires |es| == 7
    requires Link(c, s0, es[0], s1) && Link(c, s1, es[1], s2) && Link(c, s2, es[2], s3) && Link(c, s3, es[3], s4)
    requires Link(c, s4, es[4], s5) && Link(c, s5, es[5], s6) && Link(c, s6, es[6], s7)
    ensures Legal(c, s0, es) && Run(c, s0, es) == s7
  {
    RunCons(c, s6, es[6..]);
    RunCons(c, s5, es[5..]);
    RunCons(c, s4, es[4..]);
    RunCons(c, s3, es[3..]);
    RunCons(c, s2, es[2..]);
    RunCons(c, s1, es[1..]);
  }

  lemma RunCons<T>(c: Config, s: State<T>, es: seq<Event<T>>)
    requires es != [] && Enabled(c, s, es[0]) && Legal(c, Next(c, s, es[0]), es[1..])
    ensures Legal(c, s, es) && Run(c, s, es) == Run(c, Next(c, s, es[0]), es[1..])
  {
  }

  // --------------------------------------------------- what a save settles

  ghost predicate Stale<T>(s: State<T>, id: Text, copy: Copy<T>) {
    copy.row.id == id && Current(Past(s, id)) != Some(copy.row)
  }

  predicate TooLate<T>(c: Config, s: State<T>, copy: Copy<T>) {
    s.now > copy.readAt + c.delay
  }

  /** A stale copy of the record is too late to land, and a stale entry has expired. */
  ghost predicate Settled<T>(c: Config, s: State<T>, id: Text) {
    && (forall r :: r in s.held && Stale(s, id, s.held[r]) ==> TooLate(c, s, s.held[r]))
    && (forall k :: k in s.jobs && Stale(s, id, s.jobs[k]) ==> TooLate(c, s, s.jobs[k]))
    && (forall k :: k in s.cache && Stale(s, id, s.cache[k].copy) ==> s.now > s.cache[k].setAt + c.ttl)
  }

  predicate Writes<T>(e: Event<T>, id: Text) {
    (e.Save? && e.row.id == id) || (e.Remove? && e.id == id)
  }

  lemma ReadSettles<T>(c: Config, s: State<T>, id: Text, request: nat, other: Text)
    requires Chronicle(s, other) && Settled(c, s, id) && Enabled(c, s, Read(request, other))
    ensures Settled(c, Next(c, s, Read(request, other)), id)
  {
    CurrentNow(s, other);
    CopiesSettle(c, s, Next(c, s, Read(request, other)), id);
  }

  lemma WriteSettles<T>(c: Config, s: State<T>, id: Text, other: Text, row: Option<Row<T>>)
    requires Settled(c, s, id) && other != id
    ensures Settled(c, Written(s, other, row), id) && Past(Written(s, other, row), id) == Past(s, id)
  {
    CopiesSettle(c, s, Written(s, other, row), id);
  }

  lemma SettledStep<T>(c: Config, s: State<T>, id: Text, e: Event<T>)
    requires (forall k :: k in s.past ==> Chronicle(s, k)) && Settled(c, s, id) && Enabled(c, s, e) && !Writes(e, id)
    ensures Settled(c, Next(c, s, e), id) && Past(Next(c, s, e), id) == Past(s, id)
  {
    match e
    case Tick(_) => CopiesSettle(c, s, Next(c, s, e), id);
    case Save(row) => WriteSettles(c, s, id, row.id, Some(row));
    case Remove(other) => WriteSettles(c, s, id, other, None);
    case Read(request, other) => ReadSettles(c, s, id, request, other);
    case SetDirect(_) => CopiesSettle(c, s, Next(c, s, e), id);
    case Process(_) => CopiesSettle(c, s, Next(c, s, e), id);
    case Enqueue(_) => CopiesSettle(c, s, Next(c, s, e), id);
    case Finish(_) => CopiesSettle(c, s, Next(c, s, e), id);
    case Evict(_) => CopiesSettle(c, s, Next(c, s, e), id);
    case Drop(_) => CopiesSettle(c, s, Next(c, s, e), id);
  }

  /** A copy that may be there: one that was, or one that is not stale. */
  ghost predicate CopyKept<T>(c: Config, s: State<T>, id: Text, copy: Copy<T>) {
    || !Stale(s, id, copy)
    || (exists r :: r in s.held && s.held[r] == copy)
    || (exists k :: k in s.jobs && s.jobs[k] == copy)
  }

  lemma CopiesSettle<T>(c: Config, s: State<T>, s': State<T>, id: Text)
    requires Settled(c, s, id) && Past(s', id) == Past(s, id) && s.now <= s'.now
    requires forall r :: r in s'.held ==> CopyKept(c, s, id, s'.held[r])
    requires forall k :: k in s'.jobs ==> CopyKept(c, s, id, s'.jobs[k])
    requires forall k :: k in s'.cache ==>
      || (k in s.cache && s'.cache[k] == s.cache[k])
      || (CopyKept(c, s, id, s'.cache[k].copy) && !TooLate(c, s, s'.cache[k].copy))
    ensures Settled(c, s', id)
  {
  }

  /**
   A record without stale copies that can still land or be served is served as it is until the next
   write: staleness needs a copy that was read before the write.
   */
  lemma {:induction false} SettledUntilWritten<T>(c: Config, s: State<T>, id: Text, es: seq<Event<T>>)
    requires StateOk(c, s) && Settled(c, s, id) && Legal(c, s, es)
    requires forall i :: 0 <= i < |es| ==> !Writes(es[i], id)
    ensures var end := Run(c, s, es);
      && Past(end, id) == Past(s, id)
      && Settled(c, end, id)
      && (c.prefix + id in Served(c, end) ==> Some(Served(c, end)[c.prefix + id]) == Current(Past(s, id)))
    decreases |es|
  {
    if es == [] {
      if c.prefix + id in s.cache {
        assert EntryOk(c, s, c.prefix + id, s.cache[c.prefix + id]);
        SamePrefix(c.prefix, id, s.cache[c.prefix + id].copy.row.id);
      }
    } else {
      SettledStep(c, s, id, es[0]);
      StepKeeps(c, s, es[0]);
      SettledUntilWritten(c, Next(c, s, es[0]), id, es[1..]);
    }
  }

  /** A run that does not write the record and after which the cache serves it stale. */
  ghost predicate ServesStale<T>(c: Config, s: State<T>, id: Text, es: seq<Event<T>>) {
    && Legal(c, s, es)
    && (forall i :: 0 <= i < |es| ==> !Writes(es[i], id))
    && c.prefix + id in Served(c, Run(c, s, es))
    && Some(Served(c, Run(c, s, es))[c.prefix + id]) != Current(Past(s, id))
  }

  lemma HeldServes<T>(c: Config, s: State<T>, id: Text, r: nat)
    requires StateOk(c, s) && r in s.held && Stale(s, id, s.held[r]) && !TooLate(c, s, s.held[r])
    ensures ServesStale(c, s, id, [SetDirect(r)])
  {
    OneStep(c, s, SetDirect(r));
  }

  lemma JobServes<T>(c: Config, s: State<T>, id: Text, key: Text)
    requires StateOk(c, s) && key in s.jobs && Stale(s, id, s.jobs[key]) && !TooLate(c, s, s.jobs[key])
    ensures ServesStale(c, s, id, [Event.Process(key)])
  {
    OneStep(c, s, Event.Process(key));
  }

  lemma EntryServes<T>(c: Config, s: State<T>, id: Text, key: Text)
    requires StateOk(c, s) && key in s.cache && Stale(s, id, s.cache[key].copy) && s.now <= s.cache[key].setAt + c.ttl
    ensures ServesStale(c, s, id, [])
  {
    assert EntryOk(c, s, key, s.cache[key]);
  }

  /** Before the next write the record can be served stale exactly if it is not settled. */
  lemma StaleUntilWrittenIff<T>(c: Config, s: State<T>, id: Text)
    requires StateOk(c, s)
    ensures (exists es :: ServesStale(c, s, id, es)) <==> !Settled(c, s, id)
  {
    if es :| ServesStale(c, s, id, es) {
      if Settled(c, s, id) { SettledUntilWritten(c, s, id, es); }
    }
    if !Settled(c, s, id) { var es := UnsettledServes(c, s, id); }
  }

  lemma UnsettledServes<T>(c: Config, s: State<T>, id: Text) returns (es: seq<Event<T>>)
    requires StateOk(c, s) && !Settled(c, s, id)
    ensures ServesStale(c, s, id, es)
  {
    if r :| r in s.held && Stale(s, id, s.held[r]) && !TooLate(c, s, s.held[r]) {
      HeldServes(c, s, id, r);
      es := [SetDirect(r)];
    } else if k :| k in s.jobs && Stale(s, id, s.jobs[k]) && !TooLate(c, s, s.jobs[k]) {
      JobServes(c, s, id, k);
      es := [Event.Process(k)];
    } else {
      var k :| k in s.cache && Stale(s, id, s.cache[k].copy) && s.now <= s.cache[k].setAt + c.ttl;
      EntryServes(c, s, id, k);
      es := [];
    }
  }

  lemma OneStep<T>(c: Config, s: State<T>, e: Event<T>)
    requires Enabled(c, s, e)
    ensures Legal(c, s, [e]) && Run(c, s, [e]) == Next(c, s, e)
  {
    assert [e][1..] == [];
    RunCons(c, s, [e]);
  }

  lemma SamePrefix(prefix: Text, a: Text, b: Text)
    requires prefix + a == prefix + b
    ensures a == b
  {
    assert (prefix + a)[|prefix|..] == a && (prefix + b)[|prefix|..] == b;
  }

  /** What a record shown at some position of a cached page is: its id, and how old it can be. */
  ghost predicate RecentNode<T>(c: Config, s: State<T>, id: Text, node: Slot<T>) {
    match node
    case Revived(row) =>
      && row.id == id
      && exists t: int :: s.now - (c.ttl + c.delay) <= t <= s.now && CurrentAt(Past(s, id), row, t)
    case Fresh(row) => row.id == id && Current(Past(s, id)) == Some(row)
    case Undefined => Current(Past(s, id)) == None
    case Hole => false
  }

  /**
   So for records that change: after any run, position i of a cached page holds a value that the
   record with the i-th id had within the last ttl + delay, its current value if it was not cached,
   and nothing only if it is gone.
   */
  lemma CachedPageIsRecent<T>(c: Config, es: seq<Event<T>>, rows: seq<PaginatedRecord>, limit: nat, totalCount: nat)
    requires Legal(c, Start(), es)
    ensures var end := Run(c, Start(), es);
      var page := CachedPage(rows, limit, totalCount, Live(end.past), Served(c, end), c.prefix);
      && |page.nodes| == |Kept(rows, limit)|
      && forall i :: 0 <= i < |page.nodes| ==> RecentNode(c, end, Kept(rows, limit)[i].id, page.nodes[i])
  {
    var end := Run(c, Start(), es);
    var kept := Kept(rows, limit);
    forall i | 0 <= i < |kept|
      ensures RecentNode(c, end, kept[i].id, FromCache(Served(c, end), c.prefix, Live(end.past), kept[i].id))
    {
      NodeIsRecent(c, es, kept[i].id);
    }
  }

  lemma NodeIsRecent<T>(c: Config, es: seq<Event<T>>, id: Text)
    requires Legal(c, Start(), es)
    ensures var end := Run(c, Start(), es);
      RecentNode(c, end, id, FromCache(Served(c, end), c.prefix, Live(end.past), id))
  {
    RunKeeps(c, Start(), es);
    var end := Run(c, Start(), es);
    if c.prefix + id in Served(c, end) {
      BoundedStaleness(c, es, c.prefix + id);
      SamePrefix(c.prefix, id, Served(c, end)[c.prefix + id].id);
    } else if id in Live(end.past) {
      CurrentNow(end, id);
    }
  }

  // ------------------------------------------- rows that are never updated

  /** Items and votes: a row is inserted under an id of its own and at most deleted. */
  ghost predicate InsertsOnly<T>(c: Config, s: State<T>, es: seq<Event<T>>)
    requires Legal(c, s, es)
    decreases |es|
  {
    es == [] || ((es[0].Save? ==> es[0].row.id !in s.past) && InsertsOnly(c, Next(c, s, es[0]), es[1..]))
  }

  ghost predicate OneLife<T>(h: seq<Version<T>>) {
    h != [] && h[0].row.Some? && forall i :: 1 <= i < |h| ==> h[i].row.None?
  }

  ghost predicate OneLives<T>(past: map<Text, seq<Version<T>>>) {
    forall id :: id in past ==> OneLife(past[id])
  }

  lemma OneLifeStep<T>(c: Config, s: State<T>, e: Event<T>)
    requires Enabled(c, s, e) && (e.Save? ==> e.row.id !in s.past)
    requires OneLives(s.past)
    ensures OneLives(Next(c, s, e).past)
  {
  }

  lemma {:induction false} LivesStaySingle<T>(c: Config, s: State<T>, es: seq<Event<T>>)
    requires Legal(c, s, es) && InsertsOnly(c, s, es)
    requires OneLives(s.past)
    ensures OneLives(Run(c, s, es).past)
    decreases |es|
  {
    if es != [] {
      OneLifeStep(c, s, es[0]);
      LivesStaySingle(c, Next(c, s, es[0]), es[1..]);
    }
  }

  lemma OnlyValue<T>(h: seq<Version<T>>, row: Row<T>, t: int)
    requires OneLife(h) && CurrentAt(h, row, t)
    ensures Current(h).Some? ==> Current(h) == Some(row)
  {
  }

  /**
   For such rows the cache is coherent in every reachable state, whatever the delays and whichever
   jobs were merged, repeated or lost; so a cached page is the uncached one.
   */
  lemma ImmutableRowsNeverStale<T>(c: Config, es: seq<Event<T>>)
    requires Legal(c, Start(), es) && InsertsOnly(c, Start(), es)
    ensures var end := Run(c, Start(), es);
      && WellKeyed(Live(end.past))
      && Coherent(Served(c, end), c.prefix, Live(end.past))
  {
    RunKeeps(c, Start(), es);
    LivesStaySingle(c, Start(), es);
    var end := Run(c, Start(), es);
    forall id | id in Live(end.past) ensures Live(end.past)[id].id == id {
      CurrentNow(end, id);
    }
    forall id | id in Live(end.past) && c.prefix + id in Served(c, end)
      ensures Served(c, end)[c.prefix + id] == Live(end.past)[id]
    {
      var entry := end.cache[c.prefix + id];
      assert EntryOk(c, end, c.prefix + id, entry);
      SamePrefix(c.prefix, id, entry.copy.row.id);
      OnlyValue(Past(end, id), entry.copy.row, entry.copy.readAt);
    }
  }

  lemma CachedPagesAgree<T>(c: Config, es: seq<Event<T>>, rows: seq<PaginatedRecord>, limit: nat, totalCount: nat)
    requires Legal(c, Start(), es) && InsertsOnly(c, Start(), es)
    requires forall i :: 0 <= i < |rows| ==> rows[i].id in Live(Run(c, Start(), es).past)
    ensures var end := Run(c, Start(), es);
      SamePage(CachedPage(rows, limit, totalCount, Live(end.past), Served(c, end), c.prefix),
               UncachedPage(rows, limit, totalCount, Live(end.past)))
  {
    ImmutableRowsNeverStale(c, es);
    var end := Run(c, Start(), es);
    CachedRefinesUncached(rows, limit, totalCount, Live(end.past), Served(c, end), c.prefix);
  }

  // ---------------------------------------------------------- the services

  datatype RecordError = NotFound | AlreadyExists | Internal

  /** Users and items behind their cache, one call at a time: every call is a run of the machine. */
  class RecordService<T(==)> {
    const config: Config
    const validUuid: Text -> bool
    var now: nat
    var db: Table<T>
    var cache: map<Text, Entry<T>>
    var jobs: map<Text, Copy<T>>
    ghost var past: map<Text, seq<Version<T>>>

    ghost predicate Valid()
      reads this
    {
      db == Live(past) && WellKeyed(db) && forall id :: id in past ==> past[id] != []
    }

    ghost function Snapshot(): State<T>
      reads this
    {
      State(now, past, cache, jobs, map[])
    }

    constructor (config: Config, validUuid: Text -> bool)
      ensures Valid() && Snapshot() == Start() && this.config == config && this.validUuid == validUuid
    {
      this.config, this.validUuid := config, validUuid;
      now, db, cache, jobs, past := 0, map[], map[], map[], map[];
    }

    method FindOneByIdOrThrow(id: Text) returns (reply: Result<Row<T>, RecordError>)
      ensures reply == if validUuid(id) && id in db then Ok(db[id]) else Err(NotFound)
    {
      if !validUuid(id) || id !in db { return Err(NotFound); }
      reply := Ok(db[id]);
    }

    /** A hit is served as it is; a miss is read, set and returned; only a miss touches the cache. */
    method FindOneByIdOrThrowCached(id: Text) returns (reply: Result<Row<T>, RecordError>)
      requires Valid()
      modifies this`cache
      ensures Valid()
      ensures var key, s := config.prefix + id, old(Snapshot());
        if validUuid(id) && key in Served(config, s) then reply == Ok(Served(config, s)[key]) && Snapshot() == s
        else if validUuid(id) && id in db then
          var es := [Read(0, id), SetDirect(0), Drop(0)];
          reply == Ok(db[id]) && Legal(config, s, es) && Snapshot() == Run(config, s, es)
        else reply == Err(NotFound) && Snapshot() == s
      ensures var key := config.prefix + id;
        if !validUuid(id) then reply == Err(NotFound) && cache == old(cache)
        else if key in old(cache) && now <= old(cache)[key].setAt + config.ttl then
          reply == Ok(old(cache)[key].copy.row) && cache == old(cache)
        else if id in db then reply == Ok(db[id]) && cache == old(cache)[key := Entry(Copy(db[id], now), now)]
        else reply == Err(NotFound) && cache == old(cache)
    {
      if !validUuid(id) { return Err(NotFound); }
      var key := config.prefix + id;
      if key in cache && now <= cache[key].setAt + config.ttl { return Ok(cache[key].copy.row); }
      reply := FindOneByIdOrThrow(id);
      if reply.Err? { return; }
      ghost var s := Snapshot();
      cache := cache[key := Entry(Copy(reply.value, now), now)];
      ThreeSteps(config, s, Read(0, id), SetDirect(0), Drop(0));
      assert Snapshot() == Next(config, Next(config, Next(config, s, Read(0, id)), SetDirect(0)), Drop(0));
    }

    method DeleteFromCache(id: Text)
      modifies this`cache
      ensures cache == old(cache) - {config.prefix + id}
    {
      cache := cache - {config.prefix + id};
    }

    /**
     Save, then evict; a key violation saves and evicts nothing. When Redis fails the eviction
     (`evicts` is false), the row is saved, the entry stays and the caller gets an error.
     */
    method SaveOne(row: Row<T>, duplicate: bool, evicts: bool) returns (reply: Result<Row<T>, RecordError>)
      requires Valid()
      modifies this`db, this`cache, this`past
      ensures Valid()
      ensures duplicate ==> reply == Err(AlreadyExists) && Snapshot() == old(Snapshot())
      ensures db == if duplicate then old(db) else old(db)[row.id := row]
      ensures cache == if duplicate || !evicts then old(cache) else old(cache) - {config.prefix + row.id}
      ensures !duplicate && !evicts ==> reply == Err(Internal) && Snapshot() == Next(config, old(Snapshot()), Save(row))
      ensures !duplicate && evicts ==>
        var key := config.prefix + row.id;
        && reply == Ok(row)
        && Snapshot() == Run(config, old(Snapshot()), [Save(row), Evict(key)])
        && (StateOk(config, old(Snapshot())) ==>
              (Settled(config, Snapshot(), row.id) <==>
                 (key in jobs ==> jobs[key].row == row || TooLate(config, old(Snapshot()), jobs[key]))))
    {
      if duplicate { return Err(AlreadyExists); }
      ghost var s := Snapshot();
      db := db[row.id := row];
      past := Written(s, row.id, Some(row)).past;
      SavedTable(s, row);
      if !evicts { return Err(Internal); }
      DeleteFromCache(row.id);
      SaveRun(config, s, row);
      reply := Ok(row);
    }

    /** The queue worker: set the value the job carries, then forget the job. */
    method Process(key: Text)
      requires key in jobs
      modifies this`cache, this`jobs
      ensures cache == old(cache)[key := Entry(old(jobs)[key], now)] && jobs == old(jobs) - {key}
      ensures var s, es := old(Snapshot()), [Event.Process(key), Finish(key)];
        now <= old(jobs)[key].readAt + config.delay ==> Legal(config, s, es) && Snapshot() == Run(config, s, es)
    {
      ghost var s := Snapshot();
      cache := cache[key := Entry(jobs[key], now)];
      jobs := jobs - {key};
      if now <= s.jobs[key].readAt + config.delay { TwoSteps(config, s, Event.Process(key), Finish(key)); }
    }
  }

  lemma SavedTable<T>(s: State<T>, row: Row<T>)
    ensures Live(Written(s, row.id, Some(row)).past) == Live(s.past)[row.id := row]
  {
  }

  lemma SaveRun<T>(c: Config, s: State<T>, row: Row<T>)
    ensures var key, es := c.prefix + row.id, [Save(row), Evict(c.prefix + row.id)];
      && Legal(c, s, es)
      && Run(c, s, es) == s.(past := Written(s, row.id, Some(row)).past, cache := s.cache - {key})
      && (StateOk(c, s) && s.held == map[] ==>
            (Settled(c, Run(c, s, es), row.id) <==>
               (key in s.jobs ==> s.jobs[key].row == row || TooLate(c, s, s.jobs[key]))))
  {
    TwoSteps(c, s, Save(row), Evict(c.prefix + row.id));
    if StateOk(c, s) { SaveSettlesIff(c, s, row); }
  }

  lemma TwoSteps<T>(c: Config, s: State<T>, d: Event<T>, e: Event<T>)
    requires Enabled(c, s, d) && Enabled(c, Next(c, s, d), e)
    ensures Legal(c, s, [d, e]) && Run(c, s, [d, e]) == Next(c, Next(c, s, d), e)
  {
    RunCons(c, Next(c, s, d), [e]);
    assert [d, e][1..] == [e];
    RunCons(c, s, [d, e]);
  }

  lemma ThreeSteps<T>(c: Config, s: State<T>, d: Event<T>, e: Event<T>, f: Event<T>)
    requires Enabled(c, s, d) && Enabled(c, Next(c, s, d), e) && Enabled(c, Next(c, Next(c, s, d), e), f)
    ensures Legal(c, s, [d, e, f]) && Run(c, s, [d, e, f]) == Next(c, Next(c, Next(c, s, d), e), f)
  {
    TwoSteps(c, Next(c, s, d), e, f);
    assert [d, e, f][1..] == [e, f];
    RunCons(c, s, [d, e, f]);
  }

  /**
   A save with its eviction settles the record exactly if no other row of it is held or queued that
   can still land.
   */
  lemma SaveSettlesIff<T>(c: Config, s: State<T>, row: Row<T>)
    requires StateOk(c, s)
    ensures var key, after := c.prefix + row.id, Next(c, Next(c, s, Save(row)), Evict(c.prefix + row.id));
      Settled(c, after, row.id) <==>
        && (forall r :: r in s.held && s.held[r].row.id == row.id ==> s.held[r].row == row || TooLate(c, s, s.held[r]))
        && (key in s.jobs ==> s.jobs[key].row == row || TooLate(c, s, s.jobs[key]))
  {
    var key, after := c.prefix + row.id, Next(c, Next(c, s, Save(row)), Evict(c.prefix + row.id));
    OwnKeyOnly(c, s, row.id);
    forall copy: Copy<T> ensures Stale(after, row.id, copy) <==> copy.row.id == row.id && copy.row != row {
      assert Current(Past(after, row.id)) == Some(row);
    }
    if key in s.jobs { assert after.jobs[key] == s.jobs[key]; }
  }

  /** Jobs and entries of a record lie under its own key and no other. */
  lemma OwnKeyOnly<T>(c: Config, s: State<T>, id: Text)
    requires StateOk(c, s)
    ensures forall k :: k in s.cache ==> (k == c.prefix + id <==> s.cache[k].copy.row.id == id)
    ensures forall k :: k in s.jobs ==> (k == c.prefix + id <==> s.jobs[k].row.id == id)
  {
    forall k | k in s.cache ensures k == c.prefix + id <==> s.cache[k].copy.row.id == id {
      assert EntryOk(c, s, k, s.cache[k]);
      if k == c.prefix + id { SamePrefix(c.prefix, id, s.cache[k].copy.row.id); }
    }
    forall k | k in s.jobs ensures k == c.prefix + id <==> s.jobs[k].row.id == id {
      if k == c.prefix + id { SamePrefix(c.prefix, id, s.jobs[k].row.id); }
    }
  }
}
