/**
 SessionsService, the expiry listener, the guard and the sign-in check, one call at a time. Deletes
 issued together are applied in some order; SessionRegistry.AnyOrder says the order is immaterial.
 */
module SessionsService {
  import opened Prelude
  import opened SessionRegistry

  const SESSION_PREFIX := "session:"

  // ------------------------------------------------------------ key parsing

  function Before(text: string, c: char): string {
    if text == [] || text[0] == c then [] else [text[0]] + Before(text[1..], c)
  }

  function Beyond(text: string, c: char): Option<string> {
    if text == [] then None else if text[0] == c then Some(text[1..]) else Beyond(text[1..], c)
  }

  /** `key.split(':').at(1)`; the empty string is falsy. */
  function SecondPart(key: string): Option<string> {
    match Beyond(key, ':')
    case None => None
    case Some(rest) => if Before(rest, ':') == [] then None else Some(Before(rest, ':'))
  }

  lemma {:induction false} BeforeWhole(text: string, c: char)
    ensures Before(text, c) == text <==> c !in text
    ensures |Before(text, c)| <= |text|
  {
    if text != [] {
      BeforeWhole(text[1..], c);
      assert text == [text[0]] + text[1..];
    }
  }

  lemma {:induction false} BeyondFirst(head: string, c: char, rest: string)
    requires c !in head
    ensures Beyond(head + [c] + rest, c) == Some(rest)
  {
    var text := head + [c] + rest;
    if head == [] {
      assert text[1..] == rest;
    } else {
      BeyondFirst(head[1..], c, rest);
      assert text[1..] == head[1..] + [c] + rest;
    }
  }

  lemma {:induction false} BeforeFirst(head: string, c: char, rest: string)
    requires c !in head
    ensures Before(head + [c] + rest, c) == head
    ensures Before(head, c) == head && Beyond(head, c) == None
  {
    var text := head + [c] + rest;
    if head != [] {
      BeforeFirst(head[1..], c, rest);
      assert text[1..] == head[1..] + [c] + rest;
      assert head == [head[0]] + head[1..];
    }
  }

  /** What lies between the first colon and the next, or the end; nothing if there is no colon or nothing there. */
  lemma SecondPartIs(first: string, second: string, rest: string)
    requires ':' !in first && ':' !in second
    ensures SecondPart(first) == None
    ensures SecondPart(first + [':'] + second) == if second == [] then None else Some(second)
    ensures SecondPart(first + [':'] + (second + [':'] + rest)) == if second == [] then None else Some(second)
  {
    BeforeFirst(first, ':', second);
    BeyondFirst(first, ':', second);
    BeyondFirst(first, ':', second + [':'] + rest);
    BeforeFirst(second, ':', rest);
  }

  /** The listener recovers exactly the ids that are not empty and hold no colon. */
  lemma SidOfSessionKey(sid: Sid)
    ensures SecondPart(SESSION_PREFIX + sid) == Some(sid) <==> sid != [] && ':' !in sid
  {
    BeyondFirst("session", ':', sid);
    assert SESSION_PREFIX + sid == "session" + [':'] + sid;
    BeforeWhole(sid, ':');
  }

  // ------------------------------------------------------------ dangling

  predicate Dangling(reg: Registry, user: User, sid: Sid) {
    (user, sid) !in reg.index || sid !in reg.relation
  }

  /** `create`: the session of the request is regenerated, the new one announced. */
  function Started(reg: Registry, previous: Option<Sid>, user: User, sid: Sid): Registry {
    Announce(if previous.Some? then Apply(reg, DelRecord(previous.value)) else reg, user, sid)
  }

  ghost predicate IndexIsRelated(reg: Registry) {
    forall e :: e in reg.index ==> e.1 in reg.relation && reg.relation[e.1] == e.0
  }

  /** Closing a session makes it dangling and leaves every other session as it is. */
  lemma ClosingCloses(reg: Registry, user: User, sid: Sid)
    ensures var after := Cleared(reg, Closing(user, sid));
      && after == Registry(reg.records - {sid}, reg.relation - {sid}, reg.index - {(user, sid)})
      && Dangling(after, user, sid)
      && (IndexIsRelated(reg) && (sid in reg.relation ==> reg.relation[sid] == user) ==> IndexIsRelated(after))
      && forall u, s :: s != sid ==> (Dangling(after, u, s) <==> Dangling(reg, u, s))
  {
  }

  /** What the listener does for an expired session: record aside, the same. */
  lemma ForgettingForgets(reg: Registry, sid: Sid)
    requires sid in reg.relation
    ensures var user := reg.relation[sid];
      var after := Cleared(reg, Forgetting(user, sid));
      && after == Registry(reg.records, reg.relation - {sid}, reg.index - {(user, sid)})
      && (IndexIsRelated(reg) ==> IndexIsRelated(after) && forall u :: (u, sid) !in after.index)
  {
  }

  function Listed(reg: Registry, user: User): set<Sid> {
    set e | e in SessionsOf(reg, user) :: e.1
  }

  /** Sweeping makes all sessions of the user dangling and, where the index is related, no one else's. */
  lemma SweepingSweeps(reg: Registry, user: User)
    ensures var after := Cleared(reg, Sweeping(user, SessionsOf(reg, user)));
      && (forall s :: Dangling(after, user, s))
      && after.records == reg.records - Listed(reg, user) && after.relation == reg.relation - Listed(reg, user)
      && after.index == reg.index - SessionsOf(reg, user)
      && (IndexIsRelated(reg) ==> IndexIsRelated(after))
      && (IndexIsRelated(reg) ==> forall u, s :: u != user ==> (Dangling(after, u, s) <==> Dangling(reg, u, s)))
  {
    var todo := Sweeping(user, SessionsOf(reg, user));
    var after := Cleared(reg, todo);
    assert after.records == reg.records - Listed(reg, user) && after.relation == reg.relation - Listed(reg, user);
    forall s | s in Listed(reg, user) ensures (user, s) in reg.index {
      var e :| e in SessionsOf(reg, user) && e.1 == s;
    }
  }

  datatype AuthError = Unauthorized | Forbidden | NotImplemented | InvalidKey

  /** The session of a request: its id, and the user its data names. */
  datatype Presented = Presented(sid: Sid, user: Option<User>)

  class SessionsService {
    const maxUserSessions: nat
    var records: map<Sid, User>
    var relation: map<Sid, User>
    var index: set<(User, Sid)>

    function Reg(): Registry
      reads this
    {
      Registry(records, relation, index)
    }

    constructor (maxUserSessions: nat)
      ensures Reg() == START.reg && this.maxUserSessions == maxUserSessions
    {
      this.maxUserSessions := maxUserSessions;
      records, relation, index := map[], map[], {};
    }

    // --------------------------------------------------- RedisClientAdapter

    method Send(cmd: Cmd)
      modifies this`records, this`relation, this`index
      ensures Reg() == Apply(old(Reg()), cmd)
    {
      match cmd
      case DelRecord(sid) => records := records - {sid};
      case DelRelation(sid) => relation := relation - {sid};
      case RemIndex(user, sid) => index := index - {(user, sid)};
      case DelIndex(user) => index := index - SessionsOf(Reg(), user);
    }

    /** Commands awaited together. */
    method SendAll(cmds: seq<Cmd>)
      modifies this`records, this`relation, this`index
      ensures Reg() == Cleared(old(Reg()), Commands(cmds))
    {
      ghost var start := Reg();
      assert Cleared(start, Commands(cmds[..0])) == start;
      for i := 0 to |cmds|
        invariant Reg() == Cleared(start, Commands(cmds[..i]))
      {
        ghost var before := Reg();
        Send(cmds[i]);
        OneLast(start, cmds, i);
      }
      assert cmds[..|cmds|] == cmds;
    }

    method SetMembers(userId: User) returns (ids: seq<Sid>)
      ensures forall s :: s in ids <==> (userId, s) in index
      ensures |ids| == |SessionsOf(Reg(), userId)|
    {
      var rest := SessionsOf(Reg(), userId);
      ghost var all := rest;
      ids := [];
      while rest != {}
        invariant rest <= all
        invariant forall s :: s in ids <==> (userId, s) in all - rest
        invariant |ids| + |rest| == |all|
      {
        var e :| e in rest;
        ids := ids + [e.1];
        rest := rest - {e};
      }
    }

    // ------------------------------------------------------ SessionsService

    method Create(previous: Option<Sid>, sid: Sid, userId: User)
      modifies this`records, this`relation, this`index
      ensures Reg() == Started(old(Reg()), previous, userId, sid)
      ensures records == if previous.Some? then old(records) - {previous.value} else old(records)
      ensures relation == old(relation)[sid := userId] && index == old(index) + {(userId, sid)}
      ensures !Dangling(Reg(), userId, sid)
      ensures forall u, s :: s != sid ==> (Dangling(Reg(), u, s) <==> Dangling(old(Reg()), u, s))
    {
      if previous.Some? { Send(DelRecord(previous.value)); }
      relation := relation[sid := userId];
      index := index + {(userId, sid)};
    }

    method Destroy(userId: User, sessionId: Sid)
      modifies this`records, this`relation, this`index
      ensures Reg() == Cleared(old(Reg()), Closing(userId, sessionId))
      ensures records == old(records) - {sessionId} && relation == old(relation) - {sessionId}
      ensures index == old(index) - {(userId, sessionId)}
    {
      ClosingCloses(Reg(), userId, sessionId);
      SendAll([DelRecord(sessionId), RemIndex(userId, sessionId), DelRelation(sessionId)]);
      assert Commands([DelRecord(sessionId), RemIndex(userId, sessionId), DelRelation(sessionId)])
        == Closing(userId, sessionId);
    }

    method TrySessionCleanup(userId: User, sessId: Sid)
      modifies this`records, this`relation, this`index
      ensures Reg() == Cleared(old(Reg()), Closing(userId, sessId))
      ensures records == old(records) - {sessId} && relation == old(relation) - {sessId}
      ensures index == old(index) - {(userId, sessId)}
    {
      ClosingCloses(Reg(), userId, sessId);
      var cmds := [DelRecord(sessId), DelRecord(sessId), DelRelation(sessId), RemIndex(userId, sessId)];
      SendAll(cmds);
      assert Commands(cmds) == Closing(userId, sessId);
    }

    method DeleteAll(userId: User) returns (count: nat)
      modifies this`records, this`relation, this`index
      ensures Reg() == Cleared(old(Reg()), Sweeping(userId, SessionsOf(old(Reg()), userId)))
      ensures var mine := set e | e in old(index) && e.0 == userId;
        && count == |mine| && index == old(index) - mine
        && records == old(records) - (set e | e in mine :: e.1)
        && relation == old(relation) - (set e | e in mine :: e.1)
    {
      SweepingSweeps(Reg(), userId);
      var ids := SetMembers(userId);
      var cmds := seq(|ids|, i requires 0 <= i < |ids| => DelRecord(ids[i])) + [DelIndex(userId)]
        + seq(|ids|, i requires 0 <= i < |ids| => DelRelation(ids[i]));
      SweepingCommands(Reg(), userId, ids, cmds);
      SendAll(cmds);
      count := |ids|;
    }

    method DestroyAll(userId: User, sessionId: Sid) returns (count: nat)
      modifies this`records, this`relation, this`index
      ensures Reg() == Cleared(old(Reg()), Sweeping(userId, SessionsOf(old(Reg()), userId)) + {DelRecord(sessionId)})
      ensures var mine := set e | e in old(index) && e.0 == userId;
        && count == |mine| && index == old(index) - mine
        && records == old(records) - (set e | e in mine :: e.1) - {sessionId}
        && relation == old(relation) - (set e | e in mine :: e.1)
    {
      ghost var start := Reg();
      count := DeleteAll(userId);
      Send(DelRecord(sessionId));
      Also(start, Sweeping(userId, SessionsOf(start, userId)), DelRecord(sessionId));
    }

    method Count(userId: User) returns (n: nat)
      ensures n == |SessionsOf(Reg(), userId)|
    {
      n := |SessionsOf(Reg(), userId)|;
    }

    method IsDangling(userId: User, sessId: Sid) returns (dangling: bool)
      ensures dangling <==> (userId, sessId) !in index || sessId !in relation
    {
      dangling := false;
      var sessInIndex := (userId, sessId) in index;
      var sessRelationExists := sessId in relation;
      if !sessInIndex { dangling := true; }
      if !sessRelationExists { dangling := true; }
    }

    // ------------------------------------------------------- SessionsEvents

    method HandleRemovedSession(key: string) returns (reply: Result<(), AuthError>)
      modifies this`records, this`relation, this`index
      ensures !("session" <= key) ==> reply == Ok(()) && Reg() == old(Reg())
      ensures "session" <= key ==>
        if SecondPart(key).None? then reply == Err(InvalidKey) && Reg() == old(Reg())
        else
          var sid := SecondPart(key).value;
          && reply == Ok(())
          && records == old(records) && relation == old(relation) - {sid}
          && index == (if sid in old(relation) then old(index) - {(old(relation)[sid], sid)} else old(index))
          && Reg() == (if sid in old(relation)
                       then Cleared(old(Reg()), Forgetting(old(relation)[sid], sid)) else old(Reg()))
    {
      if !("session" <= key) { return Ok(()); }
      var sessionId := SecondPart(key);
      if sessionId.None? { return Err(InvalidKey); }
      var sid := sessionId.value;
      if sid in relation {
        var cmds := [DelRelation(sid), RemIndex(relation[sid], sid)];
        assert Commands(cmds) == Forgetting(relation[sid], sid);
        ForgettingForgets(Reg(), sid);
        SendAll(cmds);
      }
      reply := Ok(());
    }

    // ------------------------------------------------------------ AuthGuard

    /** Access is granted exactly to existing accounts whose session is in index and relation. */
    method CanActivate(isPublic: bool, isGraphql: bool, session: Option<Presented>, accounts: set<User>)
      returns (reply: Result<Option<User>, AuthError>)
      modifies this`records, this`relation, this`index
      ensures isPublic ==> reply == Ok(None) && Reg() == old(Reg())
      ensures !isPublic && !isGraphql ==> reply == Err(NotImplemented) && Reg() == old(Reg())
      ensures !isPublic && isGraphql ==>
        if session.None? || session.value.user.None? || session.value.user.value == "" then
          reply == Err(Unauthorized) && Reg() == old(Reg())
        else
          var user, sid := session.value.user.value, session.value.sid;
          if user in accounts && (user, sid) in old(index) && sid in old(relation) then
            reply == Ok(Some(user)) && Reg() == old(Reg())
          else
            && reply == Err(Unauthorized)
            && records == old(records) - {sid} && relation == old(relation) - {sid}
            && index == old(index) - {(user, sid)}
    {
      if isPublic { return Ok(None); }
      if !isGraphql { return Err(NotImplemented); }
      if session.None? || session.value.user.None? || session.value.user.value == "" { return Err(Unauthorized); }
      var user, sid := session.value.user.value, session.value.sid;
      if user !in accounts {
        TrySessionCleanup(user, sid);
        return Err(Unauthorized);
      }
      var isDanglingSession := IsDangling(user, sid);
      if isDanglingSession {
        TrySessionCleanup(user, sid);
        return Err(Unauthorized);
      }
      reply := Ok(Some(user));
    }

    // ---------------------------------------------------------- AuthService

    /** The part of `signIn` after the password check. One call at a time, the cap holds. */
    method SignIn(user: User, previous: Option<Sid>, sid: Sid) returns (reply: Result<(), AuthError>)
      modifies this`records, this`relation, this`index
      ensures reply.Err? <==> |set e | e in old(index) && e.0 == user| >= maxUserSessions
      ensures reply.Err? ==> reply == Err(Forbidden) && Reg() == old(Reg())
      ensures reply.Ok? ==>
        && Reg() == Started(old(Reg()), previous, user, sid)
        && records == (if previous.Some? then old(records) - {previous.value} else old(records))
        && relation == old(relation)[sid := user] && index == old(index) + {(user, sid)}
        && !Dangling(Reg(), user, sid) && |set e | e in index && e.0 == user| <= maxUserSessions
        && forall u, s :: s != sid ==> (Dangling(Reg(), u, s) <==> Dangling(old(Reg()), u, s))
    {
      var sessions := Count(user);
      if sessions >= maxUserSessions { return Err(Forbidden); }
      ghost var start := Reg();
      Create(previous, sid, user);
      assert SessionsOf(Reg(), user) == SessionsOf(start, user) + {(user, sid)};
      reply := Ok(());
    }
  }

  lemma OneLast(reg: Registry, cmds: seq<Cmd>, i: nat)
    requires i < |cmds|
    ensures Apply(Cleared(reg, Commands(cmds[..i])), cmds[i]) == Cleared(reg, Commands(cmds[..i + 1]))
  {
    assert cmds[..i + 1] == cmds[..i] + [cmds[i]];
    assert Commands(cmds[..i + 1]) == Commands(cmds[..i]) + {cmds[i]};
    Also(reg, Commands(cmds[..i]), cmds[i]);
  }

  lemma Also(reg: Registry, todo: set<Cmd>, cmd: Cmd)
    ensures Apply(Cleared(reg, todo), cmd) == Cleared(reg, todo + {cmd})
  {
  }

  lemma SweepingCommands(reg: Registry, user: User, ids: seq<Sid>, cmds: seq<Cmd>)
    requires forall s :: s in ids <==> (user, s) in reg.index
    requires cmds == seq(|ids|, i requires 0 <= i < |ids| => DelRecord(ids[i])) + [DelIndex(user)]
      + seq(|ids|, i requires 0 <= i < |ids| => DelRelation(ids[i]))
    ensures Commands(cmds) == Sweeping(user, SessionsOf(reg, user))
  {
    var todo := Sweeping(user, SessionsOf(reg, user));
    forall c | c in cmds ensures c in todo {
      var i :| 0 <= i < |cmds| && cmds[i] == c;
      if i < |ids| { assert (user, ids[i]) in SessionsOf(reg, user); }
      if i > |ids| { assert ids[i - |ids| - 1] in ids && (user, ids[i - |ids| - 1]) in SessionsOf(reg, user); }
    }
    forall c | c in todo ensures c in cmds {
      if c == DelIndex(user) {
        assert cmds[|ids|] == c;
      } else {
        var e :| e in SessionsOf(reg, user) && (c == DelRecord(e.1) || c == DelRelation(e.1));
        var i :| 0 <= i < |ids| && ids[i] == e.1;
        assert cmds[i] == DelRecord(e.1) && cmds[|ids| + 1 + i] == DelRelation(e.1);
      }
    }
  }
}
