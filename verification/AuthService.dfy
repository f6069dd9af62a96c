/**
 AuthService: what the links sent by mail do, across the token blacklist, the database and the
 session registry. Instants are given in the order the calls read the clock; `evicts` is false when
 Redis fails the cache eviction that follows a database write.
 */
module AuthService {
  import opened Ledger
  import opened Prelude
  import opened SessionRegistry
  import opened Tokens
  import S = SessionsService
  import V = VoteService

  datatype Status = Active | PendingVerification | Suspended

  datatype Failure = Unauthorized | UnknownUser | Forbidden | Conflict | Internal

  /** The clock at the signature check, at the blacklist read and at the blacklist write. */
  datatype Clock = Clock(signedAt: Millis, readAt: Millis, storedAt: Millis)

  predicate InOrder(c: Clock) {
    c.signedAt <= c.readAt <= c.storedAt
  }

  /** The token services are configured to expect the user's id in the token. */
  predicate ExpectsId(opts: Options) {
    "id" in opts.dataInToken
  }

  /** A token that verifies names a user and itself. */
  lemma VerifiedNames(opts: Options, db: Store, token: Token, signedAt: Millis, readAt: Millis)
    requires Verify(opts, db, token, signedAt, readAt).Ok?
    ensures var claims := Verify(opts, db, token, signedAt, readAt).value;
      && "jti" in claims.texts && Names(token, claims.texts["jti"], claims.exp)
      && (ExpectsId(opts) ==> "id" in claims.texts)
  {
    if ExpectsId(opts) {
      assert "id" in Expected(opts);
    }
  }

  /** The link never works again from this instant on. */
  ghost predicate Spent(opts: Options, blacklist: Store, token: Token, from: Millis) {
    forall t: Millis :: from <= t ==> Verify(opts, blacklist, token, t, t).Err?
  }

  lemma SpentByBlacklist(opts: Options, db: Store, token: Token, c: Clock)
    requires Verify(opts, db, token, c.signedAt, c.readAt).Ok?
    ensures var claims := Verify(opts, db, token, c.signedAt, c.readAt).value;
      && "jti" in claims.texts && (ExpectsId(opts) ==> "id" in claims.texts)
      && Spent(opts, Blacklisted(db, claims.texts["jti"], claims.exp, c.storedAt), token, c.storedAt)
  {
    var claims := Verify(opts, db, token, c.signedAt, c.readAt).value;
    VerifiedNames(opts, db, token, c.signedAt, c.readAt);
    forall t: Millis | c.storedAt <= t
      ensures Verify(opts, Blacklisted(db, claims.texts["jti"], claims.exp, c.storedAt), token, t, t).Err?
    {
      BlacklistedForGood(opts, db, claims.texts["jti"], claims.exp, c.storedAt, [], token, t);
    }
  }

  class AuthService {
    const verification: Options
    const deletion: Options
    const signOutAll: Options
    const rows: V.Services
    const sessions: S.SessionsService
    var blacklist: Store
    var status: map<User, Status>

    predicate Configured() {
      ExpectsId(verification) && ExpectsId(deletion) && ExpectsId(signOutAll)
    }

    constructor (verification: Options, deletion: Options, signOutAll: Options, rows: V.Services,
                 sessions: S.SessionsService)
      requires ExpectsId(verification) && ExpectsId(deletion) && ExpectsId(signOutAll)
      ensures Configured()
      ensures this.verification == verification && this.deletion == deletion && this.signOutAll == signOutAll
      ensures this.rows == rows && this.sessions == sessions && blacklist == map[] && status == map[]
    {
      this.verification, this.deletion, this.signOutAll := verification, deletion, signOutAll;
      this.rows, this.sessions := rows, sessions;
      blacklist, status := map[], map[];
    }

    /**
     The account is activated at most once by a link: the second time it is active, or the link is
     spent. The eviction of the saved account comes before the blacklist.
     */
    method VerifyAccount(token: Token, c: Clock, evicts: bool) returns (reply: Result<(), Failure>)
      requires Configured() && InOrder(c)
      modifies this`blacklist, this`status
      ensures var verified := Verify(verification, old(blacklist), token, c.signedAt, c.readAt);
        if verified.Err? then
          reply == Err(Unauthorized) && blacklist == old(blacklist) && status == old(status)
        else
          var texts, exp := verified.value.texts, verified.value.exp;
          && "id" in texts && "jti" in texts
          && var id := texts["id"];
          if id !in old(status) then
            reply == Err(UnknownUser) && blacklist == old(blacklist) && status == old(status)
          else if old(status)[id] != PendingVerification then
            && reply == Err(if old(status)[id] == Suspended then Forbidden else Conflict)
            && blacklist == old(blacklist) && status == old(status)
          else if !evicts then
            reply == Err(Internal) && blacklist == old(blacklist) && status == old(status)[id := Active]
          else
            && reply == Ok(()) && status == old(status)[id := Active]
            && blacklist == Blacklisted(old(blacklist), texts["jti"], exp, c.storedAt)
            && Spent(verification, blacklist, token, c.storedAt)
    {
      var verified := Verify(verification, blacklist, token, c.signedAt, c.readAt);
      if verified.Err? { return Err(Unauthorized); }
      SpentByBlacklist(verification, blacklist, token, c);
      var id := verified.value.texts["id"];
      if id !in status { return Err(UnknownUser); }
      if status[id] == Suspended { return Err(Forbidden); }
      if status[id] == Active { return Err(Conflict); }
      status := status[id := Active];
      if !evicts { return Err(Internal); }
      // A refused entry is logged, not thrown.
      blacklist := Blacklisted(blacklist, verified.value.texts["jti"], verified.value.exp, c.storedAt);
      reply := Ok(());
    }

    /**
     The link is spent before anything is deleted. Then account, content and votes go together, the
     cache entry after them, and last all sessions of the user. A counter that is zero already stops
     the deletion with the link spent; a failed eviction stops it with the account gone.
     */
    method DeleteAccount(token: Token, c: Clock, evicts: bool) returns (reply: Result<(), Failure>)
      requires Configured() && InOrder(c)
      modifies this`blacklist, this`status, rows, sessions
      ensures Sound(old(rows.Rows())) ==> Sound(rows.Rows())
      ensures var verified := Verify(deletion, old(blacklist), token, c.signedAt, c.readAt);
        if verified.Err? then
          && reply == Err(Unauthorized) && blacklist == old(blacklist) && status == old(status)
          && rows.Rows() == old(rows.Rows()) && rows.userCache == old(rows.userCache)
          && sessions.Reg() == old(sessions.Reg())
        else
          var texts, exp := verified.value.texts, verified.value.exp;
          && "id" in texts && "jti" in texts
          && blacklist == Blacklisted(old(blacklist), texts["jti"], exp, c.storedAt)
          && Spent(deletion, blacklist, token, c.storedAt)
          && var id, t, reg := texts["id"], old(rows.Rows()), old(sessions.Reg());
          if Blacklist(old(blacklist), texts["jti"], exp, c.storedAt).Err? || id !in t.users || !V.Revocable(t, id) then
            && reply == Err(if Blacklist(old(blacklist), texts["jti"], exp, c.storedAt).Ok? && id !in t.users
              then UnknownUser else Internal)
            && status == old(status)
            && rows.Rows() == t && rows.userCache == old(rows.userCache) && sessions.Reg() == reg
          else
            && rows.Rows() == DeleteUser(t, id) && status == old(status) - {id}
            && if evicts then
                 && reply == Ok(()) && rows.userCache == old(rows.userCache) - {id}
                 && sessions.Reg() == Cleared(reg, Sweeping(id, SessionsOf(reg, id)))
                 && var mine := set e | e in reg.index && e.0 == id;
                 && sessions.index == reg.index - mine
                 && sessions.records == reg.records - (set e | e in mine :: e.1)
                 && sessions.relation == reg.relation - (set e | e in mine :: e.1)
                 && forall s :: S.Dangling(sessions.Reg(), id, s)
               else
                 reply == Err(Internal) && rows.userCache == old(rows.userCache) && sessions.Reg() == reg
    {
      var verified := Verify(deletion, blacklist, token, c.signedAt, c.readAt);
      if verified.Err? { return Err(Unauthorized); }
      SpentByBlacklist(deletion, blacklist, token, c);
      var id := verified.value.texts["id"];
      var stored := Blacklist(blacklist, verified.value.texts["jti"], verified.value.exp, c.storedAt);
      if stored.Err? { return Err(Internal); }
      blacklist := stored.value;
      var deleted := rows.DeleteOne(id, evicts);
      if deleted.Err? && deleted.error != V.EvictionFailed {
        return Err(if deleted.error == V.UserNotFound then UnknownUser else Internal);
      }
      status := status - {id};
      if deleted.Err? { return Err(Internal); }
      S.SweepingSweeps(sessions.Reg(), id);
      var count := sessions.DeleteAll(id);
      reply := Ok(());
    }

    /** A mailed sign-out revokes every session of the user, and only of that user, once. */
    method SignOutAllPublic(token: Token, c: Clock) returns (reply: Result<nat, Failure>)
      requires Configured() && InOrder(c)
      modifies this`blacklist, sessions
      ensures reply.Err? ==> sessions.Reg() == old(sessions.Reg())
      ensures var verified := Verify(signOutAll, old(blacklist), token, c.signedAt, c.readAt);
        if verified.Err? then
          reply == Err(Unauthorized) && blacklist == old(blacklist)
        else
          var texts, exp := verified.value.texts, verified.value.exp;
          && "id" in texts && "jti" in texts
          && var id := texts["id"];
          if id !in rows.users then
            reply == Err(UnknownUser) && blacklist == old(blacklist)
          else
            && blacklist == Blacklisted(old(blacklist), texts["jti"], exp, c.storedAt)
            && Spent(signOutAll, blacklist, token, c.storedAt)
            && (reply.Ok? <==> Blacklist(old(blacklist), texts["jti"], exp, c.storedAt).Ok?)
            && (reply.Ok? ==>
                  && var mine := set e | e in old(sessions.index) && e.0 == id;
                  && reply.value == |mine| && sessions.index == old(sessions.index) - mine
                  && sessions.records == old(sessions.records) - (set e | e in mine :: e.1)
                  && sessions.relation == old(sessions.relation) - (set e | e in mine :: e.1)
                  && sessions.Reg() == Cleared(old(sessions.Reg()), Sweeping(id, SessionsOf(old(sessions.Reg()), id)))
                  && (forall s :: S.Dangling(sessions.Reg(), id, s))
                  && (S.IndexIsRelated(old(sessions.Reg())) ==>
                        forall u, s :: u != id ==>
                          (S.Dangling(sessions.Reg(), u, s) <==> S.Dangling(old(sessions.Reg()), u, s))))
    {
      var verified := Verify(signOutAll, blacklist, token, c.signedAt, c.readAt);
      if verified.Err? { return Err(Unauthorized); }
      SpentByBlacklist(signOutAll, blacklist, token, c);
      var id := verified.value.texts["id"];
      if id !in rows.users { return Err(UnknownUser); }
      var stored := Blacklist(blacklist, verified.value.texts["jti"], verified.value.exp, c.storedAt);
      if stored.Err? { return Err(Internal); }
      blacklist := stored.value;
      S.SweepingSweeps(sessions.Reg(), id);
      var count := sessions.DeleteAll(id);
      reply := Ok(count);
    }

    /** A new account starts with one session. */
    method SignUp(user: User, duplicate: bool, previous: Option<Sid>, sid: Sid) returns (reply: Result<User, Failure>)
      requires user !in rows.users && user !in status
      modifies this`status, rows`users, sessions
      ensures duplicate ==>
        && reply == Err(Conflict) && rows.users == old(rows.users) && status == old(status)
        && sessions.Reg() == old(sessions.Reg())
      ensures !duplicate ==>
        && reply == Ok(user) && rows.Rows() == old(rows.Rows()).(users := old(rows.users) + {user})
        && status == old(status)[user := PendingVerification]
        && sessions.Reg() == S.Started(old(sessions.Reg()), previous, user, sid)
        && sessions.records
           == (if previous.Some? then old(sessions.records) - {previous.value} else old(sessions.records))
        && sessions.relation == old(sessions.relation)[sid := user]
        && sessions.index == old(sessions.index) + {(user, sid)}
        && !S.Dangling(sessions.Reg(), user, sid)
        && (forall u, s :: s != sid ==>
              (S.Dangling(sessions.Reg(), u, s) <==> S.Dangling(old(sessions.Reg()), u, s)))
        && (Sound(old(rows.Rows())) ==> Sound(rows.Rows()))
    {
      if duplicate { return Err(Conflict); }
      ghost var t := rows.Rows();
      rows.users := rows.users + {user};
      status := status[user := PendingVerification];
      if Sound(t) { AccountSound(t, user); }
      sessions.Create(previous, sid, user);
      reply := Ok(user);
    }

    method SignIn(user: Option<User>, passwordsMatch: bool, previous: Option<Sid>, sid: Sid)
      returns (reply: Result<User, Failure>)
      modifies sessions
      ensures user.None? || !passwordsMatch ==> reply == Err(Unauthorized) && sessions.Reg() == old(sessions.Reg())
      ensures user.Some? && passwordsMatch ==>
        && (reply == Err(Forbidden) <==>
              |set e | e in old(sessions.index) && e.0 == user.value| >= sessions.maxUserSessions)
        && (reply.Err? ==> reply == Err(Forbidden) && sessions.Reg() == old(sessions.Reg()))
        && (reply.Ok? ==>
              && reply.value == user.value
              && sessions.Reg() == S.Started(old(sessions.Reg()), previous, user.value, sid)
              && sessions.records
                 == (if previous.Some? then old(sessions.records) - {previous.value} else old(sessions.records))
              && sessions.relation == old(sessions.relation)[sid := user.value]
              && sessions.index == old(sessions.index) + {(user.value, sid)}
              && !S.Dangling(sessions.Reg(), user.value, sid)
              && |set e | e in sessions.index && e.0 == user.value| <= sessions.maxUserSessions
              && forall u, s :: s != sid ==>
                   (S.Dangling(sessions.Reg(), u, s) <==> S.Dangling(old(sessions.Reg()), u, s)))
    {
      if user.None? || !passwordsMatch { return Err(Unauthorized); }
      var signedIn := sessions.SignIn(user.value, previous, sid);
      if signedIn.Err? { return Err(Forbidden); }
      reply := Ok(user.value);
    }
  }

  lemma AccountSound(t: Tables, user: User)
    requires Sound(t)
    ensures Sound(t.(users := t.users + {user}))
  {
    var t' := t.(users := t.users + {user});
    forall r | r in t'.reviews ensures ExactRow(t', r) {
      assert ExactRow(t, r);
    }
  }
}
