/**
 Sessions in Redis: the session records, the session-to-user relation and the index of each user's
 sessions. Sign-in, sign-out, sign-out-all, the expiry listener, the authentication guard and its
 clean-up run side by side; the deletes that one of them issues together reach Redis in any order,
 and each may fail.
 */
module SessionRegistry {
  import opened Prelude

  type User = string

  type Sid = string

  /** `index` holds the pairs (u, s) with s in the set of u. */
  datatype Registry = Registry(records: map<Sid, User>, relation: map<Sid, User>, index: set<(User, Sid)>)

  datatype Cmd = DelRecord(sid: Sid) | DelRelation(sid: Sid) | RemIndex(user: User, sid: Sid) | DelIndex(user: User)

  function Apply(reg: Registry, cmd: Cmd): Registry {
    match cmd
    case DelRecord(sid) => reg.(records := reg.records - {sid})
    case DelRelation(sid) => reg.(relation := reg.relation - {sid})
    case RemIndex(user, sid) => reg.(index := reg.index - {(user, sid)})
    case DelIndex(user) => reg.(index := reg.index - SessionsOf(reg, user))
  }

  /** The MULTI of `create`: relation and index entry together. */
  function Announce(reg: Registry, user: User, sid: Sid): Registry {
    reg.(relation := reg.relation[sid := user], index := reg.index + {(user, sid)})
  }

  function SessionsOf(reg: Registry, user: User): set<(User, Sid)> {
    set e | e in reg.index && e.0 == user
  }

  /** What `destroy`, `trySessionCleanup` and the listener take away, and what `deleteAll` takes away. */
  function Closing(user: User, sid: Sid): set<Cmd> {
    {DelRecord(sid), RemIndex(user, sid), DelRelation(sid)}
  }

  function Forgetting(user: User, sid: Sid): set<Cmd> {
    {DelRelation(sid), RemIndex(user, sid)}
  }

  function Sweeping(user: User, members: set<(User, Sid)>): set<Cmd> {
    (set e | e in members :: DelRecord(e.1)) + {DelIndex(user)} + (set e | e in members :: DelRelation(e.1))
  }

  /** All the commands of a set, at once. */
  function Cleared(reg: Registry, todo: set<Cmd>): Registry {
    Registry(map s | s in reg.records && DelRecord(s) !in todo :: reg.records[s],
             map s | s in reg.relation && DelRelation(s) !in todo :: reg.relation[s],
             set e | e in reg.index && RemIndex(e.0, e.1) !in todo && DelIndex(e.0) !in todo)
  }

  function ApplyAll(reg: Registry, cmds: seq<Cmd>): Registry
    decreases |cmds|
  {
    if cmds == [] then reg else ApplyAll(Apply(reg, cmds[0]), cmds[1..])
  }

  function Commands(cmds: seq<Cmd>): set<Cmd> {
    set c | c in cmds
  }

  /** The order in which concurrent deletes arrive does not matter, nor does a repeated one. */
  lemma {:induction false} AnyOrder(reg: Registry, cmds: seq<Cmd>)
    ensures ApplyAll(reg, cmds) == Cleared(reg, Commands(cmds))
    decreases |cmds|
  {
    if cmds == [] {
      assert Cleared(reg, {}) == reg;
    } else {
      AnyOrder(Apply(reg, cmds[0]), cmds[1..]);
      assert Commands(cmds) == {cmds[0]} + Commands(cmds[1..]);
      OneMore(reg, cmds[0], Commands(cmds[1..]));
    }
  }

  lemma OneMore(reg: Registry, cmd: Cmd, rest: set<Cmd>)
    ensures Cleared(Apply(reg, cmd), rest) == Cleared(reg, {cmd} + rest)
  {
  }

  // ---------------------------------------------------------- the processes

  /** A session id is made by `regenerate`; it is created once the MULTI that announces it has run. */
  datatype Stage = Pending | Created | Abandoned

  datatype Session = Session(user: User, stage: Stage)

  datatype Flow =
    | Checking(user: User)
    | Admitted(user: User)
    | Creating(user: User, sid: Sid)
    | Listing(user: User)
    | Expiring(sid: Sid)
    | Clearing(todo: set<Cmd>)
    | Guarding(user: User, sid: Sid, inIndex: Option<bool>, hasRelation: Option<bool>)

  /** `known` are all account ids ever given; `lost` the commands Redis failed; `accepted` the granted requests. */
  datatype System = System(reg: Registry, accounts: set<User>, known: set<User>, sessions: map<Sid, Session>,
                           flows: map<nat, Flow>, lost: set<Cmd>, accepted: seq<Sid>)

  datatype Event =
    | SignUp(f: nat, user: User)
    | SignIn(f: nat, user: User)
    | Count(f: nat)
    | Regenerate(f: nat, previous: Option<Sid>, sid: Sid)
    | Exec(f: nat)
    | Abort(f: nat)
    | RemoveAccount(user: User)
    | SaveRecord(sid: Sid)
    | ExpireRecord(sid: Sid)
    | Notify(f: nat, sid: Sid)
    | Lookup(f: nat)
    | Close(f: nat, sid: Sid)
    | CloseAll(f: nat, user: User)
    | ListMembers(f: nat)
    | Issue(f: nat, cmd: Cmd)
    | Lose(f: nat, cmd: Cmd)
    | Guard(f: nat, sid: Sid)
    | ReadIndex(f: nat)
    | ReadRelation(f: nat)
    | Decide(f: nat)

  /** A client can present this session: the request that makes it has ended. */
  predicate Presentable(s: System, sid: Sid) {
    sid in s.sessions && !s.sessions[sid].stage.Pending?
  }


  predicate Enabled(s: System, e: Event) {
    match e
    case SignUp(f, user) => f !in s.flows && user !in s.known
    case SignIn(f, user) => f !in s.flows && user in s.accounts
    case Count(f) => f in s.flows && s.flows[f].Checking?
    case Regenerate(f, _, sid) => f in s.flows && s.flows[f].Admitted? && sid !in s.sessions
    case Exec(f) => f in s.flows && s.flows[f].Creating?
    case Abort(f) => f in s.flows && (s.flows[f].Checking? || s.flows[f].Admitted? || s.flows[f].Creating?)
    case RemoveAccount(_) => true
    case SaveRecord(sid) => Presentable(s, sid)
    case ExpireRecord(_) => true
    case Notify(f, _) => f !in s.flows
    case Lookup(f) => f in s.flows && s.flows[f].Expiring?
    case Close(f, sid) => f !in s.flows && Presentable(s, sid)
    case CloseAll(f, _) => f !in s.flows
    case ListMembers(f) => f in s.flows && s.flows[f].Listing?
    case Issue(f, cmd) => f in s.flows && s.flows[f].Clearing? && cmd in s.flows[f].todo
    case Lose(f, cmd) => f in s.flows && s.flows[f].Clearing? && cmd in s.flows[f].todo
    case Guard(f, sid) => f !in s.flows && Presentable(s, sid)
    case ReadIndex(f) => f in s.flows && s.flows[f].Guarding? && s.flows[f].inIndex.None?
    case ReadRelation(f) => f in s.flows && s.flows[f].Guarding? && s.flows[f].hasRelation.None?
    case Decide(f) => f in s.flows && s.flows[f].Guarding? && s.flows[f].inIndex.Some? && s.flows[f].hasRelation.Some?
  }

  /** A flow with its command struck off; it ends with the last one. */
  function Struck(flows: map<nat, Flow>, f: nat, cmd: Cmd): map<nat, Flow>
    requires f in flows && flows[f].Clearing?
  {
    var rest := flows[f].todo - {cmd};
    if rest == {} then flows - {f} else flows[f := Clearing(rest)]
  }

  function Next(max: nat, s: System, e: Event): System
    requires Enabled(s, e)
  {
    match e
    case SignUp(f, user) =>
      s.(accounts := s.accounts + {user}, known := s.known + {user}, flows := s.flows[f := Admitted(user)])
    case SignIn(f, user) => s.(flows := s.flows[f := Checking(user)])
    case Count(f) =>
      var user := s.flows[f].user;
      s.(flows := if |SessionsOf(s.reg, user)| >= max then s.flows - {f} else s.flows[f := Admitted(user)])
    case Regenerate(f, previous, sid) =>
      var user := s.flows[f].user;
      s.(reg := if previous.Some? then Apply(s.reg, DelRecord(previous.value)) else s.reg,
         sessions := s.sessions[sid := Session(user, Pending)],
         flows := s.flows[f := Creating(user, sid)])
    case Exec(f) => Announced(s, f, s.flows[f].user, s.flows[f].sid)
    case Abort(f) =>
      var flow := s.flows[f];
      s.(flows := s.flows - {f},
         sessions := if flow.Creating? then s.sessions[flow.sid := Session(flow.user, Abandoned)] else s.sessions)
    case RemoveAccount(user) => s.(accounts := s.accounts - {user})
    case SaveRecord(sid) => s.(reg := s.reg.(records := s.reg.records[sid := s.sessions[sid].user]))
    case ExpireRecord(sid) => s.(reg := Apply(s.reg, DelRecord(sid)))
    case Notify(f, sid) => s.(flows := s.flows[f := Expiring(sid)])
    case Lookup(f) =>
      var sid := s.flows[f].sid;
      s.(flows := if sid in s.reg.relation
                  then s.flows[f := Clearing(Forgetting(s.reg.relation[sid], sid))] else s.flows - {f})
    case Close(f, sid) => s.(flows := s.flows[f := Clearing(Closing(s.sessions[sid].user, sid))])
    case CloseAll(f, user) => s.(flows := s.flows[f := Listing(user)])
    case ListMembers(f) =>
      var user := s.flows[f].user;
      s.(flows := s.flows[f := Clearing(Sweeping(user, SessionsOf(s.reg, user)))])
    case Issue(f, cmd) => s.(reg := Apply(s.reg, cmd), flows := Struck(s.flows, f, cmd))
    case Lose(f, cmd) => s.(lost := s.lost + {cmd}, flows := Struck(s.flows, f, cmd))
    case Guard(f, sid) =>
      var user := s.sessions[sid].user;
      s.(flows := s.flows[f := if user in s.accounts
                               then Guarding(user, sid, None, None) else Clearing(Closing(user, sid))])
    case ReadIndex(f) =>
      var flow := s.flows[f];
      s.(flows := s.flows[f := flow.(inIndex := Some((flow.user, flow.sid) in s.reg.index))])
    case ReadRelation(f) =>
      var flow := s.flows[f];
      s.(flows := s.flows[f := flow.(hasRelation := Some(flow.sid in s.reg.relation))])
    case Decide(f) =>
      var flow := s.flows[f];
      if flow.inIndex.value && flow.hasRelation.value
      then s.(flows := s.flows - {f}, accepted := s.accepted + [flow.sid])
      else s.(flows := s.flows[f := Clearing(Closing(flow.user, flow.sid))])
  }

  function Announced(s: System, f: nat, user: User, sid: Sid): System {
    s.(reg := Announce(s.reg, user, sid),
       sessions := s.sessions[sid := Session(user, Created)],
       flows := s.flows - {f})
  }

  predicate Legal(max: nat, s: System, es: seq<Event>)
    decreases |es|
  {
    es == [] || (Enabled(s, es[0]) && Legal(max, Next(max, s, es[0]), es[1..]))
  }

  function Run(max: nat, s: System, es: seq<Event>): System
    requires Legal(max, s, es)
    decreases |es|
  {
    if es == [] then s else Run(max, Next(max, s, es[0]), es[1..])
  }

  const START := System(Registry(map[], map[], {}), {}, {}, map[], map[], {}, [])

  // ---------------------------------------------------------- what runs keep

  predicate WasCreated(s: System, sid: Sid, user: User) {
    sid in s.sessions && s.sessions[sid] == Session(user, Created)
  }

  ghost predicate RegistryOk(s: System) {
    && (forall e :: e in s.reg.index ==> WasCreated(s, e.1, e.0))
    && (forall sid :: sid in s.reg.relation ==> WasCreated(s, sid, s.reg.relation[sid]))
    && (forall sid :: sid in s.sessions ==> s.sessions[sid].user in s.known)
  }

  /** A pending removal of index entry (user, sid). */
  predicate Removes(todo: set<Cmd>, user: User, sid: Sid) {
    RemIndex(user, sid) in todo || DelIndex(user) in todo
  }

  /** Whoever deletes a relation also removes the session from the index, has done so, or lost that command. */
  ghost predicate TodoOk(s: System, todo: set<Cmd>) {
    forall sid :: DelRelation(sid) in todo ==>
      && Presentable(s, sid)
      && ((s.sessions[sid].user, sid) in s.reg.index ==>
            Removes(todo, s.sessions[sid].user, sid) || Removes(s.lost, s.sessions[sid].user, sid))
  }

  ghost predicate FlowOk(s: System, flow: Flow) {
    match flow
    case Creating(user, sid) => sid in s.sessions && s.sessions[sid] == Session(user, Pending)
    case Guarding(user, sid, _, _) => Presentable(s, sid) && s.sessions[sid].user == user
    case Clearing(todo) => TodoOk(s, todo)
    case Checking(user) => user in s.known
    case Admitted(user) => user in s.known
    case Listing(_) => true
    case Expiring(_) => true
  }

  ghost predicate RemovalPending(s: System, user: User, sid: Sid) {
    exists f :: f in s.flows && s.flows[f].Clearing? && Removes(s.flows[f].todo, user, sid)
  }

  ghost predicate Explained(s: System, user: User, sid: Sid) {
    sid in s.reg.relation || RemovalPending(s, user, sid) || Removes(s.lost, user, sid)
  }

  ghost predicate SystemOk(s: System) {
    && RegistryOk(s)
    && (forall f :: f in s.flows ==> FlowOk(s, s.flows[f]))
    && (forall f, g :: f in s.flows && g in s.flows && f != g && s.flows[f].Creating? && s.flows[g].Creating? ==>
          s.flows[f].sid != s.flows[g].sid)
    && (forall e :: e in s.reg.index ==> Explained(s, e.0, e.1))
    && s.accounts <= s.known
  }

  /** The world of a session that can be presented stays as it is; new index entries are of new sessions. */
  ghost predicate Later(s: System, s': System) {
    && (forall sid :: Presentable(s, sid) ==> sid in s'.sessions && s'.sessions[sid] == s.sessions[sid])
    && (forall e :: e in s'.reg.index ==> e in s.reg.index || !Presentable(s, e.1))
    && s.lost <= s'.lost && s.known <= s'.known
  }

  lemma FlowStays(s: System, s': System, flow: Flow)
    requires FlowOk(s, flow) && Later(s, s') && !flow.Creating?
    ensures FlowOk(s', flow)
  {
  }

  lemma ExplainedStays(s: System, s': System, f: nat, user: User, sid: Sid)
    requires Explained(s, user, sid) && s.reg.relation.Keys <= s'.reg.relation.Keys && s.lost <= s'.lost
    requires forall g :: g in s.flows && g != f ==> g in s'.flows && s'.flows[g] == s.flows[g]
    requires f in s.flows ==> !s.flows[f].Clearing?
    ensures Explained(s', user, sid)
  {
    if RemovalPending(s, user, sid) {
      var g :| g in s.flows && s.flows[g].Clearing? && Removes(s.flows[g].todo, user, sid);
      assert g in s'.flows && s'.flows[g] == s.flows[g];
    }
  }

  /** One flow moves on, starts or ends; relation, index and sessions stay. */
  lemma FlowMoves(s: System, s': System, f: nat)
    requires SystemOk(s)
    requires s'.reg.index == s.reg.index && s'.reg.relation == s.reg.relation && s'.sessions == s.sessions
      && s'.lost == s.lost
    requires s.known <= s'.known && s'.accounts <= s'.known
    requires forall g :: g != f ==> (g in s'.flows <==> g in s.flows) && (g in s.flows ==> s'.flows[g] == s.flows[g])
    requires f in s.flows ==> !s.flows[f].Clearing?
    requires f in s'.flows ==> FlowOk(s', s'.flows[f]) && !s'.flows[f].Creating?
    ensures SystemOk(s')
  {
    forall g | g in s'.flows ensures FlowOk(s', s'.flows[g]) {
      if g != f && !s.flows[g].Creating? { FlowStays(s, s', s.flows[g]); }
    }
    forall e | e in s'.reg.index ensures Explained(s', e.0, e.1) {
      ExplainedStays(s, s', f, e.0, e.1);
    }
  }

  /** Nothing but records and accounts changes. */
  lemma NoFlowMoves(s: System, s': System)
    requires SystemOk(s) && s'.accounts <= s.accounts
    requires s' == s.(reg := s'.reg, accounts := s'.accounts) && s'.reg.index == s.reg.index
      && s'.reg.relation == s.reg.relation
    ensures SystemOk(s')
  {
    forall g | g in s'.flows ensures FlowOk(s', s'.flows[g]) {
      if !s.flows[g].Creating? { FlowStays(s, s', s.flows[g]); }
    }
    forall e | e in s'.reg.index ensures Explained(s', e.0, e.1) {
      assert Explained(s, e.0, e.1);
      if RemovalPending(s, e.0, e.1) {
        var g :| g in s.flows && s.flows[g].Clearing? && Removes(s.flows[g].todo, e.0, e.1);
        assert g in s'.flows && s'.flows[g] == s.flows[g];
      }
    }
  }

  lemma ClosingOk(s: System, sid: Sid)
    requires Presentable(s, sid)
    ensures TodoOk(s, Closing(s.sessions[sid].user, sid)) && TodoOk(s, Forgetting(s.sessions[sid].user, sid))
  {
  }

  lemma SweepingOk(s: System, user: User)
    requires RegistryOk(s)
    ensures TodoOk(s, Sweeping(user, SessionsOf(s.reg, user)))
  {
    forall sid | DelRelation(sid) in Sweeping(user, SessionsOf(s.reg, user))
      ensures Presentable(s, sid) && s.sessions[sid].user == user
    {
      var e :| e in SessionsOf(s.reg, user) && e.1 == sid;
      assert WasCreated(s, e.1, e.0);
    }
  }

  lemma RegenerateKeeps(max: nat, s: System, f: nat, previous: Option<Sid>, sid: Sid)
    requires SystemOk(s) && Enabled(s, Regenerate(f, previous, sid))
    ensures SystemOk(Next(max, s, Regenerate(f, previous, sid)))
  {
    var s' := Next(max, s, Regenerate(f, previous, sid));
    assert s'.reg.index == s.reg.index && s'.reg.relation == s.reg.relation;
    assert FlowOk(s, s.flows[f]);
    forall g | g in s'.flows ensures FlowOk(s', s'.flows[g]) {
      if g != f {
        assert FlowOk(s, s.flows[g]);
        if !s.flows[g].Creating? { FlowStays(s, s', s.flows[g]); }
      }
    }
    forall g | g in s.flows && g != f && s.flows[g].Creating? ensures s.flows[g].sid != sid {
      assert FlowOk(s, s.flows[g]);
    }
    forall e | e in s'.reg.index ensures Explained(s', e.0, e.1) && WasCreated(s', e.1, e.0) {
      assert WasCreated(s, e.1, e.0);
      ExplainedStays(s, s', f, e.0, e.1);
    }
  }

  lemma AbortKeeps(max: nat, s: System, f: nat)
    requires SystemOk(s) && Enabled(s, Abort(f))
    ensures SystemOk(Next(max, s, Abort(f)))
  {
    var s' := Next(max, s, Abort(f));
    assert FlowOk(s, s.flows[f]);
    forall g | g in s'.flows ensures FlowOk(s', s'.flows[g]) {
      assert FlowOk(s, s.flows[g]);
      if !s.flows[g].Creating? { FlowStays(s, s', s.flows[g]); }
    }
    forall e | e in s'.reg.index ensures Explained(s', e.0, e.1) && WasCreated(s', e.1, e.0) {
      assert WasCreated(s, e.1, e.0);
      ExplainedStays(s, s', f, e.0, e.1);
    }
  }

  lemma ExecKeeps(max: nat, s: System, f: nat)
    requires SystemOk(s) && Enabled(s, Exec(f))
    ensures SystemOk(Next(max, s, Exec(f)))
  {
    var s' := Next(max, s, Exec(f));
    assert FlowOk(s, s.flows[f]);
    forall g | g in s'.flows ensures FlowOk(s', s'.flows[g]) {
      assert FlowOk(s, s.flows[g]);
      if !s.flows[g].Creating? { FlowStays(s, s', s.flows[g]); }
    }
    forall e | e in s'.reg.index ensures Explained(s', e.0, e.1) && WasCreated(s', e.1, e.0) {
      if e in s.reg.index {
        assert WasCreated(s, e.1, e.0);
        ExplainedStays(s, s', f, e.0, e.1);
      }
    }
  }

  // -------------------------------------------------------- single deletes

  lemma StruckFlows(flows: map<nat, Flow>, f: nat, cmd: Cmd)
    requires f in flows && flows[f].Clearing?
    ensures forall g :: g != f ==>
      (g in Struck(flows, f, cmd) <==> g in flows) && (g in flows ==> Struck(flows, f, cmd)[g] == flows[g])
    ensures f in Struck(flows, f, cmd) ==> Struck(flows, f, cmd)[f] == Clearing(flows[f].todo - {cmd})
    ensures f !in Struck(flows, f, cmd) ==> flows[f].todo - {cmd} == {}
  {
  }

  /** A removal of (user, sid) that was pending is still pending, or it is the command that was struck. */
  lemma PendingStays(s: System, s': System, f: nat, cmd: Cmd, user: User, sid: Sid)
    requires f in s.flows && s.flows[f].Clearing? && s'.flows == Struck(s.flows, f, cmd)
    requires RemovalPending(s, user, sid) && cmd != RemIndex(user, sid) && cmd != DelIndex(user)
    ensures RemovalPending(s', user, sid)
  {
    var g :| g in s.flows && s.flows[g].Clearing? && Removes(s.flows[g].todo, user, sid);
    StruckFlows(s.flows, f, cmd);
    if g == f {
      assert RemIndex(user, sid) in s.flows[f].todo - {cmd} || DelIndex(user) in s.flows[f].todo - {cmd};
    }
    assert g in s'.flows && s'.flows[g].Clearing? && Removes(s'.flows[g].todo, user, sid);
  }

  lemma StruckTodoOk(s: System, s': System, todo: set<Cmd>, cmd: Cmd)
    requires TodoOk(s, todo) && Later(s, s')
    requires forall sid :: Presentable(s, sid) ==>
      var user := s.sessions[sid].user;
      (cmd == RemIndex(user, sid) || cmd == DelIndex(user)) ==> (user, sid) !in s'.reg.index || cmd in s'.lost
    ensures TodoOk(s', todo - {cmd})
  {
  }

  lemma IssueKeeps(max: nat, s: System, f: nat, cmd: Cmd)
    requires SystemOk(s) && Enabled(s, Issue(f, cmd))
    ensures SystemOk(Next(max, s, Issue(f, cmd)))
  {
    var s' := Next(max, s, Issue(f, cmd));
    StruckFlows(s.flows, f, cmd);
    assert TodoOk(s, s.flows[f].todo);
    forall g | g in s'.flows ensures FlowOk(s', s'.flows[g]) {
      if g == f {
        StruckTodoOk(s, s', s.flows[f].todo, cmd);
      } else {
        assert FlowOk(s, s.flows[g]);
        if !s.flows[g].Creating? { FlowStays(s, s', s.flows[g]); }
      }
    }
    forall e | e in s'.reg.index ensures Explained(s', e.0, e.1) {
      IssueExplains(s, s', f, cmd, e.0, e.1);
    }
  }

  lemma IssueExplains(s: System, s': System, f: nat, cmd: Cmd, user: User, sid: Sid)
    requires SystemOk(s) && Enabled(s, Issue(f, cmd))
    requires s' == s.(reg := Apply(s.reg, cmd), flows := Struck(s.flows, f, cmd))
    requires (user, sid) in s'.reg.index
    ensures Explained(s', user, sid)
  {
    assert Explained(s, user, sid) && WasCreated(s, sid, user);
    if cmd == DelRelation(sid) {
      assert TodoOk(s, s.flows[f].todo);
      if !Removes(s.lost, user, sid) {
        assert Removes(s.flows[f].todo, user, sid);
        PendingStays(s, s', f, cmd, user, sid);
      }
    } else if RemovalPending(s, user, sid) {
      PendingStays(s, s', f, cmd, user, sid);
    }
  }

  lemma LoseKeeps(max: nat, s: System, f: nat, cmd: Cmd)
    requires SystemOk(s) && Enabled(s, Lose(f, cmd))
    ensures SystemOk(Next(max, s, Lose(f, cmd)))
  {
    var s' := Next(max, s, Lose(f, cmd));
    StruckFlows(s.flows, f, cmd);
    assert TodoOk(s, s.flows[f].todo);
    forall g | g in s'.flows ensures FlowOk(s', s'.flows[g]) {
      if g == f {
        StruckTodoOk(s, s', s.flows[f].todo, cmd);
      } else {
        assert FlowOk(s, s.flows[g]);
        if !s.flows[g].Creating? { FlowStays(s, s', s.flows[g]); }
      }
    }
    forall e | e in s'.reg.index ensures Explained(s', e.0, e.1) {
      assert Explained(s, e.0, e.1);
      if RemovalPending(s, e.0, e.1) && cmd != RemIndex(e.0, e.1) && cmd != DelIndex(e.0) {
        PendingStays(s, s', f, cmd, e.0, e.1);
      }
    }
  }

  lemma GuardKeeps(max: nat, s: System, e: Event)
    requires SystemOk(s) && Enabled(s, e) && (e.Guard? || e.ReadIndex? || e.ReadRelation? || e.Decide?)
    ensures SystemOk(Next(max, s, e))
  {
    var sid := if e.Guard? then e.sid else s.flows[e.f].sid;
    assert Presentable(s, sid) by {
      if !e.Guard? { assert FlowOk(s, s.flows[e.f]); }
    }
    ClosingOk(s, sid);
    FlowMoves(s, Next(max, s, e), e.f);
  }

  lemma StartKeeps(max: nat, s: System, e: Event)
    requires SystemOk(s) && Enabled(s, e) && (e.SignUp? || e.SignIn? || e.Count? || e.Notify? || e.CloseAll?)
    ensures SystemOk(Next(max, s, e))
  {
    if e.Count? { assert FlowOk(s, s.flows[e.f]); }
    FlowMoves(s, Next(max, s, e), e.f);
  }

  lemma PlanKeeps(max: nat, s: System, e: Event)
    requires SystemOk(s) && Enabled(s, e) && (e.Lookup? || e.Close? || e.ListMembers?)
    ensures SystemOk(Next(max, s, e))
  {
    match e
    case Lookup(f) =>
      if s.flows[f].sid in s.reg.relation { ClosingOk(s, s.flows[f].sid); }
      FlowMoves(s, Next(max, s, e), f);
    case Close(f, sid) =>
      ClosingOk(s, sid);
      FlowMoves(s, Next(max, s, e), f);
    case ListMembers(f) =>
      SweepingOk(s, s.flows[f].user);
      FlowMoves(s, Next(max, s, e), f);
  }

  lemma StepKeeps(max: nat, s: System, e: Event)
    requires SystemOk(s) && Enabled(s, e)
    ensures SystemOk(Next(max, s, e))
  {
    match e
    case SignUp(_, _) => StartKeeps(max, s, e);
    case SignIn(_, _) => StartKeeps(max, s, e);
    case Count(_) => StartKeeps(max, s, e);
    case Notify(_, _) => StartKeeps(max, s, e);
    case CloseAll(_, _) => StartKeeps(max, s, e);
    case Lookup(_) => PlanKeeps(max, s, e);
    case Close(_, _) => PlanKeeps(max, s, e);
    case ListMembers(_) => PlanKeeps(max, s, e);
    case Regenerate(f, previous, sid) => RegenerateKeeps(max, s, f, previous, sid);
    case Exec(f) => ExecKeeps(max, s, f);
    case Abort(f) => AbortKeeps(max, s, f);
    case RemoveAccount(_) => NoFlowMoves(s, Next(max, s, e));
    case SaveRecord(_) => NoFlowMoves(s, Next(max, s, e));
    case ExpireRecord(_) => NoFlowMoves(s, Next(max, s, e));
    case Issue(f, cmd) => IssueKeeps(max, s, f, cmd);
    case Lose(f, cmd) => LoseKeeps(max, s, f, cmd);
    case Guard(_, _) => GuardKeeps(max, s, e);
    case ReadIndex(_) => GuardKeeps(max, s, e);
    case ReadRelation(_) => GuardKeeps(max, s, e);
    case Decide(_) => GuardKeeps(max, s, e);
  }

  lemma {:induction false} RunKeeps(max: nat, s: System, es: seq<Event>)
    requires SystemOk(s) && Legal(max, s, es)
    ensures SystemOk(Run(max, s, es))
    decreases |es|
  {
    if es != [] {
      StepKeeps(max, s, es[0]);
      RunKeeps(max, Next(max, s, es[0]), es[1..]);
    }
  }

  /**
   In every reachable state an indexed session has its relation, or a delete that will take it out
   of the index is on its way, or such a delete was lost to a Redis failure.
   */
  lemma IndexedHasRelation(max: nat, es: seq<Event>, user: User, sid: Sid)
    requires Legal(max, START, es)
    requires (user, sid) in Run(max, START, es).reg.index
    ensures var end := Run(max, START, es);
      || (sid in end.reg.relation && end.reg.relation[sid] == user)
      || RemovalPending(end, user, sid)
      || Removes(end.lost, user, sid)
  {
    RunKeeps(max, START, es);
    var end := Run(max, START, es);
    assert Explained(end, user, sid) && WasCreated(end, sid, user);
  }

  /** Without failures and with nothing in flight the index is part of the relation. */
  lemma QuietIndexIsRelated(max: nat, es: seq<Event>)
    requires Legal(max, START, es) && (forall e :: e in es ==> !e.Lose?)
    requires Run(max, START, es).flows == map[]
    ensures var reg := Run(max, START, es).reg;
      forall e :: e in reg.index ==> e.1 in reg.relation && reg.relation[e.1] == e.0
  {
    NothingLost(max, START, es);
    forall e | e in Run(max, START, es).reg.index
      ensures e.1 in Run(max, START, es).reg.relation && Run(max, START, es).reg.relation[e.1] == e.0
    {
      IndexedHasRelation(max, es, e.0, e.1);
    }
  }

  lemma {:induction false} NothingLost(max: nat, s: System, es: seq<Event>)
    requires Legal(max, s, es) && forall e :: e in es ==> !e.Lose?
    ensures Run(max, s, es).lost == s.lost
    decreases |es|
  {
    if es != [] {
      assert es[0] in es;
      NothingLost(max, Next(max, s, es[0]), es[1..]);
    }
  }

  // ------------------------------------------------------ revoked for good

  /** The dangling check fails on the session's index entry. */
  predicate Revoked(s: System, sid: Sid) {
    Presentable(s, sid) && (s.sessions[sid].user, sid) !in s.reg.index
  }

  /** Requests of the session that have already seen it in the index. */
  function Underway(s: System, sid: Sid): set<nat> {
    set f | f in s.flows && s.flows[f].Guarding? && s.flows[f].sid == sid && s.flows[f].inIndex == Some(true)
  }

  lemma UnderwayWithout(s: System, s': System, sid: Sid, f: nat)
    requires forall g :: g != f ==> (g in s'.flows <==> g in s.flows) && (g in s.flows ==> s'.flows[g] == s.flows[g])
    requires f in Underway(s', sid) ==> f in Underway(s, sid)
    ensures |Underway(s', sid)| <= |Underway(s, sid)|
    ensures f in Underway(s, sid) && f !in Underway(s', sid) ==> |Underway(s', sid)| < |Underway(s, sid)|
  {
    assert Underway(s', sid) <= Underway(s, sid);
    Shrinks(Underway(s', sid), Underway(s, sid));
    if f in Underway(s, sid) && f !in Underway(s', sid) {
      Shrinks(Underway(s', sid), Underway(s, sid) - {f});
    }
  }

  lemma {:induction false} Shrinks<T>(a: set<T>, b: set<T>)
    requires a <= b
    ensures |a| <= |b|
  {
    assert b == a + (b - a);
  }

  lemma RevokedStep(max: nat, s: System, e: Event, sid: Sid)
    requires SystemOk(s) && Enabled(s, e) && Revoked(s, sid)
    ensures Revoked(Next(max, s, e), sid)
  {
    if e.Exec? || e.Abort? { assert FlowOk(s, s.flows[e.f]); }
  }

  function FlowOf(e: Event): nat {
    match e
    case RemoveAccount(_) => 0
    case SaveRecord(_) => 0
    case ExpireRecord(_) => 0
    case _ => e.f
  }

  lemma OneFlowMoves(max: nat, s: System, e: Event)
    requires Enabled(s, e)
    ensures var s' := Next(max, s, e);
      forall g :: g != FlowOf(e) ==> (g in s'.flows <==> g in s.flows) && (g in s.flows ==> s'.flows[g] == s.flows[g])
    ensures e.RemoveAccount? || e.SaveRecord? || e.ExpireRecord? ==> Next(max, s, e).flows == s.flows
  {
  }

  /** Granting a request of a revoked session uses up one that had read the index before. */
  lemma GrantsUseUp(max: nat, s: System, e: Event, sid: Sid)
    requires SystemOk(s) && Enabled(s, e) && Revoked(s, sid)
    ensures var s' := Next(max, s, e);
      multiset(s'.accepted)[sid] + |Underway(s', sid)| <= multiset(s.accepted)[sid] + |Underway(s, sid)|
  {
    var s' := Next(max, s, e);
    OneFlowMoves(max, s, e);
    var f := FlowOf(e);
    if f in s.flows { assert FlowOk(s, s.flows[f]); }
    UnderwayWithout(s, s', sid, f);
    if s'.accepted != s.accepted {
      assert e.Decide? && s'.accepted == s.accepted + [s.flows[f].sid];
    }
  }

  /**
   A revoked session stays revoked in every later state, even when a request saves its record
   again and whatever fails; all it is still granted are requests that had already passed the
   index check.
   */
  lemma {:induction false} RevokedForGood(max: nat, s: System, es: seq<Event>, sid: Sid)
    requires SystemOk(s) && Legal(max, s, es) && Revoked(s, sid)
    ensures Revoked(Run(max, s, es), sid)
    ensures multiset(Run(max, s, es).accepted)[sid] <= multiset(s.accepted)[sid] + |Underway(s, sid)|
    decreases |es|
  {
    if es != [] {
      StepKeeps(max, s, es[0]);
      RevokedStep(max, s, es[0], sid);
      GrantsUseUp(max, s, es[0], sid);
      var s' := Next(max, s, es[0]);
      RevokedForGood(max, s', es[1..], sid);
      assert Run(max, s, es) == Run(max, s', es[1..]);
    } else {
      assert Run(max, s, es) == s;
    }
  }

  /** When `deleteAll` deletes the index, every session created by then is revoked for good, listed or not. */
  lemma SignOutAllIsForGood(max: nat, es: seq<Event>, f: nat, user: User, later: seq<Event>, sid: Sid)
    requires Legal(max, START, es)
    requires Enabled(Run(max, START, es), Issue(f, DelIndex(user)))
    requires WasCreated(Run(max, START, es), sid, user)
    requires Legal(max, Next(max, Run(max, START, es), Issue(f, DelIndex(user))), later)
    ensures var before := Run(max, START, es);
      var end := Run(max, Next(max, before, Issue(f, DelIndex(user))), later);
      Revoked(end, sid) && multiset(end.accepted)[sid] <= multiset(before.accepted)[sid] + |Underway(before, sid)|
  {
    RunKeeps(max, START, es);
    var before := Run(max, START, es);
    var after := Next(max, before, Issue(f, DelIndex(user)));
    StepKeeps(max, before, Issue(f, DelIndex(user)));
    assert Underway(after, sid) == Underway(before, sid);
    RevokedForGood(max, after, later, sid);
  }

  /** Likewise for one session, when signing out, a clean-up or the expiry listener takes it out of the index. */
  lemma SignOutIsForGood(max: nat, es: seq<Event>, f: nat, user: User, later: seq<Event>, sid: Sid)
    requires Legal(max, START, es)
    requires Enabled(Run(max, START, es), Issue(f, RemIndex(user, sid)))
    requires WasCreated(Run(max, START, es), sid, user)
    requires Legal(max, Next(max, Run(max, START, es), Issue(f, RemIndex(user, sid))), later)
    ensures var before := Run(max, START, es);
      var end := Run(max, Next(max, before, Issue(f, RemIndex(user, sid))), later);
      Revoked(end, sid) && multiset(end.accepted)[sid] <= multiset(before.accepted)[sid] + |Underway(before, sid)|
  {
    RunKeeps(max, START, es);
    var before := Run(max, START, es);
    var after := Next(max, before, Issue(f, RemIndex(user, sid)));
    StepKeeps(max, before, Issue(f, RemIndex(user, sid)));
    assert Underway(after, sid) == Underway(before, sid);
    RevokedForGood(max, after, later, sid);
  }

  // ------------------------------------------------------- deleted accounts

  /** An account that was deleted; its id is never given again. */
  predicate Deleted(s: System, user: User) {
    user in s.known && user !in s.accounts
  }

  /** Requests of the session that have found its account. */
  function Admittable(s: System, sid: Sid): set<nat> {
    set f | f in s.flows && s.flows[f].Guarding? && s.flows[f].sid == sid
  }

  lemma DeletedStep(max: nat, s: System, e: Event, user: User, sid: Sid)
    requires SystemOk(s) && Enabled(s, e) && Deleted(s, user) && Presentable(s, sid) && s.sessions[sid].user == user
    ensures var s' := Next(max, s, e);
      && Deleted(s', user) && Presentable(s', sid) && s'.sessions[sid] == s.sessions[sid]
      && multiset(s'.accepted)[sid] + |Admittable(s', sid)| <= multiset(s.accepted)[sid] + |Admittable(s, sid)|
  {
    var s' := Next(max, s, e);
    OneFlowMoves(max, s, e);
    var f := FlowOf(e);
    if f in s.flows { assert FlowOk(s, s.flows[f]); }
    OneMoreAtMost(Admittable(s', sid), Admittable(s, sid), f);
    if s'.accepted != s.accepted {
      assert e.Decide? && s'.accepted == s.accepted + [s.flows[f].sid];
    }
  }

  /**
   Once an account is deleted its sessions are granted nothing more but the requests that had found
   it, even if the session clean-up that follows fails altogether.
   */
  lemma {:induction false} DeletedForGood(max: nat, s: System, es: seq<Event>, user: User, sid: Sid)
    requires SystemOk(s) && Legal(max, s, es)
    requires Deleted(s, user) && Presentable(s, sid) && s.sessions[sid].user == user
    ensures multiset(Run(max, s, es).accepted)[sid] <= multiset(s.accepted)[sid] + |Admittable(s, sid)|
    decreases |es|
  {
    if es != [] {
      StepKeeps(max, s, es[0]);
      DeletedStep(max, s, es[0], user, sid);
      DeletedForGood(max, Next(max, s, es[0]), es[1..], user, sid);
      assert Run(max, s, es) == Run(max, Next(max, s, es[0]), es[1..]);
    } else {
      assert Run(max, s, es) == s;
    }
  }

  // ------------------------------------------------------------ session cap

  /** Sign-ins and sign-ups of the user that may still create a session, and those that surely try. */
  function InFlight(s: System, user: User): set<nat> {
    set f | f in s.flows && (s.flows[f] == Checking(user) || WillCreate(s.flows[f], user))
  }

  function WillCreateIn(s: System, user: User): set<nat> {
    set f | f in s.flows && WillCreate(s.flows[f], user)
  }

  predicate WillCreate(flow: Flow, user: User) {
    flow == Admitted(user) || (flow.Creating? && flow.user == user)
  }

  function Load(s: System, user: User): nat {
    |SessionsOf(s.reg, user)| + |WillCreateIn(s, user)|
  }

  /** An account id that was never given has no session and no one signing in. */
  lemma UnknownIsIdle(s: System, user: User)
    requires SystemOk(s) && user !in s.known
    ensures Load(s, user) == 0
  {
    forall e | e in s.reg.index ensures e.0 != user { assert WasCreated(s, e.1, e.0); }
    forall f | f in s.flows ensures !WillCreate(s.flows[f], user) { assert FlowOk(s, s.flows[f]); }
    assert SessionsOf(s.reg, user) == {} && WillCreateIn(s, user) == {};
  }

  /** Not more than k sign-ins and sign-ups of the user at any one time of the run. */
  predicate AtMost(max: nat, s: System, es: seq<Event>, user: User, k: nat)
    requires Legal(max, s, es)
    decreases |es|
  {
    |InFlight(s, user)| <= k && (es == [] || AtMost(max, Next(max, s, es[0]), es[1..], user, k))
  }

  lemma OneMoreAtMost<T>(a: set<T>, b: set<T>, x: T)
    requires forall y :: y in a && y != x ==> y in b
    ensures |a| <= |b| + 1 && (x !in a || x in b ==> |a| <= |b|) && (x !in a && x in b ==> |a| + 1 <= |b|)
  {
    Shrinks(a - {x}, b - {x});
  }

  lemma CapStep(max: nat, s: System, e: Event, user: User, k: nat)
    requires SystemOk(s) && Enabled(s, e) && max >= 1
    requires Load(s, user) <= max - 1 + k
    requires |InFlight(Next(max, s, e), user)| <= k
    ensures Load(Next(max, s, e), user) <= max - 1 + k
  {
    var s' := Next(max, s, e);
    var f := FlowOf(e);
    OneFlowMoves(max, s, e);
    var will, will' := WillCreateIn(s, user), WillCreateIn(s', user);
    Shrinks(will', InFlight(s', user));
    if e.Exec? {
      ExecLoad(max, s, f, user);
    } else {
      OneMoreAtMost(will', will, f);
      SessionsShrink(max, s, e, user);
      if e.SignUp? && e.user == user { UnknownIsIdle(s, user); }
    }
  }

  lemma SessionsShrink(max: nat, s: System, e: Event, user: User)
    requires Enabled(s, e) && !e.Exec?
    ensures |SessionsOf(Next(max, s, e).reg, user)| <= |SessionsOf(s.reg, user)|
  {
    Shrinks(SessionsOf(Next(max, s, e).reg, user), SessionsOf(s.reg, user));
  }

  lemma ExecLoad(max: nat, s: System, f: nat, user: User)
    requires SystemOk(s) && Enabled(s, Exec(f))
    ensures Load(Next(max, s, Exec(f)), user) <= Load(s, user)
  {
    var s' := Next(max, s, Exec(f));
    var own := (s.flows[f].user, s.flows[f].sid);
    assert FlowOk(s, s.flows[f]);
    OneMoreAtMost(WillCreateIn(s', user), WillCreateIn(s, user), f);
    if own.0 == user {
      assert SessionsOf(s'.reg, user) == SessionsOf(s.reg, user) + {own};
    } else {
      assert SessionsOf(s'.reg, user) == SessionsOf(s.reg, user);
    }
  }

  lemma {:induction false} CapHolds(max: nat, s: System, es: seq<Event>, user: User, k: nat)
    requires SystemOk(s) && max >= 1 && Load(s, user) <= max - 1 + k
    requires Legal(max, s, es) && AtMost(max, s, es, user, k)
    ensures Load(Run(max, s, es), user) <= max - 1 + k
    decreases |es|
  {
    if es != [] {
      StepKeeps(max, s, es[0]);
      CapStep(max, s, es[0], user, k);
      CapHolds(max, Next(max, s, es[0]), es[1..], user, k);
      assert Run(max, s, es) == Run(max, Next(max, s, es[0]), es[1..]);
    } else {
      assert Run(max, s, es) == s;
    }
  }

  /** With k sign-ins in flight at most, a user never has more than max - 1 + k sessions; one at a time, max. */
  lemma SessionCap(max: nat, es: seq<Event>, user: User, k: nat)
    requires max >= 1 && k >= 1 && Legal(max, START, es) && AtMost(max, START, es, user, k)
    ensures |SessionsOf(Run(max, START, es).reg, user)| <= max - 1 + k
  {
    UnknownIsIdle(START, user);
    CapHolds(max, START, es, user, k);
  }
}
