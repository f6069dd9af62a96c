/**
 What each process of SessionRegistry does when it is left alone, from its first event to its last,
 said in terms of records, relation and index.
 */
module SessionRuns {
  import opened Prelude
  import opened SessionRegistry
  import S = SessionsService

  lemma RunCons(max: nat, s: System, e: Event, es: seq<Event>)
    requires Enabled(s, e) && Legal(max, Next(max, s, e), es)
    ensures Legal(max, s, [e] + es) && Run(max, s, [e] + es) == Run(max, Next(max, s, e), es)
  {
    assert ([e] + es)[1..] == es;
  }

  lemma {:induction false} ListOf(todo: set<Cmd>) returns (cmds: seq<Cmd>)
    ensures Commands(cmds) == todo && |cmds| == |todo|
  {
    cmds := [];
    if todo != {} {
      var c :| c in todo;
      var rest := ListOf(todo - {c});
      cmds := [c] + rest;
      assert Commands(cmds) == {c} + Commands(rest);
    }
  }

  function Issues(f: nat, cmds: seq<Cmd>): (es: seq<Event>)
    ensures |es| == |cmds|
  {
    if cmds == [] then [] else [Issue(f, cmds[0])] + Issues(f, cmds[1..])
  }

  lemma FirstOnce(cmds: seq<Cmd>, todo: set<Cmd>)
    requires cmds != [] && Commands(cmds) == todo && |cmds| == |todo|
    ensures cmds[0] in todo && Commands(cmds[1..]) == todo - {cmds[0]} && |cmds[1..]| == |todo - {cmds[0]}|
  {
    assert Commands(cmds) == {cmds[0]} + Commands(cmds[1..]);
    Listed(cmds[1..]);
    Absorbed(cmds[0], Commands(cmds[1..]));
  }

  lemma Absorbed<T>(x: T, rest: set<T>)
    ensures x in rest ==> {x} + rest == rest
  {
  }

  lemma IssueOne(max: nat, s: System, f: nat, c: Cmd)
    requires f in s.flows && s.flows[f].Clearing? && c in s.flows[f].todo
    ensures var rest := s.flows[f].todo - {c};
      Next(max, s, Issue(f, c)) ==
        s.(reg := Apply(s.reg, c), flows := if rest == {} then s.flows - {f} else s.flows[f := Clearing(rest)])
    ensures Cleared(Apply(s.reg, c), s.flows[f].todo - {c}) == Cleared(s.reg, s.flows[f].todo)
  {
    OneMore(s.reg, c, s.flows[f].todo - {c});
    assert {c} + (s.flows[f].todo - {c}) == s.flows[f].todo;
  }

  lemma NothingLeft(reg: Registry)
    ensures Cleared(reg, {}) == reg
  {
  }

  lemma {:induction false} Listed(cmds: seq<Cmd>)
    ensures |Commands(cmds)| <= |cmds|
  {
    if cmds != [] {
      Listed(cmds[1..]);
      assert Commands(cmds) == {cmds[0]} + Commands(cmds[1..]);
    } else {
      assert Commands(cmds) == {};
    }
  }

  /** Deletes issued together, in any order, take away what they name, and then their process is over. */
  lemma {:induction false} IssuesClear(max: nat, s: System, f: nat, cmds: seq<Cmd>)
    requires f in s.flows && s.flows[f].Clearing? && cmds != []
    requires Commands(cmds) == s.flows[f].todo && |cmds| == |s.flows[f].todo|
    ensures Legal(max, s, Issues(f, cmds))
    ensures Run(max, s, Issues(f, cmds)) == s.(reg := Cleared(s.reg, s.flows[f].todo), flows := s.flows - {f})
    decreases |cmds|
  {
    var todo, c := s.flows[f].todo, cmds[0];
    FirstOnce(cmds, todo);
    IssueOne(max, s, f, c);
    var s' := Next(max, s, Issue(f, c));
    if |cmds| == 1 {
      NothingLeft(s'.reg);
      assert Issues(f, cmds[1..]) == [];
    } else {
      IssuesClear(max, s', f, cmds[1..]);
      assert s'.flows - {f} == s.flows - {f};
    }
    RunCons(max, s, Issue(f, c), Issues(f, cmds[1..]));
  }

  lemma ClearsAlone(max: nat, s: System, f: nat) returns (es: seq<Event>)
    requires f in s.flows && s.flows[f].Clearing? && s.flows[f].todo != {}
    ensures Legal(max, s, es)
    ensures Run(max, s, es) == s.(reg := Cleared(s.reg, s.flows[f].todo), flows := s.flows - {f})
  {
    var cmds := ListOf(s.flows[f].todo);
    IssuesClear(max, s, f, cmds);
    es := Issues(f, cmds);
  }

  /** Signing out takes away the session's record, relation and index entry, and nothing else. */
  lemma SignOutAlone(max: nat, s: System, f: nat, sid: Sid) returns (es: seq<Event>)
    requires f !in s.flows && Presentable(s, sid)
    ensures Legal(max, s, es)
    ensures var user := s.sessions[sid].user;
      Run(max, s, es)
        == s.(reg := Registry(s.reg.records - {sid}, s.reg.relation - {sid}, s.reg.index - {(user, sid)}))
  {
    var s' := Next(max, s, Close(f, sid));
    var rest := ClearsAlone(max, s', f);
    es := [Close(f, sid)] + rest;
    RunCons(max, s, Close(f, sid), rest);
    S.ClosingCloses(s.reg, s.sessions[sid].user, sid);
    assert s'.flows - {f} == s.flows;
  }

  /** Signing out everywhere takes away the user's index and the records and relations of its members. */
  lemma SignOutAllAlone(max: nat, s: System, f: nat, user: User) returns (es: seq<Event>)
    requires f !in s.flows
    ensures Legal(max, s, es)
    ensures var mine := set e | e in s.reg.index && e.0 == user;
      var sids := set e | e in mine :: e.1;
      Run(max, s, es) == s.(reg := Registry(s.reg.records - sids, s.reg.relation - sids, s.reg.index - mine))
  {
    var s1 := Next(max, s, CloseAll(f, user));
    var s2 := Next(max, s1, ListMembers(f));
    assert DelIndex(user) in s2.flows[f].todo;
    var rest := ClearsAlone(max, s2, f);
    RunCons(max, s1, ListMembers(f), rest);
    RunCons(max, s, CloseAll(f, user), [ListMembers(f)] + rest);
    es := [CloseAll(f, user)] + ([ListMembers(f)] + rest);
    S.SweepingSweeps(s.reg, user);
    assert s2.flows - {f} == s.flows;
  }

  /** The listener takes away relation and index entry of an expired session; it leaves unknown ids alone. */
  lemma ExpiryAlone(max: nat, s: System, f: nat, sid: Sid) returns (es: seq<Event>)
    requires f !in s.flows
    ensures Legal(max, s, es)
    ensures Run(max, s, es) ==
      if sid !in s.reg.relation then s
      else
        s.(reg := Registry(s.reg.records, s.reg.relation - {sid}, s.reg.index - {(s.reg.relation[sid], sid)}))
  {
    var s1 := Next(max, s, Notify(f, sid));
    var s2 := Next(max, s1, Lookup(f));
    var rest: seq<Event> := [];
    assert s2.flows - {f} == s.flows;
    if sid in s.reg.relation {
      rest := ClearsAlone(max, s2, f);
      S.ForgettingForgets(s.reg, sid);
    }
    RunCons(max, s1, Lookup(f), rest);
    RunCons(max, s, Notify(f, sid), [Lookup(f)] + rest);
    es := [Notify(f, sid)] + ([Lookup(f)] + rest);
  }

  /**
   The guard grants a request exactly if account, index entry and relation are there, and changes
   nothing then; a request it rejects loses what is left of its session.
   */
  lemma GuardAlone(max: nat, s: System, f: nat, sid: Sid) returns (es: seq<Event>)
    requires f !in s.flows && Presentable(s, sid)
    ensures Legal(max, s, es)
    ensures var user := s.sessions[sid].user;
      Run(max, s, es) ==
        if user in s.accounts && (user, sid) in s.reg.index && sid in s.reg.relation
        then s.(accepted := s.accepted + [sid])
        else s.(reg := Registry(s.reg.records - {sid}, s.reg.relation - {sid}, s.reg.index - {(user, sid)}))
  {
    var user := s.sessions[sid].user;
    var s1 := Next(max, s, Guard(f, sid));
    S.ClosingCloses(s.reg, user, sid);
    assert s1.flows - {f} == s.flows;
    var rest: seq<Event> := [];
    if user in s.accounts {
      rest := ChecksAlone(max, s1, f);
    } else {
      rest := ClearsAlone(max, s1, f);
    }
    RunCons(max, s, Guard(f, sid), rest);
    es := [Guard(f, sid)] + rest;
  }

  /** From the account look-up on: both reads, the decision, and the clean-up if it is needed. */
  lemma ChecksAlone(max: nat, s: System, f: nat) returns (es: seq<Event>)
    requires f in s.flows && s.flows[f].Guarding? && s.flows[f].inIndex.None? && s.flows[f].hasRelation.None?
    ensures Legal(max, s, es)
    ensures var user, sid := s.flows[f].user, s.flows[f].sid;
      Run(max, s, es) ==
        if (user, sid) in s.reg.index && sid in s.reg.relation
        then s.(flows := s.flows - {f}, accepted := s.accepted + [sid])
        else s.(flows := s.flows - {f}, reg := Cleared(s.reg, Closing(user, sid)))
  {
    var s1 := Next(max, s, ReadIndex(f));
    var s2 := Next(max, s1, ReadRelation(f));
    var s3 := Next(max, s2, Decide(f));
    var rest: seq<Event> := [];
    assert s1.flows - {f} == s2.flows - {f} == s3.flows - {f} == s.flows - {f};
    if f in s3.flows {
      rest := ClearsAlone(max, s3, f);
    } else {
      assert s3.flows == s.flows - {f};
    }
    RunCons(max, s2, Decide(f), rest);
    RunCons(max, s1, ReadRelation(f), [Decide(f)] + rest);
    RunCons(max, s, ReadIndex(f), [ReadRelation(f)] + ([Decide(f)] + rest));
    es := [ReadIndex(f)] + ([ReadRelation(f)] + ([Decide(f)] + rest));
  }

  /** From admission on: the old record goes, relation and index entry of the new session come. */
  lemma CreateAlone(max: nat, s: System, f: nat, previous: Option<Sid>, sid: Sid) returns (es: seq<Event>)
    requires f in s.flows && s.flows[f].Admitted? && sid !in s.sessions
    ensures Legal(max, s, es)
    ensures var user := s.flows[f].user;
      var records := if previous.Some? then s.reg.records - {previous.value} else s.reg.records;
      Run(max, s, es) ==
        s.(flows := s.flows - {f}, sessions := s.sessions[sid := Session(user, Created)],
           reg := Registry(records, s.reg.relation[sid := user], s.reg.index + {(user, sid)}))
  {
    var user := s.flows[f].user;
    var s1 := Next(max, s, Regenerate(f, previous, sid));
    var s2 := Next(max, s1, Exec(f));
    assert s1.flows - {f} == s.flows - {f};
    assert s1.sessions[sid := Session(user, Created)] == s.sessions[sid := Session(user, Created)];
    RunCons(max, s1, Exec(f), []);
    RunCons(max, s, Regenerate(f, previous, sid), [Exec(f)]);
    es := [Regenerate(f, previous, sid)] + [Exec(f)];
  }

  /** Signing in below the cap creates a session; at the cap it changes nothing. */
  lemma SignInAlone(max: nat, s: System, f: nat, user: User, previous: Option<Sid>, sid: Sid)
    returns (es: seq<Event>)
    requires f !in s.flows && user in s.accounts && sid !in s.sessions
    ensures Legal(max, s, es)
    ensures var records := if previous.Some? then s.reg.records - {previous.value} else s.reg.records;
      Run(max, s, es) ==
        if |set e | e in s.reg.index && e.0 == user| >= max then s
        else
          s.(sessions := s.sessions[sid := Session(user, Created)],
             reg := Registry(records, s.reg.relation[sid := user], s.reg.index + {(user, sid)}))
  {
    var s1 := Next(max, s, SignIn(f, user));
    var s2 := Next(max, s1, Count(f));
    assert SessionsOf(s.reg, user) == set e | e in s.reg.index && e.0 == user;
    assert s2.flows - {f} == s.flows;
    var rest: seq<Event> := [];
    if f in s2.flows {
      rest := CreateAlone(max, s2, f, previous, sid);
    }
    RunCons(max, s1, Count(f), rest);
    RunCons(max, s, SignIn(f, user), [Count(f)] + rest);
    es := [SignIn(f, user)] + ([Count(f)] + rest);
  }

  /** Signing up makes the account and its first session. */
  lemma SignUpAlone(max: nat, s: System, f: nat, user: User, previous: Option<Sid>, sid: Sid)
    returns (es: seq<Event>)
    requires f !in s.flows && user !in s.known && sid !in s.sessions
    ensures Legal(max, s, es)
    ensures var records := if previous.Some? then s.reg.records - {previous.value} else s.reg.records;
      Run(max, s, es) ==
        s.(accounts := s.accounts + {user}, known := s.known + {user},
           sessions := s.sessions[sid := Session(user, Created)],
           reg := Registry(records, s.reg.relation[sid := user], s.reg.index + {(user, sid)}))
  {
    var s1 := Next(max, s, SignUp(f, user));
    var rest := CreateAlone(max, s1, f, previous, sid);
    assert s1.flows - {f} == s.flows;
    RunCons(max, s, SignUp(f, user), rest);
    es := [SignUp(f, user)] + rest;
  }

  /** A failed delete is struck off without effect; a sign-in that gives up leaves no trace in Redis. */
  lemma FailuresDoNothing(max: nat, s: System, f: nat, cmd: Cmd)
    ensures Enabled(s, Lose(f, cmd)) ==>
      var s' := Next(max, s, Lose(f, cmd));
      s'.reg == s.reg && s'.lost == s.lost + {cmd} && s'.accepted == s.accepted && s'.flows - {f} == s.flows - {f}
    ensures Enabled(s, Abort(f)) ==>
      var s' := Next(max, s, Abort(f));
      s'.reg == s.reg && s'.accounts == s.accounts && s'.flows == s.flows - {f} && s'.accepted == s.accepted
  {
  }

  /** A saved record names the session's user, an expired one is gone, a deleted account is gone; nothing else moves. */
  lemma Environment(max: nat, s: System, sid: Sid, user: User)
    ensures Presentable(s, sid) ==>
      Enabled(s, SaveRecord(sid)) && Next(max, s, SaveRecord(sid))
        == s.(reg := Registry(s.reg.records[sid := s.sessions[sid].user], s.reg.relation, s.reg.index))
    ensures Enabled(s, ExpireRecord(sid)) && Next(max, s, ExpireRecord(sid))
      == s.(reg := Registry(s.reg.records - {sid}, s.reg.relation, s.reg.index))
    ensures Enabled(s, RemoveAccount(user)) && Next(max, s, RemoveAccount(user)) == s.(accounts := s.accounts - {user})
  {
  }
}
