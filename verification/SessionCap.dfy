/**
 The session cap of SessionRegistry cannot be improved: for every maximum and every number of
 concurrent sign-ins there is a run that ends with max - 1 + k sessions.
 */
module SessionCap {
  import opened Prelude
  import opened SessionRegistry

  function Label(i: nat): (sid: Sid)
    ensures |sid| == i
  {
    seq(i, j => 's')
  }

  function Bound(user: User, n: nat): map<Sid, User> {
    if n == 0 then map[] else Bound(user, n - 1)[Label(n - 1) := user]
  }

  function Made(user: User, n: nat): (sessions: map<Sid, Session>)
    ensures forall sid :: sid in sessions ==> |sid| < n
  {
    if n == 0 then map[] else Made(user, n - 1)[Label(n - 1) := Session(user, Created)]
  }

  function Indexed(user: User, n: nat): (index: set<(User, Sid)>)
    ensures |index| == n && forall e :: e in index ==> e.0 == user && |e.1| < n
  {
    if n == 0 then {} else Indexed(user, n - 1) + {(user, Label(n - 1))}
  }

  function Range(lo: nat, hi: nat): (fs: set<nat>)
    ensures forall f :: f in fs <==> lo <= f < hi
    ensures lo <= hi ==> |fs| == hi - lo
  {
    if lo >= hi then {} else Range(lo, hi - 1) + {hi - 1}
  }

  function Queue(user: User, lo: nat, hi: nat): map<nat, Flow> {
    map f | f in Range(lo, hi) :: Admitted(user)
  }

  /** The user has n sessions, and the flows from lo to hi have passed the check. */
  function At(user: User, n: nat, lo: nat, hi: nat): System {
    System(Registry(map[], Bound(user, n), Indexed(user, n)), {user}, {user}, Made(user, n),
           Queue(user, lo, hi), {}, [])
  }

  lemma SessionsAt(user: User, n: nat, lo: nat, hi: nat)
    ensures |SessionsOf(At(user, n, lo, hi).reg, user)| == n
  {
    assert SessionsOf(At(user, n, lo, hi).reg, user) == Indexed(user, n);
  }

  /** At most `hi - lo` sign-ins are in flight in any state whose flows are among those. */
  lemma FewInFlight(s: System, user: User, lo: nat, hi: nat)
    requires lo <= hi && forall f :: f in s.flows ==> lo <= f < hi
    ensures |InFlight(s, user)| <= hi - lo
  {
    Shrinks(InFlight(s, user), Range(lo, hi));
  }

  // ------------------------------------------------------------ the states

  /** The first of the queue has a new session id. */
  function Renewed(user: User, n: nat, lo: nat, hi: nat): System {
    At(user, n, lo, hi).(sessions := Made(user, n)[Label(n) := Session(user, Pending)],
                         flows := Queue(user, lo, hi)[lo := Creating(user, Label(n))])
  }

  /** One more sign-in is about to check. */
  function Asking(user: User, n: nat, j: nat): System {
    At(user, n, 0, j).(flows := Queue(user, 0, j)[j := Checking(user)])
  }

  predicate Link(max: nat, user: User, k: nat, s: System, e: Event, s': System) {
    Enabled(s, e) && s' == Next(max, s, e) && |InFlight(s, user)| <= k
  }

  lemma RenewedLink(max: nat, user: User, k: nat, n: nat, lo: nat, hi: nat)
    requires lo < hi && hi - lo <= k
    ensures Link(max, user, k, At(user, n, lo, hi), Regenerate(lo, None, Label(n)), Renewed(user, n, lo, hi))
  {
    FewInFlight(At(user, n, lo, hi), user, lo, hi);
  }

  lemma OneSessionMore(user: User, n: nat)
    ensures Announce(Registry(map[], Bound(user, n), Indexed(user, n)), user, Label(n))
      == Registry(map[], Bound(user, n + 1), Indexed(user, n + 1))
    ensures Made(user, n)[Label(n) := Session(user, Pending)][Label(n) := Session(user, Created)] == Made(user, n + 1)
  {
  }

  lemma QueueShrinks(user: User, lo: nat, hi: nat, flow: Flow)
    requires lo < hi
    ensures Queue(user, lo, hi)[lo := flow] - {lo} == Queue(user, lo + 1, hi)
  {
    assert forall f: nat :: f in Range(lo + 1, hi) <==> f in Range(lo, hi) && f != lo;
  }

  lemma QueueGrows(user: User, hi: nat, flow: Flow)
    ensures Queue(user, 0, hi)[hi := flow][hi := Admitted(user)] == Queue(user, 0, hi + 1)
  {
    assert Range(0, hi + 1) == Range(0, hi) + {hi};
  }

  lemma CreatedLink(max: nat, user: User, k: nat, n: nat, lo: nat, hi: nat)
    requires lo < hi && hi - lo <= k
    ensures Link(max, user, k, Renewed(user, n, lo, hi), Exec(lo), At(user, n + 1, lo + 1, hi))
  {
    var s := Renewed(user, n, lo, hi);
    FewInFlight(s, user, lo, hi);
    QueueShrinks(user, lo, hi, Creating(user, Label(n)));
    OneSessionMore(user, n);
    assert s.flows[lo] == Creating(user, Label(n));
    assert Next(max, s, Exec(lo)) == Announced(s, lo, user, Label(n));
  }

  lemma AskingLink(max: nat, user: User, k: nat, n: nat, j: nat)
    requires j < k
    ensures Link(max, user, k, At(user, n, 0, j), SignIn(j, user), Asking(user, n, j))
  {
    FewInFlight(At(user, n, 0, j), user, 0, j);
  }

  lemma AdmittedLink(max: nat, user: User, k: nat, n: nat, j: nat)
    requires n < max && j < k
    ensures Link(max, user, k, Asking(user, n, j), Count(j), At(user, n, 0, j + 1))
  {
    var s := Asking(user, n, j);
    SessionsAt(user, n, 0, j);
    FewInFlight(s, user, 0, j + 1);
    QueueGrows(user, j, Checking(user));
    assert s.flows[j] == Checking(user) && SessionsOf(s.reg, user) == SessionsOf(At(user, n, 0, j).reg, user);
    assert Next(max, s, Count(j)) == s.(flows := s.flows[j := Admitted(user)]);
  }

  // -------------------------------------------------------------- the runs

  /** The steps and the states they connect, as values, so that runs can be joined without looking into them. */
  datatype Links = Links(ok: (System, Event, System) -> bool, at: (nat, nat, nat) -> System,
                         renewed: (nat, nat, nat) -> System, asking: (nat, nat) -> System)

  ghost predicate Chain(l: Links, path: seq<System>, es: seq<Event>) {
    |path| == |es| + 1 && forall i :: 0 <= i < |es| ==> Fits(l, path, es, i)
  }

  predicate Fits(l: Links, path: seq<System>, es: seq<Event>, i: nat)
    requires i < |es| < |path|
  {
    l.ok(path[i], es[i], path[i + 1])
  }

  ghost predicate Offers(l: Links, max: nat, user: User, k: nat) {
    && (forall n: nat, lo: nat, hi: nat :: lo < hi && hi - lo <= k ==> Creates(l, user, n, lo, hi))
    && (forall n: nat :: l.at(n, 1, 1) == l.at(n, 0, 0))
    && (forall n: nat, j: nat :: n < max && j < k ==> Admits(l, user, n, j))
  }

  predicate Creates(l: Links, user: User, n: nat, lo: nat, hi: nat) {
    && l.ok(l.at(n, lo, hi), Regenerate(lo, None, Label(n)), l.renewed(n, lo, hi))
    && l.ok(l.renewed(n, lo, hi), Exec(lo), l.at(n + 1, lo + 1, hi))
  }

  predicate Admits(l: Links, user: User, n: nat, j: nat) {
    && l.ok(l.at(n, 0, j), SignIn(j, user), l.asking(n, j))
    && l.ok(l.asking(n, j), Count(j), l.at(n, 0, j + 1))
  }

  lemma Join(l: Links, s: System, d: Event, m: System, e: Event, path: seq<System>, es: seq<Event>)
    requires Chain(l, path, es) && l.ok(s, d, m) && l.ok(m, e, path[0])
    ensures Chain(l, [s, m] + path, [d, e] + es)
  {
    var all, events := [s, m] + path, [d, e] + es;
    forall i | 0 <= i < |events| ensures Fits(l, all, events, i) {
      if i >= 2 { assert Fits(l, path, es, i - 2); }
    }
  }

  /** Everyone who has passed the check creates a session. */
  lemma {:induction false} CreateAll(l: Links, max: nat, user: User, n: nat, lo: nat, hi: nat, k: nat)
      returns (path: seq<System>, es: seq<Event>)
    requires Offers(l, max, user, k) && lo <= hi && hi - lo <= k
    ensures Chain(l, path, es) && path[0] == l.at(n, lo, hi) && path[|es|] == l.at(n + (hi - lo), hi, hi)
    decreases hi - lo
  {
    if lo == hi {
      path, es := [l.at(n, lo, hi)], [];
    } else {
      var path', es' := CreateAll(l, max, user, n + 1, lo + 1, hi, k);
      assert Creates(l, user, n, lo, hi);
      Join(l, l.at(n, lo, hi), Regenerate(lo, None, Label(n)), l.renewed(n, lo, hi), Exec(lo), path', es');
      path, es := [l.at(n, lo, hi), l.renewed(n, lo, hi)] + path', [Regenerate(lo, None, Label(n)), Exec(lo)] + es';
    }
  }

  /** Sign-ins pass the check one after the other before any of them creates its session. */
  lemma {:induction false} AdmitAll(l: Links, max: nat, user: User, j: nat, k: nat)
    returns (path: seq<System>, es: seq<Event>)
    requires Offers(l, max, user, k) && max >= 1 && j <= k
    ensures Chain(l, path, es) && path[0] == l.at(max - 1, 0, j) && path[|es|] == l.at(max - 1 + k, k, k)
    decreases k - j
  {
    if j == k {
      path, es := CreateAll(l, max, user, max - 1, 0, k, k);
    } else {
      var path', es' := AdmitAll(l, max, user, j + 1, k);
      assert Admits(l, user, max - 1, j);
      Join(l, l.at(max - 1, 0, j), SignIn(j, user), l.asking(max - 1, j), Count(j), path', es');
      path, es := [l.at(max - 1, 0, j), l.asking(max - 1, j)] + path', [SignIn(j, user), Count(j)] + es';
    }
  }

  /** Sign-ins one at a time up to the last free place. */
  lemma {:induction false} FillUp(l: Links, max: nat, user: User, n: nat, k: nat)
    returns (path: seq<System>, es: seq<Event>)
    requires Offers(l, max, user, k) && n < max && k >= 1
    ensures Chain(l, path, es) && path[0] == l.at(n, 0, 0) && path[|es|] == l.at(max - 1 + k, k, k)
    decreases max - n
  {
    if n == max - 1 {
      path, es := AdmitAll(l, max, user, 0, k);
    } else {
      path, es := FillUp(l, max, user, n + 1, k);
      assert Creates(l, user, n, 0, 1) && Admits(l, user, n, 0);
      Join(l, l.at(n, 0, 1), Regenerate(0, None, Label(n)), l.renewed(n, 0, 1), Exec(0), path, es);
      path, es := [l.at(n, 0, 1), l.renewed(n, 0, 1)] + path, [Regenerate(0, None, Label(n)), Exec(0)] + es;
      Join(l, l.at(n, 0, 0), SignIn(0, user), l.asking(n, 0), Count(0), path, es);
      path, es := [l.at(n, 0, 0), l.asking(n, 0)] + path, [SignIn(0, user), Count(0)] + es;
    }
  }

  function Steps(max: nat, user: User, k: nat): Links {
    Links((s, e, s') => Link(max, user, k, s, e, s'), (n: nat, lo: nat, hi: nat) => At(user, n, lo, hi),
          (n: nat, lo: nat, hi: nat) => Renewed(user, n, lo, hi), (n: nat, j: nat) => Asking(user, n, j))
  }

  lemma LinkIsStep(max: nat, user: User, k: nat, s: System, e: Event, s': System)
    requires Link(max, user, k, s, e, s')
    ensures Steps(max, user, k).ok(s, e, s')
  {
  }

  lemma RenewedStep(max: nat, user: User, k: nat, n: nat, lo: nat, hi: nat)
    requires lo < hi && hi - lo <= k
    ensures Steps(max, user, k).ok(At(user, n, lo, hi), Regenerate(lo, None, Label(n)), Renewed(user, n, lo, hi))
  {
    RenewedLink(max, user, k, n, lo, hi);
    LinkIsStep(max, user, k, At(user, n, lo, hi), Regenerate(lo, None, Label(n)), Renewed(user, n, lo, hi));
  }

  lemma CreatedStep(max: nat, user: User, k: nat, n: nat, lo: nat, hi: nat)
    requires lo < hi && hi - lo <= k
    ensures Steps(max, user, k).ok(Renewed(user, n, lo, hi), Exec(lo), At(user, n + 1, lo + 1, hi))
  {
    CreatedLink(max, user, k, n, lo, hi);
    LinkIsStep(max, user, k, Renewed(user, n, lo, hi), Exec(lo), At(user, n + 1, lo + 1, hi));
  }

  lemma AskingStep(max: nat, user: User, k: nat, n: nat, j: nat)
    requires j < k
    ensures Steps(max, user, k).ok(At(user, n, 0, j), SignIn(j, user), Asking(user, n, j))
  {
    AskingLink(max, user, k, n, j);
    LinkIsStep(max, user, k, At(user, n, 0, j), SignIn(j, user), Asking(user, n, j));
  }

  lemma AdmittedStep(max: nat, user: User, k: nat, n: nat, j: nat)
    requires n < max && j < k
    ensures Steps(max, user, k).ok(Asking(user, n, j), Count(j), At(user, n, 0, j + 1))
  {
    AdmittedLink(max, user, k, n, j);
    LinkIsStep(max, user, k, Asking(user, n, j), Count(j), At(user, n, 0, j + 1));
  }

  lemma StepsCreate(max: nat, user: User, k: nat, n: nat, lo: nat, hi: nat)
    requires lo < hi && hi - lo <= k
    ensures Creates(Steps(max, user, k), user, n, lo, hi)
  {
    RenewedStep(max, user, k, n, lo, hi);
    CreatedStep(max, user, k, n, lo, hi);
  }

  lemma StepsAdmit(max: nat, user: User, k: nat, n: nat, j: nat)
    requires n < max && j < k
    ensures Admits(Steps(max, user, k), user, n, j)
  {
    AskingStep(max, user, k, n, j);
    AdmittedStep(max, user, k, n, j);
  }

  lemma StepsOffer(max: nat, user: User, k: nat)
    ensures Offers(Steps(max, user, k), max, user, k)
  {
    forall n: nat, lo: nat, hi: nat | lo < hi && hi - lo <= k
      ensures Creates(Steps(max, user, k), user, n, lo, hi)
    {
      StepsCreate(max, user, k, n, lo, hi);
    }
    forall n: nat, j: nat | n < max && j < k
      ensures Admits(Steps(max, user, k), user, n, j)
    {
      StepsAdmit(max, user, k, n, j);
    }
  }

  lemma {:induction false} ChainRuns(max: nat, user: User, k: nat, path: seq<System>, es: seq<Event>)
    requires Chain(Steps(max, user, k), path, es) && |InFlight(path[|es|], user)| <= k
    ensures Legal(max, path[0], es) && AtMost(max, path[0], es, user, k) && Run(max, path[0], es) == path[|es|]
    decreases |es|
  {
    if es != [] {
      assert Fits(Steps(max, user, k), path, es, 0);
      forall i | 0 <= i < |es[1..]| ensures Fits(Steps(max, user, k), path[1..], es[1..], i) {
        assert Fits(Steps(max, user, k), path, es, i + 1);
      }
      ChainRuns(max, user, k, path[1..], es[1..]);
    }
  }

  /** The account exists, its sign-up gave up before creating a session. */
  lemma OpensAccount(max: nat, user: User, k: nat)
    requires k >= 1
    ensures var s1 := Next(max, START, SignUp(0, user));
      && Link(max, user, k, START, SignUp(0, user), s1)
      && Link(max, user, k, s1, Abort(0), At(user, 0, 0, 0))
  {
    var s1 := Next(max, START, SignUp(0, user));
    FewInFlight(START, user, 0, 1);
    FewInFlight(s1, user, 0, 1);
    assert Next(max, s1, Abort(0)).flows == Queue(user, 0, 0);
  }

  /** A run with at most k of the user's sign-ins in flight at a time that ends with `count` sessions. */
  ghost predicate EndsWith(max: nat, es: seq<Event>, user: User, k: nat, count: int) {
    Legal(max, START, es) && AtMost(max, START, es, user, k) && |SessionsOf(Run(max, START, es).reg, user)| == count
  }

  lemma FromStart(l: Links, max: nat, user: User, k: nat, start: System, d: Event, s1: System, e: Event)
      returns (path: seq<System>, es: seq<Event>)
    requires Offers(l, max, user, k) && max >= 1 && k >= 1
    requires l.ok(start, d, s1) && l.ok(s1, e, l.at(0, 0, 0))
    ensures Chain(l, path, es) && path[0] == start && path[|es|] == l.at(max - 1 + k, k, k)
  {
    path, es := FillUp(l, max, user, 0, k);
    Join(l, start, d, s1, e, path, es);
    path, es := [start, s1] + path, [d, e] + es;
  }

  lemma Arrived(max: nat, user: User, k: nat, path: seq<System>, es: seq<Event>, n: nat)
    requires Chain(Steps(max, user, k), path, es) && path[0] == START && path[|es|] == At(user, n, k, k)
    ensures EndsWith(max, es, user, k, n)
  {
    FewInFlight(path[|es|], user, k, k);
    ChainRuns(max, user, k, path, es);
    SessionsAt(user, n, k, k);
  }

  /** The bound of `SessionCap` is met for every max >= 1 and k >= 1. */
  lemma CapIsReached(max: nat, user: User, k: nat)
    requires max >= 1 && k >= 1
    ensures exists es, count :: count == max - 1 + k && EndsWith(max, es, user, k, count)
  {
    var l := Steps(max, user, k);
    StepsOffer(max, user, k);
    OpensAccount(max, user, k);
    var s1 := Next(max, START, SignUp(0, user));
    var path, es := FromStart(l, max, user, k, START, SignUp(0, user), s1, Abort(0));
    Arrived(max, user, k, path, es, max - 1 + k);
  }
}
