/**
 That votes go through: what the advisory try-lock answers, which changes can run, and that a
 transaction nobody stands in the way of ends in exactly the change it was asked for.
 */
module VoteRuns {
  import opened Prelude
  import opened Ledger
  import opened VoteTransactions

  /** The key of a (user, review) pair. */
  function KeyOf(hash: string -> int, user: Id, review: Id): int {
    hash(user + "-" + review)
  }

  /** Some other open transaction has a lock with this key. */
  ghost predicate Taken(hash: string -> int, s: System, t: TxId, key: int) {
    exists o :: o in s.open && o != t && s.open[o].holdsLock && hash(s.open[o].user + "-" + s.open[o].review) == key
  }

  /**
   The try-lock answers at once: a free key is taken and the transaction goes on to look for the old
   vote; with a taken key it is done and has written nothing. Nothing else changes.
   */
  lemma TryLockAnswers(hash: string -> int, s: System, t: TxId, pick: Id)
    requires SystemOk(hash, s) && t in s.open && s.open[t].pc.TryLock?
    ensures Enabled(s, Advance(t, pick))
    ensures var s', tx := Next(hash, s, Advance(t, pick)), s.open[t];
      && s'.db == s.db && s'.log == s.log && s'.open - {t} == s.open - {t}
      && t in s'.open
      && s'.open[t].user == tx.user && s'.open[t].review == tx.review && s'.open[t].request == tx.request
      && NoWrites(s'.open[t])
      && if Taken(hash, s, t, hash(tx.user + "-" + tx.review))
         then s'.open[t].pc.Ready? && !s'.open[t].holdsLock
         else s'.open[t].pc.Find? && s'.open[t].holdsLock
  {
    assert LockFree(hash, s, t) <==> !Taken(hash, s, t, hash(s.open[t].user + "-" + s.open[t].review));
  }

  // ------------------------------------------------------------- solo runs

  /** Nobody else has the pair's key or the review's row. */
  ghost predicate Unopposed(hash: string -> int, s: System, t: TxId, user: Id, review: Id) {
    && !Taken(hash, s, t, hash(user + "-" + review))
    && forall o :: o in s.open && o != t && s.open[o].row.Some? ==> s.open[o].review != review
  }

  ghost predicate OnlyOf(t: TxId, es: seq<Event>) {
    forall e :: e in es ==> (e.Begin? || e.Advance? || e.Commit?) && e.t == t
  }

  /** On its way to a change: not a loser, its account and review exist, its new row has the given id. */
  ghost predicate OnTrack(s: System, tx: Tx, newId: Id) {
    && (tx.holdsLock || tx.pc.Exists? || tx.pc.TryLock?)
    && tx.user in s.db.users && tx.review in s.db.reviews
    && (if tx.inserted.Some? then tx.inserted.value.id == newId else NewVoteId(s, newId))
  }

  /** What the request changes when it goes through. */
  ghost function Asked(db: Tables, request: Request, user: Id, review: Id, newId: Id): Op {
    match request
    case Withdraw => WithdrawOp(user, review)
    case Cast(action) => CastOp(user, review, action, if HasVoted(db, user, review, action) then "" else newId)
  }

  lemma AskedIsOp(s: System, tx: Tx, newId: Id)
    requires Sound(s.db) && TxOk(s.db, tx) && tx.pc.Ready? && OnTrack(s, tx, newId)
    ensures OpOf(tx) == Asked(s.db, tx.request, tx.user, tx.review, newId)
  {
    if tx.request.Cast? {
      var action := tx.request.action;
      if tx.previous.Some? && tx.previous.value.vote.action == action {
        assert tx.previous.value.id in BallotsOf(s.db.votes, tx.user, tx.review);
      } else {
        OtherBallotOnly(s.db, tx, action);
      }
    }
  }

  lemma OtherBallotOnly(db: Tables, tx: Tx, action: VoteAction)
    requires Wrote(db, tx, action) && tx.request == Cast(action)
    ensures !HasVoted(db, tx.user, tx.review, action)
  {
  }

  lemma NobodyInTheWay(hash: string -> int, s: System, t: TxId)
    requires SystemOk(hash, s) && t in s.open && Unopposed(hash, s, t, s.open[t].user, s.open[t].review)
    ensures !Waits(s, t)
  {
    if o :| o in s.open && o != t && HeldUpBy(s, t, o) {
      WaitsOnlyForRow(hash, s, t, o);
    }
  }

  /** The row a SELECT finds, or the new id. */
  lemma Choice(s: System, tx: Tx, newId: Id) returns (pick: Id)
    requires Sound(s.db) && OnTrack(s, tx, newId)
    ensures GoodPick(s, tx, pick) || tx.inserted.Some?
    ensures tx.pc.Insert? ==> pick == newId
  {
    var mine := BallotsOf(s.db.votes, tx.user, tx.review);
    pick := newId;
    if tx.pc.Find? && mine != {} { pick :| pick in mine; }
  }

  lemma StatementStays(s: System, tx: Tx, lockFree: bool, pick: Id, newId: Id)
    requires Sound(s.db) && TxOk(s.db, tx) && OnTrack(s, tx, newId) && !tx.pc.Ready?
    requires GoodPick(s, tx, pick) && (tx.pc.Insert? ==> pick == newId) && (tx.pc.TryLock? ==> lockFree)
    requires Statement(s.db, tx, lockFree, pick).Ok?
    ensures var tx' := Statement(s.db, tx, lockFree, pick).value;
      && tx'.user == tx.user && tx'.review == tx.review && tx'.request == tx.request
      && (tx'.holdsLock || tx'.pc.TryLock?)
      && (tx'.inserted.Some? ==> tx'.inserted.value.id == newId)
      && (tx'.inserted.None? ==> tx.inserted.None?)
      && (tx'.previous.Some? ==> tx'.previous.value.id in s.db.votes || tx'.previous == tx.previous)
  {
  }

  /** One statement further, still on track and unopposed. */
  lemma OneStatement(hash: string -> int, s: System, t: TxId, pick: Id, newId: Id)
    requires SystemOk(hash, s) && t in s.open && !s.open[t].pc.Ready? && OnTrack(s, s.open[t], newId)
    requires Unopposed(hash, s, t, s.open[t].user, s.open[t].review)
    requires GoodPick(s, s.open[t], pick) && (s.open[t].pc.Insert? ==> pick == newId)
    ensures Enabled(s, Advance(t, pick))
    ensures var s' := Next(hash, s, Advance(t, pick));
      && SystemOk(hash, s') && s'.db == s.db && s'.log == s.log && s'.open - {t} == s.open - {t} && t in s'.open
      && s'.open[t].user == s.open[t].user && s'.open[t].review == s.open[t].review
      && s'.open[t].request == s.open[t].request
      && OnTrack(s', s'.open[t], newId) && Unopposed(hash, s', t, s.open[t].user, s.open[t].review)
      && StepsLeft(s'.open[t]) < StepsLeft(s.open[t])
  {
    NobodyInTheWay(hash, s, t);
    StatementKeeps(s, t, LockFree(hash, s, t), pick);
    StatementStays(s, s.open[t], LockFree(hash, s, t), pick, newId);
    AdvanceKeeps(hash, s, t, pick);
    RunningMovesOn(hash, s, t, pick);
  }

  /** An unopposed transaction completes, and commits exactly the change it was asked for. */
  lemma {:induction false} Completes(hash: string -> int, s: System, t: TxId, newId: Id) returns (es: seq<Event>)
    requires SystemOk(hash, s) && t in s.open && OnTrack(s, s.open[t], newId)
    requires Unopposed(hash, s, t, s.open[t].user, s.open[t].review)
    ensures OnlyOf(t, es) && Legal(hash, s, es)
    ensures var end, tx := Run(hash, s, es), s.open[t];
      var op := Asked(s.db, tx.request, tx.user, tx.review, newId);
      end == System(ApplyOp(s.db, op), s.open - {t}, s.log + [op])
    decreases StepsLeft(s.open[t])
  {
    if s.open[t].pc.Ready? {
      AskedIsOp(s, s.open[t], newId);
      CommitIsOneStep(s.db, s.open[t]);
      es := [Commit(t)];
      RunOne(hash, s, Commit(t));
    } else {
      var pick := Choice(s, s.open[t], newId);
      OneStatement(hash, s, t, pick, newId);
      var s' := Next(hash, s, Advance(t, pick));
      var rest := Completes(hash, s', t, newId);
      es := [Advance(t, pick)] + rest;
      RunCons(hash, s, Advance(t, pick), rest);
    }
  }

  lemma RunCons(hash: string -> int, s: System, e: Event, es: seq<Event>)
    requires Enabled(s, e) && Legal(hash, Next(hash, s, e), es)
    ensures Legal(hash, s, [e] + es) && Run(hash, s, [e] + es) == Run(hash, Next(hash, s, e), es)
  {
    assert ([e] + es)[1..] == es;
  }

  lemma RunOne(hash: string -> int, s: System, e: Event)
    requires Enabled(s, e)
    ensures Legal(hash, s, [e]) && Run(hash, s, [e]) == Next(hash, s, e)
  {
    assert [e][1..] == [];
  }

  /** From its first statement to its commit, when nobody else has the pair's key or the review's row. */
  lemma RequestGoesThrough(hash: string -> int, s: System, t: TxId, request: Request, user: Id, review: Id, newId: Id)
    returns (es: seq<Event>)
    requires SystemOk(hash, s) && t !in s.open && user in s.db.users && review in s.db.reviews && NewVoteId(s, newId)
    requires Unopposed(hash, s, t, user, review)
    ensures OnlyOf(t, es) && Legal(hash, s, es)
    ensures var op := Asked(s.db, request, user, review, newId);
      Run(hash, s, es) == System(ApplyOp(s.db, op), s.open, s.log + [op])
  {
    var s' := Next(hash, s, Begin(t, request, user, review));
    StepKeeps(hash, s, Begin(t, request, user, review));
    assert s'.open - {t} == s.open;
    var rest := Completes(hash, s', t, newId);
    es := [Begin(t, request, user, review)] + rest;
    RunCons(hash, s, Begin(t, request, user, review), rest);
  }

  /**
   A vote goes through: the transaction's own events commit it, the poll gets exactly this entry, and
   unless the user had voted this way already, the new row has the id the database gave.
   */
  lemma VoteIsCast(hash: string -> int, s: System, t: TxId, user: Id, review: Id, action: VoteAction, newId: Id)
    returns (es: seq<Event>)
    requires SystemOk(hash, s) && t !in s.open && user in s.db.users && review in s.db.reviews && NewVoteId(s, newId)
    requires forall o :: o in s.open ==>
      && (s.open[o].holdsLock ==> hash(s.open[o].user + "-" + s.open[o].review) != hash(user + "-" + review))
      && (s.open[o].row.Some? ==> s.open[o].review != review)
    ensures OnlyOf(t, es) && Legal(hash, s, es)
    ensures var end := Run(hash, s, es);
      && end.open == s.open && Sound(end.db)
      && Poll(end.db.votes) == Without(Poll(s.db.votes), user, review) + {Vote(action, user, review)}
      && if exists v :: v in s.db.votes && s.db.votes[v] == Vote(action, user, review)
         then end.db == s.db && end.log == s.log + [CastOp(user, review, action, "")]
         else
           && end.log == s.log + [CastOp(user, review, action, newId)]
           && newId in end.db.votes && end.db.votes[newId] == Vote(action, user, review)
  {
    es := RequestGoesThrough(hash, s, t, Cast(action), user, review, newId);
    CastVoteSound(s.db, user, review, action, newId);
    if v :| v in s.db.votes && s.db.votes[v] == Vote(action, user, review) {
      assert v in BallotsOf(s.db.votes, user, review);
    }
  }

  /** A withdrawal goes through likewise, and the poll loses exactly this user's entry. */
  lemma VoteIsWithdrawn(hash: string -> int, s: System, t: TxId, user: Id, review: Id, newId: Id)
    returns (es: seq<Event>)
    requires SystemOk(hash, s) && t !in s.open && user in s.db.users && review in s.db.reviews && NewVoteId(s, newId)
    requires forall o :: o in s.open ==>
      && (s.open[o].holdsLock ==> hash(s.open[o].user + "-" + s.open[o].review) != hash(user + "-" + review))
      && (s.open[o].row.Some? ==> s.open[o].review != review)
    ensures OnlyOf(t, es) && Legal(hash, s, es)
    ensures var end := Run(hash, s, es);
      && end.open == s.open && Sound(end.db) && end.log == s.log + [WithdrawOp(user, review)]
      && Poll(end.db.votes) == Without(Poll(s.db.votes), user, review)
  {
    es := RequestGoesThrough(hash, s, t, Withdraw, user, review, newId);
    WithdrawVoteSound(s.db, user, review);
  }

  /** The other changes can run: none needs more than that no open vote stands in its way. */
  lemma ChangesCanRun(hash: string -> int, s: System, user: Id, id: Id, item: Item, itemId: Id)
    requires SystemOk(hash, s)
    ensures Enabled(s, Apply(RefreshOp))
    ensures (forall t :: t in s.open ==> s.open[t].user != user && NoWrites(s.open[t])) ==>
      Enabled(s, Apply(DeleteUserOp(user)))
    ensures user !in s.db.users ==> Enabled(s, Apply(AddUserOp(user)))
    ensures id !in s.db.items && item.createdBy in s.db.users ==> Enabled(s, Apply(AddItemOp(id, item)))
    ensures user in s.db.users && id !in s.db.reviews && (forall t :: t in s.open ==> s.open[t].review != id) ==>
      Enabled(s, Apply(AddReviewOp(id, user, itemId)))
  {
    RefreshRepairs(s.db);
    forall r | r in s.db.reviews ensures !Drifted(s.db, r) {
      assert RefreshVotes(s.db) == s.db;
    }
  }

  /** What adding does to the tables: the new row, if it is allowed, and nothing else. */
  lemma AdditionsAdd(db: Tables, user: Id, id: Id, item: Item, itemId: Id)
    ensures var t := ApplyOp(db, AddUserOp(user));
      t.users == db.users + {user} && t.items == db.items && t.reviews == db.reviews && t.votes == db.votes
    ensures var t := ApplyOp(db, AddItemOp(id, item));
      t.users == db.users && t.items == db.items[id := item] && t.reviews == db.reviews && t.votes == db.votes
    ensures var t := ApplyOp(db, AddReviewOp(id, user, itemId));
      && t.users == db.users && t.items == db.items && t.votes == db.votes
      && t.reviews
         == if ReviewAllowed(db, user, itemId) then db.reviews[id := Review(user, itemId, 0, 0)] else db.reviews
  {
  }
}
